/**
 Block synchronisation: a scheduler that asks peers for blocks and a processor that commits
 the blocks that arrive, two message-driven machines over one ledger that consensus advances
 as well.
 */
module Sync {
  import opened Options
  import opened Ordering

  type Peer = string

  datatype BlockState = NewBlock | PendingBlock | ReceivedBlock

  datatype Block = Block(height: nat, hash: string)

  datatype Status = Ok | DbErr | AddErr | HasProcessed | ValidateFailed

  datatype Response = Response(status: Status, height: nat, from: Peer)

  datatype ReceivedBlocks = ReceivedBlocks(blocks: seq<Block>, from: Peer)

  datatype Queued = Queued(block: Block, from: Peer)

  datatype Limits = Limits(maxPending: nat, batch: nat, reqTimeout: int, reqThreshold: int)

  datatype Scheduler = Scheduler(
    peers: map<Peer, nat>, states: map<nat, BlockState>, pendingTime: map<nat, int>, pendingBlocks: map<nat, Peer>,
    receivedBlocks: map<nat, Peer>, lastRequest: int, pendingRecvHeight: nat)

  // ---------------------------------------------------------------- the scheduler's handlers

  predicate ArchivedTooHigh(local: nat, archived: nat) {
    archived != 0 && local <= archived
  }

  function Const<T>(hs: set<nat>, v: T): map<nat, T> {
    map h | h in hs :: v
  }

  /** Heights from the next one on, as far as the peer and the pool reach, become tracked. */
  function AddPending(c: Limits, s: Scheduler, committed: nat, peerHeight: nat): Scheduler {
    if |s.states| > c.maxPending || committed >= peerHeight then s
    else s.(states := Const(Batch(s.pendingRecvHeight, peerHeight, c.maxPending), NewBlock) + s.states)
  }

  predicate Within(first: nat, count: nat, h: nat) {
    h < first + count
  }

  /** `count` heights from `first` on, no further than `last`. */
  function Batch(first: nat, last: nat, count: nat): set<nat> {
    set h | first <= h <= last && Within(first, count, h)
  }

  function HandleNodeStatus(
      c: Limits, s: Scheduler, from: Peer, height: nat, archived: nat, local: nat, committed: nat): Scheduler
  {
    if from in s.peers && (s.peers[from] > height || ArchivedTooHigh(local, archived)) then
        s.(peers := s.peers - {from})
    else if ArchivedTooHigh(local, archived) then s
    else AddPending(c, s.(peers := s.peers[from := height]), committed, height)
  }

  function Below(states: map<nat, BlockState>, committed: nat): set<nat> {
    set h | h in states && h < committed
  }

  function HandleDataDetection(s: Scheduler, committed: nat): Scheduler {
    var gone := Below(s.states, committed);
    s.(states := (s.states - gone)[committed + 1 := NewBlock], pendingBlocks := s.pendingBlocks - gone,
        pendingTime := s.pendingTime - gone,
       receivedBlocks := s.receivedBlocks - gone, pendingRecvHeight := committed + 1)
  }

  function HandleLiveness(c: Limits, s: Scheduler, committed: nat, now: int): Scheduler {
    var h := s.pendingRecvHeight;
    if h !in s.pendingTime || now - s.pendingTime[h] <= c.reqTimeout then s
    else s.(states := if committed < h then s.states[h := NewBlock] else s.states,
            peers := if h in s.pendingBlocks then s.peers - {s.pendingBlocks[h]} else s.peers - {""},
            pendingTime := s.pendingTime - {h}, pendingBlocks := s.pendingBlocks - {h})
  }

  ghost predicate NeedsSync(c: Limits, s: Scheduler, committed: nat, now: int) {
    exists p :: p in s.peers
        && (s.peers[p] > committed + 1 || (s.peers[p] == committed + 1 && now - s.lastRequest > c.reqThreshold))
  }

  ghost predicate IsLeastNew(states: map<nat, BlockState>, h: nat) {
    h in states && states[h].NewBlock? && forall k :: k in states && states[k].NewBlock? ==> h <= k
  }

  /** The least height not yet asked for. */
  ghost function NextNew(states: map<nat, BlockState>): (r: Option<nat>)
    ensures r.Some? ==> IsLeastNew(states, r.value)
    ensures r.None? ==> forall h :: h in states ==> !states[h].NewBlock?
  {
    LeastNewExists(states);
    if exists h :: IsLeastNew(states, h) then var h :| IsLeastNew(states, h); Some(h) else None
  }

  lemma LeastNewExists(states: map<nat, BlockState>)
    ensures forall h :: h in states && states[h].NewBlock? ==> exists k :: IsLeastNew(states, k)
  {
    forall h | h in states && states[h].NewBlock? ensures exists k :: IsLeastNew(states, k) {
      LeastNewBelow(states, h);
    }
  }

  lemma {:induction false} LeastNewBelow(states: map<nat, BlockState>, h: nat)
    requires h in states && states[h].NewBlock?
    ensures exists k :: IsLeastNew(states, k)
    decreases h
  {
    if !IsLeastNew(states, h) {
      var k :| k in states && states[k].NewBlock? && k < h;
      LeastNewBelow(states, k);
    }
  }

  function RequestsTo(s: Scheduler, p: Peer): set<nat> {
    set h | h in s.pendingBlocks && s.pendingBlocks[h] == p
  }

  /** Fewer requests under way, or as many and first by name. */
  predicate Prefers(s: Scheduler, p: Peer, q: Peer) {
    |RequestsTo(s, p)| < |RequestsTo(s, q)| || (|RequestsTo(s, p)| == |RequestsTo(s, q)| && LexLe(p, q))
  }

  /** The preferred one of the peers that have the block. */
  ghost predicate IsBestPeer(s: Scheduler, height: nat, p: Peer) {
    && p in s.peers && s.peers[p] >= height
    && forall q :: q in s.peers && s.peers[q] >= height ==> Prefers(s, p, q)
  }

  /** The preferred peer, or the empty name when no peer has the block. */
  ghost function SelectPeer(s: Scheduler, height: nat): (p: Peer)
    ensures p != "" ==> IsBestPeer(s, height, p)
    ensures (exists q :: q in s.peers && s.peers[q] >= height) ==> IsBestPeer(s, height, p)
  {
    BestPeerExists(s, height);
    if exists p :: IsBestPeer(s, height, p) then var p :| IsBestPeer(s, height, p); p else ""
  }

  lemma {:induction false} BestAmong(s: Scheduler, ps: set<Peer>) returns (best: Peer)
    requires ps != {}
    ensures best in ps && forall q :: q in ps ==> Prefers(s, best, q)
  {
    var p :| p in ps;
    best := p;
    LexOrder(p, p);
    if ps != {p} {
      var first := BestAmong(s, ps - {p});
      LexOrder(p, first);
      best := if Prefers(s, p, first) then p else first;
      forall q | q in ps ensures Prefers(s, best, q) {
        if q != p {
          assert q in ps - {p} && Prefers(s, first, q);
          if best == p && LexLe(p, first) && LexLe(first, q) { LexTransitive(p, first, q); }
        }
      }
    }
  }

  lemma BestPeerExists(s: Scheduler, height: nat)
    ensures forall q :: q in s.peers && s.peers[q] >= height ==> exists p :: IsBestPeer(s, height, p)
  {
    forall q | q in s.peers && s.peers[q] >= height ensures exists p :: IsBestPeer(s, height, p) {
      var ps := set p | p in s.peers && s.peers[p] >= height;
      assert q in ps;
      var best := BestAmong(s, ps);
      assert IsBestPeer(s, height, best);
    }
  }

  lemma BestPeerUnique(s: Scheduler, height: nat, p: Peer, q: Peer)
    requires IsBestPeer(s, height, p) && IsBestPeer(s, height, q)
    ensures p == q
  {
    assert Prefers(s, p, q) && Prefers(s, q, p);
    LexOrder(p, q);
  }

  /** A batch from `height` on is asked of `p`. */
  function Request(c: Limits, s: Scheduler, height: nat, p: Peer, now: int): Scheduler
    requires p in s.peers
  {
    var hs := Batch(height, s.peers[p], c.batch);
    s.(states := s.states + Const(hs, PendingBlock), pendingTime := s.pendingTime + Const(hs, now),
       pendingBlocks := s.pendingBlocks + Const(hs, p), lastRequest := now)
  }

  ghost function HandleSchedule(c: Limits, s: Scheduler, committed: nat, now: int): Scheduler {
    if !NeedsSync(c, s, committed, now) then s
    else match NextNew(s.states)
      case None => s
      case Some(h) =>
        if h < s.pendingRecvHeight then s.(states := s.states - {h})
        else
          var p := SelectPeer(s, h);
          if p == "" then s else Request(c, s, h, p, now)
  }

  function Heights(blocks: seq<Block>): set<nat> {
    set b | b in blocks :: b.height
  }

  function HandleSynced(s: Scheduler, blocks: seq<Block>, from: Peer): Scheduler {
    var hs := Heights(blocks);
    var known := hs * s.states.Keys;
    s.(pendingBlocks := s.pendingBlocks - hs, pendingTime := s.pendingTime - hs,
       states := s.states + Const(known, ReceivedBlock), receivedBlocks := s.receivedBlocks + Const(known, from))
  }

  predicate NeedsProcessing(s: Scheduler, blocks: seq<Block>) {
    Heights(blocks) * s.states.Keys != {}
  }

  function HandleResponse(s: Scheduler, r: Response): Scheduler {
    var s' := s.(receivedBlocks := s.receivedBlocks - {r.height});
    match r.status
    case Ok => Advance(s', r.height)
    case HasProcessed => Advance(s', r.height)
    case ValidateFailed => s'.(states := s.states[r.height := NewBlock], peers := s.peers - {r.from})
    case AddErr => s'.(states := s.states[r.height := NewBlock], peers := s.peers - {r.from})
    case DbErr => s'
  }

  function Advance(s: Scheduler, height: nat): Scheduler {
    s.(states := s.states - {height},
       pendingRecvHeight := if height >= s.pendingRecvHeight then height + 1 else s.pendingRecvHeight)
  }

  // ---------------------------------------------------------------- the processor's handlers

  function FirstAt(blocks: seq<Block>, height: nat): Block
    requires height in Heights(blocks)
  {
    if blocks[0].height == height then blocks[0]
    else assert blocks == [blocks[0]] + blocks[1..]; FirstAt(blocks[1..], height)
  }

  /** Blocks above the ledger that are not queued yet join the queue. */
  function HandleReceived(queue: map<nat, Queued>, m: ReceivedBlocks, committed: nat): map<nat, Queued> {
    Incoming(m.blocks, m.from, committed) + queue
  }

  function Incoming(blocks: seq<Block>, from: Peer, committed: nat): map<nat, Queued> {
    map h | h in Heights(blocks) && h > committed :: Queued(FirstAt(blocks, h), from)
  }

  datatype Outcome = Accepted | AlreadyCommitted | Refused

  /** The verdict on a block, from the ledger's height and the verifier's and committer's answers. */
  function ValidateAndCommit(committed: nat, block: Block, verified: Outcome, added: Outcome): Status {
    if committed >= block.height || verified.AlreadyCommitted? then HasProcessed
    else if verified.Refused? then ValidateFailed
    else if added.AlreadyCommitted? then HasProcessed
    else if added.Refused? then AddErr
    else Ok
  }

  predicate Success(s: Status) {
    s.Ok? || s.HasProcessed?
  }

  /** The report on the block after the ledger's last, if that block is queued. */
  function ProcessNext(
      queue: map<nat, Queued>, committed: nat, meanwhile: nat, verified: Outcome, added: Outcome): Option<Response>
  {
    if committed + 1 !in queue then None
    else
      var info := queue[committed + 1];
      Some(Response(ValidateAndCommit(meanwhile, info.block, verified, added), info.block.height, info.from))
  }

  function Stale(queue: map<nat, Queued>, committed: nat): set<nat> {
    set h | h in queue && h < committed + 1
  }

  // ---------------------------------------------------------------- the two machines and the ledger

  /** Messages between the machines wait in queues from which any may be taken next. */
  datatype System = System(
    sched: Scheduler, queue: map<nat, Queued>, processed: nat, committed: nat,
    toScheduler: seq<Response>, toProcessor: seq<ReceivedBlocks>)

  datatype Action =
    | NodeStatus(from: Peer, height: nat, archived: nat, local: nat)
    | Liveness(now: int)
    | Schedule(now: int)
    | Synced(blocks: seq<Block>, from: Peer)
    | Responded(i: nat)
    | SchedulerDetection
    | Received(i: nat)
    | Process(meanwhile: nat, verified: Outcome, added: Outcome, after: nat)
    | ProcessorDetection
    | OutsideCommit(after: nat)

  function Without<T>(s: seq<T>, i: nat): seq<T>
    requires i < |s|
  {
    s[..i] + s[i + 1..]
  }

  /** What the environment may do: the ledger never goes back, a block reported committed is in
      the ledger, and only waiting messages are delivered. */
  predicate Legal(y: System, a: Action) {
    match a
    case NodeStatus(_, _, _, local) => local <= y.committed
    case Responded(i) => i < |y.toScheduler|
    case Received(i) => i < |y.toProcessor|
    case Process(meanwhile, verified, added, after) =>
      && y.committed <= meanwhile <= after
      && (y.committed + 1 in y.queue ==>
            (Success(ValidateAndCommit(meanwhile, y.queue[y.committed + 1].block, verified, added)) ==>
                after >= y.queue[y.committed + 1].block.height))
    case OutsideCommit(after) => y.committed <= after
    case _ => true
  }

  ghost function Step(c: Limits, y: System, a: Action): System
    requires Legal(y, a)
  {
    match a
    case NodeStatus(from, height, archived, local) =>
      y.(sched := HandleNodeStatus(c, y.sched, from, height, archived, local, y.committed))
    case Liveness(now) => y.(sched := HandleLiveness(c, y.sched, y.committed, now))
    case Schedule(now) => y.(sched := HandleSchedule(c, y.sched, y.committed, now))
    case Synced(blocks, from) =>
      y.(sched := HandleSynced(y.sched, blocks, from),
         toProcessor := if NeedsProcessing(y.sched, blocks) then y.toProcessor + [ReceivedBlocks(blocks, from)]
             else y.toProcessor)
    case Responded(i) =>
      y.(sched := HandleResponse(y.sched, y.toScheduler[i]), toScheduler := Without(y.toScheduler, i))
    case SchedulerDetection => y.(sched := HandleDataDetection(y.sched, y.committed))
    case Received(i) =>
      y.(queue := HandleReceived(y.queue, y.toProcessor[i], y.committed), toProcessor := Without(y.toProcessor, i))
    case Process(meanwhile, verified, added, after) => ProcessBlock(y, meanwhile, verified, added).(committed := after)
    case ProcessorDetection => y.(queue := y.queue - Stale(y.queue, y.committed))
    case OutsideCommit(after) => y.(committed := after)
  }

  function ProcessBlock(y: System, meanwhile: nat, verified: Outcome, added: Outcome): System {
    match ProcessNext(y.queue, y.committed, meanwhile, verified, added)
    case None => y
    case Some(r) =>
      y.(queue := y.queue - {y.committed + 1}, processed := y.processed + Counted(Some(r)),
         toScheduler := y.toScheduler + [r])
  }

  function Counted(r: Option<Response>): nat {
    if r.Some? && Success(r.value.status) then 1 else 0
  }
}
