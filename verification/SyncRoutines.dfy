/**
 The scheduler and processor objects of block synchronisation. Their loops fill and clear the
 tables entry by entry, in any order of the map's keys; each handler is proved to take the
 object to the state the handler functions give.
 */
module SyncRoutines {
  import opened Options
  import opened Ordering
  import opened Sync

  // ---------------------------------------------------------------- loops over tables

  /** Adds every height of the batch that is not tracked yet. */
  method Track(states: map<nat, BlockState>, first: nat, last: nat, count: nat) returns (r: map<nat, BlockState>)
    ensures r == Const(Batch(first, last, count), NewBlock) + states
  {
    var i := first;
    r := states;
    while i <= last && i < first + count
      invariant first <= i && (i > first ==> i <= last + 1 && i <= first + count)
      invariant forall h :: h in r <==> h in states || first <= h < i
      invariant forall h :: h in r ==> r[h] == if h in states then states[h] else NewBlock
    {
      if i !in r { r := r[i := NewBlock]; }
      i := i + 1;
    }
  }

  /** `m` is `m0` with the heights from `first` up to `i` set to `v`. */
  ghost predicate SetUpTo<T>(m: map<nat, T>, m0: map<nat, T>, first: nat, i: nat, v: T) {
    && (forall h :: h in m <==> h in m0 || first <= h < i)
    && (forall h :: h in m ==> m[h] == if first <= h < i then v else m0[h])
  }

  lemma SetOneMore<T>(m: map<nat, T>, m0: map<nat, T>, first: nat, i: nat, v: T)
    requires SetUpTo(m, m0, first, i, v) && first <= i
    ensures SetUpTo(m[i := v], m0, first, i + 1, v)
  {
  }

  lemma SetBatch<T>(m: map<nat, T>, m0: map<nat, T>, first: nat, i: nat, v: T, last: nat, count: nat)
    requires SetUpTo(m, m0, first, i, v) && first <= i && (i > last || i >= count + first)
        && (i > first ==> i <= last + 1 && i <= count + first)
    ensures m == m0 + Const(Batch(first, last, count), v)
  {
  }

  /** Marks a batch as asked of `p` in the three request tables. */
  method MarkRequested(s: Scheduler, first: nat, p: Peer, count: nat, now: int)
    returns (states: map<nat, BlockState>, pendingTime: map<nat, int>, pendingBlocks: map<nat, Peer>)
    requires p in s.peers
    ensures var hs := Batch(first, s.peers[p], count);
            && states == s.states + Const(hs, PendingBlock)
            && pendingTime == s.pendingTime + Const(hs, now)
            && pendingBlocks == s.pendingBlocks + Const(hs, p)
  {
    states, pendingTime, pendingBlocks := s.states, s.pendingTime, s.pendingBlocks;
    var i := first;
    while i <= s.peers[p] && i < count + first
      invariant first <= i && (i > first ==> i <= s.peers[p] + 1 && i <= count + first)
      invariant SetUpTo(states, s.states, first, i, PendingBlock)
      invariant SetUpTo(pendingTime, s.pendingTime, first, i, now)
      invariant SetUpTo(pendingBlocks, s.pendingBlocks, first, i, p)
    {
      SetOneMore(states, s.states, first, i, PendingBlock);
      SetOneMore(pendingTime, s.pendingTime, first, i, now);
      SetOneMore(pendingBlocks, s.pendingBlocks, first, i, p);
      states, pendingTime, pendingBlocks := states[i := PendingBlock], pendingTime[i := now], pendingBlocks[i := p];
      i := i + 1;
    }
    SetBatch(states, s.states, first, i, PendingBlock, s.peers[p], count);
    SetBatch(pendingTime, s.pendingTime, first, i, now, s.peers[p], count);
    SetBatch(pendingBlocks, s.pendingBlocks, first, i, p, s.peers[p], count);
  }

  /** The tracked heights below the ledger, met in any order. */
  method FindBelow(states: map<nat, BlockState>, committed: nat) returns (gone: set<nat>)
    ensures gone == Below(states, committed)
  {
    var todo := states.Keys;
    gone := {};
    while todo != {}
      invariant todo <= states.Keys && gone == Below(states, committed) - todo
      decreases |todo|
    {
      var h :| h in todo;
      if h < committed { gone := gone + {h}; }
      todo := todo - {h};
    }
  }

  method LeastNew(states: map<nat, BlockState>) returns (least: Option<nat>)
    ensures least == NextNew(states)
  {
    var todo := states.Keys;
    least := None;
    while todo != {}
      invariant todo <= states.Keys
      invariant least.Some? ==> least.value in states && states[least.value].NewBlock?
      invariant forall h :: h in states && h !in todo && states[h].NewBlock? ==> least.Some? && least.value <= h
      decreases |todo|
    {
      var h :| h in todo;
      if states[h].NewBlock? && (least.None? || least.value > h) { least := Some(h); }
      todo := todo - {h};
    }
  }

  /** The height of the highest peer, or zero. */
  method MaxHeight(peers: map<Peer, nat>) returns (max: nat)
    ensures forall p :: p in peers ==> peers[p] <= max
    ensures max > 0 ==> exists p :: p in peers && peers[p] == max
  {
    var todo := peers.Keys;
    max := 0;
    while todo != {}
      invariant todo <= peers.Keys
      invariant forall p :: p in peers && p !in todo ==> peers[p] <= max
      invariant max > 0 ==> exists p :: p in peers && peers[p] == max
      decreases |todo|
    {
      var p :| p in todo;
      if max < peers[p] { max := peers[p]; }
      todo := todo - {p};
    }
  }

  // ---------------------------------------------------------------- choosing a peer

  method PeersWith(peers: map<Peer, nat>, height: nat) returns (ids: seq<Peer>)
    ensures forall p :: p in ids <==> p in peers && peers[p] >= height
  {
    var todo := peers.Keys;
    ids := [];
    while todo != {}
      invariant todo <= peers.Keys
      invariant forall p :: p in ids <==> p in peers && p !in todo && peers[p] >= height
      decreases |todo|
    {
      var p :| p in todo;
      if peers[p] >= height { ids := ids + [p]; }
      todo := todo - {p};
    }
  }

  method CountRequests(s: Scheduler, p: Peer) returns (num: nat)
    ensures num == |RequestsTo(s, p)|
  {
    num := CountOf(s.pendingBlocks, p, RequestsTo(s, p));
  }

  method CountOf(pending: map<nat, Peer>, p: Peer, ghost requests: set<nat>) returns (num: nat)
    requires forall h :: h in requests <==> h in pending && pending[h] == p
    ensures num == |requests|
  {
    var todo := pending.Keys;
    num := 0;
    assert requests - todo == {};
    while todo != {}
      invariant todo <= pending.Keys && num == |requests - todo|
      decreases |todo|
    {
      var h :| h in todo;
      CountOne(requests, todo, h);
      if pending[h] == p { num := num + 1; }
      todo := todo - {h};
    }
    assert requests - todo == requests;
  }

  lemma CountOne(requests: set<nat>, todo: set<nat>, h: nat)
    requires h in todo
    ensures |requests - (todo - {h})| == |requests - todo| + if h in requests then 1 else 0
  {
    assert requests - (todo - {h}) == (requests - todo) + (if h in requests then {h} else {});
  }

  /** Groups peers by the number of requests under way to them. */
  method GroupByRequests(s: Scheduler, ids: seq<Peer>) returns (groups: map<nat, seq<Peer>>)
    ensures forall p :: p in ids ==> |RequestsTo(s, p)| in groups && p in groups[|RequestsTo(s, p)|]
    ensures forall n :: n in groups ==> groups[n] != [] && forall p :: p in groups[n] ==>
        p in ids && |RequestsTo(s, p)| == n
  {
    groups := map[];
    for i := 0 to |ids|
      invariant forall p :: p in ids[..i] ==> |RequestsTo(s, p)| in groups && p in groups[|RequestsTo(s, p)|]
      invariant forall n :: n in groups ==> groups[n] != [] && forall p :: p in groups[n] ==>
          p in ids && |RequestsTo(s, p)| == n
    {
      var n := CountRequests(s, ids[i]);
      var group := if n in groups then groups[n] else [];
      groups := groups[n := group + [ids[i]]];
    }
  }

  method LeastKey(groups: map<nat, seq<Peer>>) returns (least: nat)
    requires groups.Keys != {}
    ensures least in groups && forall n :: n in groups ==> least <= n
  {
    least :| least in groups.Keys;
    var todo := groups.Keys;
    while todo != {}
      invariant todo <= groups.Keys && least in groups
      invariant forall n :: n in groups && n !in todo ==> least <= n
      decreases |todo|
    {
      var n :| n in todo;
      if n < least { least := n; }
      todo := todo - {n};
    }
  }

  /** The first name in order. */
  method FirstByName(ids: seq<Peer>) returns (first: Peer)
    requires ids != []
    ensures first in ids && forall p :: p in ids ==> LexLe(first, p)
  {
    first := ids[0];
    LexOrder(first, first);
    for i := 1 to |ids|
      invariant first in ids && forall k :: 0 <= k < i ==> LexLe(first, ids[k])
    {
      LexOrder(first, ids[i]);
      if !LexLe(first, ids[i]) {
        forall k | 0 <= k < i ensures LexLe(ids[i], ids[k]) { LexTransitive(ids[i], first, ids[k]); }
        first := ids[i];
        LexOrder(first, first);
      }
    }
  }

  method ChoosePeer(s: Scheduler, height: nat) returns (p: Peer)
    ensures p == SelectPeer(s, height)
  {
    var ids := PeersWith(s.peers, height);
    if ids == [] {
      assert forall q :: q in s.peers && s.peers[q] >= height ==> q in ids;
      return "";
    }
    var groups := GroupByRequests(s, ids);
    assert ids[0] in ids;
    var least := LeastKey(groups);
    p := FirstByName(groups[least]);
    assert IsBestPeer(s, height, p);
    BestPeerUnique(s, height, p, SelectPeer(s, height));
  }

  // ---------------------------------------------------------------- arriving blocks

  /** What one block of a batch does to the scheduler's tables. */
  function TakeBlock(s: Scheduler, h: nat, from: Peer): Scheduler {
    var s' := s.(pendingBlocks := s.pendingBlocks - {h}, pendingTime := s.pendingTime - {h});
    if h in s.states then s'.(states := s.states[h := ReceivedBlock], receivedBlocks := s.receivedBlocks[h := from])
        else s'
  }

  lemma HeightsOneMore(blocks: seq<Block>, i: nat)
    requires i < |blocks|
    ensures Heights(blocks[..i + 1]) == Heights(blocks[..i]) + {blocks[i].height}
  {
    assert blocks[..i + 1] == blocks[..i] + [blocks[i]];
  }

  lemma RemoveOneMore<T>(m: map<nat, T>, hs: set<nat>, h: nat)
    ensures (m - hs) - {h} == m - (hs + {h})
  {
  }

  lemma MarkOneMore<T>(m: map<nat, T>, keys: set<nat>, hs: set<nat>, h: nat, v: T)
    ensures var before, after := m + Const(hs * keys, v), m + Const((hs + {h}) * keys, v);
            after == if h in keys then before[h := v] else before
  {
    if h !in keys { assert (hs + {h}) * keys == hs * keys; }
  }

  lemma TakeOneMore(s: Scheduler, blocks: seq<Block>, from: Peer, i: nat)
    requires i < |blocks|
    ensures HandleSynced(s, blocks[..i + 1], from) ==
        TakeBlock(HandleSynced(s, blocks[..i], from), blocks[i].height, from)
  {
    HeightsOneMore(blocks, i);
    var hs, h := Heights(blocks[..i]), blocks[i].height;
    RemoveOneMore(s.pendingBlocks, hs, h);
    RemoveOneMore(s.pendingTime, hs, h);
    MarkOneMore(s.states, s.states.Keys, hs, h, ReceivedBlock);
    MarkOneMore(s.receivedBlocks, s.states.Keys, hs, h, from);
  }

  lemma NeedsOneMore(s: Scheduler, blocks: seq<Block>, i: nat)
    requires i < |blocks|
    ensures NeedsProcessing(s, blocks[..i + 1]) == (NeedsProcessing(s, blocks[..i]) || blocks[i].height in s.states)
  {
    HeightsOneMore(blocks, i);
    if blocks[i].height in s.states { assert blocks[i].height in Heights(blocks[..i + 1]) * s.states.Keys; }
  }

  lemma TakeNone(s: Scheduler, from: Peer)
    ensures HandleSynced(s, [], from) == s && !NeedsProcessing(s, [])
  {
    var s' := HandleSynced(s, [], from);
    assert Heights([]) == {} && Heights([]) * s.states.Keys == {};
    assert s'.pendingBlocks == s.pendingBlocks && s'.pendingTime == s.pendingTime;
    assert s'.states == s.states && s'.receivedBlocks == s.receivedBlocks;
  }

  /** The first `i` blocks have been taken. */
  ghost predicate Taken(s: Scheduler, blocks: seq<Block>, from: Peer, i: nat, s': Scheduler, needed: bool)
    requires i <= |blocks|
  {
    s' == HandleSynced(s, blocks[..i], from) && needed == NeedsProcessing(s, blocks[..i])
  }

  lemma TakenOneMore(s: Scheduler, blocks: seq<Block>, from: Peer, i: nat, s': Scheduler, needed: bool)
    requires i < |blocks| && Taken(s, blocks, from, i, s', needed)
    ensures Taken(s, blocks, from, i + 1, TakeBlock(s', blocks[i].height, from), needed || blocks[i].height in s.states)
  {
    TakeOneMore(s, blocks, from, i);
    NeedsOneMore(s, blocks, i);
  }

  method TakeBlocks(s: Scheduler, blocks: seq<Block>, from: Peer) returns (s': Scheduler, needed: bool)
    ensures s' == HandleSynced(s, blocks, from) && needed == NeedsProcessing(s, blocks)
  {
    s', needed := s, false;
    TakeNone(s, from);
    assert blocks[..0] == [];
    for i := 0 to |blocks|
      invariant Taken(s, blocks, from, i, s', needed)
    {
      TakenOneMore(s, blocks, from, i, s', needed);
      s' := TakeBlock(s', blocks[i].height, from);
      needed := needed || blocks[i].height in s.states;
    }
    assert blocks[..|blocks|] == blocks;
  }

  lemma {:induction false} FirstAtPrefix(blocks: seq<Block>, more: seq<Block>, h: nat)
    requires h in Heights(blocks)
    ensures h in Heights(blocks + more) && FirstAt(blocks + more, h) == FirstAt(blocks, h)
    decreases |blocks|
  {
    assert forall b :: b in blocks ==> b in blocks + more;
    if blocks[0].height != h {
      assert blocks == [blocks[0]] + blocks[1..] && (blocks + more)[1..] == blocks[1..] + more;
      FirstAtPrefix(blocks[1..], more, h);
    }
  }

  lemma {:induction false} FirstAtEnd(blocks: seq<Block>, b: Block)
    requires b.height !in Heights(blocks)
    ensures b.height in Heights(blocks + [b]) && FirstAt(blocks + [b], b.height) == b
    decreases |blocks|
  {
    assert (blocks + [b])[|blocks|] == b;
    if blocks != [] {
      assert (blocks + [b])[1..] == blocks[1..] + [b] && forall x :: x in blocks[1..] ==> x in blocks;
      assert blocks[0] in blocks;
      FirstAtEnd(blocks[1..], b);
    }
  }

  lemma IncomingOneMore(blocks: seq<Block>, from: Peer, i: nat, committed: nat)
    requires i < |blocks|
    ensures var before, after, b := Incoming(blocks[..i], from, committed), Incoming(blocks[..i + 1], from, committed),
        blocks[i];
            after == if b.height <= committed || b.height in before then before else before[b.height := Queued(b, from)]
  {
    HeightsOneMore(blocks, i);
    assert blocks[..i + 1] == blocks[..i] + [blocks[i]];
    forall h | h in Heights(blocks[..i]) ensures FirstAt(blocks[..i + 1], h) == FirstAt(blocks[..i], h) {
      FirstAtPrefix(blocks[..i], [blocks[i]], h);
    }
    if blocks[i].height !in Heights(blocks[..i]) { FirstAtEnd(blocks[..i], blocks[i]); }
  }

  lemma QueueOneMore(queue: map<nat, Queued>, before: map<nat, Queued>, h: nat, info: Queued)
    ensures before[h := info] + queue == if h in queue then before + queue else (before + queue)[h := info]
  {
  }

  method Enqueue(queue: map<nat, Queued>, m: ReceivedBlocks, committed: nat) returns (queue': map<nat, Queued>)
    ensures queue' == HandleReceived(queue, m, committed)
  {
    queue' := queue;
    for i := 0 to |m.blocks|
      invariant queue' == HandleReceived(queue, ReceivedBlocks(m.blocks[..i], m.from), committed)
    {
      IncomingOneMore(m.blocks, m.from, i, committed);
      var b := m.blocks[i];
      QueueOneMore(queue, Incoming(m.blocks[..i], m.from, committed), b.height, Queued(b, m.from));
      if b.height > committed && b.height !in queue' { queue' := queue'[b.height := Queued(b, m.from)]; }
    }
    assert m.blocks[..|m.blocks|] == m.blocks;
  }

  method FindStale(queue: map<nat, Queued>, committed: nat) returns (gone: set<nat>)
    ensures gone == Stale(queue, committed)
  {
    var todo := queue.Keys;
    gone := {};
    while todo != {}
      invariant todo <= queue.Keys && gone == Stale(queue, committed) - todo
      decreases |todo|
    {
      var h :| h in todo;
      if h < committed + 1 { gone := gone + {h}; }
      todo := todo - {h};
    }
  }

  // ---------------------------------------------------------------- the objects

  class SyncScheduler {
    const limits: Limits
    var peers: map<Peer, nat>
    var states: map<nat, BlockState>
    var pendingTime: map<nat, int>
    var pendingBlocks: map<nat, Peer>
    var receivedBlocks: map<nat, Peer>
    var lastRequest: int
    var pendingRecvHeight: nat

    function State(): Scheduler
      reads this
    {
      Scheduler(peers, states, pendingTime, pendingBlocks, receivedBlocks, lastRequest, pendingRecvHeight)
    }

    constructor (limits: Limits, committed: nat)
      ensures this.limits == limits && State() == Scheduler(map[], map[], map[], map[], map[], 0, committed + 1)
    {
      this.limits, peers, states, pendingTime := limits, map[], map[], map[];
      pendingBlocks, receivedBlocks, lastRequest, pendingRecvHeight := map[], map[], 0, committed + 1;
    }

    method HandleNodeStatusMsg(from: Peer, height: nat, archived: nat, local: nat, committed: nat)
      modifies this
      ensures State() == HandleNodeStatus(limits, old(State()), from, height, archived, local, committed)
    {
      if from in peers {
        if peers[from] > height || ArchivedTooHigh(local, archived) {
          peers := peers - {from};
          return;
        }
      }
      if ArchivedTooHigh(local, archived) { return; }
      peers := peers[from := height];
      AddPendingBlocks(committed, height);
    }

    method AddPendingBlocks(committed: nat, peerHeight: nat)
      modifies this
      ensures State() == AddPending(limits, old(State()), committed, peerHeight)
    {
      if |states| > limits.maxPending || committed >= peerHeight { return; }
      states := Track(states, pendingRecvHeight, peerHeight, limits.maxPending);
    }

    method HandleDetection(committed: nat)
      modifies this
      ensures State() == HandleDataDetection(old(State()), committed)
    {
      var gone := FindBelow(states, committed);
      pendingBlocks, pendingTime, receivedBlocks := pendingBlocks - gone, pendingTime - gone, receivedBlocks - gone;
      pendingRecvHeight := committed + 1;
      states := (states - gone)[pendingRecvHeight := NewBlock];
    }

    method HandleLivenessMsg(committed: nat, now: int)
      modifies this
      ensures State() == HandleLiveness(limits, old(State()), committed, now)
    {
      var h := pendingRecvHeight;
      if h in pendingTime && now - pendingTime[h] > limits.reqTimeout {
        var id := if h in pendingBlocks then pendingBlocks[h] else "";
        if committed < h { states := states[h := NewBlock]; }
        peers := peers - {id};
        pendingTime, pendingBlocks := pendingTime - {h}, pendingBlocks - {h};
      }
    }

    method IsNeedSync(committed: nat, now: int) returns (needed: bool)
      ensures needed == NeedsSync(limits, State(), committed, now)
    {
      var max := MaxHeight(peers);
      needed := committed + 1 < max || (committed + 1 == max && now - lastRequest > limits.reqThreshold);
    }

    /** The height to ask for next; a height that is behind is dropped instead. */
    method NextHeightToReq() returns (next: Option<nat>)
      modifies this
      ensures var least := NextNew(old(states));
              if least.Some? && least.value < old(pendingRecvHeight) then
                  next == None && State() == old(State()).(states := old(states) - {least.value})
              else next == least && State() == old(State())
    {
      next := LeastNew(states);
      if next.Some? && next.value < pendingRecvHeight {
        states := states - {next.value};
        next := None;
      }
    }

    method HandleScheduleMsg(committed: nat, now: int)
      modifies this
      ensures State() == HandleSchedule(limits, old(State()), committed, now)
    {
      var needed := IsNeedSync(committed, now);
      if !needed { return; }
      var next := NextHeightToReq();
      if next.None? { return; }
      var s := State();
      var p := ChoosePeer(s, next.value);
      if p == "" { return; }
      lastRequest := now;
      states, pendingTime, pendingBlocks := MarkRequested(s, next.value, p, limits.batch, now);
    }

    method HandleSyncedBlocks(blocks: seq<Block>, from: Peer) returns (m: Option<ReceivedBlocks>)
      modifies this
      ensures State() == HandleSynced(old(State()), blocks, from)
      ensures m == if NeedsProcessing(old(State()), blocks) then Some(ReceivedBlocks(blocks, from)) else None
    {
      var s, needed := TakeBlocks(State(), blocks, from);
      states, pendingTime, pendingBlocks, receivedBlocks := s.states, s.pendingTime, s.pendingBlocks, s.receivedBlocks;
      m := if needed then Some(ReceivedBlocks(blocks, from)) else None;
    }

    method HandleProcessedBlock(r: Response)
      modifies this
      ensures State() == HandleResponse(old(State()), r)
    {
      receivedBlocks := receivedBlocks - {r.height};
      if Success(r.status) {
        states := states - {r.height};
        if r.height >= pendingRecvHeight { pendingRecvHeight := r.height + 1; }
      }
      if r.status.ValidateFailed? || r.status.AddErr? {
        states := states[r.height := NewBlock];
        peers := peers - {r.from};
      }
    }
  }

  class SyncProcessor {
    var queue: map<nat, Queued>
    var hasCommitBlock: nat

    constructor ()
      ensures queue == map[] && hasCommitBlock == 0
    {
      queue, hasCommitBlock := map[], 0;
    }

    method HandleReceivedBlocks(m: ReceivedBlocks, committed: nat)
      modifies this
      ensures queue == HandleReceived(old(queue), m, committed) && hasCommitBlock == old(hasCommitBlock)
    {
      queue := Enqueue(queue, m, committed);
    }

    /** Processes the block after the ledger's last, and reports on it. */
    method HandleProcessBlock(committed: nat, meanwhile: nat, verified: Outcome, added: Outcome)
      returns (r: Option<Response>)
      modifies this
      ensures r == ProcessNext(old(queue), committed, meanwhile, verified, added)
      ensures queue == old(queue) - {committed + 1} && hasCommitBlock == old(hasCommitBlock) + Counted(r)
    {
      var h := committed + 1;
      if h !in queue { return None; }
      var info := queue[h];
      var status := ValidateAndCommit(meanwhile, info.block, verified, added);
      if Success(status) { hasCommitBlock := hasCommitBlock + 1; }
      queue := queue - {h};
      return Some(Response(status, info.block.height, info.from));
    }

    method HandleDetection(committed: nat)
      modifies this
      ensures queue == old(queue) - Stale(old(queue), committed) && hasCommitBlock == old(hasCommitBlock)
    {
      var gone := FindStale(queue, committed);
      queue := queue - gone;
    }
  }
}
