/**
 What each message does to the sync scheduler and the processor, height by height and peer by peer,
 how a block that was not delivered in time is asked of another peer, and what becomes of a block
 that is refused or known already.
 */
module SyncEffects {
  import opened Options
  import opened Ordering
  import opened Sync
  import opened SyncSafety

  function At<T>(m: map<nat, T>, k: nat): Option<T> {
    if k in m then Some(m[k]) else None
  }

  /** Nothing about height `k` differs. */
  ghost predicate SameAt(s: Scheduler, s': Scheduler, k: nat) {
    && At(s'.states, k) == At(s.states, k) && At(s'.pendingTime, k) == At(s.pendingTime, k)
    && At(s'.pendingBlocks, k) == At(s.pendingBlocks, k) && At(s'.receivedBlocks, k) == At(s.receivedBlocks, k)
  }

  /** Height `k` is in no table. */
  ghost predicate Forgotten(s: Scheduler, k: nat) {
    k !in s.states && k !in s.pendingTime && k !in s.pendingBlocks && k !in s.receivedBlocks
  }

  predicate IsNew(s: Scheduler, k: nat) {
    k in s.states && s.states[k].NewBlock?
  }

  /** The peers are as before, but for `gone`. */
  ghost predicate OnlyLoses(s: Scheduler, s': Scheduler, gone: Peer) {
    gone !in s'.peers && forall p :: p != gone ==>
      (p in s'.peers <==> p in s.peers) && (p in s.peers ==> s'.peers[p] == s.peers[p])
  }

  /** The request for the next height has waited longer than allowed. */
  predicate Overdue(c: Limits, s: Scheduler, now: int) {
    s.pendingRecvHeight in s.pendingTime && now - s.pendingTime[s.pendingRecvHeight] > c.reqTimeout
  }

  /** An overdue request for the next height is undone and its peer dropped; without one nothing
      happens. */
  lemma LivenessExactly(c: Limits, s: Scheduler, committed: nat, now: int)
    requires s.pendingRecvHeight in s.pendingTime ==> s.pendingRecvHeight in s.pendingBlocks
    ensures var s', h := HandleLiveness(c, s, committed, now), s.pendingRecvHeight;
            && s'.pendingRecvHeight == h && s'.lastRequest == s.lastRequest
            && (!Overdue(c, s, now) ==> s' == s)
            && (Overdue(c, s, now) ==>
                  && h !in s'.pendingTime && h !in s'.pendingBlocks && OnlyLoses(s, s', s.pendingBlocks[h])
                  && (committed < h ==> IsNew(s', h))
                  && (committed >= h ==> s'.states == s.states)
                  && forall k: nat :: k != h ==> SameAt(s, s', k))
  {
  }

  /** A peer that went back, or has archived what is needed, is dropped or ignored; any other is noted
      with its height, and the heights of the window that were unknown become new. */
  lemma StatusExactly(c: Limits, s: Scheduler, committed: nat, from: Peer, height: nat, archived: nat, local: nat)
    ensures var s' := HandleNodeStatus(c, s, from, height, archived, local, committed);
            var useless := archived != 0 && local <= archived;
            && s'.pendingRecvHeight == s.pendingRecvHeight && s'.lastRequest == s.lastRequest
            && (useless || (from in s.peers && s.peers[from] > height) ==>
                  OnlyLoses(s, s', from) && forall k: nat :: SameAt(s, s', k))
            && (!useless && (from in s.peers ==> s.peers[from] <= height) ==>
                  s'.peers == s.peers[from := height] && forall k: nat :: OpenedAt(c, s, s', committed, height, k))
  {
    var noted := s.(peers := s.peers[from := height]);
    if !ArchivedTooHigh(local, archived) && (from in s.peers ==> s.peers[from] <= height) {
      forall k: nat ensures OpenedAt(c, s, AddPending(c, noted, committed, height), committed, height, k) {
        NotedAt(c, s, committed, from, height, k);
      }
    }
  }

  lemma NotedAt(c: Limits, s: Scheduler, committed: nat, from: Peer, height: nat, k: nat)
    ensures OpenedAt(c, s, AddPending(c, s.(peers := s.peers[from := height]), committed, height), committed, height, k)
  {
    PendingAt(c, s.(peers := s.peers[from := height]), committed, height, k);
  }

  /** The pool has room, the peer is ahead of the ledger, and `k`, not tracked yet, is in its window. */
  predicate Opened(c: Limits, s: Scheduler, committed: nat, height: nat, k: nat) {
    && |s.states| <= c.maxPending && committed < height && k !in s.states
    && s.pendingRecvHeight <= k <= height && k < s.pendingRecvHeight + c.maxPending
  }

  ghost predicate OpenedAt(c: Limits, s: Scheduler, s': Scheduler, committed: nat, height: nat, k: nat) {
    if Opened(c, s, committed, height, k) then IsNew(s', k) else SameAt(s, s', k)
  }

  lemma PendingAt(c: Limits, s: Scheduler, committed: nat, height: nat, k: nat)
    ensures OpenedAt(c, s, AddPending(c, s, committed, height), committed, height, k)
  {
  }

  /** Tracked heights below the ledger's are forgotten; the one after the ledger's last is new and next. */
  lemma DetectionExactly(s: Scheduler, committed: nat)
    ensures var s' := HandleDataDetection(s, committed);
            && s'.pendingRecvHeight == committed + 1 && IsNew(s', committed + 1)
            && s'.peers == s.peers && s'.lastRequest == s.lastRequest
            && forall k: nat :: k != committed + 1 ==>
                 if k in s.states && k < committed then Forgotten(s', k) else SameAt(s, s', k)
  {
  }

  /** Heights that arrive are no longer asked for; those tracked are received, from that peer. */
  lemma SyncedExactly(s: Scheduler, blocks: seq<Block>, from: Peer)
    ensures var s' := HandleSynced(s, blocks, from);
            && s'.peers == s.peers && s'.lastRequest == s.lastRequest && s'.pendingRecvHeight == s.pendingRecvHeight
            && (forall b :: b in blocks ==>
                  && b.height !in s'.pendingTime && b.height !in s'.pendingBlocks
                  && (b.height in s'.states <==> b.height in s.states)
                  && (b.height in s.states ==>
                        && s'.states[b.height].ReceivedBlock?
                        && b.height in s'.receivedBlocks && s'.receivedBlocks[b.height] == from))
            && forall k: nat :: k !in Heights(blocks) ==> SameAt(s, s', k)
  {
    var s' := HandleSynced(s, blocks, from);
    forall b | b in blocks
      ensures b.height !in s'.pendingTime && b.height !in s'.pendingBlocks
      ensures b.height in s'.states <==> b.height in s.states
      ensures b.height in s.states ==>
        s'.states[b.height].ReceivedBlock? && b.height in s'.receivedBlocks && s'.receivedBlocks[b.height] == from
    {
      assert b.height in Heights(blocks);
    }
  }

  /** A committed block is done with, and the next height is past it; after a failure the height is to
      be asked for again and the peer it came from is dropped. */
  lemma ResponseExactly(s: Scheduler, r: Response)
    ensures var s' := HandleResponse(s, r);
            && r.height !in s'.receivedBlocks && s'.lastRequest == s.lastRequest
            && (forall k: nat :: k != r.height ==> SameAt(s, s', k))
            && (r.status.Ok? || r.status.HasProcessed? ==>
                  && r.height !in s'.states && s'.peers == s.peers
                  && s'.pendingRecvHeight == Max(r.height + 1, s.pendingRecvHeight))
            && (r.status.ValidateFailed? || r.status.AddErr? ==>
                  IsNew(s', r.height) && OnlyLoses(s, s', r.from) && s'.pendingRecvHeight == s.pendingRecvHeight)
            && (r.status.DbErr? ==>
                  s'.states == s.states && s'.peers == s.peers && s'.pendingRecvHeight == s.pendingRecvHeight)
  {
    var s' := HandleResponse(s, r);
    forall k: nat | k != r.height ensures SameAt(s, s', k) { ResponseElsewhere(s, r, k); }
  }

  function Max(a: nat, b: nat): nat {
    if a >= b then a else b
  }

  lemma ResponseElsewhere(s: Scheduler, r: Response, k: nat)
    requires k != r.height
    ensures SameAt(s, HandleResponse(s, r), k)
  {
    var done := s.(receivedBlocks := s.receivedBlocks - {r.height});
    assert SameAt(s, done, k);
    AdvanceElsewhere(done, r.height, k);
    if r.status.ValidateFailed? || r.status.AddErr? {
      assert At(s.states[r.height := NewBlock], k) == At(s.states, k);
    }
  }

  lemma AdvanceElsewhere(s: Scheduler, height: nat, k: nat)
    requires k != height
    ensures SameAt(s, Advance(s, height), k)
  {
  }

  // ---------------------------------------------------------------- scheduling

  /** `k` is the least height still to be asked for. */
  ghost predicate HasLeast(s: Scheduler, k: nat) {
    IsNew(s, k) && forall j: nat :: IsNew(s, j) ==> k <= j
  }

  /** A peer is two heights ahead of the ledger, or one and the last request is long enough ago. */
  ghost predicate Behind(c: Limits, s: Scheduler, committed: nat, now: int) {
    exists p :: p in s.peers &&
      (s.peers[p] >= committed + 2 || (s.peers[p] == committed + 1 && now - s.lastRequest > c.reqThreshold))
  }

  /** Height `k` when the batch from `h` on is asked of `p`. */
  ghost predicate AskedAt(c: Limits, s: Scheduler, s': Scheduler, h: nat, p: Peer, now: int, k: nat)
    requires p in s.peers
  {
    if h <= k <= s.peers[p] && k < h + c.batch then
      && Pending(s', k) && k in s'.pendingTime && s'.pendingTime[k] == now
      && k in s'.pendingBlocks && s'.pendingBlocks[k] == p
    else SameAt(s, s', k)
  }

  lemma RequestAt(c: Limits, s: Scheduler, h: nat, p: Peer, now: int, k: nat)
    requires p in s.peers
    ensures AskedAt(c, s, Request(c, s, h, p, now), h, p, now, k)
  {
    assert k in Batch(h, s.peers[p], c.batch) <==> h <= k <= s.peers[p] && k < h + c.batch;
  }

  /** How many heights are being asked of a peer. */
  function Busy(s: Scheduler, p: Peer): nat {
    |set k | k in s.pendingBlocks && s.pendingBlocks[k] == p|
  }

  /** `p` has the block, no peer that has it is less busy, and of those as busy none is earlier by name. */
  ghost predicate LeastBusy(s: Scheduler, h: nat, p: Peer) {
    && p in s.peers && s.peers[p] >= h
    && forall q :: q in s.peers && s.peers[q] >= h ==>
         Busy(s, p) <= Busy(s, q) && (Busy(s, p) == Busy(s, q) ==> LexLe(p, q))
  }

  lemma BusyIsRequests(s: Scheduler, p: Peer)
    ensures Busy(s, p) == |RequestsTo(s, p)|
  {
    var asked := set k | k in s.pendingBlocks && s.pendingBlocks[k] == p;
    assert asked == RequestsTo(s, p);
  }

  lemma BestIsLeastBusy(s: Scheduler, h: nat, p: Peer)
    requires IsBestPeer(s, h, p)
    ensures LeastBusy(s, h, p)
  {
    forall q | q in s.peers && s.peers[q] >= h
      ensures Busy(s, p) <= Busy(s, q) && (Busy(s, p) == Busy(s, q) ==> LexLe(p, q))
    {
      assert Prefers(s, p, q);
      BusyIsRequests(s, p);
      BusyIsRequests(s, q);
    }
  }

  /** The batch from `h` on is asked of `p`, the least busy of the peers that have its first block. */
  ghost predicate Asks(c: Limits, s: Scheduler, s': Scheduler, h: nat, p: Peer, now: int) {
    && LeastBusy(s, h, p) && s'.lastRequest == now && forall k: nat :: AskedAt(c, s, s', h, p, now, k)
  }

  /** A turn with nothing to do changes nothing; a new height that is behind is dropped; otherwise the
      least new height and those after it are asked of the preferred peer, if any has it. */
  lemma ScheduleExactly(c: Limits, s: Scheduler, committed: nat, now: int)
    requires "" !in s.peers
    ensures var s' := HandleSchedule(c, s, committed, now);
            && s'.peers == s.peers && s'.pendingRecvHeight == s.pendingRecvHeight
            && (!Behind(c, s, committed, now) ==> s' == s)
            && ((forall k: nat :: !IsNew(s, k)) ==> s' == s)
    ensures forall k: nat :: Behind(c, s, committed, now) && HasLeast(s, k) ==>
              ScheduledAt(c, s, HandleSchedule(c, s, committed, now), now, k)
  {
    var s' := HandleSchedule(c, s, committed, now);
    assert Behind(c, s, committed, now) <==> NeedsSync(c, s, committed, now);
    if forall k: nat :: !IsNew(s, k) { NoneIsNext(s); }
    forall k: nat | Behind(c, s, committed, now) && HasLeast(s, k) ensures ScheduledAt(c, s, s', now, k) {
      LeastIsNext(s, k);
      LeastScheduled(c, s, committed, now, k);
    }
  }

  lemma NoneIsNext(s: Scheduler)
    requires forall k: nat :: !IsNew(s, k)
    ensures NextNew(s.states) == None
  {
    var next := NextNew(s.states);
    if next.Some? { assert IsNew(s, next.value); }
  }

  lemma LeastIsNext(s: Scheduler, k: nat)
    requires HasLeast(s, k)
    ensures NextNew(s.states) == Some(k)
  {
    var next := NextNew(s.states);
    assert IsNew(s, next.value);
  }

  ghost predicate ScheduledAt(c: Limits, s: Scheduler, s': Scheduler, now: int, k: nat) {
    if k < s.pendingRecvHeight then s' == s.(states := s.states - {k})
    else if exists p :: p in s.peers && s.peers[p] >= k then exists p :: Asks(c, s, s', k, p, now)
    else s' == s
  }

  lemma LeastScheduled(c: Limits, s: Scheduler, committed: nat, now: int, k: nat)
    requires "" !in s.peers && NeedsSync(c, s, committed, now) && NextNew(s.states) == Some(k)
    ensures ScheduledAt(c, s, HandleSchedule(c, s, committed, now), now, k)
  {
    var s', p := HandleSchedule(c, s, committed, now), SelectPeer(s, k);
    if k >= s.pendingRecvHeight && exists q :: q in s.peers && s.peers[q] >= k {
      assert IsBestPeer(s, k, p) && s' == Request(c, s, k, p, now);
      BestIsLeastBusy(s, k, p);
      forall j: nat ensures AskedAt(c, s, s', k, p, now, j) { RequestAt(c, s, k, p, now, j); }
      assert Asks(c, s, s', k, p, now);
    }
  }

  // ---------------------------------------------------------------- asking another peer

  /** Turns of the scheduler at the given times. */
  ghost function Turns(c: Limits, s: Scheduler, committed: nat, times: seq<int>): Scheduler {
    if times == [] then s
    else HandleSchedule(c, Turns(c, s, committed, times[..|times| - 1]), committed, times[|times| - 1])
  }

  /** New heights not above the ledger's; a turn drops one of them. */
  function Leftover(s: Scheduler, committed: nat): set<nat> {
    set k | k in s.states && s.states[k].NewBlock? && k <= committed
  }

  /** The next height is to be asked for, and a peer is ahead. */
  ghost predicate Due(s: Scheduler, committed: nat) {
    s.pendingRecvHeight == committed + 1 && IsNew(s, committed + 1) && PeerAhead(s, committed)
  }

  lemma TurnProgress(c: Limits, s: Scheduler, committed: nat, now: int)
    requires Due(s, committed) && c.batch >= 1
    ensures var s' := HandleSchedule(c, s, committed, now);
            && s'.peers == s.peers
            && if Leftover(s, committed) == {} then Requested(s', committed)
               else Due(s', committed) && |Leftover(s', committed)| == |Leftover(s, committed)| - 1
  {
    if Leftover(s, committed) == {} {
      forall h | h in s.states && s.states[h].NewBlock? ensures h >= committed + 1 {
        assert h !in Leftover(s, committed);
      }
      CleanIsRequested(c, s, committed, now);
    } else {
      var k := NextNew(s.states).value;
      var j :| j in Leftover(s, committed);
      assert k <= j;
      var s' := s.(states := s.states - {k});
      assert HandleSchedule(c, s, committed, now) == s';
      assert Leftover(s', committed) == Leftover(s, committed) - {k};
    }
  }

  /** After more turns than there are heights left over, the next block is asked of one of the peers. */
  lemma {:induction false} TurnsRequest(c: Limits, s: Scheduler, committed: nat, times: seq<int>)
    requires Due(s, committed) && c.batch >= 1
    ensures var s' := Turns(c, s, committed, times);
            && s'.peers == s.peers
            && if |times| > |Leftover(s, committed)| then Requested(s', committed)
               else Due(s', committed) && |Leftover(s', committed)| == |Leftover(s, committed)| - |times|
  {
    if times != [] {
      var front, now := times[..|times| - 1], times[|times| - 1];
      TurnsRequest(c, s, committed, front);
      var t := Turns(c, s, committed, front);
      if |front| > |Leftover(s, committed)| {
        RequestedStays(c, t, committed, now);
        TurnKeepsPeers(c, t, committed, now);
      } else {
        TurnProgress(c, t, committed, now);
        assert |front| == |Leftover(s, committed)| ==> Leftover(t, committed) == {};
      }
    }
  }

  lemma TurnKeepsPeers(c: Limits, s: Scheduler, committed: nat, now: int)
    ensures HandleSchedule(c, s, committed, now).peers == s.peers
  {
  }

  /** A block that did not come in time is asked of a peer other than the one that kept it waiting, as
      soon as the scheduler has had its turns, if another peer is ahead. */
  lemma LateBlockIsAskedElsewhere(c: Limits, s: Scheduler, committed: nat, now: int, other: Peer, times: seq<int>)
    requires c.batch >= 1 && s.pendingRecvHeight == committed + 1 && Overdue(c, s, now)
    requires committed + 1 in s.pendingBlocks && "" !in s.peers
    requires other in s.peers && other != s.pendingBlocks[committed + 1] && s.peers[other] > committed + 1
    requires |times| > |Leftover(s, committed)|
    ensures var s' := Turns(c, HandleLiveness(c, s, committed, now), committed, times);
            && Requested(s', committed) && s'.pendingBlocks[committed + 1] != s.pendingBlocks[committed + 1]
  {
    var t := HandleLiveness(c, s, committed, now);
    LivenessExactly(c, s, committed, now);
    assert Leftover(t, committed) == Leftover(s, committed) by {
      forall k: nat ensures k in Leftover(t, committed) <==> k in Leftover(s, committed) {
        if k <= committed { assert SameAt(s, t, k); }
      }
    }
    assert other in t.peers && t.peers[other] > committed + 1;
    TurnsRequest(c, t, committed, times);
  }

  // ---------------------------------------------------------------- the processor

  /** `b` is the first of the blocks with its height. */
  ghost predicate IsFirst(blocks: seq<Block>, b: Block) {
    exists k :: 0 <= k < |blocks| && blocks[k] == b && forall j :: 0 <= j < k ==> blocks[j].height != b.height
  }

  lemma {:induction false} FirstAtIsFirst(blocks: seq<Block>, h: nat)
    requires h in Heights(blocks)
    ensures FirstAt(blocks, h).height == h && IsFirst(blocks, FirstAt(blocks, h))
    decreases |blocks|
  {
    if blocks[0].height == h {
      assert blocks[0] == FirstAt(blocks, h);
    } else {
      var b :| b in blocks && b.height == h;
      assert b in blocks[1..] && h in Heights(blocks[1..]);
      FirstAtIsFirst(blocks[1..], h);
      var k :| 0 <= k < |blocks[1..]| && blocks[1..][k] == FirstAt(blocks, h)
            && forall j :: 0 <= j < k ==> blocks[1..][j].height != h;
      assert blocks[k + 1] == FirstAt(blocks, h);
      forall j | 0 <= j < k + 1 ensures blocks[j].height != h { if j > 0 { assert blocks[1..][j - 1] == blocks[j]; } }
    }
  }

  /** A queued block stays; of the blocks that arrive, the first for each height above the ledger joins. */
  lemma ReceivedExactly(queue: map<nat, Queued>, m: ReceivedBlocks, committed: nat, h: nat)
    ensures var q := HandleReceived(queue, m, committed);
            var arrives := h > committed && exists b :: b in m.blocks && b.height == h;
            if h in queue then h in q && q[h] == queue[h]
            else if !arrives then h !in q
            else h in q && q[h].from == m.from && q[h].block.height == h && IsFirst(m.blocks, q[h].block)
  {
    assert h in Heights(m.blocks) <==> exists b :: b in m.blocks && b.height == h;
    if h in Heights(m.blocks) { FirstAtIsFirst(m.blocks, h); }
  }

  /** A batch goes to the processor exactly when it arrives and a height in it is tracked, and leaves again
      only when it is taken. */
  lemma PassedOnExactly(c: Limits, y: System, a: Action)
    requires Legal(y, a)
    ensures Step(c, y, a).toProcessor
         == if a.Received? then y.toProcessor[..a.i] + y.toProcessor[a.i + 1..]
            else if a.Synced? && exists b :: b in a.blocks && b.height in y.sched.states then
              y.toProcessor + [ReceivedBlocks(a.blocks, a.from)]
            else y.toProcessor
  {
    if a.Synced? {
      forall b | b in a.blocks && b.height in y.sched.states ensures NeedsProcessing(y.sched, a.blocks) {
        assert b.height in Heights(a.blocks) * y.sched.states.Keys;
      }
    }
  }

  /** A queued block leaves when it is judged, or when a detection finds it in the ledger, and stays as it is
      otherwise; one joins only from a batch that is taken. */
  lemma QueueExactly(c: Limits, y: System, a: Action, h: nat)
    requires Legal(y, a)
    ensures var q := Step(c, y, a).queue;
            var leaves := (a.Process? && h == y.committed + 1) || (a.ProcessorDetection? && h <= y.committed);
            && (h in y.queue ==> if leaves then h !in q else h in q && q[h] == y.queue[h])
            && (h !in y.queue && h in q ==> a.Received? && h > y.committed && q[h].from == y.toProcessor[a.i].from
                                              && IsFirst(y.toProcessor[a.i].blocks, q[h].block))
  {
    if a.Received? { ReceivedExactly(y.queue, y.toProcessor[a.i], y.committed, h); }
  }

  /** The two steps in which the block after the ledger's last is judged and the report is handled. */
  ghost function Judged(c: Limits, y: System, verified: Outcome, added: Outcome, meanwhile: nat, after: nat): System
    requires Legal(y, Process(meanwhile, verified, added, after)) && y.committed + 1 in y.queue
  {
    Step(c, Step(c, y, Process(meanwhile, verified, added, after)), Responded(|y.toScheduler|))
  }

  /** The scheduler is told that the block after the ledger's last came to this. */
  ghost predicate Reported(
      c: Limits, y: System, verified: Outcome, added: Outcome, meanwhile: nat, after: nat, status: Status)
    requires Legal(y, Process(meanwhile, verified, added, after)) && y.committed + 1 in y.queue
  {
    Step(c, y, Process(meanwhile, verified, added, after)).toScheduler
      == y.toScheduler + [Response(status, y.committed + 1, y.queue[y.committed + 1].from)]
  }

  /** A block the verifier or the committer refuses is not counted; its height is to be asked for again,
      and the peer it came from is dropped. */
  lemma RefusedBlockIsAskedAgain(c: Limits, y: System, verified: Outcome, added: Outcome, after: nat)
    requires Inv(c, y) && y.committed + 1 in y.queue && after >= y.committed
    requires verified.Refused? || (verified.Accepted? && added.Refused?)
    ensures && Legal(y, Process(y.committed, verified, added, after))
            && Reported(c, y, verified, added, y.committed, after, if verified.Refused? then ValidateFailed else AddErr)
            && var y' := Judged(c, y, verified, added, y.committed, after);
            && y'.processed == y.processed && y'.committed == after && y'.queue == y.queue - {y.committed + 1}
            && IsNew(y'.sched, y.committed + 1) && OnlyLoses(y.sched, y'.sched, y.queue[y.committed + 1].from)
            && y'.sched.pendingRecvHeight == y.sched.pendingRecvHeight
  {
    ResponseExactly(y.sched, Response(ValidateFailed, y.committed + 1, y.queue[y.committed + 1].from));
    ResponseExactly(y.sched, Response(AddErr, y.committed + 1, y.queue[y.committed + 1].from));
  }

  /** A block that is in the ledger already is counted and passed, at no cost to its peer. */
  lemma KnownBlockIsPassed(c: Limits, y: System, verified: Outcome, added: Outcome, meanwhile: nat, after: nat)
    requires Inv(c, y) && y.committed + 1 in y.queue && y.committed <= meanwhile <= after && after > y.committed
    requires || meanwhile > y.committed || verified.AlreadyCommitted?
             || (verified.Accepted? && added.AlreadyCommitted?)
    ensures Reported(c, y, verified, added, meanwhile, after, HasProcessed)
    ensures var y' := Judged(c, y, verified, added, meanwhile, after);
            && y'.processed == y.processed + 1 && y'.committed == after && y'.queue == y.queue - {y.committed + 1}
            && y.committed + 1 !in y'.sched.states && y'.sched.peers == y.sched.peers
            && y'.sched.pendingRecvHeight == y.committed + 2
  {
    ResponseExactly(y.sched, Response(HasProcessed, y.committed + 1, y.queue[y.committed + 1].from));
  }

  lemma StepCounts(c: Limits, y: System, a: Action)
    requires Inv(c, y) && Legal(y, a)
    ensures Step(c, y, a).processed - y.processed <= Step(c, y, a).committed - y.committed
  {
  }

  /** In every run, no more blocks are counted as processed than the ledger grew by. */
  lemma {:induction false} ProcessedAreCommitted(c: Limits, y: System, acts: seq<Action>)
    requires Inv(c, y) && LegalRun(c, y, acts) && c.batch >= 1 && c.maxPending >= 1
    ensures y.processed <= Run(c, y, acts).processed
    ensures Run(c, y, acts).processed - y.processed <= Run(c, y, acts).committed - y.committed
    decreases |acts|
  {
    if acts != [] {
      StepKeepsInv(c, y, acts[0]);
      StepCounts(c, y, acts[0]);
      ProcessedAreCommitted(c, Step(c, y, acts[0]), acts[1..]);
    }
  }
}
