/**
 What block synchronisation keeps over every interleaving of the scheduler, the processor and
 outside commits, and how a missing block gets in.
 */
module SyncSafety {
  import opened Options
  import opened Sync

  predicate Pending(s: Scheduler, h: nat) {
    h in s.states && s.states[h].PendingBlock?
  }

  predicate Arrived(s: Scheduler, h: nat) {
    h in s.states && s.states[h].ReceivedBlock?
  }

  ghost predicate TrackedBelow(s: Scheduler, bound: nat) {
    && (forall h :: h in s.states ==> h < bound)
    && (forall h :: h in s.pendingBlocks ==> h < bound)
    && (forall h :: h in s.receivedBlocks ==> h < bound)
  }

  /** The scheduler's invariant over a ledger of height `committed`. */
  ghost predicate SchedInv(c: Limits, s: Scheduler, committed: nat) {
    && s.pendingRecvHeight <= committed + 1
    && s.pendingTime.Keys == s.pendingBlocks.Keys
    && TrackedBelow(s, committed + c.maxPending + c.batch)
    && (forall h :: h in s.states && s.states[h].NewBlock? ==> h <= committed + c.maxPending)
    && (forall h: nat :: Pending(s, h) && h > committed ==> h in s.pendingBlocks)
  }

  /** A block of height `h` waits for the processor, or its verdict waits for the scheduler. */
  ghost predicate InPipeline(y: System, h: nat) {
    || h in y.queue
    || (exists m :: m in y.toProcessor && h in Heights(m.blocks))
    || (exists r :: r in y.toScheduler && r.height == h)
  }

  ghost predicate ResponseOk(r: Response, committed: nat) {
    !r.status.DbErr? && r.height <= committed + 1 && (Success(r.status) ==> r.height <= committed)
  }

  ghost predicate Inv(c: Limits, y: System) {
    && SchedInv(c, y.sched, y.committed)
    && (forall h :: h in y.queue ==> y.queue[h].block.height == h)
    && (forall r :: r in y.toScheduler ==> ResponseOk(r, y.committed))
    && (forall h: nat :: Arrived(y.sched, h) && h > y.committed ==> InPipeline(y, h))
  }

  // ---------------------------------------------------------------- the scheduler's handlers

  lemma AddPendingKeeps(c: Limits, s: Scheduler, committed: nat, height: nat)
    requires SchedInv(c, s, committed) && c.batch >= 1
    ensures var s' := AddPending(c, s, committed, height);
            && SchedInv(c, s', committed) && s'.pendingRecvHeight == s.pendingRecvHeight
            && (forall h: nat :: Arrived(s', h) ==> Arrived(s, h))
  {
    var s' := AddPending(c, s, committed, height);
    forall h | h in s'.states ensures NewOrSame(c, s, s', committed, h) {
      if h !in s.states { assert h in Batch(s.pendingRecvHeight, height, c.maxPending); }
    }
    NewHeightsKeep(c, s, s', committed);
  }

  predicate NewOrSame(c: Limits, s: Scheduler, s': Scheduler, committed: nat, h: nat)
    requires h in s'.states
  {
    if h in s.states then s'.states[h] == s.states[h] else s'.states[h].NewBlock? && h <= committed + c.maxPending
  }

  lemma NewHeightsKeep(c: Limits, s: Scheduler, s': Scheduler, committed: nat)
    requires SchedInv(c, s, committed) && c.batch >= 1 && s' == s.(states := s'.states)
    requires forall h :: h in s'.states ==> NewOrSame(c, s, s', committed, h)
    ensures SchedInv(c, s', committed) && forall h: nat :: Arrived(s', h) ==> Arrived(s, h)
  {
    forall h: nat | Pending(s', h) ensures Pending(s, h) { assert NewOrSame(c, s, s', committed, h); }
    forall h: nat | Arrived(s', h) ensures Arrived(s, h) { assert NewOrSame(c, s, s', committed, h); }
    forall h | h in s'.states ensures h < committed + c.maxPending + c.batch {
      assert NewOrSame(c, s, s', committed, h);
    }
  }

  lemma PeersDoNotMatter(c: Limits, s: Scheduler, s': Scheduler, committed: nat)
    requires SchedInv(c, s, committed) && s' == s.(peers := s'.peers)
    ensures SchedInv(c, s', committed) && forall h: nat :: Arrived(s', h) ==> Arrived(s, h)
  {
    assert forall h: nat :: Pending(s', h) ==> Pending(s, h);
  }

  lemma NodeStatusKeeps(c: Limits, s: Scheduler, committed: nat, from: Peer, height: nat, archived: nat, local: nat)
    requires SchedInv(c, s, committed) && c.batch >= 1
    ensures var s' := HandleNodeStatus(c, s, from, height, archived, local, committed);
            && SchedInv(c, s', committed) && s'.pendingRecvHeight == s.pendingRecvHeight
            && (forall h: nat :: Arrived(s', h) ==> Arrived(s, h))
  {
    var t, u := s.(peers := s.peers - {from}), s.(peers := s.peers[from := height]);
    PeersDoNotMatter(c, s, t, committed);
    PeersDoNotMatter(c, s, u, committed);
    AddPendingKeeps(c, u, committed, height);
  }

  lemma DetectionKeeps(c: Limits, s: Scheduler, committed: nat)
    requires SchedInv(c, s, committed) && c.batch >= 1 && c.maxPending >= 1
    ensures var s' := HandleDataDetection(s, committed);
            && SchedInv(c, s', committed) && s'.pendingRecvHeight >= s.pendingRecvHeight
            && (forall h: nat :: Arrived(s', h) ==> Arrived(s, h))
  {
    var s' := HandleDataDetection(s, committed);
    assert forall h: nat :: Pending(s', h) ==> Pending(s, h);
  }

  lemma LivenessKeeps(c: Limits, s: Scheduler, committed: nat, now: int)
    requires SchedInv(c, s, committed) && c.batch >= 1 && c.maxPending >= 1
    ensures var s' := HandleLiveness(c, s, committed, now);
            && SchedInv(c, s', committed) && s'.pendingRecvHeight == s.pendingRecvHeight
            && (forall h: nat :: Arrived(s', h) ==> Arrived(s, h))
  {
    var s' := HandleLiveness(c, s, committed, now);
    assert forall h: nat :: Pending(s', h) ==> Pending(s, h);
  }

  lemma RequestKeeps(c: Limits, s: Scheduler, committed: nat, height: nat, p: Peer, now: int)
    requires SchedInv(c, s, committed) && p in s.peers && height <= committed + c.maxPending
    ensures var s' := Request(c, s, height, p, now);
            && SchedInv(c, s', committed) && s'.pendingRecvHeight == s.pendingRecvHeight
            && (forall h: nat :: Arrived(s', h) ==> Arrived(s, h))
  {
    var s' := Request(c, s, height, p, now);
    assert forall h: nat :: Pending(s', h) ==> Pending(s, h) || h in Batch(height, s.peers[p], c.batch);
  }

  lemma ScheduleKeeps(c: Limits, s: Scheduler, committed: nat, now: int)
    requires SchedInv(c, s, committed)
    ensures var s' := HandleSchedule(c, s, committed, now);
            && SchedInv(c, s', committed) && s'.pendingRecvHeight == s.pendingRecvHeight
            && (forall h: nat :: Arrived(s', h) ==> Arrived(s, h))
  {
    var s' := HandleSchedule(c, s, committed, now);
    var next := NextNew(s.states);
    if s' != s {
      if next.value < s.pendingRecvHeight {
        assert forall h: nat :: Pending(s', h) ==> Pending(s, h);
      } else {
        RequestKeeps(c, s, committed, next.value, SelectPeer(s, next.value), now);
      }
    }
  }

  lemma SyncedKeeps(c: Limits, s: Scheduler, committed: nat, blocks: seq<Block>, from: Peer)
    requires SchedInv(c, s, committed)
    ensures var s' := HandleSynced(s, blocks, from);
            && SchedInv(c, s', committed) && s'.pendingRecvHeight == s.pendingRecvHeight
            && (forall h: nat :: Arrived(s', h) ==>
                 Arrived(s, h) || (h in Heights(blocks) && NeedsProcessing(s, blocks)))
  {
    var s' := HandleSynced(s, blocks, from);
    forall h: nat | Pending(s', h) ensures Pending(s, h) && h !in Heights(blocks) {}
    forall h: nat | Arrived(s', h) && !Arrived(s, h) ensures h in Heights(blocks) && NeedsProcessing(s, blocks) {
      assert h in Heights(blocks) * s.states.Keys;
    }
  }

  lemma ResponseKeeps(c: Limits, s: Scheduler, committed: nat, r: Response)
    requires SchedInv(c, s, committed) && ResponseOk(r, committed) && c.batch >= 1 && c.maxPending >= 1
    ensures var s' := HandleResponse(s, r);
            && SchedInv(c, s', committed) && s'.pendingRecvHeight >= s.pendingRecvHeight
            && (forall h: nat :: Arrived(s', h) ==> Arrived(s, h) && h != r.height)
  {
    var t := s.(receivedBlocks := s.receivedBlocks - {r.height});
    DroppedKeeps(c, s, t, committed);
    if Success(r.status) {
      AdvanceKeeps(c, t, committed, r.height);
    } else {
      RetryKeeps(c, t, committed, r.height, s.peers - {r.from});
    }
  }

  lemma DroppedKeeps(c: Limits, s: Scheduler, s': Scheduler, committed: nat)
    requires SchedInv(c, s, committed) && s' == s.(receivedBlocks := s'.receivedBlocks)
    requires s'.receivedBlocks.Keys <= s.receivedBlocks.Keys
    ensures SchedInv(c, s', committed) && forall h: nat :: Arrived(s', h) ==> Arrived(s, h)
  {
    assert forall h: nat :: Pending(s', h) ==> Pending(s, h);
  }

  lemma AdvanceKeeps(c: Limits, s: Scheduler, committed: nat, height: nat)
    requires SchedInv(c, s, committed) && height <= committed
    ensures var s' := Advance(s, height);
            && SchedInv(c, s', committed) && s'.pendingRecvHeight >= s.pendingRecvHeight
            && (forall h: nat :: Arrived(s', h) ==> Arrived(s, h) && h != height)
  {
    assert forall h: nat :: Pending(Advance(s, height), h) ==> Pending(s, h);
  }

  lemma RetryKeeps(c: Limits, s: Scheduler, committed: nat, height: nat, peers: map<Peer, nat>)
    requires SchedInv(c, s, committed) && height <= committed + 1 && c.batch >= 1 && c.maxPending >= 1
    ensures var s' := s.(states := s.states[height := NewBlock], peers := peers);
            SchedInv(c, s', committed) && forall h: nat :: Arrived(s', h) ==> Arrived(s, h) && h != height
  {
    assert forall h: nat :: Pending(s.(states := s.states[height := NewBlock], peers := peers), h) ==> Pending(s, h);
  }

  // ---------------------------------------------------------------- the system

  lemma SchedulerStepKeeps(c: Limits, y: System, s': Scheduler)
    requires Inv(c, y) && SchedInv(c, s', y.committed) && forall h: nat :: Arrived(s', h) ==> Arrived(y.sched, h)
    ensures Inv(c, y.(sched := s'))
  {
    var y' := y.(sched := s');
    assert forall h: nat :: InPipeline(y, h) ==> InPipeline(y', h);
  }

  lemma SyncedStepKeeps(c: Limits, y: System, blocks: seq<Block>, from: Peer)
    requires Inv(c, y)
    ensures Inv(c, Step(c, y, Synced(blocks, from)))
  {
    var y' := Step(c, y, Synced(blocks, from));
    SyncedKeeps(c, y.sched, y.committed, blocks, from);
    forall h: nat | Arrived(y'.sched, h) && h > y.committed ensures InPipeline(y', h) {
      if Arrived(y.sched, h) {
        assert InPipeline(y, h);
        assert forall m :: m in y.toProcessor ==> m in y'.toProcessor;
      } else {
        assert y'.toProcessor[|y.toProcessor|] == ReceivedBlocks(blocks, from);
      }
    }
  }

  lemma WithoutKeepsOthers<T>(s: seq<T>, i: nat, x: T)
    requires i < |s| && x in s && x != s[i]
    ensures x in Without(s, i)
  {
    var k :| 0 <= k < |s| && s[k] == x;
    assert Without(s, i)[if k < i then k else k - 1] == x;
  }

  lemma RespondedStepKeeps(c: Limits, y: System, i: nat)
    requires Inv(c, y) && i < |y.toScheduler| && c.batch >= 1 && c.maxPending >= 1
    ensures Inv(c, Step(c, y, Responded(i)))
    ensures Step(c, y, Responded(i)).sched.pendingRecvHeight >= y.sched.pendingRecvHeight
  {
    var r, y' := y.toScheduler[i], Step(c, y, Responded(i));
    ResponseKeeps(c, y.sched, y.committed, r);
    forall h: nat | Arrived(y'.sched, h) && h > y.committed ensures InPipeline(y', h) {
      assert InPipeline(y, h);
      forall q | q in y.toScheduler && q.height == h ensures q in y'.toScheduler {
        WithoutKeepsOthers(y.toScheduler, i, q);
      }
    }
  }

  lemma ReceivedStepKeeps(c: Limits, y: System, i: nat)
    requires Inv(c, y) && i < |y.toProcessor|
    ensures Inv(c, Step(c, y, Received(i)))
  {
    var m, y' := y.toProcessor[i], Step(c, y, Received(i));
    forall h | h in Heights(m.blocks) ensures FirstAt(m.blocks, h).height == h { FirstAtHeight(m.blocks, h); }
    forall h: nat | Arrived(y'.sched, h) && h > y.committed ensures InPipeline(y', h) {
      assert InPipeline(y, h);
      forall q | q in y.toProcessor && q != m ensures q in y'.toProcessor { WithoutKeepsOthers(y.toProcessor, i, q); }
    }
  }

  lemma {:induction false} FirstAtHeight(blocks: seq<Block>, h: nat)
    requires h in Heights(blocks)
    ensures FirstAt(blocks, h).height == h
    decreases |blocks|
  {
    if blocks[0].height != h {
      assert blocks == [blocks[0]] + blocks[1..];
      FirstAtHeight(blocks[1..], h);
    }
  }

  lemma ProcessStepKeeps(c: Limits, y: System, a: Action)
    requires Inv(c, y) && a.Process? && Legal(y, a)
    ensures Inv(c, Step(c, y, a))
  {
    var y', h := Step(c, y, a), y.committed + 1;
    if h in y.queue {
      var r := y'.toScheduler[|y.toScheduler|];
      assert r.height == h;
      forall k: nat | Arrived(y'.sched, k) && k > y'.committed ensures InPipeline(y', k) {
        assert InPipeline(y, k);
        assert r in y'.toScheduler;
        assert forall q :: q in y.toScheduler ==> q in y'.toScheduler;
      }
    } else {
      assert forall k: nat :: InPipeline(y, k) ==> InPipeline(y', k);
    }
  }

  lemma LedgerStepKeeps(c: Limits, y: System, a: Action)
    requires Inv(c, y) && (a.OutsideCommit? || a.ProcessorDetection?) && Legal(y, a)
    ensures Inv(c, Step(c, y, a))
  {
    var y' := Step(c, y, a);
    assert forall h: nat :: InPipeline(y, h) && h > y.committed ==> InPipeline(y', h);
  }

  /** Every step keeps the invariant, and neither the next height nor the ledger goes back. */
  lemma StepKeepsInv(c: Limits, y: System, a: Action)
    requires Inv(c, y) && Legal(y, a) && c.batch >= 1 && c.maxPending >= 1
    ensures var y' := Step(c, y, a);
            Inv(c, y') && y'.sched.pendingRecvHeight >= y.sched.pendingRecvHeight && y'.committed >= y.committed
  {
    var y' := Step(c, y, a);
    match a {
      case NodeStatus(from, height, archived, local) =>
        NodeStatusKeeps(c, y.sched, y.committed, from, height, archived, local);
        SchedulerStepKeeps(c, y, y'.sched);
      case Liveness(now) =>
        LivenessKeeps(c, y.sched, y.committed, now);
        SchedulerStepKeeps(c, y, y'.sched);
      case Schedule(now) =>
        ScheduleKeeps(c, y.sched, y.committed, now);
        SchedulerStepKeeps(c, y, y'.sched);
      case SchedulerDetection =>
        DetectionKeeps(c, y.sched, y.committed);
        SchedulerStepKeeps(c, y, y'.sched);
      case Synced(blocks, from) => SyncedStepKeeps(c, y, blocks, from);
      case Responded(i) => RespondedStepKeeps(c, y, i);
      case Received(i) => ReceivedStepKeeps(c, y, i);
      case Process(_, _, _, _) => ProcessStepKeeps(c, y, a);
      case _ => LedgerStepKeeps(c, y, a);
    }
  }

  ghost predicate LegalRun(c: Limits, y: System, acts: seq<Action>)
    decreases |acts|
  {
    acts == [] || (Legal(y, acts[0]) && LegalRun(c, Step(c, y, acts[0]), acts[1..]))
  }

  ghost function Run(c: Limits, y: System, acts: seq<Action>): System
    requires LegalRun(c, y, acts)
    decreases |acts|
  {
    if acts == [] then y else Run(c, Step(c, y, acts[0]), acts[1..])
  }

  function Started(committed: nat): System {
    System(Scheduler(map[], map[], map[], map[], map[], 0, committed + 1), map[], 0, committed, [], [])
  }

  lemma {:induction false} RunKeepsInv(c: Limits, y: System, acts: seq<Action>)
    requires Inv(c, y) && LegalRun(c, y, acts) && c.batch >= 1 && c.maxPending >= 1
    ensures var y' := Run(c, y, acts);
            Inv(c, y') && y'.sched.pendingRecvHeight >= y.sched.pendingRecvHeight && y'.committed >= y.committed
    decreases |acts|
  {
    if acts != [] {
      StepKeepsInv(c, y, acts[0]);
      RunKeepsInv(c, Step(c, y, acts[0]), acts[1..]);
    }
  }

  /** In every run from a start, the next height stays within the ledger's, requests carry their
      time, what is tracked stays near the ledger, and no height above the ledger is stuck: it
      is still to be asked for, asked of a peer, or on its way through the processor. */
  lemma EveryRunIsSafe(c: Limits, committed: nat, acts: seq<Action>)
    requires LegalRun(c, Started(committed), acts) && c.batch >= 1 && c.maxPending >= 1
    ensures var y := Run(c, Started(committed), acts);
            && y.sched.pendingRecvHeight <= y.committed + 1
            && y.sched.pendingTime.Keys == y.sched.pendingBlocks.Keys
            && TrackedBelow(y.sched, y.committed + c.maxPending + c.batch)
            && (forall h :: h in y.sched.states && h > y.committed ==>
                  y.sched.states[h].NewBlock? || h in y.sched.pendingBlocks || InPipeline(y, h))
  {
    RunKeepsInv(c, Started(committed), acts);
    var y := Run(c, Started(committed), acts);
    forall h | h in y.sched.states && h > y.committed
      ensures y.sched.states[h].NewBlock? || h in y.sched.pendingBlocks || InPipeline(y, h)
    {
      assert Pending(y.sched, h) || Arrived(y.sched, h) || y.sched.states[h].NewBlock?;
    }
  }

  // ---------------------------------------------------------------- how a missing block gets in

  ghost predicate PeerAhead(s: Scheduler, committed: nat) {
    "" !in s.peers && exists p :: p in s.peers && s.peers[p] > committed + 1
  }

  /** The next height is known and still to be asked for; nothing below `least` is. */
  ghost predicate Ready(s: Scheduler, committed: nat, least: nat) {
    && s.pendingRecvHeight == committed + 1 && committed + 1 in s.states && s.states[committed + 1].NewBlock?
    && PeerAhead(s, committed) && forall h :: h in s.states && s.states[h].NewBlock? ==> h >= least
  }

  /** The next block is being asked of a peer that has it. */
  ghost predicate Requested(s: Scheduler, committed: nat) {
    var h := committed + 1;
    && Pending(s, h) && h in s.pendingBlocks && s.pendingBlocks[h] in s.peers && s.peers[s.pendingBlocks[h]] >= h
    && forall k :: k in s.states && s.states[k].NewBlock? ==> k > h
  }

  lemma AnnouncedIsReady(c: Limits, s: Scheduler, committed: nat, from: Peer, height: nat, local: nat)
    requires height > committed + 1 && (from in s.peers ==> s.peers[from] <= height) && from != "" && "" !in s.peers
    ensures Ready(HandleNodeStatus(c, HandleDataDetection(s, committed), from, height, 0, local, committed), committed,
        committed)
  {
    var t := HandleDataDetection(s, committed);
    AddedIsReady(c, t.(peers := t.peers[from := height]), committed, from, height);
  }

  lemma AddedIsReady(c: Limits, s: Scheduler, committed: nat, from: Peer, height: nat)
    requires s.pendingRecvHeight == committed + 1 && committed + 1 in s.states && s.states[committed + 1].NewBlock?
    requires forall h :: h in s.states && s.states[h].NewBlock? ==> h >= committed
    requires "" !in s.peers && from in s.peers && s.peers[from] == height && height > committed + 1
    ensures Ready(AddPending(c, s, committed, height), committed, committed)
  {
    var s' := AddPending(c, s, committed, height);
    assert from in s'.peers && s'.peers[from] > committed + 1;
  }

  lemma ReadyIsRequested(c: Limits, s: Scheduler, committed: nat, now: int)
    requires Ready(s, committed, committed) && c.batch >= 1
    ensures var s' := HandleSchedule(c, s, committed, now);
            Ready(s', committed, committed + 1) || Requested(s', committed)
  {
    var next := NextNew(s.states).value;
    if next == committed {
      assert HandleSchedule(c, s, committed, now) == s.(states := s.states - {next});
    } else {
      CleanIsRequested(c, s, committed, now);
    }
  }

  lemma CleanIsRequested(c: Limits, s: Scheduler, committed: nat, now: int)
    requires Ready(s, committed, committed + 1) && c.batch >= 1
    ensures Requested(HandleSchedule(c, s, committed, now), committed)
  {
    var h := committed + 1;
    assert NextNew(s.states) == Some(h);
    var p := SelectPeer(s, h);
    assert IsBestPeer(s, h, p);
    var s' := Request(c, s, h, p, now);
    assert h in Batch(h, s.peers[p], c.batch);
  }

  lemma RequestedStays(c: Limits, s: Scheduler, committed: nat, now: int)
    requires Requested(s, committed)
    ensures Requested(HandleSchedule(c, s, committed, now), committed)
  {
    var s' := HandleSchedule(c, s, committed, now);
    var next := NextNew(s.states);
    if s' != s && s'.states.Keys >= s.states.Keys {
      assert committed + 1 !in Batch(next.value, s.peers[SelectPeer(s, next.value)], c.batch);
    }
  }

  /** After a detection and one word from a peer that is ahead, at most two scheduling turns
      have the next block asked of a peer that has it. */
  lemma NextBlockIsRequested(
      c: Limits, s: Scheduler, committed: nat, from: Peer, height: nat, local: nat, now: int, now': int)
    requires c.batch >= 1
    requires height > committed + 1 && (from in s.peers ==> s.peers[from] <= height) && from != "" && "" !in s.peers
    ensures var s1 := HandleNodeStatus(c, HandleDataDetection(s, committed), from, height, 0, local, committed);
            Requested(HandleSchedule(c, HandleSchedule(c, s1, committed, now), committed, now'), committed)
  {
    var s1 := HandleNodeStatus(c, HandleDataDetection(s, committed), from, height, 0, local, committed);
    AnnouncedIsReady(c, s, committed, from, height, local);
    ReadyIsRequested(c, s1, committed, now);
    var s2 := HandleSchedule(c, s1, committed, now);
    if Ready(s2, committed, committed + 1) {
      CleanIsRequested(c, s2, committed, now');
    } else {
      RequestedStays(c, s2, committed, now');
    }
  }

  lemma SyncedOne(c: Limits, y: System, b: Block, from: Peer)
    requires b.height in y.sched.states
    ensures Step(c, y, Synced([b], from))
         == y.(sched := HandleSynced(y.sched, [b], from), toProcessor := y.toProcessor + [ReceivedBlocks([b], from)])
  {
    assert b.height in Heights([b]) * y.sched.states.Keys;
  }

  lemma ReceivedLast(c: Limits, y: System, waiting: seq<ReceivedBlocks>, b: Block, from: Peer)
    requires y.toProcessor == waiting + [ReceivedBlocks([b], from)] && b.height > y.committed
    ensures var y' := Step(c, y, Received(|waiting|));
            y' == y.(queue := y'.queue, toProcessor := waiting) && b.height in y'.queue
  {
    assert Without(y.toProcessor, |waiting|) == waiting;
    assert y.toProcessor[|waiting|] == ReceivedBlocks([b], from);
    assert b.height in Heights([b]);
  }

  /** A block for the next height that arrives and is taken by the processor is in its queue. */
  lemma ArrivedBlockIsQueued(c: Limits, y: System, b: Block, from: Peer)
    requires Inv(c, y) && b.height == y.committed + 1 && b.height in y.sched.states
    ensures var y1 := Step(c, y, Synced([b], from));
            && Legal(y1, Received(|y.toProcessor|))
            && var y2 := Step(c, y1, Received(|y.toProcessor|));
            Inv(c, y2) && b.height in y2.queue && y2 == y.(sched := y2.sched, queue := y2.queue)
  {
    var y1 := Step(c, y, Synced([b], from));
    SyncedOne(c, y, b, from);
    SyncedStepKeeps(c, y, [b], from);
    ReceivedStepKeeps(c, y1, |y.toProcessor|);
    ReceivedLast(c, y1, y.toProcessor, b, from);
  }

  /** A queued block for the next height that passes is in the ledger, and the scheduler moves
      past it. */
  lemma QueuedBlockCommits(c: Limits, y: System, after: nat)
    requires Inv(c, y) && y.committed + 1 in y.queue && after > y.committed
    ensures && Legal(y, Process(y.committed, Accepted, Accepted, after))
            && var y1 := Step(c, y, Process(y.committed, Accepted, Accepted, after));
            && Legal(y1, Responded(|y.toScheduler|))
            && var y2 := Step(c, y1, Responded(|y.toScheduler|));
            && y2.committed == after && y2.processed == y.processed + 1 && y2.toScheduler == y.toScheduler
            && y.committed + 1 !in y2.queue && y.committed + 1 !in y2.sched.states
                 && y2.sched.pendingRecvHeight == y.committed + 2
  {
    var y1 := Step(c, y, Process(y.committed, Accepted, Accepted, after));
    assert Without(y1.toScheduler, |y.toScheduler|) == y.toScheduler;
  }
}
