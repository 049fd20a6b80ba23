/**
 A chain of blocks, each executed on a snapshot over the one before and committed in turn. A
 block may run partly before its predecessor commits and partly after. Since a commit changes no
 read, its log is one admitted over the committed store alone, so every commit of the chain
 keeps the reads of the next block.
 */
module CommitChain {
  import opened Options
  import opened RWSets
  import opened Snapshots
  import opened BlockCommit
  import S = Serializability

  // ---------------------------------------------------------------- views that agree

  ghost predicate AgreeOn(names: set<string>, base: View, base': View) {
    forall l: Loc :: l.contract in names ==> base(l) == base'(l)
  }

  lemma StepAgrees(base: View, base': View, names: set<string>, w: S.World, a: S.Action)
    requires AgreeOn(names, base, base') && S.Legal(names, w, a)
    ensures S.Step(base, w, a) == S.Step(base', w, a)
  {
  }

  ghost predicate LegalAt(base: View, names: set<string>, w: S.World, actions: seq<S.Action>, k: nat)
    requires k < |actions|
  {
    S.Legal(names, S.Run(base, w, actions[..k]), actions[k])
  }

  /** Every action is legal where the run has come from `w`. */
  ghost predicate LegalFrom(base: View, names: set<string>, w: S.World, actions: seq<S.Action>) {
    forall k :: 0 <= k < |actions| ==> LegalAt(base, names, w, actions, k)
  }

  lemma LegalBefore(base: View, names: set<string>, w: S.World, actions: seq<S.Action>, n: nat)
    requires LegalFrom(base, names, w, actions) && n <= |actions|
    ensures LegalFrom(base, names, w, actions[..n])
  {
    forall k | 0 <= k < n ensures LegalAt(base, names, w, actions[..n], k) {
      assert LegalAt(base, names, w, actions, k);
      assert actions[..n][..k] == actions[..k];
    }
  }

  lemma LegalRunIs(base: View, names: set<string>, actions: seq<S.Action>)
    ensures LegalFrom(base, names, S.EMPTY, actions) <==> S.LegalRun(base, names, actions)
  {
    if LegalFrom(base, names, S.EMPTY, actions) {
      forall k | 0 <= k < |actions| ensures S.Legal(names, S.Run(base, S.EMPTY, actions[..k]), actions[k]) {
        assert LegalAt(base, names, S.EMPTY, actions, k);
      }
    }
  }

  lemma LastAgrees(base: View, base': View, names: set<string>, w: S.World, actions: seq<S.Action>)
    requires actions != [] && AgreeOn(names, base, base') && LegalAt(base, names, w, actions, |actions| - 1)
    requires var front := actions[..|actions| - 1]; S.Run(base, w, front) == S.Run(base', w, front)
    ensures S.Run(base, w, actions) == S.Run(base', w, actions)
  {
    StepAgrees(base, base', names, S.Run(base, w, actions[..|actions| - 1]), actions[|actions| - 1]);
  }

  /** Over views that agree on `names`, legal runs are the same. */
  lemma {:induction false} RunAgrees(
      base: View, base': View, names: set<string>, w: S.World, actions: seq<S.Action>)
    requires AgreeOn(names, base, base') && LegalFrom(base, names, w, actions)
    ensures S.Run(base, w, actions) == S.Run(base', w, actions)
    decreases |actions|
  {
    if actions != [] {
      LegalBefore(base, names, w, actions, |actions| - 1);
      RunAgrees(base, base', names, w, actions[..|actions| - 1]);
      LastAgrees(base, base', names, w, actions);
    }
  }

  lemma LegalAgrees(base: View, base': View, names: set<string>, w: S.World, actions: seq<S.Action>)
    requires AgreeOn(names, base, base') && LegalFrom(base, names, w, actions)
    ensures LegalFrom(base', names, w, actions)
  {
    forall k | 0 <= k < |actions| ensures LegalAt(base', names, w, actions, k) {
      assert LegalAt(base, names, w, actions, k);
      LegalBefore(base, names, w, actions, k);
      RunAgrees(base, base', names, w, actions[..k]);
    }
  }

  lemma {:induction false} RunInTurn(base: View, w: S.World, xs: seq<S.Action>, ys: seq<S.Action>)
    ensures S.Run(base, w, xs + ys) == S.Run(base, S.Run(base, w, xs), ys)
    decreases |ys|
  {
    if ys == [] {
      assert xs + ys == xs;
    } else {
      var front := ys[..|ys| - 1];
      assert (xs + ys)[..|xs + ys| - 1] == xs + front;
      RunInTurn(base, w, xs, front);
    }
  }

  lemma LegalInTurn(base: View, names: set<string>, w: S.World, xs: seq<S.Action>, ys: seq<S.Action>)
    requires LegalFrom(base, names, w, xs) && LegalFrom(base, names, S.Run(base, w, xs), ys)
    ensures LegalFrom(base, names, w, xs + ys)
  {
    var all := xs + ys;
    forall k | 0 <= k < |all| ensures LegalAt(base, names, w, all, k) {
      if k < |xs| {
        LegalSooner(base, names, w, xs, ys, k);
      } else {
        LegalLater(base, names, w, xs, ys, k);
      }
    }
  }

  lemma LegalSooner(base: View, names: set<string>, w: S.World, xs: seq<S.Action>, ys: seq<S.Action>, k: nat)
    requires k < |xs| && LegalFrom(base, names, w, xs)
    ensures LegalAt(base, names, w, xs + ys, k)
  {
    assert LegalAt(base, names, w, xs, k);
    assert (xs + ys)[..k] == xs[..k];
  }

  lemma LegalLater(base: View, names: set<string>, w: S.World, xs: seq<S.Action>, ys: seq<S.Action>, k: nat)
    requires |xs| <= k < |xs + ys| && LegalFrom(base, names, S.Run(base, w, xs), ys)
    ensures LegalAt(base, names, w, xs + ys, k)
  {
    var j := k - |xs|;
    assert LegalAt(base, names, S.Run(base, w, xs), ys, j);
    assert (xs + ys)[..k] == xs + ys[..j] && (xs + ys)[k] == ys[j];
    RunInTurn(base, w, xs, ys[..j]);
  }

  // ---------------------------------------------------------------- across a commit

  /** The log of a block whose first actions saw `before` and whose later ones saw `after`. */
  ghost predicate AdmittedAcross(names: set<string>, before: View, after: View,
                                 early: seq<S.Action>, late: seq<S.Action>, log: seq<TxRWSet>)
  {
    var w := S.Run(before, S.EMPTY, early);
    && LegalFrom(before, names, S.EMPTY, early) && LegalFrom(after, names, w, late)
    && log == S.Sets(S.Run(after, w, late).log)
  }

  lemma AcrossIsAdmitted(names: set<string>, before: View, after: View,
                         early: seq<S.Action>, late: seq<S.Action>, log: seq<TxRWSet>)
    requires AgreeOn(names, before, after) && AdmittedAcross(names, before, after, early, late, log)
    ensures S.LegalRun(after, names, early + late) && log == Admitted(after, early + late)
  {
    RunAgrees(before, after, names, S.EMPTY, early);
    LegalAgrees(before, after, names, S.EMPTY, early);
    LegalInTurn(after, names, S.EMPTY, early, late);
    LegalRunIs(after, names, early + late);
    RunInTurn(after, S.EMPTY, early, late);
  }

  lemma CommitKeepsView(names: set<string>, store: Store, actions: seq<S.Action>)
    requires PrefixFree(names) && S.LegalRun(StoreView(store), names, actions)
    ensures var bottom := Admitted(StoreView(store), actions);
            AgreeOn(names, StackView([bottom], store), StoreView(CommitAll(store, bottom)))
  {
    var bottom := Admitted(StoreView(store), actions);
    AdmittedIsHonest(StoreView(store), names, actions);
    forall l: Loc | l.contract in names
      ensures LayersGet([bottom], store, l) == ReadObject(CommitAll(store, bottom), l)
    {
      CommitPreservesReads([], bottom, store, names, l);
      assert [] + [bottom] == [bottom];
    }
  }

  // ---------------------------------------------------------------- a chain of commits

  /** The store once the first `k` blocks are committed. */
  function StoreAfter(store: Store, logs: seq<seq<TxRWSet>>, k: nat): Store
    requires k <= |logs|
  {
    if k == 0 then store else CommitAll(StoreAfter(store, logs, k - 1), logs[k - 1])
  }

  /** What block `k` runs over until its predecessor commits. */
  function Below(store: Store, logs: seq<seq<TxRWSet>>, k: nat): View
    requires k < |logs|
  {
    if k == 0 then StoreView(store) else StackView([logs[k - 1]], StoreAfter(store, logs, k - 1))
  }

  ghost predicate AdmittedAt(names: set<string>, store: Store, logs: seq<seq<TxRWSet>>,
                             early: seq<seq<S.Action>>, late: seq<seq<S.Action>>, k: nat)
    requires |early| == |late| == |logs| && k < |logs|
  {
    AdmittedAcross(names, Below(store, logs, k), StoreView(StoreAfter(store, logs, k)), early[k], late[k], logs[k])
  }

  ghost predicate AdmittedChain(names: set<string>, store: Store, logs: seq<seq<TxRWSet>>,
                                early: seq<seq<S.Action>>, late: seq<seq<S.Action>>)
  {
    |early| == |late| == |logs| && forall k :: 0 <= k < |logs| ==> AdmittedAt(names, store, logs, early, late, k)
  }

  /** However a block's run fell around the commit of its predecessor, it is one over the store
      with all earlier blocks committed. */
  lemma {:induction false} ChainStaysAdmitted(names: set<string>, store: Store, logs: seq<seq<TxRWSet>>,
                                              early: seq<seq<S.Action>>, late: seq<seq<S.Action>>, k: nat)
    requires PrefixFree(names) && AdmittedChain(names, store, logs, early, late) && k < |logs|
    ensures var base := StoreView(StoreAfter(store, logs, k));
            S.LegalRun(base, names, early[k] + late[k]) && logs[k] == Admitted(base, early[k] + late[k])
  {
    assert AdmittedAt(names, store, logs, early, late, k);
    if k > 0 {
      ChainStaysAdmitted(names, store, logs, early, late, k - 1);
      CommitKeepsView(names, StoreAfter(store, logs, k - 1), early[k - 1] + late[k - 1]);
    }
    AcrossIsAdmitted(
      names, Below(store, logs, k), StoreView(StoreAfter(store, logs, k)), early[k], late[k], logs[k]);
  }

  /** Each commit of the chain leaves the next block's reads as they were. */
  lemma ChainReadsSurvive(names: set<string>, store: Store, logs: seq<seq<TxRWSet>>,
                          early: seq<seq<S.Action>>, late: seq<seq<S.Action>>, k: nat)
    requires PrefixFree(names) && AdmittedChain(names, store, logs, early, late) && k + 1 < |logs|
    ensures ReadAlike(names, [logs[k + 1], logs[k]], StoreAfter(store, logs, k),
                      [logs[k + 1]], StoreAfter(store, logs, k + 1))
  {
    ChainStaysAdmitted(names, store, logs, early, late, k);
    BottomCommits(names, logs[k + 1], StoreAfter(store, logs, k), early[k] + late[k]);
  }

  /** The logs of the first `k` blocks as one. */
  function Joined(logs: seq<seq<TxRWSet>>, k: nat): seq<TxRWSet>
    requires k <= |logs|
  {
    if k == 0 then [] else Joined(logs, k - 1) + logs[k - 1]
  }

  lemma ValueInTurn(store: Store, older: seq<TxRWSet>, committed: Store, newer: seq<TxRWSet>, l: Loc)
    requires ReadObject(committed, l) == ValueAfter(StoreView(store), older, l)
    ensures ValueAfter(StoreView(committed), newer, l) == ValueAfter(StoreView(store), older + newer, l)
  {
    ValueAfterIsLastValue(StoreView(committed), newer, l);
    ValueAfterIsLastValue(StoreView(store), older, l);
    ValueAfterIsLastValue(StoreView(store), older + newer, l);
    LastValueOfBoth(older, newer, l);
  }

  lemma {:induction false} StoreIsReplay(store: Store, logs: seq<seq<TxRWSet>>, k: nat, l: Loc)
    requires k <= |logs|
    ensures ReadObject(StoreAfter(store, logs, k), l) == ValueAfter(StoreView(store), Joined(logs, k), l)
  {
    if k > 0 {
      StoreIsReplay(store, logs, k - 1, l);
      CommitAllRead(StoreAfter(store, logs, k - 1), logs[k - 1], l);
      ValueInTurn(store, Joined(logs, k - 1), StoreAfter(store, logs, k - 1), logs[k - 1], l);
    }
  }

  /** With `k` blocks committed, the snapshot of block `k` reads as the first `k + 1` blocks replayed. */
  lemma ChainReadsAsReplay(names: set<string>, store: Store, logs: seq<seq<TxRWSet>>,
                           early: seq<seq<S.Action>>, late: seq<seq<S.Action>>, k: nat, l: Loc)
    requires PrefixFree(names) && AdmittedChain(names, store, logs, early, late) && k < |logs| && l.contract in names
    ensures LayersGet([logs[k]], StoreAfter(store, logs, k), l)
         == ValueAfter(StoreView(store), Joined(logs, k + 1), l)
  {
    var committed := StoreAfter(store, logs, k);
    ChainStaysAdmitted(names, store, logs, early, late, k);
    AdmittedIsHonest(StoreView(committed), names, early[k] + late[k]);
    CacheIsTransparent(StoreView(committed), names, logs[k], l);
    StoreIsReplay(store, logs, k, l);
    ValueInTurn(store, Joined(logs, k), committed, logs[k], l);
    assert [logs[k]][1..] == [];
  }

  // ---------------------------------------------------------------- the manager over a chain

  method Fill(s: Snapshot, log: seq<TxRWSet>)
    requires s.Valid() && s.txRWSetTable == []
    modifies s`readTable, s`writeTable, s`txRWSetTable, s`txResultMap, s`txTable
    ensures s.Valid() && s.txRWSetTable == log
  {
    for i := 0 to |log|
      invariant s.Valid() && s.txRWSetTable == log[..i]
    {
      s.Apply("", log[i], "");
      assert log[..i + 1] == log[..i] + [log[i]];
    }
    assert log[..|log|] == log;
  }

  /** The manager holds one snapshot, which stands on the store. */
  ghost predicate OnlyHolds(m: Manager, fp: FingerPrint, s: Snapshot)
    reads m, s
  {
    m.snapshots == map[fp := s] && s.fp == fp && s.preSnapshot == null && s.Valid()
  }

  /** A block arrives on top of the only one held, which then commits. */
  method Advance(m: Manager, s: Snapshot, committed: FingerPrint, block: FingerPrint, log: seq<TxRWSet>)
    returns (t: Snapshot)
    requires m.Valid() && OnlyHolds(m, committed, s) && committed.height < block.height
    modifies m, s`preSnapshot
    ensures m.Valid() && fresh(t) && OnlyHolds(m, block, t) && t.txRWSetTable == log
  {
    t := Arrive(m, s, committed, block, log);
    m.NotifyBlockCommitted(committed);
    assert m.snapshots == map[block := t];
  }

  method Arrive(m: Manager, s: Snapshot, below: FingerPrint, block: FingerPrint, log: seq<TxRWSet>)
    returns (t: Snapshot)
    requires m.Valid() && OnlyHolds(m, below, s) && below.height < block.height
    modifies m
    ensures m.Valid() && fresh(t) && t.Valid() && t.fp == block && t.preSnapshot == s && t.txRWSetTable == log
    ensures m.snapshots == map[below := s, block := t] && !m.Condemned(block, below.height)
  {
    t := m.NewSnapshot(below, block);
    Fill(t, log);
  }

  /** Through a whole chain of blocks, each made on the one before and committed once the next is
      there, the manager ends with the last block's snapshot, which reads as the chain replayed. */
  method CommitInTurn(
      fps: seq<FingerPrint>, parent: FingerPrint, logs: seq<seq<TxRWSet>>, ghost store: Store,
      ghost names: set<string>, ghost early: seq<seq<S.Action>>, ghost late: seq<seq<S.Action>>)
    returns (m: Manager, s: Snapshot)
    requires |fps| == |logs| > 0 && parent != fps[0]
    requires forall k :: 0 < k < |fps| ==> fps[k - 1].height < fps[k].height
    requires PrefixFree(names) && AdmittedChain(names, store, logs, early, late)
    ensures m.Valid() && OnlyHolds(m, fps[|fps| - 1], s) && s.Layers({s}) == [logs[|logs| - 1]]
    ensures forall l: Loc :: l.contract in names ==>
      LayersGet(s.Layers({s}), StoreAfter(store, logs, |logs| - 1), l)
        == ValueAfter(StoreView(store), Joined(logs, |logs|), l)
  {
    m := new Manager();
    s := m.NewSnapshot(parent, fps[0]);
    Fill(s, logs[0]);
    for k := 1 to |fps|
      invariant fresh(m) && fresh(s) && m.Valid() && OnlyHolds(m, fps[k - 1], s) && s.txRWSetTable == logs[k - 1]
    {
      s := Advance(m, s, fps[k - 1], fps[k], logs[k]);
    }
    forall l: Loc | l.contract in names
      ensures LayersGet([logs[|logs| - 1]], StoreAfter(store, logs, |logs| - 1), l)
           == ValueAfter(StoreView(store), Joined(logs, |logs|), l)
    {
      ChainReadsAsReplay(names, store, logs, early, late, |logs| - 1, l);
    }
  }
}
