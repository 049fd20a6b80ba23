/**
 A block commits under snapshots that stand on it: what the snapshots above read before the
 manager is notified and after. Logs are those of any admitted interleaving, so every cache is
 honest, and the links are those the manager really keeps and cuts.
 */
module BlockCommit {
  import opened Options
  import opened RWSets
  import opened Snapshots
  import S = Serializability

  /** The log a snapshot holds after an interleaving over what lies below it. */
  ghost function Admitted(base: View, actions: seq<S.Action>): seq<TxRWSet> {
    S.Sets(S.Run(base, S.EMPTY, actions).log)
  }

  lemma AdmittedIsHonest(base: View, names: set<string>, actions: seq<S.Action>)
    requires PrefixFree(names) && S.LegalRun(base, names, actions)
    ensures InNames(names, Admitted(base, actions)) && HonestCache(base, names, Admitted(base, actions))
  {
    S.RunKeepsInv(base, names, actions);
  }

  /** Each layer's log was admitted, through some interleaving, over the layers below it. */
  ghost predicate AdmittedStack(names: set<string>, layers: seq<seq<TxRWSet>>, runs: seq<seq<S.Action>>, store: Store) {
    && |runs| == |layers|
    && (layers == [] ||
        (&& S.LegalRun(StackView(layers[1..], store), names, runs[0])
         && layers[0] == Admitted(StackView(layers[1..], store), runs[0])
         && AdmittedStack(names, layers[1..], runs[1..], store)))
  }

  lemma {:induction false} AdmittedStackIsHonest(
      names: set<string>, layers: seq<seq<TxRWSet>>, runs: seq<seq<S.Action>>, store: Store)
    requires PrefixFree(names) && AdmittedStack(names, layers, runs, store)
    ensures HonestStack(names, layers, store)
    decreases |layers|
  {
    if layers != [] {
      AdmittedIsHonest(StackView(layers[1..], store), names, runs[0]);
      AdmittedStackIsHonest(names, layers[1..], runs[1..], store);
    }
  }

  /** `s` is held by the manager under its fingerprint. */
  ghost predicate Held(m: Manager, s: Snapshot)
    reads m
  {
    s.fp in m.snapshots && m.snapshots[s.fp] == s
  }

  /** Over `store` before and over `committed` after, two stacks read every location of `names` alike. */
  ghost predicate ReadAlike(names: set<string>, layers: seq<seq<TxRWSet>>, store: Store,
                            layers': seq<seq<TxRWSet>>, committed: Store)
  {
    forall l: Loc :: l.contract in names ==> LayersGet(layers', committed, l) == LayersGet(layers, store, l)
  }

  lemma BottomCommits(names: set<string>, top: seq<TxRWSet>, store: Store, actions: seq<S.Action>)
    requires PrefixFree(names) && S.LegalRun(StoreView(store), names, actions)
    ensures var bottom := Admitted(StoreView(store), actions);
            ReadAlike(names, [top, bottom], store, [top], CommitAll(store, bottom))
  {
    var bottom := Admitted(StoreView(store), actions);
    AdmittedIsHonest(StoreView(store), names, actions);
    assert [top] + [bottom] == [top, bottom];
    forall l: Loc | l.contract in names
      ensures LayersGet([top], CommitAll(store, bottom), l) == LayersGet([top, bottom], store, l)
    {
      CommitPreservesReads([top], bottom, store, names, l);
    }
  }

  /** When the bottom block commits and its writes reach the store, a direct successor reads every
      location the same before the manager is notified and after. */
  method DirectSuccessorReadsSurvive(m: Manager, s: Snapshot, block: FingerPrint, ghost u: set<Snapshot>,
                                     ghost store: Store, ghost names: set<string>, ghost actions: seq<S.Action>)
    requires m.Valid() && Held(m, s) && Linked(u) && s in u
    requires s.preSnapshot != null && s.preSnapshot.fp == block && s.preSnapshot.preSnapshot == null
    requires PrefixFree(names) && S.LegalRun(StoreView(store), names, actions)
    requires s.preSnapshot.txRWSetTable == Admitted(StoreView(store), actions)
    modifies m`snapshots, m.snapshots.Values`preSnapshot
    ensures m.Valid() && s.preSnapshot == null
    ensures ReadAlike(names, old(s.Layers(u)), store,
                      s.Layers({s}), CommitAll(store, Admitted(StoreView(store), actions)))
  {
    ghost var top, bottom := s.txRWSetTable, Admitted(StoreView(store), actions);
    assert s.preSnapshot.Layers(u) == [bottom];
    assert s.Layers(u) == [top, bottom];
    m.NotifyBlockCommitted(block);
    assert s.Layers({s}) == [top];
    BottomCommits(names, top, store, actions);
  }

  /** The read of `l` is unaffected: the top's own tables hold it, or no log of `mid` writes it, or
      the last write in `mid` is what the committed store holds. */
  predicate Unaffected(top: seq<TxRWSet>, mid: seq<seq<TxRWSet>>, committed: Store, l: Loc) {
    || Holds(top, l) || LastValue(Flatten(mid), l).None?
    || LastValue(Flatten(mid), l) == ReadObject(committed, l)
  }

  /** Exactly the unaffected locations read as before. */
  ghost predicate ReadAlikeExactly(names: set<string>, top: seq<TxRWSet>, mid: seq<seq<TxRWSet>>,
                                   bottom: seq<TxRWSet>, store: Store)
  {
    forall l: Loc :: l.contract in names ==>
      (LayersGet([top], CommitAll(store, bottom), l) == LayersGet([top] + (mid + [bottom]), store, l)
       <==> Unaffected(top, mid, CommitAll(store, bottom), l))
  }

  lemma MiddleIsCut(names: set<string>, top: seq<TxRWSet>, mid: seq<seq<TxRWSet>>, bottom: seq<TxRWSet>,
                    store: Store, runs: seq<seq<S.Action>>)
    requires PrefixFree(names) && AdmittedStack(names, mid + [bottom], runs, store)
    ensures ReadAlikeExactly(names, top, mid, bottom, store)
  {
    AdmittedStackIsHonest(names, mid + [bottom], runs, store);
    forall l: Loc | l.contract in names
      ensures LayersGet([top], CommitAll(store, bottom), l) == LayersGet([top] + (mid + [bottom]), store, l)
         <==> Unaffected(top, mid, CommitAll(store, bottom), l)
    {
      UnlinkedReadExact(top, mid, bottom, store, names, l);
    }
  }

  /** An indirect successor whose predecessor the collection test selects is cut off from it, and
      then exactly the unaffected locations read as before. */
  method IndirectSuccessorReads(
      m: Manager, s: Snapshot, block: FingerPrint, ghost u: set<Snapshot>, ghost mid: seq<seq<TxRWSet>>,
      ghost bottom: seq<TxRWSet>, ghost store: Store, ghost names: set<string>, ghost runs: seq<seq<S.Action>>)
    requires m.Valid() && Held(m, s) && Linked(u) && s in u && s.preSnapshot != null
    requires s.preSnapshot.fp != block && TooOld(block.height, s.preSnapshot.fp.height)
    requires s.Layers(u) == [s.txRWSetTable] + (mid + [bottom])
    requires PrefixFree(names) && AdmittedStack(names, mid + [bottom], runs, store)
    modifies m`snapshots, m.snapshots.Values`preSnapshot
    ensures m.Valid() && s.txRWSetTable == old(s.txRWSetTable)
    ensures Held(m, s) ==> s.preSnapshot == null && s.Layers({s}) == [s.txRWSetTable]
    ensures ReadAlikeExactly(names, s.txRWSetTable, mid, bottom, store)
  {
    m.NotifyBlockCommitted(block);
    MiddleIsCut(names, s.txRWSetTable, mid, bottom, store, runs);
  }

  // ---------------------------------------------------------------- a value lost

  const FP5 := FingerPrint(5, "5", "")
  const FP6 := FingerPrint(6, "6", "")
  const FP7 := FingerPrint(7, "7", "")
  const LOC := Loc("c", "k")
  const WRITE := TxRWSet([], [Access(LOC, "v")])

  /** Snapshots of blocks 5, 6 and 7, each standing on the one before; block 6 writes. */
  ghost predicate ThreeStacked(m: Manager, b5: Snapshot, b6: Snapshot, b7: Snapshot)
    reads m, b5, b6, b7
  {
    && m.snapshots == map[FP5 := b5, FP6 := b6, FP7 := b7]
    && b5.fp == FP5 && b6.fp == FP6 && b7.fp == FP7
    && b5.preSnapshot == null && b6.preSnapshot == b5 && b7.preSnapshot == b6 && b5.rank < b6.rank < b7.rank
    && b5.txRWSetTable == [] && b6.txRWSetTable == [WRITE] && b7.txRWSetTable == []
    && b5.Valid() && b6.Valid() && b7.Valid()
  }

  method StackThree() returns (m: Manager, b5: Snapshot, b6: Snapshot, b7: Snapshot)
    ensures fresh(m) && fresh(b5) && fresh(b6) && fresh(b7) && m.Valid() && ThreeStacked(m, b5, b6, b7)
  {
    m := new Manager();
    b5 := m.NewSnapshot(FingerPrint(4, "4", ""), FP5);
    b6 := m.NewSnapshot(FP5, FP6);
    b7 := m.NewSnapshot(FP6, FP7);
    b6.Apply("tx", WRITE, "");
    assert m.snapshots == map[FP5 := b5, FP6 := b6, FP7 := b7];
  }

  lemma ThreeLayersRead(store: Store)
    ensures LayersGet([[], [WRITE], []], store, LOC) == Some("v")
  {
    var layers: seq<seq<TxRWSet>> := [[], [WRITE], []];
    assert layers[1..] == [[WRITE], []] && layers[1..][0] == [WRITE];
    assert LastAt(WRITE.txWrites, FinalKey(LOC)) == Some("v");
    assert Latest(WriteSide, [WRITE], FinalKey(LOC)) == Some(Sv(0, "v"));
  }

  lemma ThreeLayers(m: Manager, b5: Snapshot, b6: Snapshot, b7: Snapshot)
    requires ThreeStacked(m, b5, b6, b7)
    ensures Linked({b5, b6, b7}) && b7.Layers({b5, b6, b7}) == [[], [WRITE], []]
  {
    var u := {b5, b6, b7};
    assert Linked(u);
    assert b5.Layers(u) == [[]];
    assert b6.Layers(u) == [[WRITE], []];
    assert b7.Layers(u) == [[], [WRITE], []];
  }

  /** When 5 commits, the snapshot of 7 is cut off from 6, which is not committed, and the value
      block 6 wrote is no longer read. */
  method UncommittedPredecessorLost(store: Store) returns (before: Option<Bytes>, after: Option<Bytes>)
    ensures before == Some("v") && after == ReadObject(store, LOC)
  {
    var m, b5, b6, b7 := StackThree();
    before := ReadThrough(m, b5, b6, b7, store);
    CommitFive(m, b5, b6, b7);
    after := ReadAlone(b7, store);
  }

  method ReadThrough(ghost m: Manager, b5: Snapshot, b6: Snapshot, b7: Snapshot, store: Store)
    returns (v: Option<Bytes>)
    requires ThreeStacked(m, b5, b6, b7)
    ensures v == Some("v")
  {
    ThreeLayers(m, b5, b6, b7);
    ThreeLayersRead(store);
    v := b7.GetKey(store, LOC, {b5, b6, b7});
  }

  method CommitFive(m: Manager, b5: Snapshot, b6: Snapshot, b7: Snapshot)
    requires m.Valid() && ThreeStacked(m, b5, b6, b7)
    modifies m`snapshots, m.snapshots.Values`preSnapshot
    ensures b7.preSnapshot == null
  {
    assert !m.Condemned(FP7, 5);
    m.NotifyBlockCommitted(FP5);
    assert TooOld(5, 6);
    assert FP7 != FP5 && FP7 != NotConsensus(FP5);
    assert FP7 in m.snapshots && m.snapshots[FP7] == b7;
    assert Unlink(b6, FP5) == b6 && Collect(b6, 5) == null;
  }

  method ReadAlone(s: Snapshot, store: Store) returns (v: Option<Bytes>)
    requires s.Valid() && s.preSnapshot == null && s.txRWSetTable == []
    ensures v == ReadObject(store, LOC)
  {
    v := s.GetKey(store, LOC, {s});
    assert s.Layers({s}) == [[]] && LayersGet([[]], store, LOC) == ReadObject(store, LOC);
  }
}
