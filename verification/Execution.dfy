/**
 Transactions run against a snapshot object: each reads through it, writes into its own buffer and is
 applied to it. The object goes where the machine of interleaved runs goes, and a transaction reads
 its own writes, reads nothing twice differently and first reads the block's current state.
 */
module Execution {
  import opened Options
  import opened RWSets
  import opened Snapshots
  import opened Serializability

  // ---------------------------------------------------------------- the object refines the machine

  /** `s` stands on snapshots of `u`, of which it is not one. */
  ghost predicate StandsOn(s: Snapshot, u: set<Snapshot>)
    reads s, u
  {
    && s !in u && Linked(u) && (forall t :: t in u ==> t.Valid())
    && (s.preSnapshot != null ==> s.preSnapshot in u && s.preSnapshot.rank < s.rank)
  }

  /** What is read below a snapshot linked to `pre`. */
  ghost function Below(pre: Snapshot?, u: set<Snapshot>, store: Store): View
    requires Linked(u) && (pre != null ==> pre in u)
    reads u
  {
    StackView(if pre == null then [] else pre.Layers(u), store)
  }

  /** Object and running transactions are those of the machine's state. */
  ghost predicate Mirrors(s: Snapshot, sims: map<string, Sim>, w: World)
    reads s
  {
    && s.Valid() && s.txRWSetTable == Sets(w.log) && s.specialTxTable == w.special && s.sealed == w.sealed
    && sims == w.sims
  }

  lemma {:induction false} LayersWithin(t: Snapshot, s: Snapshot, u: set<Snapshot>)
    requires Linked(u) && Linked(u + {s}) && s !in u && t in u
    ensures t.Layers(u + {s}) == t.Layers(u)
    decreases t.rank
  {
    if t.preSnapshot != null { LayersWithin(t.preSnapshot, s, u); }
  }

  /** A transaction's read: of its own write, of what it read before, or through the snapshot. */
  method Get(s: Snapshot, store: Store, sim: Sim, l: Loc, ghost u: set<Snapshot>, ghost w: World) returns (sim': Sim)
    requires StandsOn(s, u) && s.Valid() && s.txRWSetTable == Sets(w.log)
    ensures sim' == SimRead(Below(s.preSnapshot, u, store), w, sim, l)
  {
    var fk := FinalKey(l);
    if fk in sim.puts { return sim.(recs := sim.recs[fk := Rec(Access(l, sim.puts[fk].value), true)]); }
    if fk in sim.recs { return sim; }
    ghost var rest := if s.preSnapshot == null then [] else s.preSnapshot.Layers(u);
    assert Linked(u + {s});
    if s.preSnapshot != null { LayersWithin(s.preSnapshot, s, u); }
    assert s.Layers(u + {s}) == [s.txRWSetTable] + rest;
    assert s.Layers(u + {s})[1..] == rest;
    var v := s.GetKey(store, l, u + {s});
    sim' := if v.None? then sim else sim.(recs := sim.recs[fk := Rec(Access(l, v.value), false)]);
  }

  /** One action on the object, next to the machine's step. */
  method Act(s: Snapshot, store: Store, sims: map<string, Sim>, a: Action, ghost u: set<Snapshot>, ghost w: World)
    returns (sims': map<string, Sim>)
    requires StandsOn(s, u) && Mirrors(s, sims, w)
    modifies s
    ensures StandsOn(s, u) && s.preSnapshot == old(s.preSnapshot)
    ensures Mirrors(s, sims', Step(Below(s.preSnapshot, u, store), w, a))
  {
    sims' := sims;
    match a {
      case Begin(id) => sims' := sims[id := Sim(|s.txTable|, map[], map[])];
      case Read(id, l) =>
        if id in sims {
          var sim := Get(s, store, sims[id], l, u, w);
          sims' := sims[id := sim];
        }
      case Write(id, l, v) =>
        if id in sims { sims' := sims[id := sims[id].(puts := sims[id].puts[FinalKey(l) := Access(l, v)])]; }
      case Apply(id, rw, isIterator, applySpecial) =>
        if id in sims { sims' := Submit(s, sims, id, rw, isIterator, applySpecial, w); }
      case SealBlock => s.Seal();
    }
  }

  method Submit(s: Snapshot, sims: map<string, Sim>, id: string, rw: TxRWSet, isIterator: bool, applySpecial: bool,
                ghost w: World) returns (sims': map<string, Sim>)
    requires Mirrors(s, sims, w) && id in sims
    modifies s
    ensures s.preSnapshot == old(s.preSnapshot)
    ensures Mirrors(s, sims', ApplySim(w, id, rw, isIterator, applySpecial))
  {
    ghost var w' := ApplySim(w, id, rw, isIterator, applySpecial);
    var size := |s.txTable|;
    var ok, n := s.ApplyTxSimContext(id, sims[id].execSeq, rw, "", isIterator, applySpecial);
    sims' := if |s.txTable| > size then sims - {id} else sims;
    assert s.txRWSetTable == Sets(w'.log);
  }

  /** Any interleaving of transactions on a new snapshot leaves the object as the machine's run says. */
  method Perform(s: Snapshot, store: Store, actions: seq<Action>, ghost u: set<Snapshot>)
    returns (sims: map<string, Sim>)
    requires StandsOn(s, u) && s.Valid() && s.txRWSetTable == [] && s.specialTxTable == [] && !s.sealed
    modifies s
    ensures StandsOn(s, u) && s.preSnapshot == old(s.preSnapshot)
    ensures Mirrors(s, sims, Run(Below(s.preSnapshot, u, store), EMPTY, actions))
  {
    sims := map[];
    ghost var base := Below(s.preSnapshot, u, store);
    for i := 0 to |actions|
      invariant StandsOn(s, u) && s.preSnapshot == old(s.preSnapshot)
      invariant Mirrors(s, sims, Run(base, EMPTY, actions[..i]))
    {
      assert actions[..i + 1][..i] == actions[..i];
      sims := Act(s, store, sims, actions[i], u, Run(base, EMPTY, actions[..i]));
    }
    assert actions[..|actions|] == actions;
  }

  // ---------------------------------------------------------------- what a transaction reads

  /** The action neither starts nor applies `id` and is not one of its writes at `fk`. */
  predicate Leaves(a: Action, id: string, fk: string) {
    match a
    case Begin(other) => other != id
    case Apply(other, _, _, _) => other != id
    case Write(other, l, _) => other != id || FinalKey(l) != fk
    case _ => true
  }

  predicate AllLeave(actions: seq<Action>, id: string, fk: string) {
    forall k :: 0 <= k < |actions| ==> Leaves(actions[k], id, fk)
  }

  /** The transaction runs, and what it wrote or read at `fk` has the value `v`. */
  predicate Wrote(w: World, id: string, fk: string, v: Bytes) {
    id in w.sims && fk in w.sims[id].puts && w.sims[id].puts[fk].value == v
  }

  predicate HasRead(w: World, id: string, fk: string, v: Bytes) {
    && id in w.sims && fk in w.sims[id].recs && w.sims[id].recs[fk].access.value == v
    && (fk in w.sims[id].puts ==> w.sims[id].puts[fk].value == v)
  }

  lemma StepLeaves(base: View, w: World, a: Action, id: string, fk: string, v: Bytes)
    requires Leaves(a, id, fk)
    ensures Wrote(w, id, fk, v) ==> Wrote(Step(base, w, a), id, fk, v)
    ensures HasRead(w, id, fk, v) ==> HasRead(Step(base, w, a), id, fk, v)
  {
  }

  lemma {:induction false} RunLeaves(base: View, w: World, actions: seq<Action>, id: string, fk: string, v: Bytes)
    requires AllLeave(actions, id, fk)
    ensures Wrote(w, id, fk, v) ==> Wrote(Run(base, w, actions), id, fk, v)
    ensures HasRead(w, id, fk, v) ==> HasRead(Run(base, w, actions), id, fk, v)
    decreases |actions|
  {
    if actions != [] {
      var front := actions[..|actions| - 1];
      RunLeaves(base, w, front, id, fk, v);
      StepLeaves(base, Run(base, w, front), actions[|actions| - 1], id, fk, v);
    }
  }

  /** Whatever others do in between, a transaction reads what it last wrote. */
  lemma ReadsItsOwnWrite(base: View, w: World, id: string, l: Loc, v: Bytes, between: seq<Action>)
    requires id in w.sims && AllLeave(between, id, FinalKey(l))
    ensures var w' := Step(base, Run(base, Step(base, w, Write(id, l, v)), between), Read(id, l));
            id in w'.sims && FinalKey(l) in w'.sims[id].recs && w'.sims[id].recs[FinalKey(l)] == Rec(Access(l, v), true)
  {
    RunLeaves(base, Step(base, w, Write(id, l, v)), between, id, FinalKey(l), v);
  }

  /** Whatever others do in between, a location read twice gives the same value. */
  lemma ReadsRepeat(base: View, w: World, id: string, l: Loc, v: Bytes, between: seq<Action>)
    requires id in w.sims && AllLeave(between, id, FinalKey(l))
    requires HasRead(Step(base, w, Read(id, l)), id, FinalKey(l), v)
    ensures HasRead(Step(base, Run(base, Step(base, w, Read(id, l)), between), Read(id, l)), id, FinalKey(l), v)
  {
    var w' := Run(base, Step(base, w, Read(id, l)), between);
    RunLeaves(base, Step(base, w, Read(id, l)), between, id, FinalKey(l), v);
    StepLeaves(base, w', Read(id, l), id, FinalKey(l), v);
  }

  /** In every run, a first read gives what replaying the transactions admitted so far gives. */
  lemma FirstReadIsCurrent(base: View, names: set<string>, actions: seq<Action>, id: string, l: Loc)
    requires PrefixFree(names) && LegalRun(base, names, actions) && l.contract in names
    requires var w := Run(base, EMPTY, actions);
             id in w.sims && FinalKey(l) !in w.sims[id].puts && FinalKey(l) !in w.sims[id].recs
    ensures var w := Run(base, EMPTY, actions);
            var v, recs := ValueAfter(base, Sets(w.log), l), Step(base, w, Read(id, l)).sims[id].recs;
            if v.None? then FinalKey(l) !in recs
            else FinalKey(l) in recs && recs[FinalKey(l)] == Rec(Access(l, v.value), false)
  {
    RunKeepsInv(base, names, actions);
    CacheIsTransparent(base, names, Sets(Run(base, EMPTY, actions).log), l);
  }

  // ---------------------------------------------------------------- what a transaction reports

  /** The read-write set lists what the transaction read and what it wrote. */
  ghost predicate ListsAll(sim: Sim, rw: TxRWSet) {
    && (forall a :: a in rw.txReads <==> exists fk :: fk in sim.recs && sim.recs[fk].access == a)
    && (forall a :: a in rw.txWrites <==> exists fk :: fk in sim.puts && sim.puts[fk] == a)
  }

  /** Writes are kept by key, in contracts of `names`, and what was read back was written. */
  ghost predicate PutsOk(names: set<string>, sim: Sim) {
    && (forall fk :: fk in sim.puts ==> FinalKey(sim.puts[fk].loc) == fk && sim.puts[fk].loc.contract in names)
    && (forall fk :: fk in sim.recs && sim.recs[fk].own ==> fk in sim.puts)
  }

  ghost predicate AllPutsOk(names: set<string>, w: World) {
    forall id :: id in w.sims ==> PutsOk(names, w.sims[id])
  }

  lemma StepKeepsPuts(base: View, names: set<string>, w: World, a: Action)
    requires AllPutsOk(names, w) && Legal(names, w, a)
    ensures AllPutsOk(names, Step(base, w, a))
  {
  }

  lemma {:induction false} RunKeepsPuts(base: View, names: set<string>, actions: seq<Action>)
    requires LegalRun(base, names, actions)
    ensures AllPutsOk(names, Run(base, EMPTY, actions))
  {
    if actions != [] {
      var front := actions[..|actions| - 1];
      forall k | 0 <= k < |front| ensures Legal(names, Run(base, EMPTY, front[..k]), front[k]) {
        assert front[..k] == actions[..k];
      }
      RunKeepsPuts(base, names, front);
      StepKeepsPuts(base, names, Run(base, EMPTY, front), actions[|actions| - 1]);
    }
  }

  lemma {:induction false} WrittenIsTouched(ws: seq<Access>, a: Access)
    requires a in ws
    ensures LastAt(ws, FinalKey(a.loc)).Some?
  {
    if ws[|ws| - 1] != a { WrittenIsTouched(ws[..|ws| - 1], a); }
  }

  /** In every run, the read-write set that lists all a transaction read and wrote may be applied. */
  lemma FullReportIsLegal(base: View, names: set<string>, actions: seq<Action>, id: string, rw: TxRWSet,
                          isIterator: bool, applySpecial: bool)
    requires PrefixFree(names) && LegalRun(base, names, actions)
    requires var w := Run(base, EMPTY, actions); id in w.sims ==> ListsAll(w.sims[id], rw)
    ensures Legal(names, Run(base, EMPTY, actions), Apply(id, rw, isIterator, applySpecial))
  {
    var w := Run(base, EMPTY, actions);
    RunKeepsInv(base, names, actions);
    RunKeepsPuts(base, names, actions);
    if id in w.sims { FullReport(base, names, Sets(w.log), w.sims[id], rw); }
  }

  lemma FullReport(base: View, names: set<string>, log: seq<TxRWSet>, sim: Sim, rw: TxRWSet)
    requires SimOk(base, names, log, sim) && PutsOk(names, sim) && ListsAll(sim, rw)
    ensures Reports(sim, rw) && forall x :: x in rw.txWrites ==> x.loc.contract in names
  {
    forall a | a in rw.txReads
      ensures var fk := FinalKey(a.loc);
              fk in sim.recs && sim.recs[fk].access == a && (sim.recs[fk].own ==> Touches(WriteSide, rw, fk))
    {
      var fk :| fk in sim.recs && sim.recs[fk].access == a;
      if sim.recs[fk].own {
        assert sim.puts[fk] in rw.txWrites;
        WrittenIsTouched(rw.txWrites, sim.puts[fk]);
      }
    }
  }
}
