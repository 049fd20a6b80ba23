/**
 Interleaved execution against one snapshot: transactions begin, read, write and apply in
 any interleaving. Every admitted transaction read the state its predecessors in the block
 left, so the block is serializable, and its DAG may be replayed in any order.
 */
module Serializability {
  import opened Options
  import opened RWSets
  import opened Snapshots
  import opened Dag
  import opened ParallelReplay

  /** A read held by a running transaction; `own` marks a read of its own earlier write. */
  datatype Rec = Rec(access: Access, own: bool)

  /** A running transaction: the block length it started at, its reads and its writes. */
  datatype Sim = Sim(execSeq: nat, recs: map<string, Rec>, puts: map<string, Access>)

  /** An admitted transaction. `own` holds the table keys read back from its own writes;
      `checked` tells that it either passed the staleness test or ran alone. */
  datatype Entry = Entry(rw: TxRWSet, own: set<string>, checked: bool)

  datatype World = World(log: seq<Entry>, special: seq<string>, sims: map<string, Sim>, sealed: bool)

  datatype Action =
    | Begin(id: string)
    | Read(id: string, l: Loc)
    | Write(id: string, l: Loc, v: Bytes)
    | Apply(id: string, rw: TxRWSet, isIterator: bool, applySpecial: bool)
    | SealBlock

  function Sets(log: seq<Entry>): (sets: seq<TxRWSet>)
    ensures |sets| == |log| && forall i :: 0 <= i < |log| ==> sets[i] == log[i].rw
  {
    seq(|log|, i requires 0 <= i < |log| => log[i].rw)
  }

  const EMPTY := World([], [], map[], false)

  ghost function Step(base: View, w: World, a: Action): World {
    match a
    case Begin(id) => w.(sims := w.sims[id := Sim(|w.log|, map[], map[])])
    case Read(id, l) => if id in w.sims then w.(sims := w.sims[id := SimRead(base, w, w.sims[id], l)]) else w
    case Write(id, l, v) =>
      if id in w.sims then
        var sim := w.sims[id];
        w.(sims := w.sims[id := sim.(puts := sim.puts[FinalKey(l) := Access(l, v)])])
      else w
    case Apply(id, rw, isIterator, applySpecial) =>
      if id in w.sims then ApplySim(w, id, rw, isIterator, applySpecial) else w
    case SealBlock => w.(sealed := true)
  }

  /** A read sees the transaction's own write, or a value it has read before, or the snapshot. */
  ghost function SimRead(base: View, w: World, sim: Sim, l: Loc): Sim {
    var fk := FinalKey(l);
    if fk in sim.puts then sim.(recs := sim.recs[fk := Rec(Access(l, sim.puts[fk].value), true)])
    else if fk in sim.recs then sim
    else
      var v := SnapshotGet(Sets(w.log), base(l), l);
      if v.None? then sim else sim.(recs := sim.recs[fk := Rec(Access(l, v.value), false)])
  }

  ghost function ApplySim(w: World, id: string, rw: TxRWSet, isIterator: bool, applySpecial: bool): World
    requires id in w.sims
  {
    var sim := w.sims[id];
    if !applySpecial && w.sealed then w
    else if !applySpecial && isIterator then w.(special := w.special + [id])
    else if isIterator || !Stale(Sets(w.log), sim.execSeq, rw) then
      var entry := Entry(rw, OwnReads(sim), !isIterator || sim.execSeq == |w.log|);
      w.(log := w.log + [entry], sims := w.sims - {id})
    else w
  }

  function OwnReads(sim: Sim): set<string> {
    set fk | fk in sim.recs && sim.recs[fk].own
  }

  /** The read-write set handed to the snapshot reports recorded reads only, and writes what
      it read back from its own writes. */
  ghost predicate Reports(sim: Sim, rw: TxRWSet) {
    forall a :: a in rw.txReads ==>
      var fk := FinalKey(a.loc);
      fk in sim.recs && sim.recs[fk].access == a && (sim.recs[fk].own ==> Touches(WriteSide, rw, fk))
  }

  /** The action touches contracts of `names` only, and applies what its transaction did. */
  ghost predicate Legal(names: set<string>, w: World, a: Action) {
    match a
    case Read(_, l) => l.contract in names
    case Write(_, l, _) => l.contract in names
    case Apply(id, rw, _, _) =>
      id in w.sims ==> Reports(w.sims[id], rw) && forall x :: x in rw.txWrites ==> x.loc.contract in names
    case _ => true
  }

  ghost function Run(base: View, w: World, actions: seq<Action>): World {
    if actions == [] then w
    else Step(base, Run(base, w, actions[..|actions| - 1]), actions[|actions| - 1])
  }

  ghost predicate LegalRun(base: View, names: set<string>, actions: seq<Action>) {
    forall k :: 0 <= k < |actions| ==> Legal(names, Run(base, EMPTY, actions[..k]), actions[k])
  }

  /** Every checked transaction read, apart from its own writes, the state that replaying
      its predecessors over the base gives. */
  ghost predicate Serial(base: View, log: seq<Entry>) {
    forall i, a :: 0 <= i < |log| && log[i].checked && a in log[i].rw.txReads && FinalKey(a.loc) !in log[i].own ==>
      ValueAfter(base, Sets(log)[..i], a.loc) == Some(a.value)
  }

  /** At some length from `lo` on, replaying the log gave `l` the value `v`. */
  ghost predicate Seen(base: View, log: seq<TxRWSet>, lo: nat, l: Loc, v: Bytes) {
    exists m: nat :: lo <= m <= |log| && ValueAfter(base, log[..m], l) == Some(v)
  }

  ghost predicate SimOk(base: View, names: set<string>, log: seq<TxRWSet>, sim: Sim) {
    && sim.execSeq <= |log|
    && forall fk :: fk in sim.recs ==>
         var a := sim.recs[fk].access;
         && a.loc.contract in names && FinalKey(a.loc) == fk
         && (!sim.recs[fk].own ==> Seen(base, log, sim.execSeq, a.loc, a.value))
  }

  ghost predicate Inv(base: View, names: set<string>, w: World) {
    && InNames(names, Sets(w.log))
    && HonestCache(base, names, Sets(w.log))
    && Serial(base, w.log)
    && forall id :: id in w.sims ==> SimOk(base, names, Sets(w.log), w.sims[id])
  }

  lemma ReadKeepsInv(base: View, names: set<string>, w: World, id: string, l: Loc)
    requires PrefixFree(names) && Inv(base, names, w) && id in w.sims && l.contract in names
    ensures SimOk(base, names, Sets(w.log), SimRead(base, w, w.sims[id], l))
  {
    var log, sim := Sets(w.log), w.sims[id];
    assert SimOk(base, names, log, sim);
    CacheIsTransparent(base, names, log, l);
    var fk, v := FinalKey(l), SnapshotGet(log, base(l), l);
    if fk in sim.puts {
      NoteKeepsSim(base, names, log, sim, Access(l, sim.puts[fk].value), true);
    } else if fk !in sim.recs && v.Some? {
      NoteKeepsSim(base, names, log, sim, Access(l, v.value), false);
    }
  }

  /** Noting a read, of an own write or of a current value, keeps a running transaction's reads dated. */
  lemma NoteKeepsSim(base: View, names: set<string>, log: seq<TxRWSet>, sim: Sim, a: Access, own: bool)
    requires SimOk(base, names, log, sim) && a.loc.contract in names
    requires own || ValueAfter(base, log, a.loc) == Some(a.value)
    ensures SimOk(base, names, log, sim.(recs := sim.recs[FinalKey(a.loc) := Rec(a, own)]))
  {
    assert log[..|log|] == log;
    assert !own ==> Seen(base, log, sim.execSeq, a.loc, a.value);
  }

  lemma SeenGrows(base: View, log: seq<TxRWSet>, rw: TxRWSet, lo: nat, l: Loc, v: Bytes)
    requires Seen(base, log, lo, l, v)
    ensures Seen(base, log + [rw], lo, l, v)
  {
    var m: nat :| lo <= m <= |log| && ValueAfter(base, log[..m], l) == Some(v);
    assert (log + [rw])[..m] == log[..m];
  }

  /** A value seen since `lo` is current if nothing from `lo` on wrote its location. */
  lemma SeenIsCurrent(base: View, log: seq<TxRWSet>, lo: nat, l: Loc, v: Bytes)
    requires Seen(base, log, lo, l, v)
    requires forall j :: lo <= j < |log| ==> !Writes(log[j], l)
    ensures ValueAfter(base, log, l) == Some(v)
  {
    var m: nat :| lo <= m <= |log| && ValueAfter(base, log[..m], l) == Some(v);
    ValueAfterUnwritten(base, log, m, l);
  }

  lemma FreshReadIsCurrent(base: View, names: set<string>, log: seq<TxRWSet>, sim: Sim, rw: TxRWSet, a: Access)
    requires PrefixFree(names) && InNames(names, log) && SimOk(base, names, log, sim) && Reports(sim, rw)
    requires a in rw.txReads && FinalKey(a.loc) !in OwnReads(sim)
    requires !Stale(log, sim.execSeq, rw)
    ensures ValueAfter(base, log, a.loc) == Some(a.value)
  {
    forall j | sim.execSeq <= j < |log| ensures !Writes(log[j], a.loc) {
      TouchIsWrite(names, log, j, a.loc);
    }
    SeenIsCurrent(base, log, sim.execSeq, a.loc, a.value);
  }

  /** A transaction is refused exactly when an entry admitted since its start writes a location it read. */
  lemma StaleExactly(names: set<string>, log: seq<TxRWSet>, execSeq: nat, rw: TxRWSet)
    requires PrefixFree(names) && InNames(names, log) && forall a :: a in rw.txReads ==> a.loc.contract in names
    ensures Stale(log, execSeq, rw) <==>
            exists a, j :: a in rw.txReads && execSeq <= j < |log| && Writes(log[j], a.loc)
  {
    forall a, j | a in rw.txReads && execSeq <= j < |log|
      ensures Touches(WriteSide, log[j], FinalKey(a.loc)) <==> Writes(log[j], a.loc)
    {
      TouchIsWrite(names, log, j, a.loc);
    }
    if a, j :| a in rw.txReads && execSeq <= j < |log| && Writes(log[j], a.loc) {
      assert Touches(WriteSide, log[j], FinalKey(a.loc));
    }
    if Stale(log, execSeq, rw) {
      var a, j :| a in rw.txReads && 0 <= j < |log| && execSeq <= j && Touches(WriteSide, log[j], FinalKey(a.loc));
      assert Writes(log[j], a.loc);
    }
  }

  lemma {:induction false} LastAtWitness(accesses: seq<Access>, fk: string) returns (a: Access)
    requires LastAt(accesses, fk).Some?
    ensures a in accesses && FinalKey(a.loc) == fk && LastAt(accesses, fk) == Some(a.value)
  {
    a := accesses[|accesses| - 1];
    if FinalKey(a.loc) != fk {
      a := LastAtWitness(accesses[..|accesses| - 1], fk);
    }
  }

  /** Applying a transaction keeps cached reads of unwritten locations at their base values. */
  lemma ApplyKeepsHonestCache(base: View, names: set<string>, log: seq<TxRWSet>, sim: Sim, rw: TxRWSet)
    requires PrefixFree(names) && InNames(names, log) && HonestCache(base, names, log)
    requires SimOk(base, names, log, sim) && Reports(sim, rw)
    ensures HonestCache(base, names, log + [rw])
  {
    var log' := log + [rw];
    assert log'[..|log|] == log;
    forall l: Loc | l.contract in names && Latest(WriteSide, log', FinalKey(l)).None?
        && Latest(ReadSide, log', FinalKey(l)).Some?
      ensures base(l) == Some(Latest(ReadSide, log', FinalKey(l)).value.value)
    {
      var fk := FinalKey(l);
      assert !Touches(WriteSide, log'[|log|], fk);
      if Touches(ReadSide, rw, fk) {
        var a := LastAtWitness(rw.txReads, fk);
        SharedKey(a.loc, l);
        assert !sim.recs[fk].own;
        forall j | 0 <= j < |log| ensures !Writes(log[j], l) {
          assert !Touches(WriteSide, log'[j], fk);
          TouchIsWrite(names, log, j, l);
        }
        var m: nat :| sim.execSeq <= m <= |log| && ValueAfter(base, log[..m], l) == Some(a.value);
        ValueAfterUnwritten(base, log[..m], 0, l);
      }
    }
  }

  lemma ApplyKeepsNames(base: View, names: set<string>, log: seq<TxRWSet>, sim: Sim, rw: TxRWSet)
    requires InNames(names, log) && SimOk(base, names, log, sim) && Reports(sim, rw)
    requires forall x :: x in rw.txWrites ==> x.loc.contract in names
    ensures InNames(names, log + [rw])
  {
    var log' := log + [rw];
    forall side, j, a | 0 <= j < |log'| && a in Accesses(side, log'[j]) ensures a.loc.contract in names {
      if j < |log| {
        assert a in Accesses(side, log[j]);
      }
    }
  }

  /** An entry whose checked reads are current keeps the log serial. */
  lemma EntryKeepsSerial(base: View, log: seq<Entry>, e: Entry)
    requires Serial(base, log)
    requires e.checked ==> forall a :: a in e.rw.txReads && FinalKey(a.loc) !in e.own ==>
                             ValueAfter(base, Sets(log), a.loc) == Some(a.value)
    ensures Serial(base, log + [e])
  {
    var log' := log + [e];
    forall i, a | 0 <= i < |log'| && log'[i].checked && a in log'[i].rw.txReads && FinalKey(a.loc) !in log'[i].own
      ensures ValueAfter(base, Sets(log')[..i], a.loc) == Some(a.value)
    {
      if i < |log| {
        assert Sets(log')[..i] == Sets(log)[..i];
      } else {
        assert Sets(log')[..i] == Sets(log);
      }
    }
  }

  /** A transaction that is not stale, or that ran alone, read the current state. */
  lemma AppliedReadsAreCurrent(base: View, names: set<string>, log: seq<TxRWSet>, sim: Sim, rw: TxRWSet)
    requires PrefixFree(names) && InNames(names, log) && SimOk(base, names, log, sim) && Reports(sim, rw)
    requires !Stale(log, sim.execSeq, rw) || sim.execSeq == |log|
    ensures forall a :: a in rw.txReads && FinalKey(a.loc) !in OwnReads(sim) ==>
              ValueAfter(base, log, a.loc) == Some(a.value)
  {
    forall a | a in rw.txReads && FinalKey(a.loc) !in OwnReads(sim)
      ensures ValueAfter(base, log, a.loc) == Some(a.value)
    {
      FreshReadIsCurrent(base, names, log, sim, rw, a);
    }
  }

  lemma AdmitKeepsInv(base: View, names: set<string>, w: World, id: string, e: Entry)
    requires PrefixFree(names) && Inv(base, names, w) && id in w.sims && Reports(w.sims[id], e.rw)
    requires forall x :: x in e.rw.txWrites ==> x.loc.contract in names
    requires Serial(base, w.log + [e])
    ensures Inv(base, names, w.(log := w.log + [e], sims := w.sims - {id}))
  {
    var log, sim := Sets(w.log), w.sims[id];
    assert Sets(w.log + [e]) == log + [e.rw];
    ApplyKeepsNames(base, names, log, sim, e.rw);
    ApplyKeepsHonestCache(base, names, log, sim, e.rw);
    forall id' | id' in w.sims && id' != id ensures SimOk(base, names, log + [e.rw], w.sims[id']) {
      SimOkGrows(base, names, log, e.rw, w.sims[id']);
    }
  }

  lemma ApplyKeepsInv(
      base: View, names: set<string>, w: World, id: string, rw: TxRWSet, isIterator: bool, applySpecial: bool)
    requires PrefixFree(names) && Inv(base, names, w) && id in w.sims
    requires Legal(names, w, Apply(id, rw, isIterator, applySpecial))
    ensures Inv(base, names, ApplySim(w, id, rw, isIterator, applySpecial))
  {
    var w', log, sim := ApplySim(w, id, rw, isIterator, applySpecial), Sets(w.log), w.sims[id];
    if |w'.log| > |w.log| {
      var e := Entry(rw, OwnReads(sim), !isIterator || sim.execSeq == |w.log|);
      if e.checked { AppliedReadsAreCurrent(base, names, log, sim, rw); }
      EntryKeepsSerial(base, w.log, e);
      AdmitKeepsInv(base, names, w, id, e);
    }
  }

  lemma SimOkGrows(base: View, names: set<string>, log: seq<TxRWSet>, rw: TxRWSet, sim: Sim)
    requires SimOk(base, names, log, sim)
    ensures SimOk(base, names, log + [rw], sim)
  {
    forall fk | fk in sim.recs && !sim.recs[fk].own
      ensures Seen(base, log + [rw], sim.execSeq, sim.recs[fk].access.loc, sim.recs[fk].access.value)
    {
      SeenGrows(base, log, rw, sim.execSeq, sim.recs[fk].access.loc, sim.recs[fk].access.value);
    }
  }

  lemma StepKeepsInv(base: View, names: set<string>, w: World, a: Action)
    requires PrefixFree(names) && Inv(base, names, w) && Legal(names, w, a)
    ensures Inv(base, names, Step(base, w, a))
  {
    match a
    case Read(id, l) => if id in w.sims { ReadKeepsInv(base, names, w, id, l); }
    case Apply(id, rw, it, sp) => if id in w.sims { ApplyKeepsInv(base, names, w, id, rw, it, sp); }
    case Begin(_) =>
    case Write(_, _, _) =>
    case SealBlock =>
  }

  lemma {:induction false} RunKeepsInv(base: View, names: set<string>, actions: seq<Action>)
    requires PrefixFree(names) && LegalRun(base, names, actions)
    ensures Inv(base, names, Run(base, EMPTY, actions))
  {
    if actions != [] {
      var front := actions[..|actions| - 1];
      forall k | 0 <= k < |front| ensures Legal(names, Run(base, EMPTY, front[..k]), front[k]) {
        assert front[..k] == actions[..k];
      }
      RunKeepsInv(base, names, front);
      StepKeepsInv(base, names, Run(base, EMPTY, front), actions[|actions| - 1]);
    }
  }

  /** Main theorem: in every interleaving, the block's log is a serial history, and at every
      moment a read through the snapshot equals a replay of the log over the base. */
  lemma EveryRunIsSerializable(base: View, names: set<string>, actions: seq<Action>)
    requires PrefixFree(names) && LegalRun(base, names, actions)
    ensures Serial(base, Run(base, EMPTY, actions).log)
    ensures forall l: Loc :: l.contract in names ==>
      var log := Sets(Run(base, EMPTY, actions).log);
      SnapshotGet(log, base(l), l) == ValueAfter(base, log, l)
  {
    RunKeepsInv(base, names, actions);
    var log := Sets(Run(base, EMPTY, actions).log);
    forall l: Loc | l.contract in names ensures SnapshotGet(log, base(l), l) == ValueAfter(base, log, l) {
      CacheIsTransparent(base, names, log, l);
    }
  }

  /** A program that produces an entry whenever the state holds what the entry read. */
  ghost predicate Explains(p: Program, e: Entry) {
    forall s: Store {:trigger p(s)} ::
      (forall a :: a in e.rw.txReads && FinalKey(a.loc) !in e.own ==> ReadObject(s, a.loc) == Some(a.value)) ==>
          p(s) == e.rw
  }

  /** End to end: the block any interleaving builds can be re-executed from the store in any
      order its DAG allows, with the same read-write sets and the same final state. */
  lemma AdmittedBlockReplays(store: Store, names: set<string>, actions: seq<Action>, programs: seq<Program>,
      edges: seq<set<nat>>, order: seq<nat>)
    requires PrefixFree(names) && LegalRun(StoreView(store), names, actions)
    requires var log := Run(StoreView(store), EMPTY, actions).log;
             && |programs| == |log|
             && (forall i :: 0 <= i < |log| ==>
                  log[i].checked && Deterministic(programs[i]) && Explains(programs[i], log[i]))
             && ExactDag(Sets(log), edges) && IsOrder(order, |log|) && Respects(edges, order)
    ensures var log := Run(StoreView(store), EMPTY, actions).log;
            && (forall p :: 0 <= p < |order| ==> Execute(programs, order, |order|, store)[p] == log[order[p]].rw)
            && CommitAll(store, Execute(programs, order, |order|, store)) == CommitAll(store, Sets(log))
  {
    var log := Run(StoreView(store), EMPTY, actions).log;
    EveryRunIsSerializable(StoreView(store), names, actions);
    forall i | 0 <= i < |log| ensures programs[i](CommitAll(store, Sets(log)[..i])) == log[i].rw {
      var s := CommitAll(store, Sets(log)[..i]);
      forall a | a in log[i].rw.txReads && FinalKey(a.loc) !in log[i].own
        ensures ReadObject(s, a.loc) == Some(a.value)
      {
        CommitAllRead(store, Sets(log)[..i], a.loc);
      }
      assert Explains(programs[i], log[i]);
      assert programs[i](s) == log[i].rw;
    }
    AnyDagOrderEqualsBlockOrder(programs, store, Sets(log), edges, order);
  }
}
