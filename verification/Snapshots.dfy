/**
 Snapshots: the read and write tables that cache a block under construction, the
 optimistic check that admits a transaction, reads through a chain of uncommitted
 predecessors, and the manager that links and unlinks snapshots.
 */
module Snapshots {
  import opened Options
  import opened RWSets

  // ---------------------------------------------------------------- table keys

  /** Tables are keyed by the contract name followed by the key, with no separator. */
  function FinalKey(l: Loc): string {
    l.contract + l.key
  }

  /** No contract name is a proper prefix of another. */
  ghost predicate PrefixFree(names: set<string>) {
    forall a, b :: a in names && b in names ==> !(a < b)
  }

  /** Two contracts have locations that share a table key exactly when one name is a proper
      prefix of the other. */
  lemma KeyCollisionExact(a: string, b: string)
    ensures (exists k, k' :: Loc(a, k) != Loc(b, k') && FinalKey(Loc(a, k)) == FinalKey(Loc(b, k'))) <==> a < b || b < a
  {
    if a < b {
      assert FinalKey(Loc(a, b[|a|..])) == FinalKey(Loc(b, ""));
    }
    if b < a {
      assert FinalKey(Loc(a, "")) == FinalKey(Loc(b, a[|b|..]));
    }
    if k, k' :| Loc(a, k) != Loc(b, k') && FinalKey(Loc(a, k)) == FinalKey(Loc(b, k')) {
      SharedKey(Loc(a, k), Loc(b, k'));
    }
  }

  lemma SharedKey(l: Loc, l': Loc)
    requires FinalKey(l) == FinalKey(l')
    ensures l == l' || l.contract < l'.contract || l'.contract < l.contract
  {
    var a, b := l.contract, l'.contract;
    if |a| <= |b| {
      assert a == FinalKey(l)[..|a|] == FinalKey(l')[..|a|] == b[..|a|];
    } else {
      assert b == FinalKey(l')[..|b|] == FinalKey(l)[..|b|] == a[..|b|];
    }
    if a == b {
      assert l.key == FinalKey(l)[|a|..] == FinalKey(l')[|a|..] == l'.key;
    }
  }

  // ---------------------------------------------------------------- the tables as functions of the log

  /** A table cell: the index of the transaction that set it, and the value. */
  datatype Sv = Sv(at: nat, value: Bytes)

  datatype Side = ReadSide | WriteSide

  function Accesses(side: Side, rw: TxRWSet): seq<Access> {
    match side
    case ReadSide => rw.txReads
    case WriteSide => rw.txWrites
  }

  /** The last value an access list records under a table key. */
  function LastAt(accesses: seq<Access>, fk: string): (v: Option<Bytes>)
    ensures v.Some? <==> exists k :: 0 <= k < |accesses| && FinalKey(accesses[k].loc) == fk
  {
    if accesses == [] then None
    else if FinalKey(accesses[|accesses| - 1].loc) == fk then Some(accesses[|accesses| - 1].value)
    else LastAt(accesses[..|accesses| - 1], fk)
  }

  predicate Touches(side: Side, rw: TxRWSet, fk: string) {
    LastAt(Accesses(side, rw), fk).Some?
  }

  predicate Untouched(side: Side, log: seq<TxRWSet>, from: nat, fk: string) {
    forall j :: from <= j < |log| ==> !Touches(side, log[j], fk)
  }

  lemma UntouchedLonger(side: Side, log: seq<TxRWSet>, from: nat, fk: string)
    requires log != [] && Untouched(side, log[..|log| - 1], from, fk) && !Touches(side, log[|log| - 1], fk)
    ensures Untouched(side, log, from, fk)
  {
    forall j | from <= j < |log| ensures !Touches(side, log[j], fk) {
      if j < |log| - 1 { assert log[..|log| - 1][j] == log[j]; }
    }
  }

  /** The latest access of a log under a table key: who made it and the value. */
  function Latest(side: Side, log: seq<TxRWSet>, fk: string): (r: Option<Sv>)
    ensures r.Some? ==> r.value.at < |log| && LastAt(Accesses(side, log[r.value.at]), fk) == Some(r.value.value)
    ensures Untouched(side, log, if r.Some? then r.value.at + 1 else 0, fk)
  {
    if log == [] then None
    else
      var last, front := log[|log| - 1], log[..|log| - 1];
      if Touches(side, last, fk) then Some(Sv(|log| - 1, LastAt(Accesses(side, last), fk).value))
      else
        var r := Latest(side, front, fk);
        UntouchedLonger(side, log, if r.Some? then r.value.at + 1 else 0, fk);
        r
  }

  function Lookup(table: map<string, Sv>, fk: string): Option<Sv> {
    if fk in table then Some(table[fk]) else None
  }

  ghost predicate Tabulates(table: map<string, Sv>, side: Side, log: seq<TxRWSet>) {
    forall fk :: Lookup(table, fk) == Latest(side, log, fk)
  }

  /** Some location of the read set was written at or after the sequence the reader started at. */
  ghost predicate Stale(log: seq<TxRWSet>, execSeq: int, rw: TxRWSet) {
    exists r, j :: r in rw.txReads && 0 <= j < |log| && execSeq <= j && Touches(WriteSide, log[j], FinalKey(r.loc))
  }

  /** Something from `execSeq` on wrote under the key. */
  ghost predicate Overwritten(log: seq<TxRWSet>, execSeq: int, fk: string) {
    exists j :: 0 <= j < |log| && execSeq <= j && Touches(WriteSide, log[j], fk)
  }

  lemma OverwrittenExactly(log: seq<TxRWSet>, execSeq: int, fk: string)
    ensures Overwritten(log, execSeq, fk) <==>
      Latest(WriteSide, log, fk).Some? && Latest(WriteSide, log, fk).value.at >= execSeq
  {
    var r := Latest(WriteSide, log, fk);
    if r.Some? { assert Touches(WriteSide, log[r.value.at], fk); }
  }

  ghost predicate StaleAt(log: seq<TxRWSet>, execSeq: int, rw: TxRWSet, k: nat)
    requires k < |rw.txReads|
  {
    Overwritten(log, execSeq, FinalKey(rw.txReads[k].loc))
  }

  lemma StaleReadIsOne(log: seq<TxRWSet>, execSeq: int, rw: TxRWSet)
    ensures Stale(log, execSeq, rw) <==> exists k :: 0 <= k < |rw.txReads| && StaleAt(log, execSeq, rw, k)
  {
    if k :| 0 <= k < |rw.txReads| && StaleAt(log, execSeq, rw, k) {
      assert rw.txReads[k] in rw.txReads;
    }
    if r, j :| r in rw.txReads && 0 <= j < |log| && execSeq <= j && Touches(WriteSide, log[j], FinalKey(r.loc)) {
      var k :| 0 <= k < |rw.txReads| && rw.txReads[k] == r;
      assert StaleAt(log, execSeq, rw, k);
    }
  }

  // ---------------------------------------------------------------- layered reads

  /** A read through one snapshot: its writes, then its cached reads, then what lies below. */
  function SnapshotGet(log: seq<TxRWSet>, below: Option<Bytes>, l: Loc): Option<Bytes> {
    var w := Latest(WriteSide, log, FinalKey(l));
    var r := Latest(ReadSide, log, FinalKey(l));
    if w.Some? then Some(w.value.value)
    else if r.Some? then Some(r.value.value)
    else below
  }

  /** A read through a stack of snapshot logs, newest first, over the store. */
  function LayersGet(layers: seq<seq<TxRWSet>>, store: Store, l: Loc): Option<Bytes> {
    if layers == [] then ReadObject(store, l)
    else SnapshotGet(layers[0], LayersGet(layers[1..], store, l), l)
  }

  ghost predicate InNames(names: set<string>, log: seq<TxRWSet>) {
    forall side, j, a :: 0 <= j < |log| && a in Accesses(side, log[j]) ==> a.loc.contract in names
  }

  /** Cached reads of locations the log never writes hold the base value. */
  ghost predicate HonestCache(base: View, names: set<string>, log: seq<TxRWSet>) {
    forall l: Loc ::
      l.contract in names && Latest(WriteSide, log, FinalKey(l)).None? && Latest(ReadSide, log, FinalKey(l)).Some? ==>
        base(l) == Some(Latest(ReadSide, log, FinalKey(l)).value.value)
  }

  lemma {:induction false} LastAtIsLastWrite(names: set<string>, ws: seq<Access>, l: Loc)
    requires PrefixFree(names) && l.contract in names
    requires forall a :: a in ws ==> a.loc.contract in names
    ensures LastAt(ws, FinalKey(l)) == LastWrite(ws, l)
  {
    if ws != [] {
      var w := ws[|ws| - 1];
      if FinalKey(w.loc) == FinalKey(l) { SharedKey(w.loc, l); }
      LastAtIsLastWrite(names, ws[..|ws| - 1], l);
    }
  }

  lemma TouchIsWrite(names: set<string>, log: seq<TxRWSet>, j: nat, l: Loc)
    requires PrefixFree(names) && InNames(names, log) && l.contract in names && j < |log|
    ensures LastAt(log[j].txWrites, FinalKey(l)) == LastWrite(log[j].txWrites, l)
    ensures Touches(WriteSide, log[j], FinalKey(l)) <==> Writes(log[j], l)
  {
    forall a | a in log[j].txWrites ensures a.loc.contract in names {
      assert a in Accesses(WriteSide, log[j]);
    }
    LastAtIsLastWrite(names, log[j].txWrites, l);
  }

  /** With an honest cache, a read through a snapshot is a replay of its log. */
  lemma CacheIsTransparent(base: View, names: set<string>, log: seq<TxRWSet>, l: Loc)
    requires PrefixFree(names) && InNames(names, log) && HonestCache(base, names, log) && l.contract in names
    ensures SnapshotGet(log, base(l), l) == ValueAfter(base, log, l)
  {
    forall j | 0 <= j < |log|
      ensures LastAt(log[j].txWrites, FinalKey(l)) == LastWrite(log[j].txWrites, l)
      ensures Touches(WriteSide, log[j], FinalKey(l)) <==> Writes(log[j], l)
    {
      TouchIsWrite(names, log, j, l);
    }
    var w := Latest(WriteSide, log, FinalKey(l));
    if w.Some? {
      ValueAfterLastWriter(base, log, w.value.at, l);
    } else {
      ValueAfterUnwritten(base, log, 0, l);
    }
  }

  /** Committing the bottom snapshot to the store leaves every read through the snapshots
      above it unchanged. */
  lemma BottomReadsAsStore(bottom: seq<TxRWSet>, store: Store, names: set<string>, l: Loc)
    requires PrefixFree(names) && InNames(names, bottom) && HonestCache(StoreView(store), names, bottom)
    requires l.contract in names
    ensures LayersGet([bottom], store, l) == ReadObject(CommitAll(store, bottom), l)
  {
    CacheIsTransparent(StoreView(store), names, bottom, l);
    CommitAllRead(store, bottom, l);
    assert [bottom][1..] == [];
  }

  lemma {:induction false} CommitPreservesReads(
      above: seq<seq<TxRWSet>>, bottom: seq<TxRWSet>, store: Store, names: set<string>, l: Loc)
    requires PrefixFree(names) && InNames(names, bottom) && HonestCache(StoreView(store), names, bottom)
        && l.contract in names
    ensures LayersGet(above + [bottom], store, l) == LayersGet(above, CommitAll(store, bottom), l)
  {
    var layers := above + [bottom];
    if above == [] {
      BottomReadsAsStore(bottom, store, names, l);
      assert layers == [bottom];
    } else {
      CommitPreservesReads(above[1..], bottom, store, names, l);
      assert layers[1..] == above[1..] + [bottom];
    }
  }

  /** The cell a table shows once `accesses` by transaction `at` are laid over `below`. */
  function Overlay(accesses: seq<Access>, at: nat, below: Option<Sv>, fk: string): Option<Sv> {
    if LastAt(accesses, fk).Some? then Some(Sv(at, LastAt(accesses, fk).value)) else below
  }

  /** Sets one table cell for each access of transaction `at`, later accesses winning. */
  method Record(table: map<string, Sv>, accesses: seq<Access>, at: nat) returns (table': map<string, Sv>)
    ensures forall fk :: Lookup(table', fk) == Overlay(accesses, at, Lookup(table, fk), fk)
  {
    table' := table;
    for n := 0 to |accesses|
      invariant forall fk :: Lookup(table', fk) == Overlay(accesses[..n], at, Lookup(table, fk), fk)
    {
      table' := table'[FinalKey(accesses[n].loc) := Sv(at, accesses[n].value)];
      assert accesses[..n + 1][..n] == accesses[..n];
    }
    assert accesses[..|accesses|] == accesses;
  }

  lemma TabulatesOneMore(table: map<string, Sv>, table': map<string, Sv>, side: Side, log: seq<TxRWSet>, rw: TxRWSet)
    requires Tabulates(table, side, log)
    requires forall fk :: Lookup(table', fk) == Overlay(Accesses(side, rw), |log|, Lookup(table, fk), fk)
    ensures Tabulates(table', side, log + [rw])
  {
    assert (log + [rw])[..|log|] == log;
  }

  // ---------------------------------------------------------------- the snapshot

  /** The header fields a fingerprint is computed from: the height, the other fields known
      before consensus, and the transaction, DAG and read-write-set roots. */
  datatype FingerPrint = FingerPrint(height: nat, head: string, roots: string)

  function NotConsensus(fp: FingerPrint): FingerPrint {
    fp.(roots := "")
  }

  /** Links stay inside `u` and go to snapshots made earlier. */
  ghost predicate Linked(u: set<Snapshot>)
    reads u
  {
    forall s :: s in u && s.preSnapshot != null ==> s.preSnapshot in u && s.preSnapshot.rank < s.rank
  }

  class Snapshot {
    const fp: FingerPrint
    /** How many snapshots the manager had made before this one. */
    ghost const rank: nat
    var sealed: bool
    var preSnapshot: Snapshot?
    var txRWSetTable: seq<TxRWSet>
    var txTable: seq<string>
    var specialTxTable: seq<string>
    var txResultMap: map<string, string>
    var readTable: map<string, Sv>
    var writeTable: map<string, Sv>

    ghost predicate Valid()
      reads this
    {
      && |txTable| == |txRWSetTable|
      && Tabulates(readTable, ReadSide, txRWSetTable)
      && Tabulates(writeTable, WriteSide, txRWSetTable)
    }

    constructor (fp: FingerPrint, ghost rank: nat)
      ensures Valid() && this.fp == fp && this.rank == rank && preSnapshot == null && !sealed
      ensures txRWSetTable == [] && specialTxTable == [] && txResultMap == map[]
    {
      this.fp, this.rank := fp, rank;
      sealed, preSnapshot := false, null;
      txRWSetTable, txTable, specialTxTable, txResultMap := [], [], [], map[];
      readTable, writeTable := map[], map[];
    }

    /** The logs of this snapshot and its predecessors, newest first. */
    ghost function Layers(u: set<Snapshot>): (layers: seq<seq<TxRWSet>>)
      requires Linked(u) && this in u
      reads u
      ensures |layers| > 0
      decreases rank
    {
      [txRWSetTable] + if preSnapshot == null then [] else preSnapshot.Layers(u)
    }

    /** Reads a location through this snapshot and its predecessors. A predecessor's own
        read already falls back to its predecessors and the store; when it fails, the walk
        goes on to the next predecessor. */
    method GetKey(store: Store, l: Loc, ghost u: set<Snapshot>) returns (v: Option<Bytes>)
      requires Linked(u) && this in u && forall s :: s in u ==> s.Valid()
      ensures v == LayersGet(Layers(u), store, l)
      decreases rank, 1
    {
      var finalKey := FinalKey(l);
      assert Lookup(writeTable, finalKey) == Latest(WriteSide, txRWSetTable, finalKey);
      assert Lookup(readTable, finalKey) == Latest(ReadSide, txRWSetTable, finalKey);
      if finalKey in writeTable {
        return Some(writeTable[finalKey].value);
      }
      if finalKey in readTable {
        return Some(readTable[finalKey].value);
      }
      ghost var rest := if preSnapshot == null then [] else preSnapshot.Layers(u);
      assert Layers(u)[1..] == rest;
      var iter := preSnapshot;
      while iter != null
        invariant iter != null ==> iter in u && iter.rank < rank
        invariant LayersGet(rest, store, l)
               == if iter == null then ReadObject(store, l) else LayersGet(iter.Layers(u), store, l)
        decreases if iter == null then 0 else iter.rank + 1
      {
        v := iter.GetKey(store, l, u);
        if v.Some? {
          return v;
        }
        assert iter.Layers(u)[1..] == if iter.preSnapshot == null then [] else iter.preSnapshot.Layers(u);
        iter := iter.preSnapshot;
      }
      v := ReadObject(store, l);
    }

    method Seal()
      modifies this`sealed
      ensures sealed
    {
      sealed := true;
    }

    method Apply(txId: string, rw: TxRWSet, result: string)
      requires Valid()
      modifies this`readTable, this`writeTable, this`txRWSetTable, this`txResultMap, this`txTable
      ensures Valid()
      ensures txRWSetTable == old(txRWSetTable) + [rw] && txTable == old(txTable) + [txId]
      ensures txResultMap == old(txResultMap)[txId := result]
    {
      var applySeq := |txTable|;
      readTable := Record(readTable, rw.txReads, applySeq);
      writeTable := Record(writeTable, rw.txWrites, applySeq);
      TabulatesOneMore(old(readTable), readTable, ReadSide, txRWSetTable, rw);
      TabulatesOneMore(old(writeTable), writeTable, WriteSide, txRWSetTable, rw);
      txRWSetTable := txRWSetTable + [rw];
      txResultMap := txResultMap[txId := result];
      txTable := txTable + [txId];
    }

    /** Admits a transaction that started at `execSeq`, unless the snapshot is sealed or one
        of its reads has gone stale. An iterator transaction is set aside on its first pass
        and applied unchecked on its second. */
    method ApplyTxSimContext(
        txId: string, execSeq: int, rw: TxRWSet, result: string, isIterator: bool, applySpecialTx: bool)
      returns (ok: bool, n: nat)
      requires Valid()
      modifies this
      ensures Valid() && sealed == old(sealed) && preSnapshot == old(preSnapshot)
      ensures !applySpecialTx && old(sealed) ==> !ok && n == |old(txTable)| && unchanged(this)
      ensures !applySpecialTx && !old(sealed) && isIterator ==>
        && ok && n == |old(txTable)| + |old(specialTxTable)| + 1
        && specialTxTable == old(specialTxTable) + [txId] && txRWSetTable == old(txRWSetTable)
        && txTable == old(txTable) && txResultMap == old(txResultMap)
      ensures applySpecialTx || (!old(sealed) && !isIterator) ==>
        && (ok <==> isIterator || !Stale(old(txRWSetTable), execSeq, rw))
        && n == |txTable| && specialTxTable == old(specialTxTable)
        && (!ok ==> unchanged(this))
        && (ok ==> txRWSetTable == old(txRWSetTable) + [rw])
        && (ok ==> txTable == old(txTable) + [txId] && txResultMap == old(txResultMap)[txId := result])
    {
      if !applySpecialTx && sealed {
        return false, |txTable|;
      }
      if !applySpecialTx && isIterator {
        specialTxTable := specialTxTable + [txId];
        return true, |txTable| + |specialTxTable|;
      }
      if isIterator || execSeq >= |txTable| {
        Apply(txId, rw, result);
        return true, |txTable|;
      }
      var stale := ReadsStale(execSeq, rw);
      if stale { return false, |txTable|; }
      Apply(txId, rw, result);
      ok, n := true, |txTable|;
    }

    /** Whether a location read was last written at or after the start sequence. */
    method ReadsStale(execSeq: int, rw: TxRWSet) returns (stale: bool)
      requires Valid()
      ensures stale == Stale(txRWSetTable, execSeq, rw)
    {
      StaleReadIsOne(txRWSetTable, execSeq, rw);
      for k := 0 to |rw.txReads|
        invariant forall k' :: 0 <= k' < k ==> !StaleAt(txRWSetTable, execSeq, rw, k')
      {
        stale := WrittenSince(execSeq, FinalKey(rw.txReads[k].loc));
        assert stale == StaleAt(txRWSetTable, execSeq, rw, k);
        if stale { return; }
      }
      stale := false;
    }

    method WrittenSince(execSeq: int, finalKey: string) returns (written: bool)
      requires Valid()
      ensures written == Overwritten(txRWSetTable, execSeq, finalKey)
    {
      assert Lookup(writeTable, finalKey) == Latest(WriteSide, txRWSetTable, finalKey);
      OverwrittenExactly(txRWSetTable, execSeq, finalKey);
      written := finalKey in writeTable && writeTable[finalKey].at >= execSeq;
    }
  }

  // ---------------------------------------------------------------- the manager

  /** Subtraction of unsigned 64-bit numbers. */
  function Sub64(a: nat, b: nat): nat {
    (a - b) % 0x1_0000_0000_0000_0000
  }

  /** The garbage-collection test for a predecessor at height `q` when height `h` commits. */
  predicate TooOld(h: nat, q: nat) {
    Sub64(h, q) > 8
  }

  /** The test is meant for predecessors more than eight heights back; the unsigned
      subtraction also selects every predecessor above the committed height. */
  lemma TooOldExact(h: nat, q: nat)
    requires h < 0x1_0000_0000_0000_0000 && q < 0x1_0000_0000_0000_0000
    ensures TooOld(h, q) <==> q + 8 < h || (h < q && q - h < 0xffff_ffff_ffff_fff8)
  {
  }

  // ---------------------------------------------------------------- what unlinking costs

  function StackView(layers: seq<seq<TxRWSet>>, store: Store): View {
    l => LayersGet(layers, store, l)
  }

  /** Every layer's cached reads are those of the layers below it. */
  ghost predicate HonestStack(names: set<string>, layers: seq<seq<TxRWSet>>, store: Store) {
    layers == [] ||
    (&& InNames(names, layers[0]) && HonestCache(StackView(layers[1..], store), names, layers[0])
     && HonestStack(names, layers[1..], store))
  }

  /** The logs of a stack as one log, oldest first. */
  function Flatten(layers: seq<seq<TxRWSet>>): seq<TxRWSet> {
    if layers == [] then [] else Flatten(layers[1..]) + layers[0]
  }

  /** The value the last writer of `l` in a log gives it, if there is one. */
  function LastValue(log: seq<TxRWSet>, l: Loc): Option<Bytes> {
    if log == [] then None
    else if Writes(log[|log| - 1], l) then LastWrite(log[|log| - 1].txWrites, l)
    else LastValue(log[..|log| - 1], l)
  }

  lemma {:induction false} ValueAfterIsLastValue(base: View, log: seq<TxRWSet>, l: Loc)
    ensures ValueAfter(base, log, l) == if LastValue(log, l).Some? then LastValue(log, l) else base(l)
  {
    if log != [] { ValueAfterIsLastValue(base, log[..|log| - 1], l); }
  }

  lemma {:induction false} LastValueOfBoth(older: seq<TxRWSet>, newer: seq<TxRWSet>, l: Loc)
    ensures LastValue(older + newer, l) == if LastValue(newer, l).Some? then LastValue(newer, l)
        else LastValue(older, l)
    decreases |newer|
  {
    if newer == [] {
      assert older + newer == older;
    } else {
      assert (older + newer)[..|older + newer| - 1] == older + newer[..|newer| - 1];
      LastValueOfBoth(older, newer[..|newer| - 1], l);
    }
  }

  /** A read through an honest stack is the last value its logs give, or the store's. */
  lemma {:induction false} StackReadsAsReplay(names: set<string>, layers: seq<seq<TxRWSet>>, store: Store, l: Loc)
    requires PrefixFree(names) && HonestStack(names, layers, store) && l.contract in names
    ensures LayersGet(layers, store, l)
         == if LastValue(Flatten(layers), l).Some? then LastValue(Flatten(layers), l) else ReadObject(store, l)
  {
    if layers != [] {
      var rest := layers[1..];
      StackReadsAsReplay(names, rest, store, l);
      CacheIsTransparent(StackView(rest, store), names, layers[0], l);
      ValueAfterIsLastValue(StackView(rest, store), layers[0], l);
      LastValueOfBoth(Flatten(rest), layers[0], l);
    }
  }

  /** The snapshot's own tables hold the location. */
  predicate Holds(log: seq<TxRWSet>, l: Loc) {
    Latest(WriteSide, log, FinalKey(l)).Some? || Latest(ReadSide, log, FinalKey(l)).Some?
  }

  lemma {:induction false} FlattenEnds(mid: seq<seq<TxRWSet>>, bottom: seq<TxRWSet>)
    ensures Flatten(mid + [bottom]) == bottom + Flatten(mid)
  {
    if mid == [] {
      assert (mid + [bottom])[1..] == [];
    } else {
      assert (mid + [bottom])[1..] == mid[1..] + [bottom];
      FlattenEnds(mid[1..], bottom);
    }
  }

  /** Snapshot `top` stands on uncommitted snapshots `mid` over the snapshot `bottom` that
      commits. Cut off from `mid`, it reads a location as before exactly when its own tables
      hold it, or no log of `mid` writes it, or the last write in `mid` is what the store holds
      after the commit. */
  lemma UnlinkedReadExact(top: seq<TxRWSet>, mid: seq<seq<TxRWSet>>, bottom: seq<TxRWSet>,
                          store: Store, names: set<string>, l: Loc)
    requires PrefixFree(names) && HonestStack(names, mid + [bottom], store) && l.contract in names
    ensures LayersGet([top], CommitAll(store, bottom), l) == LayersGet([top] + (mid + [bottom]), store, l)
       <==> || Holds(top, l) || LastValue(Flatten(mid), l).None?
            || LastValue(Flatten(mid), l) == ReadObject(CommitAll(store, bottom), l)
  {
    var below := mid + [bottom];
    assert ([top] + below)[1..] == below && [top][1..] == [];
    StackReadsAsReplay(names, below, store, l);
    FlattenEnds(mid, bottom);
    LastValueOfBoth(bottom, Flatten(mid), l);
    CommitAllRead(store, bottom, l);
    ValueAfterIsLastValue(StoreView(store), bottom, l);
  }

  class Manager {
    var snapshots: map<FingerPrint, Snapshot>
    /** How many snapshots have been made. */
    ghost var made: nat

    ghost predicate Valid()
      reads this, snapshots.Values
    {
      && (forall fp :: fp in snapshots ==> snapshots[fp].fp == fp && snapshots[fp].rank < made)
      && (forall fp :: fp in snapshots && snapshots[fp].preSnapshot != null ==>
            snapshots[fp].preSnapshot.rank < snapshots[fp].rank)
    }

    /** Some held snapshot is linked to one under `fp` that the collection test selects. */
    ghost predicate Condemned(fp: FingerPrint, h: nat)
      reads this, snapshots.Values
    {
      exists g :: g in snapshots && Collected(snapshots[g].preSnapshot, h) && snapshots[g].preSnapshot.fp == fp
    }

    constructor ()
      ensures Valid() && snapshots == map[]
    {
      snapshots, made := map[], 0;
    }

    /** Stores a new snapshot and links it to the previous block's if that is held. A block with
        the fingerprint of its own predecessor would be linked to itself. */
    method NewSnapshot(prevBlock: FingerPrint, block: FingerPrint) returns (s: Snapshot)
      requires Valid()
      modifies this
      ensures prevBlock != block ==> Valid()
      ensures fresh(s) && s.Valid() && s.fp == block && s.rank == old(made) && s.txRWSetTable == [] && !s.sealed
      ensures snapshots == old(snapshots)[block := s] && made == old(made) + 1
      ensures s.preSnapshot == if prevBlock == block then s
          else if prevBlock in old(snapshots) then old(snapshots)[prevBlock] else null
    {
      s := new Snapshot(block, made);
      made := made + 1;
      snapshots := snapshots[block := s];
      if prevBlock in snapshots {
        s.preSnapshot := snapshots[prevBlock];
      }
    }

    /** Unlinks every direct successor of `block`, visiting the map in any order. */
    method UnlinkSuccessors(block: FingerPrint)
      requires Valid()
      modifies snapshots.Values`preSnapshot
      ensures Valid()
      ensures forall fp :: fp in snapshots ==>
          snapshots[fp].preSnapshot == Unlink(old(snapshots[fp].preSnapshot), block)
      ensures forall fp, h :: Condemned(fp, h) ==> old(Condemned(fp, h))
    {
      var todo := snapshots.Keys;
      while todo != {}
        invariant todo <= snapshots.Keys
        invariant forall fp :: fp in snapshots ==>
          snapshots[fp].preSnapshot == if fp in todo then old(snapshots[fp].preSnapshot)
              else Unlink(old(snapshots[fp].preSnapshot), block)
        decreases |todo|
      {
        var fp :| fp in todo;
        todo := todo - {fp};
        var s := snapshots[fp];
        if s.preSnapshot != null && s.preSnapshot.fp == block {
          s.preSnapshot := null;
        }
      }
    }

    /** Unlinks each snapshot from a predecessor the garbage-collection test selects, and
        drops that predecessor. The walk visits the map in any order and skips entries it has
        already deleted. */
    method CollectOld(h: nat)
      requires Valid()
      modifies this`snapshots, snapshots.Values`preSnapshot
      ensures Valid()
      ensures forall fp :: fp in snapshots ==> fp in old(snapshots) && snapshots[fp] == old(snapshots)[fp]
      ensures forall fp :: fp in old(snapshots) && fp !in snapshots ==> old(Condemned(fp, h))
      ensures forall fp :: fp in snapshots ==> snapshots[fp].preSnapshot == Collect(old(snapshots[fp].preSnapshot), h)
      ensures forall fp :: fp in snapshots && Collected(old(snapshots[fp].preSnapshot), h) ==>
          old(snapshots[fp].preSnapshot).fp !in snapshots
      ensures forall fp :: fp in old(snapshots) ==>
        old(snapshots)[fp].preSnapshot == old(snapshots[fp].preSnapshot) || old(snapshots)[fp].preSnapshot == null
    {
      ghost var all := snapshots;
      ghost var link := map s | s in snapshots.Values :: s.preSnapshot;
      ghost var now := link;
      var todo := snapshots.Keys;
      while todo != {}
        invariant forall s :: s in now ==> s.preSnapshot == now[s]
        invariant Collecting(all, link, now, snapshots, todo, h)
        decreases todo
      {
        var fp :| fp in todo;
        now := CollectOne(fp, h, all, link, now, todo);
        todo := todo - {fp};
      }
    }

    /** Visits one entry: if its predecessor is selected, drops the predecessor and the link. */
    method CollectOne(fp: FingerPrint, h: nat, ghost all: map<FingerPrint, Snapshot>,
                      ghost link: map<Snapshot, Snapshot?>, ghost now: map<Snapshot, Snapshot?>,
                      ghost todo: set<FingerPrint>)
      returns (ghost now': map<Snapshot, Snapshot?>)
      requires Collecting(all, link, now, snapshots, todo, h) && fp in todo
      requires forall s :: s in now ==> s.preSnapshot == now[s]
      modifies this`snapshots, link.Keys`preSnapshot
      ensures Collecting(all, link, now', snapshots, todo - {fp}, h)
      ensures forall s :: s in now' ==> s.preSnapshot == now'[s]
    {
      CollectStep(all, link, now, snapshots, todo, h, fp);
      now' := now;
      if fp in snapshots {
        var s := snapshots[fp];
        now' := now[s := Collect(s.preSnapshot, h)];
        if s.preSnapshot != null && TooOld(h, s.preSnapshot.fp.height) {
          snapshots := snapshots - {s.preSnapshot.fp};
          s.preSnapshot := null;
        }
      }
    }

    /** Unlinks the successors of a committed block, drops its snapshot under both of its
        fingerprints, then collects old predecessors. */
    method NotifyBlockCommitted(block: FingerPrint)
      requires Valid()
      modifies this`snapshots, snapshots.Values`preSnapshot
      ensures Valid()
      ensures block !in snapshots && FingerPrint(block.height, block.head, "") !in snapshots
      ensures forall fp :: fp in snapshots ==> fp in old(snapshots) && snapshots[fp] == old(snapshots)[fp]
      ensures forall fp :: fp in old(snapshots) && fp !in snapshots ==>
        fp == block || fp == NotConsensus(block) || old(Condemned(fp, block.height))
      ensures forall fp :: fp in snapshots ==>
        snapshots[fp].preSnapshot == Collect(Unlink(old(snapshots[fp].preSnapshot), block), block.height)
      ensures forall fp :: fp in old(snapshots) && Successor(old(snapshots[fp].preSnapshot), block) ==>
        old(snapshots)[fp].preSnapshot == null
    {
      DropCommitted(block);
      CollectOld(block.height);
    }

    method DropCommitted(block: FingerPrint)
      requires Valid()
      modifies this`snapshots, snapshots.Values`preSnapshot
      ensures Valid() && snapshots == old(snapshots) - {block, NotConsensus(block)}
      ensures forall fp :: fp in old(snapshots) ==>
        old(snapshots)[fp].preSnapshot == Unlink(old(snapshots[fp].preSnapshot), block)
      ensures forall fp, h :: Condemned(fp, h) ==> old(Condemned(fp, h))
    {
      UnlinkSuccessors(block);
      Forget(block);
    }

    method Forget(block: FingerPrint)
      requires Valid()
      modifies this`snapshots
      ensures Valid() && snapshots == old(snapshots) - {block, NotConsensus(block)}
      ensures forall fp, h :: Condemned(fp, h) ==> old(Condemned(fp, h))
    {
      snapshots := snapshots - {block};
      snapshots := snapshots - {NotConsensus(block)};
    }
  }

  ghost predicate Successor(pre: Snapshot?, block: FingerPrint) {
    pre != null && pre.fp == block
  }

  /** A link once the successors of `block` are unlinked. */
  ghost function Unlink(pre: Snapshot?, block: FingerPrint): Snapshot? {
    if Successor(pre, block) then null else pre
  }

  ghost predicate Collected(pre: Snapshot?, h: nat) {
    pre != null && TooOld(h, pre.fp.height)
  }

  /** A link once garbage collection for height `h` has run. */
  ghost function Collect(pre: Snapshot?, h: nat): Snapshot? {
    if Collected(pre, h) then null else pre
  }

  /** Which links a commit cuts: to the block itself, to predecessors more than eight heights back, and
      to those above the committed height. */
  lemma LinkCutExactly(pre: Snapshot, block: FingerPrint)
    requires block.height < 0x1_0000_0000_0000_0000 && pre.fp.height < 0x1_0000_0000_0000_0000
    ensures Collect(Unlink(pre, block), block.height) == null <==>
            || pre.fp == block || pre.fp.height + 8 < block.height
            || (block.height < pre.fp.height && pre.fp.height - block.height < 0xffff_ffff_ffff_fff8)
    ensures Collect(Unlink(pre, block), block.height) in {null, pre}
  {
    TooOldExact(block.height, pre.fp.height);
  }

  /** Midway through collection: `link` holds the links at the start and `now` the current
      ones, `kept` the entries still in the map, and `todo` the entries not visited yet. */
  ghost predicate Collecting(
      all: map<FingerPrint, Snapshot>, link: map<Snapshot, Snapshot?>, now: map<Snapshot, Snapshot?>,
      kept: map<FingerPrint, Snapshot>, todo: set<FingerPrint>, h: nat)
  {
    && now.Keys == link.Keys && todo <= all.Keys && kept.Keys <= all.Keys
    && (forall fp :: fp in all ==> all[fp].fp == fp && all[fp] in link)
    && (forall fp :: fp in kept ==> kept[fp] == all[fp])
    && (forall fp :: fp in all && fp !in kept ==> LinkedTo(all, link, fp, h))
    && (forall fp :: fp in kept ==> now[kept[fp]] == if fp in todo then link[kept[fp]] else Collect(link[kept[fp]], h))
    && (forall fp :: fp in kept && fp !in todo && Collected(link[kept[fp]], h) ==> link[kept[fp]].fp !in kept)
    && (forall s :: s in link ==> now[s] == link[s] || now[s] == null)
  }

  /** One of `all` is linked to a snapshot under `fp` that the collection test selects. */
  ghost predicate LinkedTo(all: map<FingerPrint, Snapshot>, link: map<Snapshot, Snapshot?>, fp: FingerPrint, h: nat) {
    exists g :: g in all && all[g] in link && Collected(link[all[g]], h) && link[all[g]].fp == fp
  }

  lemma CollectStep(all: map<FingerPrint, Snapshot>, link: map<Snapshot, Snapshot?>, now: map<Snapshot, Snapshot?>,
                    kept: map<FingerPrint, Snapshot>, todo: set<FingerPrint>, h: nat, fp: FingerPrint)
    requires Collecting(all, link, now, kept, todo, h) && fp in todo
    ensures fp !in kept ==> Collecting(all, link, now, kept, todo - {fp}, h)
    ensures fp in kept ==>
      Collecting(all, link, now[kept[fp] := Collect(now[kept[fp]], h)],
                 if Collected(now[kept[fp]], h) then kept - {now[kept[fp]].fp} else kept, todo - {fp}, h)
  {
  }
}
