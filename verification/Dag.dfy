/**
 The dependency DAG of a block: key bitmaps, the cumulative-bitmap shortcut, and the
 construction of a transitively reduced DAG. A bitmap is the set of its one positions.
 */
module Dag {
  import opened Options
  import opened RWSets

  type Bitmap = set<nat>

  /** The keys of a read or write list; the contract name plays no part in conflicts. */
  function KeysOf(accesses: seq<Access>): set<Bytes> {
    set a | a in accesses :: a.loc.key
  }

  function ReadKeys(rw: TxRWSet): set<Bytes> {
    KeysOf(rw.txReads)
  }

  function WriteKeys(rw: TxRWSet): set<Bytes> {
    KeysOf(rw.txWrites)
  }

  /** Two transactions conflict when one writes a key the other reads or writes. */
  predicate Conflict(a: TxRWSet, b: TxRWSet) {
    || ReadKeys(a) * WriteKeys(b) != {}
    || WriteKeys(a) * WriteKeys(b) != {}
    || WriteKeys(a) * ReadKeys(b) != {}
  }

  /** An access of one list and one of the other have the same key. */
  ghost predicate ShareKey(xs: seq<Access>, ys: seq<Access>) {
    exists x, y :: x in xs && y in ys && x.loc.key == y.loc.key
  }

  lemma KeysMeet(xs: seq<Access>, ys: seq<Access>)
    ensures KeysOf(xs) * KeysOf(ys) != {} <==> ShareKey(xs, ys)
  {
    if k :| k in KeysOf(xs) * KeysOf(ys) {
      var x :| x in xs && x.loc.key == k;
      var y :| y in ys && y.loc.key == k;
    }
    if x, y :| x in xs && y in ys && x.loc.key == y.loc.key {
      assert x.loc.key in KeysOf(xs) * KeysOf(ys);
    }
  }

  /** A write of one has the key of a read or write of the other; two reads do not matter. */
  ghost predicate Clash(a: TxRWSet, b: TxRWSet) {
    ShareKey(a.txWrites, b.txReads) || ShareKey(a.txWrites, b.txWrites) || ShareKey(a.txReads, b.txWrites)
  }

  lemma ConflictOnAccesses(a: TxRWSet, b: TxRWSet)
    ensures Conflict(a, b) <==> Clash(a, b)
  {
    KeysMeet(a.txWrites, b.txReads);
    KeysMeet(a.txWrites, b.txWrites);
    KeysMeet(a.txReads, b.txWrites);
  }

  // ---------------------------------------------------------------- key bitmaps

  predicate InterExist(a: Bitmap, b: Bitmap) {
    a * b != {}
  }

  predicate Conflicted(readI: Bitmap, writeI: Bitmap, readJ: Bitmap, writeJ: Bitmap) {
    InterExist(readI, writeJ) || InterExist(writeI, writeJ) || InterExist(writeI, readJ)
  }

  /** A key dictionary numbers distinct keys differently, using numbers below `next`. */
  ghost predicate IsDict(dict: map<Bytes, nat>, next: nat) {
    && (forall k :: k in dict ==> dict[k] < next)
    && (forall k, k' :: k in dict && k' in dict && dict[k] == dict[k'] ==> k == k')
  }

  ghost predicate Extends(dict: map<Bytes, nat>, dict': map<Bytes, nat>) {
    forall k :: k in dict ==> k in dict' && dict'[k] == dict[k]
  }

  ghost predicate Encodes(dict: map<Bytes, nat>, keys: set<Bytes>, bits: Bitmap) {
    && keys <= dict.Keys
    && (forall k :: k in keys ==> dict[k] in bits)
    && (forall b :: b in bits ==> exists k :: k in keys && dict[k] == b)
  }

  /** Under an injective dictionary, encodings intersect exactly when the key sets do. */
  lemma EncodingsIntersect(dict: map<Bytes, nat>, next: nat, a: set<Bytes>, bitsA: Bitmap, b: set<Bytes>, bitsB: Bitmap)
    requires IsDict(dict, next) && Encodes(dict, a, bitsA) && Encodes(dict, b, bitsB)
    ensures InterExist(bitsA, bitsB) <==> a * b != {}
  {
    if InterExist(bitsA, bitsB) {
      var x :| x in bitsA * bitsB;
      var k :| k in a && dict[k] == x;
      var k' :| k' in b && dict[k'] == x;
      assert k in a * b;
    }
    if a * b != {} {
      var k :| k in a * b;
      assert dict[k] in bitsA * bitsB;
    }
  }

  lemma EncodesOneMore(dict: map<Bytes, nat>, dict': map<Bytes, nat>, keys: set<Bytes>, bits: Bitmap, key: Bytes)
    requires Encodes(dict, keys, bits) && Extends(dict, dict') && key in dict'
    ensures Encodes(dict', keys + {key}, bits + {dict'[key]})
  {
    forall b | b in bits ensures exists k :: k in keys + {key} && dict'[k] == b {
      var k :| k in keys && dict[k] == b;
      assert dict'[k] == b;
    }
  }

  lemma EncodesLonger(dict: map<Bytes, nat>, dict': map<Bytes, nat>, keys: set<Bytes>, bits: Bitmap)
    requires Encodes(dict, keys, bits) && Extends(dict, dict')
    ensures Encodes(dict', keys, bits)
  {
    forall b | b in bits ensures exists k :: k in keys && dict'[k] == b {
      var k :| k in keys && dict[k] == b;
      assert dict'[k] == b;
    }
  }

  /** The two bitmaps of a transaction. */
  ghost predicate EncodesBoth(dict: map<Bytes, nat>, rw: TxRWSet, reading: Bitmap, writing: Bitmap) {
    Encodes(dict, ReadKeys(rw), reading) && Encodes(dict, WriteKeys(rw), writing)
  }

  lemma EncodesBothLonger(
      dict: map<Bytes, nat>, dict': map<Bytes, nat>, rw: TxRWSet, reading: Bitmap, writing: Bitmap)
    requires EncodesBoth(dict, rw, reading, writing) && Extends(dict, dict')
    ensures EncodesBoth(dict', rw, reading, writing)
  {
    EncodesLonger(dict, dict', ReadKeys(rw), reading);
    EncodesLonger(dict, dict', WriteKeys(rw), writing);
  }

  lemma BitmapsAgree(dict: map<Bytes, nat>, next: nat, a: TxRWSet, readA: Bitmap, writeA: Bitmap,
                     b: TxRWSet, readB: Bitmap, writeB: Bitmap)
    requires IsDict(dict, next) && EncodesBoth(dict, a, readA, writeA) && EncodesBoth(dict, b, readB, writeB)
    ensures Conflicted(readA, writeA, readB, writeB) <==> Conflict(a, b)
    ensures InterExist(readA, writeB) <==> ReadKeys(a) * WriteKeys(b) != {}
    ensures InterExist(writeA, writeB) <==> WriteKeys(a) * WriteKeys(b) != {}
  {
    EncodingsIntersect(dict, next, ReadKeys(a), readA, WriteKeys(b), writeB);
    EncodingsIntersect(dict, next, WriteKeys(a), writeA, WriteKeys(b), writeB);
    EncodingsIntersect(dict, next, WriteKeys(a), writeA, ReadKeys(b), readB);
  }

  method MarkKeys(accesses: seq<Access>, dict: map<Bytes, nat>, next: nat)
    returns (bits: Bitmap, dict': map<Bytes, nat>, next': nat)
    requires IsDict(dict, next)
    ensures IsDict(dict', next') && Extends(dict, dict')
    ensures Encodes(dict', KeysOf(accesses), bits)
  {
    bits, dict', next' := {}, dict, next;
    for n := 0 to |accesses|
      invariant IsDict(dict', next') && Extends(dict, dict')
      invariant Encodes(dict', KeysOf(accesses[..n]), bits)
    {
      var key := accesses[n].loc.key;
      assert KeysOf(accesses[..n + 1]) == KeysOf(accesses[..n]) + {key} by {
        assert accesses[..n + 1] == accesses[..n] + [accesses[n]];
      }
      ghost var dict0 := dict';
      if key !in dict' {
        dict' := dict'[key := next'];
        next' := next' + 1;
      }
      EncodesOneMore(dict0, dict', KeysOf(accesses[..n]), bits, key);
      bits := bits + {dict'[key]};
    }
    assert accesses[..|accesses|] == accesses;
  }

  method BuildRWBitmaps(table: seq<TxRWSet>) returns (readBitmap: seq<Bitmap>, writeBitmap: seq<Bitmap>)
    ensures |readBitmap| == |writeBitmap| == |table|
    ensures forall i, j :: 0 <= i < |table| && 0 <= j < |table| ==>
      (Conflicted(readBitmap[i], writeBitmap[i], readBitmap[j], writeBitmap[j]) <==> Conflict(table[i], table[j]))
    ensures forall i, j :: 0 <= i < |table| && 0 <= j < |table| ==>
      && (InterExist(readBitmap[i], writeBitmap[j]) <==> ReadKeys(table[i]) * WriteKeys(table[j]) != {})
      && (InterExist(writeBitmap[i], writeBitmap[j]) <==> WriteKeys(table[i]) * WriteKeys(table[j]) != {})
  {
    var keyDict: map<Bytes, nat>, dictIndex := map[], 0;
    readBitmap, writeBitmap := [], [];
    for i := 0 to |table|
      invariant |readBitmap| == |writeBitmap| == i
      invariant IsDict(keyDict, dictIndex)
      invariant forall j :: 0 <= j < i ==> EncodesBoth(keyDict, table[j], readBitmap[j], writeBitmap[j])
    {
      ghost var dict0 := keyDict;
      var readBits, writeBits;
      readBits, keyDict, dictIndex := MarkKeys(table[i].txReads, keyDict, dictIndex);
      ghost var dict1 := keyDict;
      writeBits, keyDict, dictIndex := MarkKeys(table[i].txWrites, keyDict, dictIndex);
      EncodesLonger(dict1, keyDict, ReadKeys(table[i]), readBits);
      forall j | 0 <= j < i ensures EncodesBoth(keyDict, table[j], readBitmap[j], writeBitmap[j]) {
        EncodesBothLonger(dict0, keyDict, table[j], readBitmap[j], writeBitmap[j]);
      }
      readBitmap, writeBitmap := readBitmap + [readBits], writeBitmap + [writeBits];
    }
    forall i, j | 0 <= i < |table| && 0 <= j < |table|
      ensures Conflicted(readBitmap[i], writeBitmap[i], readBitmap[j], writeBitmap[j]) <==> Conflict(table[i], table[j])
      ensures InterExist(readBitmap[i], writeBitmap[j]) <==> ReadKeys(table[i]) * WriteKeys(table[j]) != {}
      ensures InterExist(writeBitmap[i], writeBitmap[j]) <==> WriteKeys(table[i]) * WriteKeys(table[j]) != {}
    {
      BitmapsAgree(keyDict, dictIndex, table[i], readBitmap[i], writeBitmap[i],
                   table[j], readBitmap[j], writeBitmap[j]);
    }
  }

  // ---------------------------------------------------------------- cumulative bitmaps

  ghost predicate IsPrefixUnion(bitmaps: seq<Bitmap>, cumulative: seq<Bitmap>) {
    && |cumulative| == |bitmaps|
    && forall i, x: nat :: 0 <= i < |bitmaps| ==>
         (x in cumulative[i] <==> exists k :: 0 <= k <= i && x in bitmaps[k])
  }

  method Accumulate(bitmaps: seq<Bitmap>) returns (cumulative: seq<Bitmap>)
    ensures IsPrefixUnion(bitmaps, cumulative)
  {
    cumulative := [];
    for i := 0 to |bitmaps|
      invariant |cumulative| == i
      invariant forall j, x: nat :: 0 <= j < i ==> (x in cumulative[j] <==> exists k :: 0 <= k <= j && x in bitmaps[k])
    {
      var c := bitmaps[i];
      if i > 0 {
        c := c + cumulative[i - 1];
      }
      cumulative := cumulative + [c];
    }
  }

  method BuildCumulativeBitmap(readBitmap: seq<Bitmap>, writeBitmap: seq<Bitmap>)
    returns (cumulativeRead: seq<Bitmap>, cumulativeWrite: seq<Bitmap>)
    ensures IsPrefixUnion(readBitmap, cumulativeRead)
    ensures IsPrefixUnion(writeBitmap, cumulativeWrite)
  {
    cumulativeRead := Accumulate(readBitmap);
    cumulativeWrite := Accumulate(writeBitmap);
  }

  /** Testing against the cumulative bitmaps finds a conflict exactly when some earlier
      transaction conflicts. */
  lemma FastConflictedExact(rb: seq<Bitmap>, wb: seq<Bitmap>, cr: seq<Bitmap>, cw: seq<Bitmap>, i: nat)
    requires |rb| == |wb| && 0 < i < |rb|
    requires IsPrefixUnion(rb, cr) && IsPrefixUnion(wb, cw)
    ensures Conflicted(rb[i], wb[i], cr[i - 1], cw[i - 1])
       <==> exists j :: 0 <= j < i && Conflicted(rb[i], wb[i], rb[j], wb[j])
  {
    PrefixIntersects(wb, cw, i, rb[i]);
    PrefixIntersects(wb, cw, i, wb[i]);
    PrefixIntersects(rb, cr, i, wb[i]);
  }

  lemma PrefixIntersects(bitmaps: seq<Bitmap>, cumulative: seq<Bitmap>, i: nat, a: Bitmap)
    requires 0 < i <= |bitmaps| && IsPrefixUnion(bitmaps, cumulative)
    ensures InterExist(a, cumulative[i - 1]) <==> exists j :: 0 <= j < i && InterExist(a, bitmaps[j])
  {
    if InterExist(a, cumulative[i - 1]) {
      var x :| x in a * cumulative[i - 1];
      var k :| 0 <= k <= i - 1 && x in bitmaps[k];
      assert x in a * bitmaps[k];
    }
    if j :| 0 <= j < i && InterExist(a, bitmaps[j]) {
      var x :| x in a * bitmaps[j];
      assert x in a * cumulative[i - 1];
    }
  }

  // ---------------------------------------------------------------- the DAG

  /** Edges only point to lower indices. */
  ghost predicate Downward(edges: seq<set<nat>>) {
    forall i, d :: 0 <= i < |edges| && d in edges[i] ==> d < i
  }

  /** There is a (possibly empty) path of edges from `i` to `j`. */
  ghost predicate Path(edges: seq<set<nat>>, i: nat, j: nat)
    requires Downward(edges) && i < |edges|
    decreases i
  {
    i == j || exists d :: d in edges[i] && Path(edges, d, j)
  }

  /** `edges` is the transitive reduction of the conflict order of `table`. */
  ghost predicate ExactDag(table: seq<TxRWSet>, edges: seq<set<nat>>) {
    && |edges| == |table|
    && Downward(edges)
    && (forall i, d :: 0 <= i < |edges| && d in edges[i] ==> Conflict(table[i], table[d]))
    && (forall i, j :: 0 <= j < i < |table| && Conflict(table[i], table[j]) ==> Path(edges, i, j))
    && (forall i, d, d' :: 0 <= i < |edges| && d in edges[i] && d' in edges[i] && d != d' ==> !Path(edges, d', d))
  }

  /** In the terms of the accesses alone: an edge goes down to a transaction such that one of the two
      writes a key the other reads or writes, and any two like that are joined by a path. */
  lemma ExactDagOnAccesses(table: seq<TxRWSet>, edges: seq<set<nat>>, i: nat, j: nat)
    requires ExactDag(table, edges) && i < |table|
    ensures j in edges[i] ==> j < i && Clash(table[i], table[j])
    ensures j < i && Clash(table[i], table[j]) ==> Path(edges, i, j)
  {
    if j < i { ConflictOnAccesses(table[i], table[j]); }
  }

  /** Transactions of which neither writes a key the other touches are not joined, so a block of
      readers has no edge at all. */
  lemma ReadersHaveNoEdge(table: seq<TxRWSet>, edges: seq<set<nat>>)
    requires ExactDag(table, edges) && forall i :: 0 <= i < |table| ==> table[i].txWrites == []
    ensures forall i :: 0 <= i < |edges| ==> edges[i] == {}
  {
    forall i, j | 0 <= i < |edges| && j in edges[i] ensures false { ExactDagOnAccesses(table, edges, i, j); }
  }

  /** Row `i` of the construction: sound, complete, reduced, and `reach[i]` closed one step. */
  ghost predicate RowOk(table: seq<TxRWSet>, edges: seq<set<nat>>, reach: seq<set<nat>>, i: nat)
    requires |edges| == |reach| <= |table| && i < |edges|
  {
    && (forall d :: d in edges[i] ==> d < i && Conflict(table[i], table[d]))
    && (forall x :: x in reach[i] ==> x <= i)
    && (forall x :: x in reach[i] <==> x == i || exists d :: d in edges[i] && d < i && x in reach[d])
    && (forall j :: 0 <= j < i && Conflict(table[i], table[j]) ==> j in reach[i])
    && (forall d, d' :: d in edges[i] && d' in edges[i] && d != d' && d' < i ==> d !in reach[d'])
  }

  lemma {:induction false} ReachIsClosure(
      table: seq<TxRWSet>, edges: seq<set<nat>>, reach: seq<set<nat>>, i: nat, j: nat)
    requires |edges| == |reach| <= |table| && i < |edges| && Downward(edges)
    requires forall k :: 0 <= k < |edges| ==> RowOk(table, edges, reach, k)
    ensures j in reach[i] <==> Path(edges, i, j)
    decreases i
  {
    assert RowOk(table, edges, reach, i);
    forall d | d in edges[i] ensures j in reach[d] <==> Path(edges, d, j) {
      ReachIsClosure(table, edges, reach, d, j);
    }
  }

  /** Correct rows make an exact DAG, and `reach` its reflexive-transitive closure. */
  lemma RowsMakeExactDag(table: seq<TxRWSet>, edges: seq<set<nat>>, reach: seq<set<nat>>)
    requires |edges| == |reach| == |table|
    requires forall k :: 0 <= k < |edges| ==> RowOk(table, edges, reach, k)
    ensures ExactDag(table, edges)
    ensures forall i, j :: 0 <= i < |edges| && 0 <= j ==> (j in reach[i] <==> Path(edges, i, j))
  {
    assert Downward(edges) by {
      forall i, d | 0 <= i < |edges| && d in edges[i] ensures d < i {
        assert RowOk(table, edges, reach, i);
      }
    }
    forall i, j | 0 <= i < |edges| && 0 <= j ensures j in reach[i] <==> Path(edges, i, j) {
      ReachIsClosure(table, edges, reach, i, j);
    }
    forall i, d | 0 <= i < |edges| && d in edges[i] ensures Conflict(table[i], table[d]) {
      assert RowOk(table, edges, reach, i);
    }
    forall i, j | 0 <= j < i < |table| && Conflict(table[i], table[j]) ensures Path(edges, i, j) {
      assert RowOk(table, edges, reach, i);
    }
    forall i, d, d' | 0 <= i < |edges| && d in edges[i] && d' in edges[i] && d != d' ensures !Path(edges, d', d) {
      assert RowOk(table, edges, reach, i);
    }
  }

  /** Walks down from transaction `i`, adding an edge to each conflicting transaction that is
      not reachable yet, and everything reachable from it. */
  method BuildReach(ghost table: seq<TxRWSet>, i: nat, rb: seq<Bitmap>, wb: seq<Bitmap>,
                    ghost edges: seq<set<nat>>, reachMap: seq<Bitmap>)
    returns (direct: Bitmap, reach: Bitmap)
    requires |rb| == |wb| == |table| && i < |table| && |edges| == |reachMap| == i
    requires forall j :: 0 <= j < i ==> (Conflicted(rb[i], wb[i], rb[j], wb[j]) <==> Conflict(table[i], table[j]))
    requires forall k :: 0 <= k < i ==> RowOk(table, edges, reachMap, k)
    ensures RowOk(table, edges + [direct], reachMap + [reach], i)
  {
    direct, reach := {}, {i};
    var j := i;
    while j > 0
      invariant 0 <= j <= i && RowSoFar(table, reachMap, i, j, direct, reach)
    {
      j := j - 1;
      if j !in reach && Conflicted(rb[i], wb[i], rb[j], wb[j]) {
        RowTake(table, edges, reachMap, i, j, direct, reach);
        direct := direct + {j};
        reach := reach + reachMap[j];
      } else {
        RowPass(table, reachMap, i, j, direct, reach);
      }
    }
    RowDone(table, edges, reachMap, i, direct, reach);
  }

  /** `x` is `i`, or can be reached from one of the transactions `i` has an edge to. */
  ghost predicate Reaches(reachMap: seq<set<nat>>, i: nat, direct: set<nat>, x: nat)
    requires |reachMap| == i
  {
    x == i || exists d :: d in direct && d < i && x in reachMap[d]
  }

  ghost predicate Reduced(reachMap: seq<set<nat>>, i: nat, direct: set<nat>)
    requires |reachMap| == i
  {
    forall d, d' :: d in direct && d' in direct && d != d' && d' < i ==> d !in reachMap[d']
  }

  /** Row `i` once the transactions from `j` on have been looked at. */
  ghost predicate RowSoFar(
      table: seq<TxRWSet>, reachMap: seq<set<nat>>, i: nat, j: nat, direct: set<nat>, reach: set<nat>)
    requires i < |table| && |reachMap| == i
  {
    && (forall d :: d in direct ==> j <= d < i && Conflict(table[i], table[d]))
    && (forall x :: x in reach ==> x <= i)
    && (forall x :: x in reach <==> Reaches(reachMap, i, direct, x))
    && (forall k :: j <= k < i && Conflict(table[i], table[k]) ==> k in reach)
    && Reduced(reachMap, i, direct)
  }

  lemma RowTake(table: seq<TxRWSet>, edges: seq<set<nat>>, reachMap: seq<set<nat>>, i: nat, j: nat,
                direct: set<nat>, reach: set<nat>)
    requires j < i < |table| && |edges| == |reachMap| == i && RowOk(table, edges, reachMap, j)
    requires RowSoFar(table, reachMap, i, j + 1, direct, reach) && j !in reach && Conflict(table[i], table[j])
    ensures RowSoFar(table, reachMap, i, j, direct + {j}, reach + reachMap[j])
  {
    ReachedBelow(table, edges, reachMap, j);
    forall x ensures x in reach + reachMap[j] <==> Reaches(reachMap, i, direct + {j}, x) {
      TakeReaches(reachMap, i, j, direct, x);
    }
    TakeReduces(reachMap, i, j, direct, reach);
  }

  lemma ReachedBelow(table: seq<TxRWSet>, edges: seq<set<nat>>, reachMap: seq<set<nat>>, j: nat)
    requires |edges| == |reachMap| <= |table| && j < |edges| && RowOk(table, edges, reachMap, j)
    ensures j in reachMap[j] && forall x :: x in reachMap[j] ==> x <= j
  {
  }

  lemma TakeReaches(reachMap: seq<set<nat>>, i: nat, j: nat, direct: set<nat>, x: nat)
    requires j < i == |reachMap|
    ensures Reaches(reachMap, i, direct + {j}, x) <==> Reaches(reachMap, i, direct, x) || x in reachMap[j]
  {
    if x in reachMap[j] { assert j in direct + {j}; }
    if d :| d in direct && d < i && x in reachMap[d] { assert d in direct + {j}; }
  }

  lemma TakeReduces(reachMap: seq<set<nat>>, i: nat, j: nat, direct: set<nat>, reach: set<nat>)
    requires j < i == |reachMap| && Reduced(reachMap, i, direct) && j !in reach
    requires forall x :: x in reachMap[j] ==> x <= j
    requires forall d :: d in direct ==> j < d < i
    requires forall x :: x in reach <==> Reaches(reachMap, i, direct, x)
    ensures Reduced(reachMap, i, direct + {j})
  {
    forall d, d' | d in direct + {j} && d' in direct + {j} && d != d' && d' < i ensures d !in reachMap[d'] {
      if d == j { assert !Reaches(reachMap, i, direct, j); }
    }
  }

  /** A transaction already reached, or without conflict, is passed over. */
  lemma RowPass(table: seq<TxRWSet>, reachMap: seq<set<nat>>, i: nat, j: nat, direct: set<nat>, reach: set<nat>)
    requires j < i < |table| && |reachMap| == i && RowSoFar(table, reachMap, i, j + 1, direct, reach)
    requires j in reach || !Conflict(table[i], table[j])
    ensures RowSoFar(table, reachMap, i, j, direct, reach)
  {
  }

  lemma RowDone(
      table: seq<TxRWSet>, edges: seq<set<nat>>, reachMap: seq<set<nat>>, i: nat, direct: set<nat>, reach: set<nat>)
    requires i < |table| && |edges| == |reachMap| == i && RowSoFar(table, reachMap, i, 0, direct, reach)
    ensures RowOk(table, edges + [direct], reachMap + [reach], i)
  {
    var reach' := reachMap + [reach];
    assert forall d :: 0 <= d < i ==> reach'[d] == reachMap[d];
    forall x ensures x in reach <==> x == i || exists d :: d in direct && d < i && x in reach'[d] {
      assert x in reach <==> Reaches(reachMap, i, direct, x);
    }
  }

  method BuildConflictDag(table: seq<TxRWSet>) returns (edges: seq<Bitmap>, reachMap: seq<Bitmap>)
    ensures ExactDag(table, edges)
    ensures |reachMap| == |edges|
    ensures forall i, j :: 0 <= i < |edges| && 0 <= j ==> (j in reachMap[i] <==> Path(edges, i, j))
  {
    var rb, wb := BuildRWBitmaps(table);
    var cr, cw := BuildCumulativeBitmap(rb, wb);
    edges, reachMap := [], [];
    for i := 0 to |table|
      invariant |edges| == |reachMap| == i
      invariant forall k :: 0 <= k < i ==> RowOk(table, edges, reachMap, k)
    {
      var direct, reach := BuildRow(table, i, rb, wb, cr, cw, edges, reachMap);
      forall k | 0 <= k < i ensures RowOk(table, edges + [direct], reachMap + [reach], k) {
        RowStable(table, edges, reachMap, direct, reach, k);
      }
      edges, reachMap := edges + [direct], reachMap + [reach];
    }
    RowsMakeExactDag(table, edges, reachMap);
  }

  /** The row of transaction `i`: empty if the shortcut finds no conflict. */
  method BuildRow(ghost table: seq<TxRWSet>, i: nat, rb: seq<Bitmap>, wb: seq<Bitmap>, cr: seq<Bitmap>, cw: seq<Bitmap>,
                  ghost edges: seq<set<nat>>, reachMap: seq<Bitmap>)
    returns (direct: Bitmap, reach: Bitmap)
    requires |rb| == |wb| == |table| && i < |table| && |edges| == |reachMap| == i
    requires IsPrefixUnion(rb, cr) && IsPrefixUnion(wb, cw)
    requires forall j :: 0 <= j < i ==> (Conflicted(rb[i], wb[i], rb[j], wb[j]) <==> Conflict(table[i], table[j]))
    requires forall k :: 0 <= k < i ==> RowOk(table, edges, reachMap, k)
    ensures RowOk(table, edges + [direct], reachMap + [reach], i)
  {
    direct, reach := {}, {i};
    if i > 0 && Conflicted(rb[i], wb[i], cr[i - 1], cw[i - 1]) {
      direct, reach := BuildReach(table, i, rb, wb, edges, reachMap);
    } else {
      if i > 0 { FastConflictedExact(rb, wb, cr, cw, i); }
      RowDone(table, edges, reachMap, i, direct, reach);
    }
  }

  lemma RowStable(table: seq<TxRWSet>, edges: seq<set<nat>>, reach: seq<set<nat>>, e: set<nat>, r: set<nat>, k: nat)
    requires |edges| == |reach| < |table| && k < |edges| && RowOk(table, edges, reach, k)
    ensures RowOk(table, edges + [e], reach + [r], k)
  {
    var edges', reach' := edges + [e], reach + [r];
    assert edges'[k] == edges[k] && reach'[k] == reach[k];
    assert forall d :: 0 <= d < k ==> reach'[d] == reach[d];
  }

  // ---------------------------------------------------------------- the block's DAG

  /** The one positions of a bitmap below `n`, in ascending order. */
  function Positions(b: Bitmap, n: nat): (ps: seq<nat>)
    ensures forall x :: x in ps <==> x in b && x < n
    ensures forall p, q :: 0 <= p < q < |ps| ==> ps[p] < ps[q]
  {
    if n == 0 then []
    else if n - 1 in b then
      var ps := Positions(b, n - 1);
      assert forall p :: 0 <= p < |ps| ==> ps[p] in ps;
      ps + [n - 1]
    else Positions(b, n - 1)
  }

  function ToUint32(x: nat): nat {
    x % 0x1_0000_0000
  }

  /** The neighbour lists of a DAG as edge sets. */
  function EdgeSets(vertexes: seq<seq<nat>>): (edges: seq<set<nat>>)
    ensures |edges| == |vertexes|
    ensures forall i, d :: 0 <= i < |edges| ==> (d in edges[i] <==> d in vertexes[i])
  {
    seq(|vertexes|, i requires 0 <= i < |vertexes| => set d | d in vertexes[i])
  }

  ghost predicate Ascending(ps: seq<nat>) {
    forall p, q :: 0 <= p < q < |ps| ==> ps[p] < ps[q]
  }

  method BuildDAG(table: seq<TxRWSet>, isSql: bool) returns (vertexes: seq<seq<nat>>)
    ensures |vertexes| == |table|
    ensures !isSql && |table| <= 0x1_0000_0000 ==>
      ExactDag(table, EdgeSets(vertexes)) && forall i :: 0 <= i < |vertexes| ==> Ascending(vertexes[i])
    ensures !isSql && |table| <= 0x1_0000_0000 ==>
      forall i, j :: 0 <= i < |vertexes| && j in vertexes[i] ==> j < i && Clash(table[i], table[j])
    ensures isSql && |table| <= 0x1_0000_0000 ==>
      forall i :: 0 <= i < |vertexes| ==> vertexes[i] == if i == 0 then [] else [i - 1]
  {
    vertexes := [];
    if isSql {
      for i := 0 to |table|
        invariant |vertexes| == i
        invariant |table| <= 0x1_0000_0000 ==>
          forall k :: 0 <= k < i ==> vertexes[k] == if k == 0 then [] else [k - 1]
      {
        vertexes := vertexes + [if i != 0 then [ToUint32(i - 1)] else []];
      }
    } else {
      var edges, _ := BuildConflictDag(table);
      for i := 0 to |table|
        invariant |vertexes| == i
        invariant |table| <= 0x1_0000_0000 ==>
          forall k :: 0 <= k < i ==> vertexes[k] == Positions(edges[k], k)
      {
        var row := Positions(edges[i], i);
        vertexes := vertexes + [seq(|row|, p requires 0 <= p < |row| => ToUint32(row[p]))];
        if |table| <= 0x1_0000_0000 {
          forall p | 0 <= p < |row| ensures ToUint32(row[p]) == row[p] {
            assert row[p] in row;
          }
          assert vertexes[i] == row;
        }
      }
      if |table| <= 0x1_0000_0000 {
        forall i | 0 <= i < |edges| ensures EdgeSets(vertexes)[i] == edges[i] {
          assert vertexes[i] == Positions(edges[i], i);
        }
        assert EdgeSets(vertexes) == edges;
        forall i, j | 0 <= i < |vertexes| && j in vertexes[i]
          ensures j < i && Clash(table[i], table[j])
        {
          assert j in edges[i];
          ExactDagOnAccesses(table, edges, i, j);
        }
      }
    }
  }

  // ---------------------------------------------------------------- uniqueness

  lemma {:induction false} PathTransitive(edges: seq<set<nat>>, i: nat, k: nat, j: nat)
    requires Downward(edges) && i < |edges| && k < |edges|
    requires Path(edges, i, k) && Path(edges, k, j)
    ensures Path(edges, i, j)
    decreases i
  {
    if i != k {
      var d :| d in edges[i] && Path(edges, d, k);
      PathTransitive(edges, d, k, j);
    }
  }

  lemma {:induction false} PathDescends(edges: seq<set<nat>>, i: nat, j: nat)
    requires Downward(edges) && i < |edges| && Path(edges, i, j)
    ensures j <= i
    decreases i
  {
    if i != j {
      var d :| d in edges[i] && Path(edges, d, j);
      PathDescends(edges, d, j);
    }
  }

  lemma {:induction false} SameClosure(table: seq<TxRWSet>, e1: seq<set<nat>>, e2: seq<set<nat>>, i: nat, j: nat)
    requires ExactDag(table, e1) && ExactDag(table, e2) && i < |table|
    requires Path(e1, i, j)
    ensures Path(e2, i, j)
    decreases i
  {
    if i != j {
      var d :| d in e1[i] && Path(e1, d, j);
      SameClosure(table, e1, e2, d, j);
      PathTransitive(e2, i, d, j);
    }
  }

  /** A block has one exact DAG: any two agree edge for edge. */
  lemma ExactDagUnique(table: seq<TxRWSet>, e1: seq<set<nat>>, e2: seq<set<nat>>)
    requires ExactDag(table, e1) && ExactDag(table, e2)
    ensures e1 == e2
  {
    forall i | 0 <= i < |table| ensures e1[i] == e2[i] {
      forall d | d in e1[i] ensures d in e2[i] {
        ReducedEdgeShared(table, e1, e2, i, d);
      }
      forall d | d in e2[i] ensures d in e1[i] {
        ReducedEdgeShared(table, e2, e1, i, d);
      }
    }
  }

  lemma ReducedEdgeShared(table: seq<TxRWSet>, e1: seq<set<nat>>, e2: seq<set<nat>>, i: nat, d: nat)
    requires ExactDag(table, e1) && ExactDag(table, e2) && i < |table| && d in e1[i]
    ensures d in e2[i]
  {
    assert Conflict(table[i], table[d]) && Path(e2, i, d);
    var d2 :| d2 in e2[i] && Path(e2, d2, d);
    if d2 != d {
      SameClosure(table, e2, e1, d2, d);
      PathDescends(e1, d2, d);
      assert Conflict(table[i], table[d2]);
      var d1 :| d1 in e1[i] && Path(e1, d1, d2);
      PathDescends(e1, d1, d2);
      PathTransitive(e1, d1, d2, d);
    }
  }
}
