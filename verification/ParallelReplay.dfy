/**
 Replaying a block in parallel: any order of the transactions that respects the DAG gives
 every transaction the reads, and the ledger the final state, of block order.
 */
module ParallelReplay {
  import opened Options
  import opened RWSets
  import opened Dag

  /** A transaction: given the state it starts from, the read-write set it produces. */
  type Program = Store -> TxRWSet

  /** Two states agree on everything a read-write set reads. */
  ghost predicate Agree(s: Store, s': Store, rw: TxRWSet) {
    forall r :: r in rw.txReads ==> ReadObject(s, r.loc) == ReadObject(s', r.loc)
  }

  /** The outcome depends only on the values at the locations in the read set. */
  ghost predicate Deterministic(p: Program) {
    forall s, s' {:trigger Agree(s, s', p(s))} :: Agree(s, s', p(s)) ==> p(s') == p(s)
  }

  /** `order` lists each of 0, ..., n-1 exactly once. */
  ghost predicate IsOrder(order: seq<nat>, n: nat) {
    && |order| == n
    && (forall p :: 0 <= p < n ==> order[p] < n)
    && (forall p, q :: 0 <= p < q < n ==> order[p] != order[q])
    && (forall x :: 0 <= x < n ==> x in order)
  }

  function BlockOrder(n: nat): (order: seq<nat>)
    ensures |order| == n && forall p :: 0 <= p < n ==> order[p] == p
  {
    seq(n, p => p)
  }

  /** Every edge's target comes before its source. */
  ghost predicate Respects(edges: seq<set<nat>>, order: seq<nat>)
    requires forall p :: 0 <= p < |order| ==> order[p] < |edges|
  {
    forall p, q :: 0 <= p < |order| && 0 <= q < |order| && order[q] in edges[order[p]] ==> q < p
  }

  /** The read-write sets produced, in execution order, when the first `t` of `order` have run. */
  function Execute(programs: seq<Program>, order: seq<nat>, t: nat, st: Store): (log: seq<TxRWSet>)
    requires t <= |order| && forall p :: 0 <= p < |order| ==> order[p] < |programs|
    ensures |log| == t
  {
    if t == 0 then []
    else
      var done := Execute(programs, order, t - 1, st);
      done + [programs[order[t - 1]](CommitAll(st, done))]
  }

  /** The entries of `table` for the first `t` of `order`. */
  function Pick(table: seq<TxRWSet>, order: seq<nat>, t: nat): (log: seq<TxRWSet>)
    requires t <= |order| && forall p :: 0 <= p < |order| ==> order[p] < |table|
    ensures |log| == t && forall p :: 0 <= p < t ==> log[p] == table[order[p]]
  {
    seq(t, p requires 0 <= p < t => table[order[p]])
  }

  lemma {:induction false} PathOrdersPositions(edges: seq<set<nat>>, order: seq<nat>, i: nat, j: nat, p: nat, q: nat)
    requires Downward(edges) && IsOrder(order, |edges|) && Respects(edges, order)
    requires p < |order| && q < |order| && order[p] == i && order[q] == j
    requires i != j && Path(edges, i, j)
    ensures q < p
    decreases i
  {
    var d :| d in edges[i] && Path(edges, d, j);
    if d != j {
      assert d in order;
      var r :| 0 <= r < |order| && order[r] == d;
      PathOrdersPositions(edges, order, d, j, r, q);
    }
  }

  lemma WritersConflict(table: seq<TxRWSet>, i: nat, j: nat, l: Loc)
    requires i < |table| && j < |table| && Writes(table[j], l)
    requires Writes(table[i], l) || exists r :: r in table[i].txReads && r.loc == l
    ensures Conflict(table[i], table[j]) && Conflict(table[j], table[i])
  {
    var k :| 0 <= k < |table[j].txWrites| && table[j].txWrites[k].loc == l;
    assert table[j].txWrites[k] in table[j].txWrites;
    assert l.key in WriteKeys(table[j]);
    if Writes(table[i], l) {
      var k' :| 0 <= k' < |table[i].txWrites| && table[i].txWrites[k'].loc == l;
      assert table[i].txWrites[k'] in table[i].txWrites;
      assert l.key in WriteKeys(table[i]) * WriteKeys(table[j]);
      assert l.key in WriteKeys(table[j]) * WriteKeys(table[i]);
    } else {
      var r :| r in table[i].txReads && r.loc == l;
      assert l.key in ReadKeys(table[i]) * WriteKeys(table[j]);
      assert l.key in WriteKeys(table[j]) * ReadKeys(table[i]);
    }
  }

  /** In an order that respects the DAG, conflicting transactions keep their block order. */
  lemma ConflictsKeepOrder(table: seq<TxRWSet>, edges: seq<set<nat>>, order: seq<nat>, p: nat, q: nat)
    requires ExactDag(table, edges) && IsOrder(order, |table|) && Respects(edges, order)
    requires p < |order| && q < |order| && p != q
    requires Conflict(table[order[p]], table[order[q]]) && Conflict(table[order[q]], table[order[p]])
    ensures p < q <==> order[p] < order[q]
  {
    if order[p] > order[q] {
      PathOrdersPositions(edges, order, order[p], order[q], p, q);
    } else {
      assert order[p] != order[q] by {
        if p < q { assert order[p] != order[q]; } else { assert order[q] != order[p]; }
      }
      PathOrdersPositions(edges, order, order[q], order[p], q, p);
    }
  }

  /** The transactions at `p` and `q` of the order clash, and `q`'s is earlier in the block. */
  ghost predicate ClashAt(table: seq<TxRWSet>, order: seq<nat>, p: nat, q: nat)
    requires IsOrder(order, |table|) && p < |order| && q < |order|
  {
    order[q] < order[p] && Clash(table[order[p]], table[order[q]])
  }

  /** An order respects the DAG exactly when, of any two transactions one of which writes a key the other
      reads or writes, the one earlier in the block comes first. */
  lemma RespectsExactly(table: seq<TxRWSet>, edges: seq<set<nat>>, order: seq<nat>)
    requires ExactDag(table, edges) && IsOrder(order, |table|)
    ensures Respects(edges, order) <==>
            forall p: nat, q: nat :: p < |order| && q < |order| && ClashAt(table, order, p, q) ==> q < p
  {
    if Respects(edges, order) {
      forall p: nat, q: nat | p < |order| && q < |order| && ClashAt(table, order, p, q) ensures q < p {
        ExactDagOnAccesses(table, edges, order[p], order[q]);
        PathOrdersPositions(edges, order, order[p], order[q], p, q);
      }
    } else {
      var p: nat, q: nat :| p < |order| && q < |order| && order[q] in edges[order[p]] && q >= p;
      ExactDagOnAccesses(table, edges, order[p], order[q]);
      assert ClashAt(table, order, p, q);
    }
  }

  /** The index of the last entry that writes `l`, or -1. */
  ghost function LastWriter(log: seq<TxRWSet>, l: Loc): (m: int)
    ensures -1 <= m < |log|
    ensures m >= 0 ==> Writes(log[m], l)
    ensures forall j :: m < j < |log| ==> !Writes(log[j], l)
  {
    if log == [] then -1
    else if Writes(log[|log| - 1], l) then |log| - 1
    else LastWriter(log[..|log| - 1], l)
  }

  /** The writers of `l` among the first `t` of `order` are those below `i`. */
  ghost predicate WritersBelow(table: seq<TxRWSet>, order: seq<nat>, t: nat, i: nat, l: Loc)
    requires IsOrder(order, |table|)
  {
    forall p :: 0 <= p < |order| && Writes(table[order[p]], l) ==> (p < t <==> order[p] < i)
  }

  /** The writers of `l` keep their block order. */
  ghost predicate WritersInOrder(table: seq<TxRWSet>, order: seq<nat>, l: Loc)
    requires IsOrder(order, |table|)
  {
    forall p, q :: 0 <= p < q < |order| && Writes(table[order[p]], l) && Writes(table[order[q]], l) ==>
      order[p] < order[q]
  }

  lemma UnwrittenAfter(table: seq<TxRWSet>, order: seq<nat>, t: nat, i: nat, l: Loc, m: int, j: nat)
    requires IsOrder(order, |table|) && t <= |order| && j < i <= |table|
    requires WritersBelow(table, order, t, i, l) && WritersInOrder(table, order, l)
    requires m == LastWriter(Pick(table, order, t), l) && (m >= 0 ==> order[m] < j)
    ensures !Writes(table[j], l)
  {
    assert j in order;
    var p :| 0 <= p < |order| && order[p] == j;
    var log := Pick(table, order, t);
    if m < p < t { assert log[p] == table[order[p]]; }
    if p < m { assert log[m] == table[order[m]]; }
  }

  /** If the writers of `l` among the first `t` of `order` are those below `i`, and writers
      keep their block order, then `l` has one value after both prefixes. */
  lemma SameValue(base: View, table: seq<TxRWSet>, order: seq<nat>, t: nat, i: nat, l: Loc)
    requires IsOrder(order, |table|) && t <= |order| && i <= |table|
    requires WritersBelow(table, order, t, i, l) && WritersInOrder(table, order, l)
    ensures ValueAfter(base, Pick(table, order, t), l) == ValueAfter(base, table[..i], l)
  {
    var log := Pick(table, order, t);
    var m := LastWriter(log, l);
    forall j | 0 <= j < i && (m >= 0 ==> order[m] < j) ensures !Writes(table[j], l) {
      UnwrittenAfter(table, order, t, i, l, m, j);
    }
    if m >= 0 {
      ValueAfterLastWriter(base, log, m, l);
      ValueAfterLastWriter(base, table[..i], order[m], l);
    } else {
      ValueAfterUnwritten(base, log, 0, l);
      ValueAfterUnwritten(base, table[..i], 0, l);
    }
  }

  /** A transaction placed at position `t` of a DAG order reads what it reads in block order. */
  lemma SameReads(base: View, table: seq<TxRWSet>, edges: seq<set<nat>>, order: seq<nat>, t: nat, l: Loc)
    requires ExactDag(table, edges) && IsOrder(order, |table|) && Respects(edges, order) && t < |order|
    requires exists r :: r in table[order[t]].txReads && r.loc == l
    ensures ValueAfter(base, Pick(table, order, t), l) == ValueAfter(base, table[..order[t]], l)
  {
    forall p | 0 <= p < |order| && Writes(table[order[p]], l) ensures p < t <==> order[p] < order[t] {
      WritersConflict(table, order[t], order[p], l);
      if p != t { ConflictsKeepOrder(table, edges, order, p, t); }
    }
    WritersInBlockOrder(table, edges, order, l);
    SameValue(base, table, order, t, order[t], l);
  }

  lemma WritersInBlockOrder(table: seq<TxRWSet>, edges: seq<set<nat>>, order: seq<nat>, l: Loc)
    requires ExactDag(table, edges) && IsOrder(order, |table|) && Respects(edges, order)
    ensures WritersInOrder(table, order, l)
  {
    forall p, q | 0 <= p < q < |order| && Writes(table[order[p]], l) && Writes(table[order[q]], l)
      ensures order[p] < order[q]
    {
      WritersConflict(table, order[p], order[q], l);
      ConflictsKeepOrder(table, edges, order, p, q);
    }
  }

  /** `table` is what `programs` produce when they run in block order from `st`. */
  ghost predicate IsBlockLog(programs: seq<Program>, st: Store, table: seq<TxRWSet>) {
    && |table| == |programs|
    && forall i :: 0 <= i < |table| ==> programs[i](CommitAll(st, table[..i])) == table[i]
  }

  lemma StepReproduces(p: Program, st: Store, table: seq<TxRWSet>, edges: seq<set<nat>>, order: seq<nat>, t: nat)
    requires Deterministic(p) && ExactDag(table, edges)
    requires IsOrder(order, |table|) && Respects(edges, order) && t < |order|
    requires p(CommitAll(st, table[..order[t]])) == table[order[t]]
    ensures p(CommitAll(st, Pick(table, order, t))) == table[order[t]]
  {
    var here, block := CommitAll(st, Pick(table, order, t)), CommitAll(st, table[..order[t]]);
    forall r | r in table[order[t]].txReads ensures ReadObject(block, r.loc) == ReadObject(here, r.loc) {
      SameReads(StoreView(st), table, edges, order, t, r.loc);
      CommitAllRead(st, Pick(table, order, t), r.loc);
      CommitAllRead(st, table[..order[t]], r.loc);
    }
    assert Agree(block, here, p(block));
  }

  /** Each transaction, run after its predecessors in `order`, produces its entry of `table`. */
  ghost predicate Reproduces(programs: seq<Program>, st: Store, table: seq<TxRWSet>, order: seq<nat>)
    requires |table| == |programs| && forall p :: 0 <= p < |order| ==> order[p] < |table|
  {
    forall t :: 0 <= t < |order| ==> ReproducesAt(programs, st, table, order, t)
  }

  ghost predicate ReproducesAt(programs: seq<Program>, st: Store, table: seq<TxRWSet>, order: seq<nat>, t: nat)
    requires |table| == |programs| && t < |order| && forall p :: 0 <= p < |order| ==> order[p] < |table|
  {
    programs[order[t]](CommitAll(st, Pick(table, order, t))) == table[order[t]]
  }

  lemma PickOneMore(table: seq<TxRWSet>, order: seq<nat>, t: nat)
    requires t < |order| && forall p :: 0 <= p < |order| ==> order[p] < |table|
    ensures Pick(table, order, t + 1) == Pick(table, order, t) + [table[order[t]]]
  {
  }

  lemma {:induction false} ExecutionIsPick(
      programs: seq<Program>, st: Store, table: seq<TxRWSet>, order: seq<nat>, t: nat)
    requires |table| == |programs| && forall p :: 0 <= p < |order| ==> order[p] < |table|
    requires Reproduces(programs, st, table, order) && t <= |order|
    ensures Execute(programs, order, t, st) == Pick(table, order, t)
  {
    if t > 0 {
      ExecutionIsPick(programs, st, table, order, t - 1);
      assert ReproducesAt(programs, st, table, order, t - 1);
      PickOneMore(table, order, t - 1);
    }
  }

  /** Block order itself yields the block log. */
  lemma BlockOrderYieldsBlockLog(programs: seq<Program>, st: Store, table: seq<TxRWSet>)
    requires IsBlockLog(programs, st, table)
    ensures Execute(programs, BlockOrder(|table|), |table|, st) == table
  {
    var order := BlockOrder(|table|);
    forall t | 0 <= t < |order| ensures ReproducesAt(programs, st, table, order, t) {
      assert Pick(table, order, t) == table[..t];
    }
    ExecutionIsPick(programs, st, table, order, |table|);
    assert Pick(table, order, |table|) == table;
  }

  lemma {:induction false} CommitAllShape(st: Store, log: seq<TxRWSet>, l: Loc)
    ensures l in CommitAll(st, log).values <==> l in st.values || exists j :: 0 <= j < |log| && Writes(log[j], l)
    ensures l in CommitAll(st, log).unreadable <==>
        l in st.unreadable && !exists j :: 0 <= j < |log| && Writes(log[j], l)
    ensures l in st.values && (forall j :: 0 <= j < |log| ==> !Writes(log[j], l)) ==>
        CommitAll(st, log).values[l] == st.values[l]
  {
    if log != [] {
      var front := log[..|log| - 1];
      CommitAllShape(st, front, l);
      CommitWritesShape(CommitAll(st, front), log[|log| - 1].txWrites, l);
      assert forall j :: 0 <= j < |front| ==> front[j] == log[j];
      assert (exists j :: 0 <= j < |log| && Writes(log[j], l))
        <==> Writes(log[|log| - 1], l) || exists j :: 0 <= j < |front| && Writes(front[j], l);
    }
  }

  lemma {:induction false} CommitWritesShape(st: Store, ws: seq<Access>, l: Loc)
    ensures l in CommitWrites(st, ws).values <==> l in st.values || LastWrite(ws, l).Some?
    ensures l in CommitWrites(st, ws).unreadable <==> l in st.unreadable && LastWrite(ws, l).None?
    ensures l in st.values && LastWrite(ws, l).None? ==> CommitWrites(st, ws).values[l] == st.values[l]
  {
    if ws != [] {
      CommitWritesShape(st, ws[..|ws| - 1], l);
    }
  }

  /** Main theorem: every DAG order gives each transaction the read-write set it has in block
      order, and leaves the same final state. */
  lemma AnyDagOrderEqualsBlockOrder(
      programs: seq<Program>, st: Store, table: seq<TxRWSet>, edges: seq<set<nat>>, order: seq<nat>)
    requires forall i :: 0 <= i < |programs| ==> Deterministic(programs[i])
    requires IsBlockLog(programs, st, table) && ExactDag(table, edges)
    requires IsOrder(order, |table|) && Respects(edges, order)
    ensures forall p :: 0 <= p < |order| ==> Execute(programs, order, |order|, st)[p] == table[order[p]]
    ensures CommitAll(st, Execute(programs, order, |order|, st)) == CommitAll(st, table)
  {
    assert Reproduces(programs, st, table, order) by {
      forall t | 0 <= t < |order|
        ensures ReproducesAt(programs, st, table, order, t)
      {
        StepReproduces(programs[order[t]], st, table, edges, order, t);
      }
    }
    ExecutionIsPick(programs, st, table, order, |order|);
    SameFinalState(st, table, edges, order);
  }

  lemma SameFinalState(st: Store, table: seq<TxRWSet>, edges: seq<set<nat>>, order: seq<nat>)
    requires ExactDag(table, edges) && IsOrder(order, |table|) && Respects(edges, order)
    ensures CommitAll(st, Pick(table, order, |order|)) == CommitAll(st, table)
  {
    var log := Pick(table, order, |order|);
    var a, b := CommitAll(st, log), CommitAll(st, table);
    forall l: Loc
      ensures l in a.values <==> l in b.values
      ensures l in a.values ==> a.values[l] == b.values[l]
      ensures l in a.unreadable <==> l in b.unreadable
    {
      SameFinal(st, table, edges, order, l);
      CommitAllShape(st, log, l);
      CommitAllShape(st, table, l);
      SameWriters(table, order, l);
    }
    assert a.values == b.values && a.unreadable == b.unreadable;
  }

  lemma SameFinal(st: Store, table: seq<TxRWSet>, edges: seq<set<nat>>, order: seq<nat>, l: Loc)
    requires ExactDag(table, edges) && IsOrder(order, |table|) && Respects(edges, order)
    ensures ReadObject(CommitAll(st, Pick(table, order, |order|)), l) == ReadObject(CommitAll(st, table), l)
  {
    var n := |table|;
    WritersInBlockOrder(table, edges, order, l);
    SameValue(StoreView(st), table, order, n, n, l);
    assert table[..n] == table;
    CommitAllRead(st, Pick(table, order, |order|), l);
    CommitAllRead(st, table, l);
  }

  lemma SameWriters(table: seq<TxRWSet>, order: seq<nat>, l: Loc)
    requires IsOrder(order, |table|)
    ensures (exists j :: 0 <= j < |order| && Writes(Pick(table, order, |order|)[j], l)) <==>
        exists j :: 0 <= j < |table| && Writes(table[j], l)
  {
    var log := Pick(table, order, |order|);
    if j :| 0 <= j < |table| && Writes(table[j], l) {
      assert j in order;
      var p :| 0 <= p < |order| && order[p] == j;
      assert Writes(log[p], l);
    }
    if j :| 0 <= j < |order| && Writes(log[j], l) {
      assert Writes(table[order[j]], l);
    }
  }

  /** The DAG of a SQL block, a chain, leaves block order as the only order. */
  lemma SqlDagForcesBlockOrder(edges: seq<set<nat>>, order: seq<nat>)
    requires forall i :: 0 <= i < |edges| ==> edges[i] == if i == 0 then {} else {i - 1}
    requires IsOrder(order, |edges|) && Respects(edges, order)
    ensures order == BlockOrder(|edges|)
  {
    forall p | 0 <= p < |order| ensures order[p] == p {
      ChainPosition(edges, order, p);
    }
  }

  lemma {:induction false} ChainRank(edges: seq<set<nat>>, order: seq<nat>, p: nat)
    requires forall i :: 0 <= i < |edges| ==> edges[i] == if i == 0 then {} else {i - 1}
    requires IsOrder(order, |edges|) && Respects(edges, order) && p < |order|
    ensures order[p] <= p
    decreases order[p]
  {
    if order[p] > 0 {
      assert order[p] - 1 in order;
      var q :| 0 <= q < |order| && order[q] == order[p] - 1;
      assert order[q] in edges[order[p]];
      ChainRank(edges, order, q);
    }
  }

  lemma {:induction false} ChainPosition(edges: seq<set<nat>>, order: seq<nat>, p: nat)
    requires forall i :: 0 <= i < |edges| ==> edges[i] == if i == 0 then {} else {i - 1}
    requires IsOrder(order, |edges|) && Respects(edges, order) && p < |order|
    ensures order[p] == p
    decreases p
  {
    ChainRank(edges, order, p);
    if order[p] < p {
      ChainPosition(edges, order, order[p]);
    }
  }
}
