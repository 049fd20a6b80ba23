/**
 Read-write sets, the world-state store, and the value a location holds after a log of
 read-write sets has been replayed on a base. A nil byte slice is the empty string.
 */
module RWSets {
  import opened Options

  type Bytes = string

  /** A state location: a contract name and a key inside that contract. */
  datatype Loc = Loc(contract: string, key: Bytes)

  /** One recorded read or write: the location and the value read or written. */
  datatype Access = Access(loc: Loc, value: Bytes)

  datatype TxRWSet = TxRWSet(txReads: seq<Access>, txWrites: seq<Access>)

  /** The persistent store; reading a location in `unreadable` returns an error (None). */
  datatype Store = Store(values: map<Loc, Bytes>, unreadable: set<Loc>)

  /** What a reader sees at each location; None is a read error. */
  type View = Loc -> Option<Bytes>

  function ReadObject(st: Store, l: Loc): Option<Bytes> {
    if l in st.unreadable then None
    else if l in st.values then Some(st.values[l])
    else Some("")
  }

  function StoreView(st: Store): View {
    l => ReadObject(st, l)
  }

  /** The last value a write list gives to `l`, if it writes `l` at all. */
  function LastWrite(ws: seq<Access>, l: Loc): (v: Option<Bytes>)
    ensures v.Some? <==> exists k :: 0 <= k < |ws| && ws[k].loc == l
  {
    if ws == [] then None
    else if ws[|ws| - 1].loc == l then Some(ws[|ws| - 1].value)
    else LastWrite(ws[..|ws| - 1], l)
  }

  predicate Writes(rw: TxRWSet, l: Loc) {
    LastWrite(rw.txWrites, l).Some?
  }

  /** The value of `l` once `log` has been replayed, later entries winning, over `base`. */
  function ValueAfter(base: View, log: seq<TxRWSet>, l: Loc): Option<Bytes> {
    if log == [] then base(l)
    else if Writes(log[|log| - 1], l) then LastWrite(log[|log| - 1].txWrites, l)
    else ValueAfter(base, log[..|log| - 1], l)
  }

  function CommitWrites(st: Store, ws: seq<Access>): Store {
    if ws == [] then st
    else
      var s := CommitWrites(st, ws[..|ws| - 1]);
      var w := ws[|ws| - 1];
      Store(s.values[w.loc := w.value], s.unreadable - {w.loc})
  }

  /** The store once the writes of every entry of `log` have reached it, in order. */
  function CommitAll(st: Store, log: seq<TxRWSet>): Store {
    if log == [] then st
    else CommitWrites(CommitAll(st, log[..|log| - 1]), log[|log| - 1].txWrites)
  }

  lemma {:induction false} CommitWritesRead(st: Store, ws: seq<Access>, l: Loc)
    ensures ReadObject(CommitWrites(st, ws), l)
         == if LastWrite(ws, l).Some? then LastWrite(ws, l) else ReadObject(st, l)
  {
    if ws != [] {
      CommitWritesRead(st, ws[..|ws| - 1], l);
    }
  }

  /** Committing a log to the store and replaying it in memory give the same reads. */
  lemma {:induction false} CommitAllRead(st: Store, log: seq<TxRWSet>, l: Loc)
    ensures ReadObject(CommitAll(st, log), l) == ValueAfter(StoreView(st), log, l)
  {
    if log != [] {
      CommitAllRead(st, log[..|log| - 1], l);
      CommitWritesRead(CommitAll(st, log[..|log| - 1]), log[|log| - 1].txWrites, l);
    }
  }

  /** A log without a write to `l` leaves `l` as it was. */
  lemma {:induction false} ValueAfterUnwritten(base: View, log: seq<TxRWSet>, m: nat, l: Loc)
    requires m <= |log|
    requires forall j :: m <= j < |log| ==> !Writes(log[j], l)
    ensures ValueAfter(base, log, l) == ValueAfter(base, log[..m], l)
    ensures m == 0 ==> ValueAfter(base, log, l) == base(l)
    decreases |log|
  {
    if m == |log| {
      assert log[..m] == log;
    } else {
      var front := log[..|log| - 1];
      assert front[..m] == log[..m];
      ValueAfterUnwritten(base, front, m, l);
    }
  }

  /** The last writer of `l` decides the value of `l`. */
  lemma ValueAfterLastWriter(base: View, log: seq<TxRWSet>, m: nat, l: Loc)
    requires m < |log| && Writes(log[m], l)
    requires forall j :: m < j < |log| ==> !Writes(log[j], l)
    ensures ValueAfter(base, log, l) == LastWrite(log[m].txWrites, l)
  {
    ValueAfterUnwritten(base, log, m + 1, l);
    assert log[..m + 1][..m] == log[..m];
  }
}
