/**
 What an unbonding does to the accounts: replayed over the store, every delegator is credited
 with all its entries, the stake account pays for them and stays covered, and the sum of all
 balances is unchanged.
 */
module UnbondingLaws {
  import opened Options
  import opened Ordering
  import opened RWSets
  import opened Decimal
  import opened Unbonding

  function AmountOf(p: Payout): int {
    if Parse(p.amount).Some? then Parse(p.amount).value else 0
  }

  function Credits(ps: seq<Payout>, addr: string): int {
    if ps == [] then 0
    else Credits(ps[..|ps| - 1], addr) + (if ps[|ps| - 1].addr == addr then AmountOf(ps[|ps| - 1]) else 0)
  }

  function Total(ps: seq<Payout>): int {
    if ps == [] then 0 else Total(ps[..|ps| - 1]) + AmountOf(ps[|ps| - 1])
  }

  /** What `addr` gains from the payouts. */
  function Gain(a: Accounts, ps: seq<Payout>, addr: string): int {
    Credits(ps, addr) - (if addr == a.stake then Total(ps) else 0)
  }

  predicate Touched(a: Accounts, ps: seq<Payout>, addr: string) {
    ps != [] && (addr == a.stake || exists k :: 0 <= k < |ps| && ps[k].addr == addr)
  }

  ghost predicate Injective(a: Accounts) {
    forall x, y :: a.keyOf(x) == a.keyOf(y) ==> x == y
  }

  // ---------------------------------------------------------------- the books

  /** The books hold the touched accounts, each with its start and its gain. */
  ghost predicate Balanced(a: Accounts, start: Balances, ps: seq<Payout>, b: Books) {
    forall addr :: BalancedAt(a, start, ps, b, addr)
  }

  ghost predicate BalancedAt(a: Accounts, start: Balances, ps: seq<Payout>, b: Books, addr: string) {
    && (addr in b.balances <==> Touched(a, ps, addr))
    && (addr in b.balances ==> start(addr).Ok? && b.balances[addr] == start(addr).value + Gain(a, ps, addr))
  }

  lemma TouchedOneMore(a: Accounts, ps: seq<Payout>, addr: string)
    requires ps != []
    ensures Touched(a, ps, addr) <==> Touched(a, ps[..|ps| - 1], addr) || addr == a.stake || addr == ps[|ps| - 1].addr
  {
    if addr == ps[|ps| - 1].addr { assert ps[|ps| - 1].addr == addr; }
  }

  lemma PayOneBalances(a: Accounts, start: Balances, b: Books, ps: seq<Payout>, b': Books)
    requires ps != [] && Balanced(a, start, ps[..|ps| - 1], b) && PayOne(a, start, b, ps[|ps| - 1]) == Ok(b')
    ensures Balanced(a, start, ps, b')
  {
    var front, p := ps[..|ps| - 1], ps[|ps| - 1];
    forall addr ensures BalancedAt(a, start, ps, b', addr) {
      assert BalancedAt(a, start, front, b, addr) && BalancedAt(a, start, front, b, p.addr)
          && BalancedAt(a, start, front, b, a.stake);
      PayOneBalancesAt(a, start, b, ps, b', addr);
    }
  }

  lemma PayOneBalancesAt(a: Accounts, start: Balances, b: Books, ps: seq<Payout>, b': Books, addr: string)
    requires ps != [] && PayOne(a, start, b, ps[|ps| - 1]) == Ok(b') && BalancedAt(a, start, ps[..|ps| - 1], b, addr)
    requires BalancedAt(a, start, ps[..|ps| - 1], b, ps[|ps| - 1].addr)
        && BalancedAt(a, start, ps[..|ps| - 1], b, a.stake)
    ensures BalancedAt(a, start, ps, b', addr)
  {
    var front, p := ps[..|ps| - 1], ps[|ps| - 1];
    TouchedOneMore(a, ps, addr);
    if !Touched(a, front, addr) { UntouchedGainsNothing(a, front, addr); }
    if !Touched(a, front, p.addr) { UntouchedGainsNothing(a, front, p.addr); }
    if !Touched(a, front, a.stake) { UntouchedGainsNothing(a, front, a.stake); }
  }

  lemma {:induction false} UntouchedGainsNothing(a: Accounts, ps: seq<Payout>, addr: string)
    requires !Touched(a, ps, addr)
    ensures Gain(a, ps, addr) == 0
  {
    if ps != [] {
      TouchedOneMore(a, ps, addr);
      UntouchedGainsNothing(a, ps[..|ps| - 1], addr);
    }
  }

  lemma {:induction false} BooksBalance(a: Accounts, start: Balances, ps: seq<Payout>)
    requires PayAll(a, start, Books(map[], []), ps).Ok?
    ensures Balanced(a, start, ps, PayAll(a, start, Books(map[], []), ps).value)
  {
    if ps != [] {
      BooksBalance(a, start, ps[..|ps| - 1]);
      PayOneBalances(a, start, PayAll(a, start, Books(map[], []), ps[..|ps| - 1]).value, ps,
          PayAll(a, start, Books(map[], []), ps).value);
    }
  }

  // ---------------------------------------------------------------- when an unbonding succeeds

  /** The payout at `k` can be made: its amount and the balances it needs can be read, and the
      stake account covers it. */
  ghost predicate Payable(a: Accounts, start: Balances, ps: seq<Payout>, k: nat)
    requires k < |ps|
  {
    var p := ps[k];
    && Parse(p.amount).Some? && start(p.addr).Ok? && start(a.stake).Ok?
    && start(a.stake).value + Gain(a, ps[..k], a.stake) + (if p.addr == a.stake then AmountOf(p) else 0) >= AmountOf(p)
  }

  lemma PayOneExactly(a: Accounts, start: Balances, b: Books, ps: seq<Payout>)
    requires ps != [] && Balanced(a, start, ps[..|ps| - 1], b)
    ensures PayOne(a, start, b, ps[|ps| - 1]).Ok? <==> Payable(a, start, ps, |ps| - 1)
  {
    var front, p := ps[..|ps| - 1], ps[|ps| - 1];
    HeldIsDue(a, start, front, b, p.addr);
    HeldIsDue(a, start, front, b, a.stake);
  }

  lemma HeldIsDue(a: Accounts, start: Balances, ps: seq<Payout>, b: Books, addr: string)
    requires Balanced(a, start, ps, b)
    ensures Held(start, b, addr).Ok? <==> start(addr).Ok?
    ensures start(addr).Ok? ==> Held(start, b, addr) == Ok(start(addr).value + Gain(a, ps, addr))
  {
    assert BalancedAt(a, start, ps, b, addr);
    if addr !in b.balances { UntouchedGainsNothing(a, ps, addr); }
  }

  ghost predicate AllPayable(a: Accounts, start: Balances, ps: seq<Payout>) {
    forall k :: 0 <= k < |ps| ==> Payable(a, start, ps, k)
  }

  lemma AllPayableOneMore(a: Accounts, start: Balances, ps: seq<Payout>)
    requires ps != []
    ensures AllPayable(a, start, ps) <==> AllPayable(a, start, ps[..|ps| - 1]) && Payable(a, start, ps, |ps| - 1)
  {
    var front := ps[..|ps| - 1];
    forall k | 0 <= k < |front| ensures Payable(a, start, ps, k) <==> Payable(a, start, front, k) {
      assert front[..k] == ps[..k];
    }
    if AllPayable(a, start, ps) {
      forall k | 0 <= k < |front| ensures Payable(a, start, front, k) { assert Payable(a, start, ps, k); }
    }
  }

  /** An unbonding succeeds exactly when every payout in turn can be made. */
  lemma {:induction false} SucceedsExactly(a: Accounts, start: Balances, ps: seq<Payout>)
    ensures PayAll(a, start, Books(map[], []), ps).Ok? <==> AllPayable(a, start, ps)
  {
    if ps != [] {
      SucceedsExactly(a, start, ps[..|ps| - 1]);
      AllPayableOneMore(a, start, ps);
      if PayAll(a, start, Books(map[], []), ps[..|ps| - 1]).Ok? {
        BooksBalance(a, start, ps[..|ps| - 1]);
        PayOneExactly(a, start, PayAll(a, start, Books(map[], []), ps[..|ps| - 1]).value, ps);
      }
    }
  }

  /** Why the payout at `k` cannot be made. */
  ghost function Cause(a: Accounts, start: Balances, ps: seq<Payout>, k: nat): Error
    requires k < |ps|
  {
    if start(ps[k].addr).Err? then start(ps[k].addr).error
    else if Parse(ps[k].amount).None? then InvalidAmount
    else if start(a.stake).Err? then start(a.stake).error
    else InsufficientStake
  }

  lemma PayOneFails(a: Accounts, start: Balances, b: Books, ps: seq<Payout>)
    requires ps != [] && Balanced(a, start, ps[..|ps| - 1], b) && !Payable(a, start, ps, |ps| - 1)
    ensures PayOne(a, start, b, ps[|ps| - 1]) == Err(Cause(a, start, ps, |ps| - 1))
  {
    var front, p := ps[..|ps| - 1], ps[|ps| - 1];
    HeldIsDue(a, start, front, b, p.addr);
    HeldIsDue(a, start, front, b, a.stake);
    assert BalancedAt(a, start, front, b, p.addr) && BalancedAt(a, start, front, b, a.stake);
  }

  /** A failed unbonding reports why the first payout that cannot be made cannot. */
  lemma {:induction false} FirstFailureReported(a: Accounts, start: Balances, ps: seq<Payout>, k: nat)
    requires k < |ps| && AllPayable(a, start, ps[..k]) && !Payable(a, start, ps, k)
    ensures PayAll(a, start, Books(map[], []), ps) == Err(Cause(a, start, ps, k))
    decreases |ps|
  {
    var front := ps[..|ps| - 1];
    if k == |ps| - 1 {
      SucceedsExactly(a, start, front);
      BooksBalance(a, start, front);
      PayOneFails(a, start, PayAll(a, start, Books(map[], []), front).value, ps);
    } else {
      assert front[..k] == ps[..k];
      FirstFailureReported(a, start, front, k);
    }
  }

  // ---------------------------------------------------------------- where balances start

  lemma {:induction false} UnwrittenReadsThrough(st: Store, log: seq<TxRWSet>, l: Loc)
    requires forall j :: 0 <= j < |log| ==> !Writes(log[j], l)
    ensures ReadThrough(st, log, l) == ReadObject(st, l)
    decreases |log|
  {
    if log != [] {
      assert !Writes(log[|log| - 1], l);
      UnwrittenReadsThrough(st, log[..|log| - 1], l);
    }
  }

  /** An account that the block does not write and the store does not hold starts at zero. */
  lemma NewAccountStartsAtZero(a: Accounts, st: Store, log: seq<TxRWSet>, addr: string)
    requires forall j :: 0 <= j < |log| ==> !Writes(log[j], LocOf(a, addr))
    requires LocOf(a, addr) !in st.values && LocOf(a, addr) !in st.unreadable
    ensures StartBalances(a, st, log)(addr) == Ok(0)
  {
    UnwrittenReadsThrough(st, log, LocOf(a, addr));
  }

  /** An account the block does not write starts at the number the store holds, and cannot be read if
      the store's value is unreadable or not a number. */
  lemma StoredAccountStarts(a: Accounts, st: Store, log: seq<TxRWSet>, addr: string, n: int)
    requires forall j :: 0 <= j < |log| ==> !Writes(log[j], LocOf(a, addr))
    ensures var l, start := LocOf(a, addr), StartBalances(a, st, log)(addr);
            && (l in st.unreadable ==> start == Err(StateUnreadable))
            && (l !in st.unreadable && l in st.values && st.values[l] == Format(n) ==> start == Ok(n))
            && (l !in st.unreadable && l in st.values && st.values[l] != "" && Parse(st.values[l]).None? ==>
                  start == Err(InvalidBalance))
  {
    RoundTrip(n);
    UnwrittenReadsThrough(st, log, LocOf(a, addr));
  }

  lemma {:induction false} PrefixBelowTotal(ps: seq<Payout>, k: nat)
    requires k <= |ps| && forall i :: 0 <= i < |ps| ==> AmountOf(ps[i]) >= 0
    ensures 0 <= Total(ps[..k]) <= Total(ps)
    decreases |ps|
  {
    if k == |ps| {
      assert ps[..k] == ps;
      if ps != [] { PrefixBelowTotal(ps[..|ps| - 1], |ps| - 1); }
    } else {
      assert ps[..|ps| - 1][..k] == ps[..k];
      PrefixBelowTotal(ps[..|ps| - 1], k);
    }
  }

  lemma {:induction false} CreditsNotNegative(ps: seq<Payout>, addr: string)
    requires forall i :: 0 <= i < |ps| ==> AmountOf(ps[i]) >= 0
    ensures Credits(ps, addr) >= 0
  {
    if ps != [] { CreditsNotNegative(ps[..|ps| - 1], addr); }
  }

  lemma PrefixLeavesRoom(ps: seq<Payout>, k: nat)
    requires k < |ps| && forall i :: 0 <= i < |ps| ==> AmountOf(ps[i]) >= 0
    ensures Total(ps[..k]) + AmountOf(ps[k]) <= Total(ps)
  {
    assert ps[..k + 1][..k] == ps[..k] && ps[..k + 1][k] == ps[k];
    PrefixBelowTotal(ps, k + 1);
  }

  lemma CoveredIsPayable(a: Accounts, start: Balances, ps: seq<Payout>, k: nat)
    requires forall i :: 0 <= i < |ps| ==> AmountOf(ps[i]) >= 0
    requires k < |ps| && Parse(ps[k].amount).Some?
    requires start(ps[k].addr).Ok? && start(a.stake).Ok? && start(a.stake).value >= Total(ps)
    ensures Payable(a, start, ps, k)
  {
    PrefixLeavesRoom(ps, k);
    assert Credits(ps[..k], a.stake) >= 0 by {
      assert forall i :: 0 <= i < k ==> ps[..k][i] == ps[i];
      CreditsNotNegative(ps[..k], a.stake);
    }
  }

  /** Payouts with readable, non-negative amounts that the stake account covers in all can be made, to
      delegators without a balance too. */
  lemma CoveredSucceeds(a: Accounts, st: Store, log: seq<TxRWSet>, ps: seq<Payout>)
    requires forall k :: 0 <= k < |ps| ==> Parse(ps[k].amount).Some? && AmountOf(ps[k]) >= 0
    requires forall k :: 0 <= k < |ps| ==> ps[k].addr == a.stake || Known(a, st, log, ps[k].addr)
    requires var stake := StartBalances(a, st, log)(a.stake); stake.Ok? && stake.value >= Total(ps)
    ensures PayAll(a, StartBalances(a, st, log), Books(map[], []), ps).Ok?
  {
    var start := StartBalances(a, st, log);
    forall k | 0 <= k < |ps| ensures Payable(a, start, ps, k) {
      if ps[k].addr != a.stake && Fresh(a, st, log, ps[k].addr) { NewAccountStartsAtZero(a, st, log, ps[k].addr); }
      CoveredIsPayable(a, start, ps, k);
    }
    SucceedsExactly(a, start, ps);
  }

  /** The block does not write the account and the store does not hold it. */
  ghost predicate Fresh(a: Accounts, st: Store, log: seq<TxRWSet>, addr: string) {
    && (forall j :: 0 <= j < |log| ==> !Writes(log[j], LocOf(a, addr)))
    && LocOf(a, addr) !in st.values && LocOf(a, addr) !in st.unreadable
  }

  ghost predicate Known(a: Accounts, st: Store, log: seq<TxRWSet>, addr: string) {
    Fresh(a, st, log, addr) || StartBalances(a, st, log)(addr).Ok?
  }

  /** With no negative amount or start, no balance the books hold is negative. */
  lemma {:induction false} StaysCovered(a: Accounts, start: Balances, ps: seq<Payout>)
    requires PayAll(a, start, Books(map[], []), ps).Ok?
    requires forall k :: 0 <= k < |ps| ==> AmountOf(ps[k]) >= 0
    requires forall addr :: start(addr).Ok? ==> start(addr).value >= 0
    ensures forall addr :: addr in PayAll(a, start, Books(map[], []), ps).value.balances ==>
              PayAll(a, start, Books(map[], []), ps).value.balances[addr] >= 0
  {
    if ps != [] {
      StaysCovered(a, start, ps[..|ps| - 1]);
    }
  }

  // ---------------------------------------------------------------- replaying the writes

  /** The last write of each account is its balance; no other account is written. */
  ghost predicate Recorded(a: Accounts, b: Books) {
    forall addr :: LastWrite(b.writes, LocOf(a, addr)) == if addr in b.balances then Some(Format(b.balances[addr]))
        else None
  }

  lemma RecordKeeps(a: Accounts, b: Books, addr: string, after: int)
    requires Injective(a) && Recorded(a, b)
    ensures Recorded(a, Record(a, b, addr, after))
  {
    var b' := Record(a, b, addr, after);
    assert b'.writes[..|b'.writes| - 1] == b.writes;
    forall x
      ensures LastWrite(b'.writes, LocOf(a, x)) == if x in b'.balances then Some(Format(b'.balances[x])) else None
    {
      assert LocOf(a, x) == LocOf(a, addr) <==> x == addr;
      assert LastWrite(b.writes, LocOf(a, x)) == if x in b.balances then Some(Format(b.balances[x])) else None;
    }
  }

  lemma PayOneRecorded(a: Accounts, start: Balances, b: Books, p: Payout)
    requires Injective(a) && Recorded(a, b) && PayOne(a, start, b, p).Ok?
    ensures Recorded(a, PayOne(a, start, b, p).value)
  {
    var b', b'' := Credit(a, start, b, p).value, PayOne(a, start, b, p).value;
    RecordKeeps(a, b, p.addr, b'.balances[p.addr]);
    RecordKeeps(a, b', a.stake, b''.balances[a.stake]);
  }

  lemma {:induction false} BooksRecorded(a: Accounts, start: Balances, ps: seq<Payout>)
    requires Injective(a) && PayAll(a, start, Books(map[], []), ps).Ok?
    ensures Recorded(a, PayAll(a, start, Books(map[], []), ps).value)
  {
    if ps != [] {
      BooksRecorded(a, start, ps[..|ps| - 1]);
      PayOneRecorded(a, start, PayAll(a, start, Books(map[], []), ps[..|ps| - 1]).value, ps[|ps| - 1]);
    }
  }

  function BalanceAt(a: Accounts, st: Store, addr: string): Result<int> {
    AsBalance(ReadObject(st, LocOf(a, addr)))
  }

  /** The books of an unbonding at the end of a block. */
  function Unbonded(a: Accounts, st: Store, log: seq<TxRWSet>, us: seq<Undelegation>): Result<Books> {
    PayAll(a, StartBalances(a, st, log), Books(map[], []), Payouts(us))
  }

  function AfterUnbonding(a: Accounts, st: Store, log: seq<TxRWSet>, us: seq<Undelegation>): Store
    requires Unbonded(a, st, log, us).Ok?
  {
    CommitWrites(CommitAll(st, log), Unbonded(a, st, log, us).value.writes)
  }

  /** The start balances are those after the block wherever the last writer agrees with itself. */
  lemma StartIsAfterBlock(a: Accounts, st: Store, log: seq<TxRWSet>, addr: string)
    requires LastWriterAgrees(log, LocOf(a, addr))
    ensures StartBalances(a, st, log)(addr) == BalanceAt(a, CommitAll(st, log), addr)
  {
    CommitAllRead(st, log, LocOf(a, addr));
    ReadThroughExact(st, log, LocOf(a, addr));
  }

  lemma ReplayedBalance(a: Accounts, st: Store, b: Books, addr: string)
    requires Recorded(a, b)
    ensures BalanceAt(a, CommitWrites(st, b.writes), addr) == if addr in b.balances then Ok(b.balances[addr])
        else BalanceAt(a, st, addr)
  {
    CommitWritesRead(st, b.writes, LocOf(a, addr));
    assert LastWrite(b.writes, LocOf(a, addr)) == if addr in b.balances then Some(Format(b.balances[addr])) else None;
    if addr in b.balances { RoundTrip(b.balances[addr]); }
  }

  lemma BooksEntry(a: Accounts, start: Balances, ps: seq<Payout>, addr: string)
    requires PayAll(a, start, Books(map[], []), ps).Ok?
    ensures var b := PayAll(a, start, Books(map[], []), ps).value;
            && (addr in b.balances <==> Touched(a, ps, addr))
            && (addr in b.balances ==> start(addr).Ok? && b.balances[addr] == start(addr).value + Gain(a, ps, addr))
  {
    BooksBalance(a, start, ps);
    assert BalancedAt(a, start, ps, PayAll(a, start, Books(map[], []), ps).value, addr);
  }

  lemma BooksReplayed(a: Accounts, start: Balances, ps: seq<Payout>, st: Store, addr: string)
    requires Injective(a) && PayAll(a, start, Books(map[], []), ps).Ok?
    ensures var b := PayAll(a, start, Books(map[], []), ps).value;
            BalanceAt(a, CommitWrites(st, b.writes), addr) == if addr in b.balances then Ok(b.balances[addr])
                else BalanceAt(a, st, addr)
  {
    BooksRecorded(a, start, ps);
    ReplayedBalance(a, st, PayAll(a, start, Books(map[], []), ps).value, addr);
  }

  /** From `before` to `after`, a touched account changes by its gain and another not at all. */
  ghost predicate Paid(a: Accounts, ps: seq<Payout>, addr: string, before: Result<int>, after: Result<int>) {
    if Touched(a, ps, addr) then before.Ok? && after == Ok(before.value + Gain(a, ps, addr)) else after == before
  }

  lemma BooksPay(a: Accounts, start: Balances, ps: seq<Payout>, st: Store, addr: string)
    requires Injective(a) && PayAll(a, start, Books(map[], []), ps).Ok? && start(addr) == BalanceAt(a, st, addr)
    ensures Paid(a, ps, addr, BalanceAt(a, st, addr),
        BalanceAt(a, CommitWrites(st, PayAll(a, start, Books(map[], []), ps).value.writes), addr))
  {
    BooksEntry(a, start, ps, addr);
    BooksReplayed(a, start, ps, st, addr);
    var b := PayAll(a, start, Books(map[], []), ps).value;
    EntryPays(a, ps, addr, b.balances, BalanceAt(a, st, addr), BalanceAt(a, CommitWrites(st, b.writes), addr));
  }

  lemma EntryPays(
      a: Accounts, ps: seq<Payout>, addr: string, balances: map<string, int>, before: Result<int>, after: Result<int>)
    requires addr in balances <==> Touched(a, ps, addr)
    requires addr in balances ==> before.Ok? && balances[addr] == before.value + Gain(a, ps, addr)
    requires after == if addr in balances then Ok(balances[addr]) else before
    ensures Paid(a, ps, addr, before, after)
  {
  }

  /** Once the block and the unbonding writes are in the store, each account holds what it held
      after the block and its gain, if the block's last writer of its key agrees with itself. */
  lemma UnbondingPays(a: Accounts, st: Store, log: seq<TxRWSet>, us: seq<Undelegation>, addr: string)
    requires Injective(a) && Unbonded(a, st, log, us).Ok? && LastWriterAgrees(log, LocOf(a, addr))
    ensures Paid(a, Payouts(us), addr, BalanceAt(a, CommitAll(st, log), addr),
        BalanceAt(a, AfterUnbonding(a, st, log, us), addr))
  {
    StartIsAfterBlock(a, st, log, addr);
    BooksPay(a, StartBalances(a, st, log), Payouts(us), CommitAll(st, log), addr);
  }

  // ---------------------------------------------------------------- conservation

  function Sum(f: string -> int, addrs: seq<string>): int {
    if addrs == [] then 0 else Sum(f, addrs[..|addrs| - 1]) + f(addrs[|addrs| - 1])
  }

  function Gains(a: Accounts, ps: seq<Payout>): string -> int {
    addr => Gain(a, ps, addr)
  }

  /** Adding `x` at one of the addresses adds `x` to the sum. */
  lemma {:induction false} SumShift(f: string -> int, g: string -> int, addrs: seq<string>, at: string, x: int)
    requires Distinct(addrs) && forall addr :: addr in addrs ==> g(addr) == f(addr) + if addr == at then x else 0
    ensures Sum(g, addrs) == Sum(f, addrs) + if at in addrs then x else 0
  {
    if addrs != [] {
      var front, last := addrs[..|addrs| - 1], addrs[|addrs| - 1];
      SumShift(f, g, front, at, x);
      assert addrs == front + [last];
      assert last !in front;
    }
  }

  ghost predicate PaysWithin(ps: seq<Payout>, addrs: seq<string>) {
    forall k :: 0 <= k < |ps| ==> ps[k].addr in addrs
  }

  /** Over any set of accounts with the stake account and all delegators, the gains cancel. */
  lemma {:induction false} GainsCancel(a: Accounts, ps: seq<Payout>, addrs: seq<string>)
    requires Distinct(addrs) && a.stake in addrs && PaysWithin(ps, addrs)
    ensures Sum(Gains(a, ps), addrs) == 0
    decreases |ps|
  {
    if ps == [] {
      SumOfZeros(a, addrs);
    } else {
      var front, p := ps[..|ps| - 1], ps[|ps| - 1];
      GainsCancel(a, front, addrs);
      var credited: string -> int := addr => Gain(a, front, addr) + if addr == p.addr then AmountOf(p) else 0;
      SumShift(Gains(a, front), credited, addrs, p.addr, AmountOf(p));
      SumShift(credited, Gains(a, ps), addrs, a.stake, -AmountOf(p));
    }
  }

  lemma {:induction false} SumOfZeros(a: Accounts, addrs: seq<string>)
    ensures Sum(Gains(a, []), addrs) == 0
  {
    if addrs != [] { SumOfZeros(a, addrs[..|addrs| - 1]); }
  }

  function Balance(a: Accounts, st: Store): string -> int {
    addr => if BalanceAt(a, st, addr).Ok? then BalanceAt(a, st, addr).value else 0
  }

  lemma {:induction false} SumMoves(f: string -> int, g: string -> int, d: string -> int, addrs: seq<string>)
    requires forall addr :: addr in addrs ==> g(addr) == f(addr) + d(addr)
    ensures Sum(g, addrs) == Sum(f, addrs) + Sum(d, addrs)
  {
    if addrs != [] {
      assert addrs[|addrs| - 1] in addrs;
      SumMoves(f, g, d, addrs[..|addrs| - 1]);
    }
  }

  ghost predicate AllAgree(a: Accounts, log: seq<TxRWSet>, addrs: seq<string>) {
    forall addr :: addr in addrs ==> LastWriterAgrees(log, LocOf(a, addr))
  }

  lemma BalanceMoves(a: Accounts, st: Store, log: seq<TxRWSet>, us: seq<Undelegation>, addr: string)
    requires Injective(a) && Unbonded(a, st, log, us).Ok? && LastWriterAgrees(log, LocOf(a, addr))
    ensures Balance(a, AfterUnbonding(a, st, log, us))(addr) ==
        Balance(a, CommitAll(st, log))(addr) + Gains(a, Payouts(us))(addr)
  {
    UnbondingPays(a, st, log, us, addr);
    if !Touched(a, Payouts(us), addr) { UntouchedGainsNothing(a, Payouts(us), addr); }
  }

  /** An unbonding conserves the sum of the balances of any accounts that include everyone it
      pays and the stake account. */
  lemma UnbondingConserves(a: Accounts, st: Store, log: seq<TxRWSet>, us: seq<Undelegation>, addrs: seq<string>)
    requires Injective(a) && Unbonded(a, st, log, us).Ok? && Distinct(addrs) && a.stake in addrs
    requires PaysWithin(Payouts(us), addrs) && AllAgree(a, log, addrs)
    ensures Sum(Balance(a, AfterUnbonding(a, st, log, us)), addrs) == Sum(Balance(a, CommitAll(st, log)), addrs)
  {
    var before, after := Balance(a, CommitAll(st, log)), Balance(a, AfterUnbonding(a, st, log, us));
    forall addr | addr in addrs ensures after(addr) == before(addr) + Gains(a, Payouts(us))(addr) {
      BalanceMoves(a, st, log, us, addr);
    }
    MovesCancel(a, Payouts(us), before, after, addrs);
  }

  lemma MovesCancel(a: Accounts, ps: seq<Payout>, before: string -> int, after: string -> int, addrs: seq<string>)
    requires Distinct(addrs) && a.stake in addrs && PaysWithin(ps, addrs)
    requires forall addr :: addr in addrs ==> after(addr) == before(addr) + Gains(a, ps)(addr)
    ensures Sum(after, addrs) == Sum(before, addrs)
  {
    SumMoves(before, after, Gains(a, ps), addrs);
    GainsCancel(a, ps, addrs);
  }

  // ---------------------------------------------------------------- in terms of the undelegations

  /** The entries of an undelegation, added up. */
  function Worth(entries: seq<string>): int {
    if entries == [] then 0
    else
      var last := Parse(entries[|entries| - 1]);
      Worth(entries[..|entries| - 1]) + (if last.Some? then last.value else 0)
  }

  /** What the undelegations owe `addr`. */
  function Owed(us: seq<Undelegation>, addr: string): int {
    if us == [] then 0
    else Owed(us[..|us| - 1], addr) + (if us[|us| - 1].delegator == addr then Worth(us[|us| - 1].entries) else 0)
  }

  /** What they owe in all. */
  function OwedInAll(us: seq<Undelegation>): int {
    if us == [] then 0 else OwedInAll(us[..|us| - 1]) + Worth(us[|us| - 1].entries)
  }

  lemma {:induction false} AddUp(ps: seq<Payout>, more: seq<Payout>, addr: string)
    ensures Credits(ps + more, addr) == Credits(ps, addr) + Credits(more, addr)
    ensures Total(ps + more) == Total(ps) + Total(more)
    decreases |more|
  {
    if more == [] {
      assert ps + more == ps;
    } else {
      assert (ps + more)[..|ps + more| - 1] == ps + more[..|more| - 1];
      AddUp(ps, more[..|more| - 1], addr);
    }
  }

  lemma {:induction false} EntriesAddUp(u: Undelegation, k: nat, addr: string)
    requires k <= |u.entries|
    ensures Total(PayoutsOf(u)[..k]) == Worth(u.entries[..k])
    ensures Credits(PayoutsOf(u)[..k], addr) == if u.delegator == addr then Worth(u.entries[..k]) else 0
  {
    if k > 0 {
      EntriesAddUp(u, k - 1, addr);
      assert PayoutsOf(u)[..k][..k - 1] == PayoutsOf(u)[..k - 1] && u.entries[..k][..k - 1] == u.entries[..k - 1];
    }
  }

  /** Payouts credit everyone with what is owed to them, and come to all that is owed. */
  lemma {:induction false} PayoutsAreOwed(us: seq<Undelegation>, addr: string)
    ensures Credits(Payouts(us), addr) == Owed(us, addr) && Total(Payouts(us)) == OwedInAll(us)
  {
    if us != [] {
      var front, u := us[..|us| - 1], us[|us| - 1];
      PayoutsAreOwed(front, addr);
      AddUp(Payouts(front), PayoutsOf(u), addr);
      EntriesAddUp(u, |u.entries|, addr);
      assert PayoutsOf(u)[..|u.entries|] == PayoutsOf(u) && u.entries[..|u.entries|] == u.entries;
    }
  }

  /** A delegator's balance grows by all its entries, and the stake account pays for everyone's. */
  lemma DelegatorsGetTheirEntries(a: Accounts, st: Store, log: seq<TxRWSet>, us: seq<Undelegation>, addr: string)
    requires Injective(a) && Unbonded(a, st, log, us).Ok? && LastWriterAgrees(log, LocOf(a, addr))
    ensures Balance(a, AfterUnbonding(a, st, log, us))(addr)
         == Balance(a, CommitAll(st, log))(addr) + Owed(us, addr) - if addr == a.stake then OwedInAll(us) else 0
  {
    BalanceMoves(a, st, log, us, addr);
    PayoutsAreOwed(us, addr);
  }
}
