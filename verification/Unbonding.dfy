/**
 Unbonding in DPoS: reading a balance through the writes of the block being built, and paying
 matured delegations back out of the stake account.
 */
module Unbonding {
  import opened Options
  import opened RWSets
  import opened Decimal

  // ---------------------------------------------------------------- reading through the block

  function FirstWrite(ws: seq<Access>, l: Loc): (v: Option<Bytes>)
    ensures v.Some? <==> exists k :: 0 <= k < |ws| && ws[k].loc == l
  {
    if ws == [] then None
    else if ws[0].loc == l then Some(ws[0].value)
    else
      assert ws == [ws[0]] + ws[1..];
      FirstWrite(ws[1..], l)
  }

  /** The first write of `l` in the last transaction that writes it, or else the store's value. */
  function ReadThrough(st: Store, log: seq<TxRWSet>, l: Loc): Option<Bytes> {
    if log == [] then ReadObject(st, l)
    else if Writes(log[|log| - 1], l) then FirstWrite(log[|log| - 1].txWrites, l)
    else ReadThrough(st, log[..|log| - 1], l)
  }

  method GetState(st: Store, log: seq<TxRWSet>, l: Loc) returns (v: Option<Bytes>)
    ensures v == ReadThrough(st, log, l)
  {
    var i := |log| - 1;
    assert log[..i + 1] == log;
    while i >= 0
      invariant -1 <= i < |log| && ReadThrough(st, log, l) == ReadThrough(st, log[..i + 1], l)
    {
      var ws := log[i].txWrites;
      for k := 0 to |ws|
        invariant forall j :: 0 <= j < k ==> ws[j].loc != l
      {
        if ws[k].loc == l {
          FirstWriteAt(ws, l, k);
          assert log[..i + 1][i] == log[i];
          return Some(ws[k].value);
        }
      }
      assert log[..i + 1][..i] == log[..i];
      i := i - 1;
    }
    v := ReadObject(st, l);
  }

  lemma {:induction false} FirstWriteAt(ws: seq<Access>, l: Loc, k: nat)
    requires k < |ws| && ws[k].loc == l && forall j :: 0 <= j < k ==> ws[j].loc != l
    ensures FirstWrite(ws, l) == Some(ws[k].value) && LastWrite(ws, l).Some?
    decreases k
  {
    if k > 0 { FirstWriteAt(ws[1..], l, k - 1); }
  }

  /** In the last transaction that writes `l`, the first and the last write of `l` agree. */
  ghost predicate LastWriterAgrees(log: seq<TxRWSet>, l: Loc) {
    forall m :: 0 <= m < |log| && Writes(log[m], l) && (forall j :: m < j < |log| ==> !Writes(log[j], l)) ==>
      FirstWrite(log[m].txWrites, l) == LastWrite(log[m].txWrites, l)
  }

  /** Reading through the block gives what replaying it gives exactly when the last writer's
      first and last write agree. */
  lemma {:induction false} ReadThroughExact(st: Store, log: seq<TxRWSet>, l: Loc)
    ensures ReadThrough(st, log, l) == ValueAfter(StoreView(st), log, l) <==> LastWriterAgrees(log, l)
    decreases |log|
  {
    if log != [] && !Writes(log[|log| - 1], l) {
      var front := log[..|log| - 1];
      ReadThroughExact(st, front, l);
      assert forall m :: 0 <= m < |front| ==> front[m] == log[m];
    }
  }

  ghost predicate WritesOnce(ws: seq<Access>, l: Loc) {
    forall i, j :: 0 <= i < j < |ws| ==> ws[i].loc != l || ws[j].loc != l
  }

  lemma {:induction false} WrittenOnceAgrees(ws: seq<Access>, l: Loc)
    requires WritesOnce(ws, l)
    ensures FirstWrite(ws, l) == LastWrite(ws, l)
  {
    if ws != [] {
      if ws[0].loc == l {
        LastWriteAt(ws, l, 0);
      } else {
        WrittenOnceAgrees(ws[1..], l);
        LastWriteTail(ws, l);
      }
    }
  }

  lemma {:induction false} LastWriteAt(ws: seq<Access>, l: Loc, k: nat)
    requires k < |ws| && ws[k].loc == l && forall j :: k < j < |ws| ==> ws[j].loc != l
    ensures LastWrite(ws, l) == Some(ws[k].value)
    decreases |ws|
  {
    if k < |ws| - 1 { LastWriteAt(ws[..|ws| - 1], l, k); }
  }

  lemma {:induction false} LastWriteTail(ws: seq<Access>, l: Loc)
    requires ws != [] && ws[0].loc != l
    ensures LastWrite(ws, l) == LastWrite(ws[1..], l)
    decreases |ws|
  {
    if |ws| > 1 {
      assert ws[..|ws| - 1][1..] == ws[1..][..|ws| - 2];
      LastWriteTail(ws[..|ws| - 1], l);
    }
  }

  /** A transaction that writes a key twice, differently, makes the two readings differ. */
  lemma TwiceWrittenDiffers(st: Store, l: Loc)
    ensures var log := [TxRWSet([], [Access(l, "1"), Access(l, "2")])];
            ReadThrough(st, log, l) == Some("1") && ValueAfter(StoreView(st), log, l) == Some("2")
  {
    var ws := [Access(l, "1"), Access(l, "2")];
    FirstWriteAt(ws, l, 0);
    LastWriteAt(ws, l, 1);
  }

  // ---------------------------------------------------------------- balances

  datatype Error = StateUnreadable | InvalidBalance | InvalidAmount | InsufficientStake

  datatype Result<T> = Ok(value: T) | Err(error: Error)

  /** The accounts: the token contract, the key of an address, and the stake account's address. */
  datatype Accounts = Accounts(contract: string, keyOf: string -> Bytes, stake: string)

  function LocOf(a: Accounts, addr: string): Loc {
    Loc(a.contract, a.keyOf(addr))
  }

  function AsBalance(v: Option<Bytes>): Result<int> {
    if v.None? then Err(StateUnreadable)
    else if v.value == "" then Ok(0)
    else if Parse(v.value).None? then Err(InvalidBalance)
    else Ok(Parse(v.value).value)
  }

  type Balances = string -> Result<int>

  function StartBalances(a: Accounts, st: Store, log: seq<TxRWSet>): Balances {
    addr => AsBalance(ReadThrough(st, log, LocOf(a, addr)))
  }

  method BalanceOf(a: Accounts, st: Store, log: seq<TxRWSet>, addr: string) returns (r: Result<int>)
    ensures r == StartBalances(a, st, log)(addr)
  {
    var v := GetState(st, log, LocOf(a, addr));
    r := AsBalance(v);
  }

  // ---------------------------------------------------------------- paying out

  datatype Undelegation = Undelegation(delegator: string, entries: seq<string>)

  datatype Payout = Payout(addr: string, amount: string)

  function PayoutsOf(u: Undelegation): seq<Payout> {
    seq(|u.entries|, i requires 0 <= i < |u.entries| => Payout(u.delegator, u.entries[i]))
  }

  function Payouts(us: seq<Undelegation>): seq<Payout> {
    if us == [] then [] else Payouts(us[..|us| - 1]) + PayoutsOf(us[|us| - 1])
  }

  /** Balances touched so far and the writes that record them. */
  datatype Books = Books(balances: map<string, int>, writes: seq<Access>)

  function Held(start: Balances, b: Books, addr: string): Result<int> {
    if addr in b.balances then Ok(b.balances[addr]) else start(addr)
  }

  function Record(a: Accounts, b: Books, addr: string, after: int): Books {
    Books(b.balances[addr := after], b.writes + [Access(LocOf(a, addr), Format(after))])
  }

  function Added(a: Accounts, b: Books, addr: string, balance: int, amount: string): Result<Books> {
    match Parse(amount)
    case None => Err(InvalidAmount)
    case Some(n) => Ok(Record(a, b, addr, balance + n))
  }

  function Subtracted(a: Accounts, b: Books, addr: string, balance: int, amount: string): Result<Books> {
    match Parse(amount)
    case None => Err(InvalidAmount)
    case Some(n) => if balance < n then Err(InsufficientStake) else Ok(Record(a, b, addr, balance - n))
  }

  function Credit(a: Accounts, start: Balances, b: Books, p: Payout): Result<Books> {
    match Held(start, b, p.addr)
    case Err(e) => Err(e)
    case Ok(balance) => Added(a, b, p.addr, balance, p.amount)
  }

  function Debit(a: Accounts, start: Balances, b: Books, p: Payout): Result<Books> {
    match Held(start, b, a.stake)
    case Err(e) => Err(e)
    case Ok(balance) => Subtracted(a, b, a.stake, balance, p.amount)
  }

  function PayOne(a: Accounts, start: Balances, b: Books, p: Payout): Result<Books> {
    match Credit(a, start, b, p)
    case Err(e) => Err(e)
    case Ok(b') => Debit(a, start, b', p)
  }

  /** The books once all payouts are made, or the error of the first that fails. */
  function PayAll(a: Accounts, start: Balances, b: Books, ps: seq<Payout>): Result<Books> {
    if ps == [] then Ok(b)
    else
      match PayAll(a, start, b, ps[..|ps| - 1])
      case Err(e) => Err(e)
      case Ok(b') => PayOne(a, start, b', ps[|ps| - 1])
  }

  lemma {:induction false} PayInTurn(a: Accounts, start: Balances, b: Books, ps: seq<Payout>, more: seq<Payout>)
    ensures PayAll(a, start, b, ps + more)
         == match PayAll(a, start, b, ps) case Err(e) => Err(e) case Ok(b') => PayAll(a, start, b', more)
    decreases |more|
  {
    if more == [] {
      assert ps + more == ps;
    } else {
      var front, last := more[..|more| - 1], more[|more| - 1];
      PayInTurn(a, start, b, ps, front);
      assert ps + more == (ps + front) + [last];
      PayLast(a, start, b, ps + front, last);
    }
  }

  lemma PayLast(a: Accounts, start: Balances, b: Books, ps: seq<Payout>, p: Payout)
    ensures PayAll(a, start, b, ps + [p])
         == match PayAll(a, start, b, ps) case Err(e) => Err(e) case Ok(b') => PayOne(a, start, b', p)
  {
    assert (ps + [p])[..|ps|] == ps;
  }

  lemma {:induction false} PayoutsInTurn(us: seq<Undelegation>, i: nat)
    requires i <= |us|
    ensures Payouts(us[..i]) <= Payouts(us)
    decreases |us|
  {
    if i == |us| {
      assert us[..i] == us;
    } else {
      assert us[..|us| - 1][..i] == us[..i];
      PayoutsInTurn(us[..|us| - 1], i);
    }
  }

  lemma FailureSticks(a: Accounts, start: Balances, b: Books, some: seq<Payout>, all: seq<Payout>)
    requires some <= all && PayAll(a, start, b, some).Err?
    ensures PayAll(a, start, b, all) == PayAll(a, start, b, some)
  {
    PayInTurn(a, start, b, some, all[|some|..]);
    assert all == some + all[|some|..];
  }

  method AddBalance(a: Accounts, b: Books, addr: string, balance: int, amount: string) returns (r: Result<Books>)
    ensures r == Added(a, b, addr, balance, amount)
  {
    var add := Parse(amount);
    if add.None? { return Err(InvalidAmount); }
    return Ok(Record(a, b, addr, balance + add.value));
  }

  method SubBalance(a: Accounts, b: Books, addr: string, before: int, amount: string) returns (r: Result<Books>)
    ensures r == Subtracted(a, b, addr, before, amount)
  {
    var sub := Parse(amount);
    if sub.None? { return Err(InvalidAmount); }
    if before < sub.value { return Err(InsufficientStake); }
    return Ok(Record(a, b, addr, before - sub.value));
  }

  method BalanceIn(a: Accounts, st: Store, log: seq<TxRWSet>, b: Books, addr: string) returns (r: Result<int>)
    ensures r == Held(StartBalances(a, st, log), b, addr)
  {
    if addr in b.balances { return Ok(b.balances[addr]); }
    r := BalanceOf(a, st, log, addr);
  }

  method CreditEntry(a: Accounts, st: Store, log: seq<TxRWSet>, b: Books, p: Payout) returns (r: Result<Books>)
    ensures r == Credit(a, StartBalances(a, st, log), b, p)
  {
    var balance := BalanceIn(a, st, log, b, p.addr);
    if balance.Err? { return Err(balance.error); }
    r := AddBalance(a, b, p.addr, balance.value, p.amount);
  }

  method DebitEntry(a: Accounts, st: Store, log: seq<TxRWSet>, b: Books, p: Payout) returns (r: Result<Books>)
    ensures r == Debit(a, StartBalances(a, st, log), b, p)
  {
    var balance := BalanceIn(a, st, log, b, a.stake);
    if balance.Err? { return Err(balance.error); }
    r := SubBalance(a, b, a.stake, balance.value, p.amount);
  }

  method PayEntry(a: Accounts, st: Store, log: seq<TxRWSet>, b: Books, p: Payout) returns (r: Result<Books>)
    ensures r == PayOne(a, StartBalances(a, st, log), b, p)
  {
    r := CreditEntry(a, st, log, b, p);
    if r.Ok? { r := DebitEntry(a, st, log, r.value, p); }
  }

  lemma PayOneMore(a: Accounts, start: Balances, b: Books, all: seq<Payout>, j: nat)
    requires j < |all|
    ensures PayAll(a, start, b, all[..j + 1])
         == match PayAll(a, start, b, all[..j]) case Err(e) => Err(e) case Ok(b') => PayOne(a, start, b', all[j])
  {
    assert all[..j + 1][..j] == all[..j];
  }

  method PayEntries(a: Accounts, st: Store, log: seq<TxRWSet>, b: Books, u: Undelegation) returns (r: Result<Books>)
    ensures r == PayAll(a, StartBalances(a, st, log), b, PayoutsOf(u))
  {
    ghost var start, all := StartBalances(a, st, log), PayoutsOf(u);
    r := Ok(b);
    for j := 0 to |u.entries|
      invariant r.Ok? && r == PayAll(a, start, b, all[..j])
    {
      PayOneMore(a, start, b, all, j);
      r := PayEntry(a, st, log, r.value, Payout(u.delegator, u.entries[j]));
      if r.Err? {
        FailureSticks(a, start, b, all[..j + 1], all);
        return;
      }
    }
    assert all[..|u.entries|] == all;
  }

  method CreateUnbondingRwSet(a: Accounts, st: Store, log: seq<TxRWSet>, us: seq<Undelegation>)
    returns (r: Result<Books>)
    ensures r == PayAll(a, StartBalances(a, st, log), Books(map[], []), Payouts(us))
  {
    ghost var start, empty := StartBalances(a, st, log), Books(map[], []);
    r := Ok(Books(map[], []));
    for i := 0 to |us|
      invariant r.Ok? && r == PayAll(a, start, empty, Payouts(us[..i]))
    {
      assert us[..i + 1][..i] == us[..i];
      PayInTurn(a, start, empty, Payouts(us[..i]), PayoutsOf(us[i]));
      r := PayEntries(a, st, log, r.value, us[i]);
      if r.Err? {
        PayoutsInTurn(us, i + 1);
        FailureSticks(a, start, empty, Payouts(us[..i + 1]), Payouts(us));
        return;
      }
    }
    assert us[..|us|] == us;
  }
}
