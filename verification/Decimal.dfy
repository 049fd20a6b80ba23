/** Integers of any size written in decimal, as balances and amounts are kept. */
module Decimal {
  import opened Options

  predicate IsDigit(c: char) {
    '0' <= c <= '9'
  }

  predicate AllDigits(s: string) {
    forall i :: 0 <= i < |s| ==> IsDigit(s[i])
  }

  function DigitValue(c: char): nat
    requires IsDigit(c)
  {
    c as int - '0' as int
  }

  function DigitChar(d: nat): (c: char)
    requires d < 10
    ensures IsDigit(c) && DigitValue(c) == d
  {
    ('0' as int + d) as char
  }

  function ParseNat(s: string): nat
    requires AllDigits(s)
  {
    if s == "" then 0 else ParseNat(s[..|s| - 1]) * 10 + DigitValue(s[|s| - 1])
  }

  /** An optional sign and at least one digit, and nothing else. */
  function Parse(s: string): Option<int> {
    var signed := s != "" && (s[0] == '-' || s[0] == '+');
    var digits := if signed then s[1..] else s;
    if digits == "" || !AllDigits(digits) then None
    else
      var n: int := ParseNat(digits);
      Some(if signed && s[0] == '-' then -n else n)
  }

  /** Digits only, for a number of at most 64 bits. */
  function ParseUint64(s: string): Option<nat> {
    if s == "" || !AllDigits(s) || ParseNat(s) >= 0x1_0000_0000_0000_0000 then None else Some(ParseNat(s))
  }

  function FormatNat(n: nat): (s: string)
    ensures s != "" && AllDigits(s)
  {
    if n < 10 then [DigitChar(n)] else FormatNat(n / 10) + [DigitChar(n % 10)]
  }

  function Format(i: int): string {
    if i < 0 then "-" + FormatNat(-i) else FormatNat(i)
  }

  lemma {:induction false} NatRoundTrip(n: nat)
    ensures ParseNat(FormatNat(n)) == n
  {
    var s := FormatNat(n);
    if n >= 10 {
      NatRoundTrip(n / 10);
      assert s[..|s| - 1] == FormatNat(n / 10);
    } else {
      assert s[..|s| - 1] == "";
    }
  }

  /** The digits are those of base ten, most significant first. */
  lemma DigitsAreDecimal(n: nat, d: nat)
    requires d < 10
    ensures FormatNat(10 * n + d) == (if n == 0 then [] else FormatNat(n)) + [(('0' as nat) + d) as char]
  {
  }

  /** A number survives being written and read back. */
  lemma RoundTrip(i: int)
    ensures Parse(Format(i)) == Some(i) && Format(i) != ""
  {
    NatRoundTrip(if i < 0 then -i else i);
    if i < 0 {
      assert Format(i)[1..] == FormatNat(-i);
    } else {
      assert IsDigit(Format(i)[0]);
    }
  }

  /** Settings are read as unsigned 64-bit numbers: larger ones and signs are refused. */
  lemma Uint64Exactly(n: nat, s: string)
    ensures ParseUint64(FormatNat(n)) == if n < 0x1_0000_0000_0000_0000 then Some(n) else None
    ensures ParseUint64("-" + s) == None && ParseUint64("+" + s) == None && ParseUint64("") == None
  {
    NatRoundTrip(n);
    assert !IsDigit(("-" + s)[0]) && !IsDigit(("+" + s)[0]);
  }

  /** A plus sign before digits changes nothing; a sign alone is not a number. */
  lemma PlusIsIgnored(s: string)
    requires s == "" || IsDigit(s[0])
    ensures Parse("+" + s) == Parse(s) && Parse("-") == None
  {
    assert ("+" + s)[1..] == s;
  }
}
