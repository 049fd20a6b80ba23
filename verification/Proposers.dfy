/**
 The TBFT validator set and the rotation of proposers. Offsets are 32-bit signed numbers, and a
 remainder takes the sign of the number divided.
 */
module Proposers {
  import opened Options
  import J = Josephus

  /** The low 32 bits, read as a signed number. */
  function ToInt32(x: int): (r: int)
    ensures -0x8000_0000 <= r < 0x8000_0000
  {
    var low := x % 0x1_0000_0000;
    if low < 0x8000_0000 then low else low - 0x1_0000_0000
  }

  function TruncatedRemainder(a: int, n: int): int
    requires n > 0
  {
    if a >= 0 then a % n else -((-a) % n)
  }

  function HeightOffset(height: nat, blocksPerProposer: nat): nat
    requires blocksPerProposer > 0
  {
    (height + 1) % 0x1_0000_0000_0000_0000 / blocksPerProposer
  }

  /** The place of the proposer of a round, or none when the set is empty or the place negative. */
  function ProposerIndex(n: nat, blocksPerProposer: nat, height: nat, round: nat): Option<nat>
    requires blocksPerProposer > 0
  {
    if n == 0 then None
    else
      var heightOffset := ToInt32(HeightOffset(height, blocksPerProposer));
      var index := TruncatedRemainder(ToInt32(heightOffset + TruncatedRemainder(round, n)), n);
      if index < 0 || index >= n then None else Some(index)
  }

  /** The offsets fit: their sum is a 32-bit number. */
  predicate Fits(n: nat, blocksPerProposer: nat, height: nat)
    requires blocksPerProposer > 0
  {
    HeightOffset(height, blocksPerProposer) + n <= 0x8000_0000
  }

  lemma RemainderBounds(a: nat, n: nat)
    requires n > 0
    ensures 0 <= a % n < n && a % n <= a
  {
    J.AroundIsRemainder(a, n);
    AroundShrinks(a, n);
  }

  lemma {:induction false} AroundShrinks(a: nat, n: nat)
    requires n > 0
    ensures J.Around(a, n) <= a
    decreases a
  {
    if a >= n { AroundShrinks(a - n, n); }
  }

  lemma {:induction false} AroundTwice(a: nat, b: nat, n: nat)
    requires n > 0
    ensures J.Around(a + J.Around(b, n), n) == J.Around(a + b, n)
    decreases b
  {
    if b >= n { AroundTwice(a, b - n, n); }
  }

  /** Where the offsets fit, the proposer's place is the one the two offsets lead to in a circle. */
  lemma PlaceIsAround(n: nat, blocksPerProposer: nat, height: nat, round: nat)
    requires n > 0 && blocksPerProposer > 0 && Fits(n, blocksPerProposer, height)
    ensures ProposerIndex(n, blocksPerProposer, height, round) ==
        Some(J.Around(HeightOffset(height, blocksPerProposer) + round, n))
  {
    var h := HeightOffset(height, blocksPerProposer);
    J.AroundIsRemainder(round, n);
    PlaceFrom(n, h, J.Around(round, n));
    AroundTwice(h, round, n);
  }

  lemma PlaceFrom(n: nat, h: nat, r: nat)
    requires n > 0 && r < n && h + n <= 0x8000_0000
    ensures TruncatedRemainder(ToInt32(ToInt32(h) + r), n) == J.Around(h + r, n)
  {
    SmallStays(h);
    SmallStays(h + r);
    J.AroundIsRemainder(h + r, n);
  }

  lemma SmallStays(x: nat)
    requires x < 0x8000_0000
    ensures ToInt32(x) == x
  {
  }

  lemma {:induction false} MoreTimes(a: nat, c: nat, b: nat)
    requires a < c
    ensures a * b + b <= c * b
    decreases c
  {
    if a < c - 1 { MoreTimes(a, c - 1, b); }
    assert (c - 1) * b + b == c * b;
  }

  lemma QuotientIsUnique(b: nat, q: nat, r: nat, q': nat, r': nat)
    requires q * b + r == q' * b + r' && r < b && r' < b
    ensures q == q'
  {
    if q < q' { MoreTimes(q, q', b); }
    if q' < q { MoreTimes(q', q, b); }
  }

  lemma QuotientOf(b: nat, turn: nat, i: nat)
    requires i < b
    ensures (turn * b + i) / b == turn
  {
    var x := turn * b + i;
    assert x / b * b + x % b == x;
    QuotientIsUnique(b, x / b, x % b, turn, i);
  }

  /** Turns of equally many blocks, of which the first is one short, go round the validators; each
      further round passes on to the next one. */
  lemma ProposerOfTurn(n: nat, blocksPerProposer: nat, turn: nat, i: nat, round: nat)
    requires n > 0 && i < blocksPerProposer && 0 < turn * blocksPerProposer + i < 0x1_0000_0000_0000_0000
    requires turn + n <= 0x8000_0000
    ensures ProposerIndex(n, blocksPerProposer, turn * blocksPerProposer + i - 1, round) == Some((turn + round) % n)
  {
    QuotientOf(blocksPerProposer, turn, i);
    PlaceIsAround(n, blocksPerProposer, turn * blocksPerProposer + i - 1, round);
    J.AroundIsRemainder(turn + round, n);
  }

  lemma {:induction false} AroundApart(a: nat, d: nat, n: nat)
    requires 0 < d < n
    ensures J.Around(a + d, n) == if J.Around(a, n) + d < n then J.Around(a, n) + d else J.Around(a, n) + d - n
    decreases a
  {
    if a >= n { AroundApart(a - n, d, n); }
  }

  lemma AroundReaches(a: nat, n: nat, v: nat) returns (d: nat)
    requires v < n
    ensures d < n && J.Around(a + d, n) == v
  {
    var at := J.Around(a, n);
    d := if v >= at then v - at else v - at + n;
    if d > 0 { AroundApart(a, d, n); }
  }

  lemma AroundOnce(a: nat, n: nat, d: nat, d': nat)
    requires d < n && d' < n && J.Around(a + d, n) == J.Around(a + d', n)
    ensures d == d'
  {
    if d < d' { AroundApart(a + d, d' - d, n); }
    if d' < d { AroundApart(a + d', d - d', n); }
  }

  lemma ProposesOnce(n: nat, blocksPerProposer: nat, height: nat, first: nat, r: nat, r': nat)
    requires n > 0 && blocksPerProposer > 0 && Fits(n, blocksPerProposer, height)
    requires first <= r < first + n && first <= r' < first + n
    requires ProposerIndex(n, blocksPerProposer, height, r) == ProposerIndex(n, blocksPerProposer, height, r')
    ensures r == r'
  {
    PlaceIsAround(n, blocksPerProposer, height, r);
    PlaceIsAround(n, blocksPerProposer, height, r');
    AroundOnce(HeightOffset(height, blocksPerProposer) + first, n, r - first, r' - first);
  }

  /** In any `n` rounds in a row each of the `n` validators proposes exactly once. */
  lemma EachProposesOnce(n: nat, blocksPerProposer: nat, height: nat, first: nat, v: nat) returns (round: nat)
    requires n > 0 && blocksPerProposer > 0 && Fits(n, blocksPerProposer, height) && v < n
    ensures first <= round < first + n && ProposerIndex(n, blocksPerProposer, height, round) == Some(v)
    ensures forall r: nat :: first <= r < first + n && ProposerIndex(n, blocksPerProposer, height, r) == Some(v) ==>
              r == round
  {
    var d := AroundReaches(HeightOffset(height, blocksPerProposer) + first, n, v);
    round := first + d;
    PlaceIsAround(n, blocksPerProposer, height, round);
    forall r: nat | first <= r < first + n && ProposerIndex(n, blocksPerProposer, height, r) == Some(v)
      ensures r == round
    {
      ProposesOnce(n, blocksPerProposer, height, first, r, round);
    }
  }

  lemma WrapsOnce(x: int, y: int)
    ensures ToInt32(ToInt32(x) + y) == ToInt32(x + y)
  {
  }

  /** A round has a proposer exactly when the sum of the offsets, in 32 bits, has its sign bit
      clear or is a multiple of the number of validators short of wrapping around. */
  lemma HasProposerExactly(n: nat, blocksPerProposer: nat, height: nat, round: nat)
    requires n > 0 && blocksPerProposer > 0
    ensures var sum := (HeightOffset(height, blocksPerProposer) + round % n) % 0x1_0000_0000;
            ProposerIndex(n, blocksPerProposer, height, round).Some? <==>
                sum < 0x8000_0000 || (0x1_0000_0000 - sum) % n == 0
  {
    var h, r := HeightOffset(height, blocksPerProposer), round % n;
    WrapsOnce(h, r);
    var a := ToInt32(h + r);
    if a >= 0 { RemainderBounds(a, n); } else { RemainderBounds(-a, n); }
  }

  /** Past 2^31 the height offset turns negative: with four validators and a proposer for each
      block, round 0 at that height has no proposer. */
  lemma OffsetOverflows()
    ensures ProposerIndex(4, 1, 0x8000_0000, 0) == None
  {
  }
}
