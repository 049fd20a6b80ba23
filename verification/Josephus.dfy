/**
 The Josephus selection of validators: a marked array walked in a circle, against the form
 that removes each chosen entry from a list.
 */
module Josephus {
  import opened Ordering

  // ---------------------------------------------------------------- the list-removal form

  function Remove(l: seq<nat>, q: nat): seq<nat>
    requires q < |l|
  {
    l[..q] + l[q + 1..]
  }

  /** The place reached after `a` steps around a circle of `n`. */
  function Around(a: nat, n: nat): (r: nat)
    requires n > 0
    ensures r < n
  {
    if a < n then a else Around(a - n, n)
  }

  lemma {:induction false} AroundIsRemainder(a: nat, n: nat)
    requires n > 0
    ensures Around(a, n) == a % n
    decreases a
  {
    if a >= n {
      AroundIsRemainder(a - n, n);
      assert a - n == n * (a / n - 1) + a % n;
      RemainderIs(a - n, n, a / n - 1, a % n);
    }
  }

  lemma RemainderIs(a: nat, n: nat, q: int, r: nat)
    requires n > 0 && a == n * q + r && r < n
    ensures a % n == r
  {
    var d := a / n - q;
    assert n * d == r - a % n;
    if d != 0 { NoSmallMultiple(n, d); }
  }

  lemma NoSmallMultiple(n: nat, d: int)
    requires n > 0 && d != 0
    ensures n * d >= n || n * d + n <= 0
  {
    if d >= 1 { assert n * (d - 1) >= 0; } else { assert n * (-d - 1) >= 0; }
  }

  /** From place `p` of the list, skip `seed` entries around the circle, take the next one out,
      and go on from where it stood. */
  function Josephus(l: seq<nat>, p: nat, seed: nat, m: nat): seq<nat>
    requires m <= |l|
    decreases m
  {
    if m == 0 then [] else var q := Around(p + seed, |l|); [l[q]] + Josephus(Remove(l, q), q, seed, m - 1)
  }

  function Range(n: nat): seq<nat> {
    seq(n, i requires 0 <= i < n => i)
  }

  // ---------------------------------------------------------------- the circular form

  function After(w: seq<nat>, q: nat): seq<nat>
    requires q < |w|
  {
    w[q + 1..] + w[..q]
  }

  /** The choices made on the circle `w`, whose head comes next, with `skip` entries to skip
      before the first choice. */
  function Walk(w: seq<nat>, skip: nat, seed: nat, m: nat): seq<nat>
    requires m <= |w|
    decreases m
  {
    if m == 0 then [] else var q := Around(skip, |w|); [w[q]] + Walk(After(w, q), seed, seed, m - 1)
  }

  function Rotated(w: seq<nat>): seq<nat>
    requires w != []
  {
    w[1..] + [w[0]]
  }

  lemma {:induction false} AroundStep(a: nat, n: nat)
    requires a > 0 && n > 0
    ensures Around(a - 1, n) == if Around(a, n) == 0 then n - 1 else Around(a, n) - 1
    decreases a
  {
    if a > n { AroundStep(a - n, n); }
  }

  /** Skipping one entry is turning the circle by one. */
  lemma SkipOne(w: seq<nat>, skip: nat, seed: nat, m: nat)
    requires 0 < m <= |w| && skip > 0
    ensures Walk(w, skip, seed, m) == Walk(Rotated(w), skip - 1, seed, m)
  {
    var q, q', w' := Around(skip, |w|), Around(skip - 1, |w|), Rotated(w);
    AroundStep(skip, |w|);
    assert w'[q'] == w[q];
    assert After(w', q') == After(w, q);
  }

  lemma {:induction false} SkipAll(w: seq<nat>, p: nat, seed: nat, m: nat)
    requires m <= |w| && p <= |w|
    ensures Walk(w[p..] + w[..p], seed, seed, m) == Walk(w, p + seed, seed, m)
  {
    SkipFrom(w, p, seed, seed, m);
  }

  lemma TurnedOnce(w: seq<nat>, p: nat)
    requires 0 < p <= |w|
    ensures Rotated(w[p - 1..] + w[..p - 1]) == w[p..] + w[..p]
  {
  }

  lemma {:induction false} SkipFrom(w: seq<nat>, p: nat, skip: nat, seed: nat, m: nat)
    requires m <= |w| && p <= |w|
    ensures Walk(w[p..] + w[..p], skip, seed, m) == Walk(w, p + skip, seed, m)
    decreases p
  {
    if p == 0 {
      assert w[p..] + w[..p] == w;
    } else if m > 0 {
      SkipOneFrom(w, p, skip, seed, m);
      SkipFrom(w, p - 1, skip + 1, seed, m);
    }
  }

  lemma SkipOneFrom(w: seq<nat>, p: nat, skip: nat, seed: nat, m: nat)
    requires 0 < m <= |w| && 0 < p <= |w|
    ensures Walk(w[p..] + w[..p], skip, seed, m) == Walk(w[p - 1..] + w[..p - 1], skip + 1, seed, m)
  {
    SkipOne(w[p - 1..] + w[..p - 1], skip + 1, seed, m);
    TurnedOnce(w, p);
  }

  lemma RemoveTurned(l: seq<nat>, q: nat)
    requires q < |l|
    ensures |Remove(l, q)| == |l| - 1 && Remove(l, q)[q..] + Remove(l, q)[..q] == After(l, q)
  {
  }

  /** The list-removal form and the circular form make the same choices. */
  lemma {:induction false} JosephusIsWalk(l: seq<nat>, p: nat, seed: nat, m: nat)
    requires m <= |l| && p <= |l|
    ensures Josephus(l, p, seed, m) == Walk(l[p..] + l[..p], seed, seed, m)
    decreases m
  {
    SkipAll(l, p, seed, m);
    if m > 0 {
      var q := Around(p + seed, |l|);
      JosephusIsWalk(Remove(l, q), q, seed, m - 1);
      RemoveTurned(l, q);
      assert Josephus(l, p, seed, m) == [l[q]] + Josephus(Remove(l, q), q, seed, m - 1);
      assert Walk(l, p + seed, seed, m) == [l[q]] + Walk(After(l, q), seed, seed, m - 1);
    }
  }

  // ---------------------------------------------------------------- what is chosen

  lemma AfterTakes(w: seq<nat>, q: nat)
    requires q < |w| && Distinct(w)
    ensures Distinct(After(w, q)) && forall x :: x in After(w, q) ==> x in w && x != w[q]
  {
    var r := After(w, q);
    forall k | 0 <= k < |r| ensures r[k] in w && r[k] != w[q] {
      assert r[k] == if k < |w| - q - 1 then w[q + 1 + k] else w[k - (|w| - q - 1)];
    }
  }

  /** Different entries are chosen, as many as asked for, all from the circle. */
  lemma {:induction false} WalkChooses(w: seq<nat>, skip: nat, seed: nat, m: nat)
    requires m <= |w| && Distinct(w)
    ensures var r := Walk(w, skip, seed, m); |r| == m && Distinct(r) && forall x :: x in r ==> x in w
    decreases m
  {
    if m > 0 {
      var q := Around(skip, |w|);
      AfterTakes(w, q);
      WalkChooses(After(w, q), seed, seed, m - 1);
      var rest := Walk(After(w, q), seed, seed, m - 1);
      forall k | 0 <= k < |rest| ensures rest[k] != w[q] {
        assert rest[k] in rest && rest[k] in After(w, q);
      }
    }
  }

  // ---------------------------------------------------------------- the marked array

  /** The positions in [lo, hi) that are not marked. */
  function Free(marked: seq<bool>, lo: nat, hi: nat): seq<nat>
    requires lo <= hi <= |marked|
    decreases hi - lo
  {
    if lo == hi then [] else (if marked[lo] then [] else [lo]) + Free(marked, lo + 1, hi)
  }

  /** The free positions around the circle from `i` on. */
  function Circle(marked: seq<bool>, i: nat): seq<nat>
    requires i <= |marked|
  {
    Free(marked, i, |marked|) + Free(marked, 0, i)
  }

  lemma {:induction false} FreeExtends(marked: seq<bool>, lo: nat, hi: nat)
    requires lo <= hi < |marked|
    ensures Free(marked, lo, hi + 1) == Free(marked, lo, hi) + if marked[hi] then [] else [hi]
    decreases hi - lo
  {
    if lo < hi { FreeExtends(marked, lo + 1, hi); }
  }

  lemma {:induction false} FreeSame(marked: seq<bool>, marked': seq<bool>, lo: nat, hi: nat)
    requires lo <= hi <= |marked| == |marked'| && forall k :: lo <= k < hi ==> marked'[k] == marked[k]
    ensures Free(marked', lo, hi) == Free(marked, lo, hi)
    decreases hi - lo
  {
    if lo < hi {
      FreeSame(marked, marked', lo + 1, hi);
      assert Free(marked', lo, hi) == (if marked[lo] then [] else [lo]) + Free(marked, lo + 1, hi);
    }
  }

  lemma CirclePass(marked: seq<bool>, i: nat)
    requires i < |marked| && marked[i]
    ensures Circle(marked, i + 1) == Circle(marked, i)
  {
    FreeExtends(marked, 0, i);
    assert Free(marked, i, |marked|) == Free(marked, i + 1, |marked|);
  }

  lemma CircleTurn(marked: seq<bool>, i: nat)
    requires i < |marked| && !marked[i]
    ensures Circle(marked, i) != [] && Circle(marked, i)[0] == i
    ensures Circle(marked, i + 1) == Rotated(Circle(marked, i))
  {
    FreeExtends(marked, 0, i);
    var rest, before := Free(marked, i + 1, |marked|), Free(marked, 0, i);
    assert Circle(marked, i) == [i] + (rest + before);
    assert Circle(marked, i + 1) == rest + (before + [i]);
    assert rest + (before + [i]) == (rest + before) + [i];
  }

  lemma CircleTake(marked: seq<bool>, i: nat)
    requires i < |marked| && !marked[i]
    ensures Circle(marked, i) != [] && Circle(marked, i)[0] == i
    ensures Circle(marked[i := true], i + 1) == After(Circle(marked, i), 0)
  {
    var after := marked[i := true];
    FreeExtends(after, 0, i);
    FreeSame(marked, after, i + 1, |marked|);
    FreeSame(marked, after, 0, i);
  }

  lemma CircleWraps(marked: seq<bool>)
    ensures Circle(marked, |marked|) == Circle(marked, 0)
  {
  }

  lemma {:induction false} AllFree(marked: seq<bool>, lo: nat)
    requires lo <= |marked| && forall k :: 0 <= k < |marked| ==> !marked[k]
    ensures Free(marked, lo, |marked|) == Range(|marked|)[lo..]
    decreases |marked| - lo
  {
    if lo < |marked| { AllFree(marked, lo + 1); }
  }

  lemma {:induction false} FreeBelow(marked: seq<bool>, hi: nat)
    requires hi <= |marked| && forall k :: 0 <= k < |marked| ==> !marked[k]
    ensures Free(marked, 0, hi) == Range(|marked|)[..hi]
    decreases hi
  {
    if hi > 0 {
      FreeBelow(marked, hi - 1);
      FreeExtends(marked, 0, hi - 1);
    }
  }

  lemma FreshCircle(marked: seq<bool>, p: nat)
    requires p <= |marked| && forall k :: 0 <= k < |marked| ==> !marked[k]
    ensures Circle(marked, p) == Range(|marked|)[p..] + Range(|marked|)[..p]
  {
    AllFree(marked, p);
    FreeBelow(marked, p);
  }

  /** `w` is the circle of free places from `i` on. */
  ghost predicate IsCircle(w: seq<nat>, marked: seq<bool>, i: nat) {
    i <= |marked| && w == Circle(marked, i)
  }

  /** How far the head of the circle `w` of `n` places is from `i`. */
  function Distance(w: seq<nat>, i: nat, n: nat): int {
    if w == [] then 0 else if i <= w[0] then w[0] - i else n - i + w[0]
  }

  lemma {:induction false} FreeIn(marked: seq<bool>, lo: nat, hi: nat)
    requires lo <= hi <= |marked|
    ensures forall x :: x in Free(marked, lo, hi) ==> lo <= x < hi && !marked[x]
    decreases hi - lo
  {
    if lo < hi { FreeIn(marked, lo + 1, hi); }
  }

  lemma HeadIn(marked: seq<bool>, i: nat)
    requires i <= |marked| && Circle(marked, i) != []
    ensures Circle(marked, i)[0] < |marked| && !marked[Circle(marked, i)[0]]
  {
    FreeIn(marked, i, |marked|);
    FreeIn(marked, 0, i);
    assert Circle(marked, i)[0] in Circle(marked, i);
  }

  /** What is chosen already, and what the circle `w` will still give, is `all`. */
  ghost predicate Underway(all: seq<nat>, w: seq<nat>, j: nat, result: seq<nat>, left: nat, seed: nat) {
    j <= seed && left <= |w| && all == result + Walk(w, seed - j, seed, left)
  }

  lemma PassMarked(w: seq<nat>, marked: seq<bool>, i: nat)
    requires IsCircle(w, marked, i) && i < |marked| && marked[i] && w != []
    ensures IsCircle(w, marked, i + 1) && 0 <= Distance(w, i + 1, |marked|) < Distance(w, i, |marked|)
  {
    CirclePass(marked, i);
    HeadIn(marked, i);
  }

  lemma SkipFree(all: seq<nat>, w: seq<nat>, marked: seq<bool>, i: nat, j: nat, result: seq<nat>, left: nat, seed: nat)
    requires IsCircle(w, marked, i) && Underway(all, w, j, result, left, seed)
    requires i < |marked| && !marked[i] && left > 0 && j < seed
    ensures IsCircle(Rotated(w), marked, i + 1) && Underway(all, Rotated(w), j + 1, result, left, seed)
  {
    CircleTurn(marked, i);
    SkipOne(w, seed - j, seed, left);
  }

  lemma TakeFree(all: seq<nat>, w: seq<nat>, marked: seq<bool>, i: nat, result: seq<nat>, left: nat, seed: nat)
    requires IsCircle(w, marked, i) && Underway(all, w, seed, result, left, seed)
    requires i < |marked| && !marked[i] && left > 0
    ensures w[0] == i && IsCircle(After(w, 0), marked[i := true], i + 1)
    ensures Underway(all, After(w, 0), 0, result + [i], left - 1, seed)
  {
    CircleTake(marked, i);
    assert Walk(w, 0, seed, left) == [i] + Walk(After(w, 0), seed, seed, left - 1);
  }

  function IntLe(): (int, int) -> bool {
    (a, b) => a <= b
  }

  lemma Wrap(w: seq<nat>, marked: seq<bool>)
    requires IsCircle(w, marked, |marked|) && w != []
    ensures marked != [] && IsCircle(w, marked, 0) && Distance(w, 0, |marked|) == Distance(w, |marked|, |marked|)
  {
    CircleWraps(marked);
    HeadIn(marked, |marked|);
  }

  /** How far a selection has come: what it will choose in all, the circle of places still
      free, the marks, what is chosen already and how many are left to choose. */
  datatype Selection = Selection(all: seq<nat>, w: seq<nat>, marked: seq<bool>, result: seq<nat>, left: nat)

  ghost predicate Stands(g: Selection, i: nat, j: nat, seed: nat) {
    IsCircle(g.w, g.marked, i) && Underway(g.all, g.w, j, g.result, g.left, seed)
  }

  ghost predicate Marks(peers: array<bool>, marked: seq<bool>)
    reads peers
  {
    peers.Length == |marked| && forall k :: 0 <= k < |marked| ==> peers[k] == marked[k]
  }

  ghost function Begun(n: nat, p: nat, chooseM: nat, seed: nat): Selection
    requires chooseM < n && p < n
  {
    var marked := seq(n, _ => false);
    Selection(Josephus(Range(n), p, seed, chooseM), Circle(marked, p), marked, [], chooseM)
  }

  lemma Outset(n: nat, p: nat, chooseM: nat, seed: nat)
    requires chooseM < n && p < n
    ensures Stands(Begun(n, p, chooseM, seed), p, 0, seed)
  {
    FreshCircle(seq(n, _ => false), p);
    JosephusIsWalk(Range(n), p, seed, chooseM);
  }

  /** One visit of place `i`: a marked place is passed over; a free one is skipped, or chosen
      and marked once `seed` free ones have been skipped. */
  method Visit(peers: array<bool>, i: nat, j: nat, seed: nat, ghost g: Selection)
    returns (j': nat, chosen: bool, ghost g': Selection)
    requires Stands(g, i, j, seed) && Marks(peers, g.marked) && i < peers.Length && g.left > 0
    modifies peers
    ensures Stands(g', i + 1, j', seed) && Marks(peers, g'.marked) && g'.all == g.all
    ensures g'.result == (if chosen then g.result + [i] else g.result)
    ensures g'.left == (if chosen then g.left - 1 else g.left)
    ensures chosen || j' > j || (j' == j && 0 <= Distance(g'.w, i + 1, peers.Length) < Distance(g.w, i, peers.Length))
  {
    j', chosen, g' := j, false, g;
    if peers[i] {
      PassMarked(g.w, g.marked, i);
      return;
    }
    j' := j + 1;
    if j' > seed {
      TakeFree(g.all, g.w, g.marked, i, g.result, g.left, seed);
      peers[i] := true;
      j', chosen := 0, true;
      g' := Selection(g.all, After(g.w, 0), g.marked[i := true], g.result + [i], g.left - 1);
    } else {
      SkipFree(g.all, g.w, g.marked, i, j, g.result, g.left, seed);
      g' := g.(w := Rotated(g.w));
    }
  }

  /** At the end of the array the walk goes on from its start. */
  method Next(n: nat, i: nat, j: nat, seed: nat, ghost g: Selection) returns (i': nat)
    requires Stands(g, i, j, seed) && |g.marked| == n && g.left > 0
    ensures i' < n && Stands(g, i', j, seed) && Distance(g.w, i', n) == Distance(g.w, i, n)
  {
    i' := i;
    if i >= n {
      Wrap(g.w, g.marked);
      i' := 0;
    }
  }

  /** Goes round the array until `chooseM` places are chosen. */
  method GoRound(peers: array<bool>, p: nat, chooseM: nat, seed: nat, ghost outset: Selection)
    returns (result: seq<nat>)
    requires Stands(outset, p, 0, seed) && Marks(peers, outset.marked)
    requires outset.result == [] && outset.left == chooseM
    modifies peers
    ensures result == outset.all
  {
    var i: nat, j: nat, curNum: nat, chosen := p, 0, 0, false;
    result := [];
    ghost var g := outset;
    while curNum < chooseM
      invariant Stands(g, i, j, seed) && Marks(peers, g.marked) && g.all == outset.all
      invariant result == g.result && g.left == chooseM - curNum
      decreases chooseM - curNum, seed - j, Distance(g.w, i, peers.Length)
    {
      i := Next(peers.Length, i, j, seed, g);
      j, chosen, g := Visit(peers, i, j, seed, g);
      if chosen {
        result := result + [i];
        curNum := curNum + 1;
      }
      i := i + 1;
    }
  }

  method ChooseAround(n: nat, p: nat, chooseM: nat, seed: nat) returns (result: seq<nat>)
    requires chooseM < n && p < n
    ensures result == Josephus(Range(n), p, seed, chooseM)
  {
    var peers := new bool[n](_ => false);
    Outset(n, p, chooseM, seed);
    result := GoRound(peers, p, chooseM, seed, Begun(n, p, chooseM, seed));
  }

  /** Chooses `chooseM` of the positions below `n`: all of them if there are no more, and else
      those of the Josephus walk, in ascending order. */
  method GetRandomList(n: nat, chooseM: nat, seed: nat) returns (result: seq<nat>)
    ensures Ascending(result) && forall x :: x in result ==> x < n
    ensures |result| == if n <= chooseM then n else chooseM
    ensures n > chooseM ==> forall x :: x in result <==> x in Josephus(Range(n), seed % n, seed, chooseM)
  {
    if n <= chooseM {
      result := [];
      for i := 0 to n
        invariant result == Range(n)[..i]
      {
        result := result + [i];
      }
    } else {
      var p := seed % n;
      result := ChooseAround(n, p, chooseM, seed);
      PicksAreDistinct(n, p, chooseM, seed);
      SortOfDistinct(result);
      result := Sort(IntLe(), result);
    }
  }

  ghost predicate Ascending(s: seq<nat>) {
    forall k, l :: 0 <= k < l < |s| ==> s[k] < s[l]
  }

  lemma PicksAreDistinct(n: nat, p: nat, chooseM: nat, seed: nat)
    requires chooseM < n && p < n
    ensures var picks := Josephus(Range(n), p, seed, chooseM);
            |picks| == chooseM && Distinct(picks) && forall x :: x in picks ==> x < n
  {
    JosephusIsWalk(Range(n), p, seed, chooseM);
    WalkChooses(Range(n)[p..] + Range(n)[..p], seed, seed, chooseM);
  }

  lemma SortOfDistinct(picks: seq<nat>)
    requires Distinct(picks)
    ensures var result := Sort(IntLe(), picks);
            && |result| == |picks| && (forall x :: x in result <==> x in picks)
            && Ascending(result)
  {
    var result := Sort(IntLe(), picks);
    SortSorts(IntLe(), picks);
    SameMembers(result, picks);
    DistinctKept(picks, result);
    forall k, l | 0 <= k < l < |result| ensures result[k] < result[l] {
      assert IntLe()(result[k], result[l]);
    }
  }
}
