/**
 The election of DPoS validators: half of the seats go to candidates drawn from the heaviest,
 the rest to candidates drawn from all who are left.
 */
module Election {
  import opened Options
  import opened Ordering

  datatype Candidate = Candidate(peerId: string, weight: int)

  datatype Outcome = ZeroSeats | TooFewCandidates | Elected(validators: seq<Candidate>)

  /** Heavier first, and by name among equals. */
  predicate Before(a: Candidate, b: Candidate) {
    a.weight > b.weight || (a.weight == b.weight && LexLe(a.peerId, b.peerId))
  }

  lemma BeforeIsTotal()
    ensures TotalOrder(Before)
  {
    forall a, b ensures Before(a, b) || Before(b, a) { LexOrder(a.peerId, b.peerId); }
    forall a, b, c | Before(a, b) && Before(b, c) ensures Before(a, c) {
      if a.weight == c.weight { LexTransitive(a.peerId, b.peerId, c.peerId); }
    }
  }

  ghost predicate DistinctPeers(infos: seq<Candidate>) {
    forall i, j :: 0 <= i < j < |infos| ==> infos[i].peerId != infos[j].peerId
  }

  /** A drawing of the numbers below `k` in some order. */
  ghost predicate IsPermutation(p: seq<nat>, k: nat) {
    |p| == k && Distinct(p) && forall i :: 0 <= i < k ==> p[i] < k
  }

  // ---------------------------------------------------------------- the choice

  /** The entries at the given places. */
  function At(s: seq<Candidate>, places: seq<nat>): seq<Candidate>
    requires forall i :: 0 <= i < |places| ==> places[i] < |s|
  {
    seq(|places|, i requires 0 <= i < |places| => s[places[i]])
  }

  /** The entries from `lo` on whose places are not taken. */
  function Others(s: seq<Candidate>, taken: set<nat>, lo: nat): seq<Candidate>
    requires lo <= |s|
    decreases |s| - lo
  {
    if lo == |s| then [] else (if lo in taken then [] else [s[lo]]) + Others(s, taken, lo + 1)
  }

  /** From the sorted candidates: half the seats by `perm0` among the first `n`, the rest by
      `perm1` among all others. */
  ghost function Seats(sorted: seq<Candidate>, n: nat, perm0: seq<nat>, perm1: seq<nat>): seq<Candidate>
    requires 0 < n < |sorted| && IsPermutation(perm0, n) && IsPermutation(perm1, |sorted| - n / 2)
  {
    var front := perm0[..n / 2];
    OthersCount(sorted, Elements(front), 0);
    TakenCount(sorted, front);
    At(sorted, front) + At(Others(sorted, Elements(front), 0), perm1[..n - n / 2])
  }

  function TakenFrom(taken: set<nat>, lo: nat, hi: nat): set<nat> {
    set k | k in taken && lo <= k < hi
  }

  lemma {:induction false} OthersCount(s: seq<Candidate>, taken: set<nat>, lo: nat)
    requires lo <= |s|
    ensures |Others(s, taken, lo)| + |TakenFrom(taken, lo, |s|)| == |s| - lo
    decreases |s| - lo
  {
    if lo < |s| {
      OthersCount(s, taken, lo + 1);
      var rest := TakenFrom(taken, lo + 1, |s|);
      assert TakenFrom(taken, lo, |s|) == if lo in taken then rest + {lo} else rest;
    } else {
      assert TakenFrom(taken, lo, |s|) == {};
    }
  }

  lemma TakenCount(s: seq<Candidate>, places: seq<nat>)
    requires Distinct(places) && forall i :: 0 <= i < |places| ==> places[i] < |s|
    ensures |TakenFrom(Elements(places), 0, |s|)| == |places|
  {
    DistinctSize(places);
    assert TakenFrom(Elements(places), 0, |s|) == Elements(places);
  }

  // ---------------------------------------------------------------- what the choice guarantees

  lemma {:induction false} OthersFrom(s: seq<Candidate>, taken: set<nat>, lo: nat)
    requires lo <= |s| && Distinct(s)
    ensures Distinct(Others(s, taken, lo))
    ensures forall x :: x in Others(s, taken, lo) ==> x in s[lo..] && forall k :: 0 <= k < |s| && k in taken ==>
        s[k] != x
    decreases |s| - lo
  {
    if lo < |s| {
      OthersFrom(s, taken, lo + 1);
      assert s[lo..] == [s[lo]] + s[lo + 1..];
      var rest := Others(s, taken, lo + 1);
      forall i | 0 <= i < |rest| ensures rest[i] != s[lo] { assert rest[i] in rest && rest[i] in s[lo + 1..]; }
    }
  }

  /** The candidate at a place not drawn moves up past the drawn places before it. */
  lemma {:induction false} OthersAt(s: seq<Candidate>, taken: set<nat>, lo: nat, i: nat)
    requires lo <= i < |s| && i !in taken
    ensures var k := i - lo - |TakenFrom(taken, lo, i)|;
            0 <= k < |Others(s, taken, lo)| && Others(s, taken, lo)[k] == s[i]
    decreases |s| - lo
  {
    var rest := TakenFrom(taken, lo + 1, i);
    if lo == i {
      assert TakenFrom(taken, lo, i) == {};
    } else {
      OthersAt(s, taken, lo + 1, i);
      assert TakenFrom(taken, lo, i) == if lo in taken then rest + {lo} else rest;
    }
  }

  lemma AtChooses(s: seq<Candidate>, places: seq<nat>)
    requires Distinct(s) && Distinct(places) && forall i :: 0 <= i < |places| ==> places[i] < |s|
    ensures Distinct(At(s, places)) && forall x :: x in At(s, places) ==> x in s
  {
  }

  lemma DistinctBoth(r0: seq<Candidate>, r1: seq<Candidate>)
    requires Distinct(r0) && Distinct(r1) && forall i, j :: 0 <= i < |r0| && 0 <= j < |r1| ==> r0[i] != r1[j]
    ensures Distinct(r0 + r1)
  {
  }

  /** The seats go to different candidates, half of them to candidates among the first `n`. */
  lemma SeatsChoose(sorted: seq<Candidate>, n: nat, perm0: seq<nat>, perm1: seq<nat>)
    requires 0 < n < |sorted| && IsPermutation(perm0, n) && IsPermutation(perm1, |sorted| - n / 2) && Distinct(sorted)
    ensures var r := Seats(sorted, n, perm0, perm1);
            && |r| == n && Distinct(r) && (forall x :: x in r ==> x in sorted)
            && (forall i :: 0 <= i < n / 2 ==> r[i] in sorted[..n])
  {
    var front := perm0[..n / 2];
    OthersCount(sorted, Elements(front), 0);
    TakenCount(sorted, front);
    var others := Others(sorted, Elements(front), 0);
    OthersFrom(sorted, Elements(front), 0);
    AtChooses(sorted, front);
    AtChooses(others, perm1[..n - n / 2]);
    var r0, r1 := At(sorted, front), At(others, perm1[..n - n / 2]);
    forall i, j | 0 <= i < |r0| && 0 <= j < |r1| ensures r0[i] != r1[j] {
      assert r1[j] in r1 && r1[j] in others && front[i] in Elements(front);
    }
    DistinctBoth(r0, r1);
    forall i | 0 <= i < n / 2 ensures r0[i] in sorted[..n] { assert sorted[..n][front[i]] == r0[i]; }
  }

  ghost predicate IsTop(infos: seq<Candidate>, top: seq<Candidate>, n: nat) {
    && |top| == n && Distinct(top) && (forall x :: x in top ==> x in infos)
    && forall x, y :: x in top && y in infos && y !in top ==> Before(x, y)
  }

  lemma FirstAreTop(infos: seq<Candidate>, n: nat)
    requires n <= |infos| && Distinct(infos)
    ensures IsTop(infos, Sort(Before, infos)[..n], n)
  {
    var sorted := Sort(Before, infos);
    BeforeIsTotal();
    SortSorts(Before, infos);
    SameMembers(infos, sorted);
    DistinctKept(infos, sorted);
    forall x, y | x in sorted[..n] && y in infos && y !in sorted[..n] ensures Before(x, y) {
      FirstComeBefore(sorted, n, x, y);
    }
  }

  lemma FirstComeBefore(sorted: seq<Candidate>, n: nat, x: Candidate, y: Candidate)
    requires SortedBy(Before, sorted) && n <= |sorted| && x in sorted[..n] && y in sorted && y !in sorted[..n]
    ensures Before(x, y)
  {
    var i :| 0 <= i < n && sorted[..n][i] == x;
    var j :| 0 <= j < |sorted| && sorted[j] == y;
    assert forall k :: 0 <= k < n ==> sorted[k] in sorted[..n];
  }

  /** Those among the first `n` are heavier than any candidate that is not, or as heavy and first by
      name. */
  lemma TopIsHeaviest(infos: seq<Candidate>, n: nat, x: Candidate, y: Candidate)
    requires n <= |infos| && Distinct(infos) && x in Sort(Before, infos)[..n] && y in infos
    requires y !in Sort(Before, infos)[..n]
    ensures x.weight > y.weight || (x.weight == y.weight && LexLe(x.peerId, y.peerId))
  {
    FirstAreTop(infos, n);
    assert Before(x, y);
  }

  /** Weights do not increase, and equals are in the order of their names. */
  ghost predicate NoHeavierLater(s: seq<Candidate>) {
    forall i, j :: 0 <= i < j < |s| ==>
      s[i].weight > s[j].weight || (s[i].weight == s[j].weight && LexLe(s[i].peerId, s[j].peerId))
  }

  lemma SortedByWeight(infos: seq<Candidate>)
    ensures NoHeavierLater(Sort(Before, infos))
  {
    BeforeIsTotal();
    SortSorts(Before, infos);
    var sorted := Sort(Before, infos);
    forall i, j | 0 <= i < j < |sorted|
      ensures sorted[i].weight > sorted[j].weight
           || (sorted[i].weight == sorted[j].weight && LexLe(sorted[i].peerId, sorted[j].peerId))
    {
      assert Before(sorted[i], sorted[j]);
    }
  }

  /** The seats of an election over candidates in any order. */
  ghost function ElectedSeats(infos: seq<Candidate>, n: nat, perm0: seq<nat>, perm1: seq<nat>): seq<Candidate>
    requires 0 < n < |infos| && IsPermutation(perm0, n) && IsPermutation(perm1, |infos| - n / 2)
  {
    Seats(Sort(Before, infos), n, perm0, perm1)
  }

  /** A sorted election seats `n` different candidates, at least half of them among the `n` that
      come first by weight. */
  lemma ElectionIsFair(infos: seq<Candidate>, n: nat, perm0: seq<nat>, perm1: seq<nat>)
    requires 0 < n < |infos| && IsPermutation(perm0, n) && IsPermutation(perm1, |infos| - n / 2) && DistinctPeers(infos)
    ensures var r, top := Sort(Before, ElectedSeats(infos, n, perm0, perm1)), Sort(Before, infos)[..n];
            && |r| == n && DistinctPeers(r) && (forall x :: x in r ==> x in infos)
            && IsTop(infos, top, n) && |Elements(r) * Elements(top)| >= n / 2
  {
    var sorted := Sort(Before, infos);
    var seats := ElectedSeats(infos, n, perm0, perm1);
    var r, top := Sort(Before, seats), sorted[..n];
    assert Distinct(infos);
    FirstAreTop(infos, n);
    SameMembers(infos, sorted);
    DistinctKept(infos, sorted);
    SeatsChoose(sorted, n, perm0, perm1);
    SameMembers(seats, r);
    DistinctKept(seats, r);
    PeersDistinct(infos, r);
    HalfInTop(seats, r, top, n / 2);
  }

  /** `top` are the `n` heaviest of the candidates, those first by name among equals. */
  ghost predicate Heaviest(infos: seq<Candidate>, top: set<Candidate>, n: nat) {
    && |top| == n && (forall x :: x in top ==> x in infos)
    && forall x, y :: x in top && y in infos && y !in top ==>
         x.weight > y.weight || (x.weight == y.weight && LexLe(x.peerId, y.peerId))
  }

  /** At least half of the seats go to the `n` heaviest, so weigh no less than any candidate outside. */
  lemma HalfAreHeaviest(infos: seq<Candidate>, n: nat, perm0: seq<nat>, perm1: seq<nat>)
    returns (top: set<Candidate>, heavy: set<Candidate>)
    requires 0 < n < |infos| && IsPermutation(perm0, n) && IsPermutation(perm1, |infos| - n / 2) && DistinctPeers(infos)
    ensures Heaviest(infos, top, n) && heavy <= top && |heavy| >= n / 2
    ensures forall x :: x in heavy ==> x in ElectedSeats(infos, n, perm0, perm1)
    ensures forall x, y :: x in heavy && y in infos && y !in top ==> x.weight >= y.weight
  {
    var seats, first := ElectedSeats(infos, n, perm0, perm1), Sort(Before, infos)[..n];
    var r := Sort(Before, seats);
    assert Distinct(infos);
    ElectionIsFair(infos, n, perm0, perm1);
    DistinctSize(first);
    SameMembers(seats, r);
    top, heavy := Elements(first), Elements(r) * Elements(first);
    forall x, y | x in top && y in infos && y !in top
      ensures x.weight > y.weight || (x.weight == y.weight && LexLe(x.peerId, y.peerId))
    {
      TopIsHeaviest(infos, n, x, y);
    }
  }

  lemma PeersDistinct(infos: seq<Candidate>, r: seq<Candidate>)
    requires DistinctPeers(infos) && Distinct(r) && forall x :: x in r ==> x in infos
    ensures DistinctPeers(r)
  {
    forall i, j | 0 <= i < j < |r| ensures r[i].peerId != r[j].peerId {
      assert r[i] in r && r[j] in r;
      var k :| 0 <= k < |infos| && infos[k] == r[i];
      var l :| 0 <= l < |infos| && infos[l] == r[j];
    }
  }

  lemma HalfInTop(seats: seq<Candidate>, r: seq<Candidate>, top: seq<Candidate>, half: nat)
    requires Distinct(seats) && half <= |seats| && (forall x :: x in seats <==> x in r) && forall i ::
        0 <= i < half ==> seats[i] in top
    ensures |Elements(r) * Elements(top)| >= half
  {
    var first := seats[..half];
    DistinctSize(first);
    forall x | x in first ensures x in r && x in top { assert x in seats; }
    assert Elements(first) <= Elements(r) * Elements(top);
    SubsetSize(Elements(first), Elements(r) * Elements(top));
  }

  lemma SortIgnoresOrder(s: seq<Candidate>, t: seq<Candidate>)
    requires multiset(s) == multiset(t)
    ensures Sort(Before, s) == Sort(Before, t)
  {
    BeforeIsTotal();
    SortSorts(Before, s);
    SortSorts(Before, t);
    forall a, b | Before(a, b) && Before(b, a) ensures a == b { LexOrder(a.peerId, b.peerId); }
    SortedUnique(Before, Sort(Before, s), Sort(Before, t));
  }

  /** The place of the `i`-th candidate once those at the places in `drawn` are left out. */
  function PlaceWithout(drawn: set<nat>, i: nat): int {
    i - |set k | k in drawn && k < i|
  }

  /** The `i`-th of the sorted candidates is seated exactly when the first drawing gives its place among
      its first half, or the second gives, among as many as are left, its place without those drawn. */
  lemma SeatedExactly(infos: seq<Candidate>, n: nat, perm0: seq<nat>, perm1: seq<nat>, i: nat)
    requires 0 < n < |infos| && IsPermutation(perm0, n) && IsPermutation(perm1, |infos| - n / 2) && DistinctPeers(infos)
    requires i < |infos|
    ensures |Sort(Before, infos)| == |infos|
    ensures var drawn := Elements(perm0[..n / 2]);
            Sort(Before, infos)[i] in ElectedSeats(infos, n, perm0, perm1) <==>
              i in drawn || PlaceWithout(drawn, i) in perm1[..n - n / 2]
  {
    assert Distinct(infos);
    SameMembers(infos, Sort(Before, infos));
    DistinctKept(infos, Sort(Before, infos));
    SeatExactly(Sort(Before, infos), n, perm0, perm1, i);
  }

  lemma SeatExactly(sorted: seq<Candidate>, n: nat, perm0: seq<nat>, perm1: seq<nat>, i: nat)
    requires 0 < n < |sorted| && IsPermutation(perm0, n) && IsPermutation(perm1, |sorted| - n / 2) && Distinct(sorted)
    requires i < |sorted|
    ensures var drawn := Elements(perm0[..n / 2]);
            sorted[i] in Seats(sorted, n, perm0, perm1) <==>
              i in drawn || PlaceWithout(drawn, i) in perm1[..n - n / 2]
  {
    var front, back := perm0[..n / 2], perm1[..n - n / 2];
    OthersCount(sorted, Elements(front), 0);
    TakenCount(sorted, front);
    DrawnExactly(sorted, front, i);
    assert Seats(sorted, n, perm0, perm1) == At(sorted, front) + At(Others(sorted, Elements(front), 0), back);
    if i !in Elements(front) { LeftOverExactly(sorted, Elements(front), back, i); }
  }

  lemma DrawnExactly(s: seq<Candidate>, places: seq<nat>, i: nat)
    requires Distinct(s) && i < |s| && Places(places, |s|)
    ensures s[i] in At(s, places) <==> i in places
  {
    if s[i] in At(s, places) {
      var j :| 0 <= j < |places| && At(s, places)[j] == s[i];
      assert s[places[j]] == s[i];
    }
    if i in places {
      var j :| 0 <= j < |places| && places[j] == i;
      assert At(s, places)[j] == s[i];
    }
  }

  lemma LeftOverExactly(s: seq<Candidate>, taken: set<nat>, places: seq<nat>, i: nat)
    requires Distinct(s) && i < |s| && i !in taken && Places(places, |Others(s, taken, 0)|)
    ensures s[i] in At(Others(s, taken, 0), places) <==> PlaceWithout(taken, i) in places
  {
    OthersAt(s, taken, 0, i);
    OthersFrom(s, taken, 0);
    assert TakenFrom(taken, 0, i) == set k | k in taken && k < i;
    DrawnExactly(Others(s, taken, 0), places, i - |TakenFrom(taken, 0, i)|);
  }

  /** The result does not depend on the order the candidates come in. */
  lemma ElectionIgnoresOrder(infos: seq<Candidate>, infos': seq<Candidate>, n: nat, perm0: seq<nat>, perm1: seq<nat>)
    requires multiset(infos) == multiset(infos') && 0 < n < |infos| && IsPermutation(perm0, n)
        && IsPermutation(perm1, |infos| - n / 2)
    ensures |infos'| == |infos| && ElectedSeats(infos, n, perm0, perm1) == ElectedSeats(infos', n, perm0, perm1)
  {
    SameMembers(infos, infos');
    SortIgnoresOrder(infos, infos');
  }

  // ---------------------------------------------------------------- the algorithm

  ghost predicate Places(p: seq<nat>, n: nat) {
    forall i :: 0 <= i < |p| ==> p[i] < n
  }

  function Without(q: seq<nat>, k: nat): seq<nat>
    requires k < |q|
  {
    q[..k] + q[k + 1..]
  }

  lemma TakeOut(q: seq<nat>, k: nat)
    requires k < |q|
    ensures multiset(Without(q, k)) == multiset(q) - multiset{q[k]}
  {
    assert q == q[..k] + [q[k]] + q[k + 1..];
  }

  lemma AtTakeOut(s: seq<Candidate>, q: seq<nat>, k: nat)
    requires k < |q| && Places(q, |s|)
    ensures Places(Without(q, k), |s|)
    ensures multiset(At(s, q)) == multiset(At(s, Without(q, k))) + multiset{s[q[k]]}
  {
    assert At(s, q) == At(s, q[..k]) + [s[q[k]]] + At(s, q[k + 1..]);
    assert At(s, Without(q, k)) == At(s, q[..k]) + At(s, q[k + 1..]);
  }

  lemma {:induction false} AtRearranged(s: seq<Candidate>, p: seq<nat>, q: seq<nat>)
    requires multiset(p) == multiset(q) && Places(p, |s|) && Places(q, |s|)
    ensures multiset(At(s, p)) == multiset(At(s, q))
    decreases |p|, 1
  {
    SameMembers(p, q);
    if p != [] {
      assert p[0] in q;
      var k :| 0 <= k < |q| && q[k] == p[0];
      AtRearrangedFrom(s, p, q, k);
    }
  }

  lemma {:induction false} AtRearrangedFrom(s: seq<Candidate>, p: seq<nat>, q: seq<nat>, k: nat)
    requires multiset(p) == multiset(q) && Places(p, |s|) && Places(q, |s|) && p != [] && k < |q| && q[k] == p[0]
    ensures multiset(At(s, p)) == multiset(At(s, q))
    decreases |p|, 0
  {
    TakeOut(p, 0);
    TakeOut(q, k);
    AtTakeOut(s, p, 0);
    AtTakeOut(s, q, k);
    AtRearranged(s, Without(p, 0), Without(q, k));
  }

  lemma SameElementsOnce(p: seq<nat>, q: seq<nat>)
    requires Distinct(p) && Distinct(q) && Elements(p) == Elements(q)
    ensures multiset(p) == multiset(q)
  {
    forall x ensures multiset(p)[x] == multiset(q)[x] {
      OnceCounted(p, x);
      OnceCounted(q, x);
      assert x in p <==> x in Elements(p);
      assert x in q <==> x in Elements(q);
      assert (x in multiset(p)) == (x in p) && (x in multiset(q)) == (x in q);
    }
  }

  lemma VisitMore(s: seq<Candidate>, visited: seq<nat>, k: nat)
    requires Distinct(visited) && Places(visited, |s|) && k !in visited && k < |s|
    ensures Distinct(visited + [k]) && Places(visited + [k], |s|) && Elements(visited + [k]) == Elements(visited) + {k}
    ensures At(s, visited + [k]) == At(s, visited) + [s[k]]
  {
  }

  /** The candidates at the places in a set, in any order of the set. */
  method PickSet(s: seq<Candidate>, places: set<nat>, ghost listed: seq<nat>) returns (picked: seq<Candidate>)
    requires Distinct(listed) && Elements(listed) == places && Places(listed, |s|)
    ensures multiset(picked) == multiset(At(s, listed))
  {
    var todo := places;
    ghost var visited: seq<nat> := [];
    picked := [];
    assert forall k :: k in places ==> k in listed && k < |s|;
    while todo != {}
      invariant todo <= places && Distinct(visited) && Elements(visited) == places - todo
      invariant Places(visited, |s|) && picked == At(s, visited)
      decreases |todo|
    {
      var k :| k in todo;
      assert k !in Elements(visited);
      VisitMore(s, visited, k);
      picked := picked + [s[k]];
      visited := visited + [k];
      todo := todo - {k};
    }
    SameElementsOnce(visited, listed);
    AtRearranged(s, visited, listed);
  }

  method LeaveOut(s: seq<Candidate>, taken: set<nat>) returns (others: seq<Candidate>)
    ensures others == Others(s, taken, 0)
  {
    others := [];
    for i := 0 to |s|
      invariant others + Others(s, taken, i) == Others(s, taken, 0)
    {
      if i !in taken { others := others + [s[i]]; }
    }
  }

  /** Elects `n` of the candidates. With more candidates than seats, these are sorted in place,
      and a sorted result is the same whatever order they came in and the drawn set is met in. */
  method ValidatorsElection(infos: array<Candidate>, n: nat, perm0: seq<nat>, perm1: seq<nat>, outSort: bool)
    returns (r: Outcome)
    requires 0 < n < infos.Length ==> IsPermutation(perm0, n) && IsPermutation(perm1, infos.Length - n / 2)
    modifies infos
    ensures n == 0 ==> r == ZeroSeats
    ensures n > infos.Length ==> r == (if n == 0 then ZeroSeats else TooFewCandidates)
    ensures 0 < n == infos.Length ==> r == Elected(old(infos[..]))
    ensures !(0 < n < infos.Length) ==> infos[..] == old(infos[..])
    ensures 0 < n < infos.Length ==>
              && infos[..] == Sort(Before, old(infos[..])) && r.Elected?
              && multiset(r.validators) == multiset(ElectedSeats(old(infos[..]), n, perm0, perm1))
              && (outSort ==> r.validators == Sort(Before, ElectedSeats(old(infos[..]), n, perm0, perm1)))
    ensures 0 < n < infos.Length ==> NoHeavierLater(infos[..]) && (outSort ==> NoHeavierLater(r.validators))
  {
    if n == 0 { return ZeroSeats; }
    if n > infos.Length { return TooFewCandidates; }
    if n == infos.Length { return Elected(infos[..]); }
    SortInPlace(infos);
    var sorted := infos[..];
    var chosen := Choose(sorted, n, perm0, perm1);
    SortIgnoresOrder(chosen, Seats(sorted, n, perm0, perm1));
    SortedByWeight(old(infos[..]));
    SortedByWeight(chosen);
    if outSort { chosen := Sort(Before, chosen); }
    return Elected(chosen);
  }

  method SortInPlace(infos: array<Candidate>)
    modifies infos
    ensures infos[..] == Sort(Before, old(infos[..]))
  {
    var sorted := Sort(Before, infos[..]);
    forall i | 0 <= i < infos.Length { infos[i] := sorted[i]; }
  }

  method Choose(sorted: seq<Candidate>, n: nat, perm0: seq<nat>, perm1: seq<nat>) returns (validators: seq<Candidate>)
    requires 0 < n < |sorted| && IsPermutation(perm0, n) && IsPermutation(perm1, |sorted| - n / 2)
    ensures multiset(validators) == multiset(Seats(sorted, n, perm0, perm1))
  {
    var front := perm0[..n / 2];
    OthersCount(sorted, Elements(front), 0);
    TakenCount(sorted, front);
    validators := PickSet(sorted, Elements(front), front);
    var others := LeaveOut(sorted, Elements(front));
    var back := perm1[..n - n / 2];
    ghost var first := validators;
    for i := 0 to |back|
      invariant validators == first + At(others, back)[..i]
    {
      validators := validators + [others[back[i]]];
    }
    assert validators == first + At(others, back);
  }
}
