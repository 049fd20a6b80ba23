/**
 Runs that reach the commit panic. A started node that never sees the proposal of round 0 hears a
 quorum of prevotes and then of precommits for a block it does not hold, and panics when it enters
 commit: on its commit timeout, or when a nil majority of precommits of the next round arrives.
 */
module TbftPanicRuns {
  import opened Options
  import Ordering
  import opened Votes
  import opened Tbft
  import opened TbftPanics
  import Net = TbftSafety

  // ---------------------------------------------------------------- deliveries to one node

  lemma {:induction false} RunOneMore(cfg: Config, net: Net.Network, acts: seq<Net.Action>, a: Net.Action)
    requires Net.LegalRun(cfg, net, acts) && Net.Legal(Net.Run(cfg, net, acts), a)
    ensures Net.LegalRun(cfg, net, acts + [a])
    ensures Net.Run(cfg, net, acts + [a]) == Net.Step(cfg, Net.Run(cfg, net, acts), a)
    decreases |acts|
  {
    if acts == [] {
      assert acts + [a] == [a] && [a][1..] == [];
    } else {
      assert (acts + [a])[0] == acts[0] && (acts + [a])[1..] == acts[1..] + [a];
      RunOneMore(cfg, Net.Step(cfg, net, acts[0]), acts[1..], a);
    }
  }

  /** Legal deliveries in a network where `d` has just started bring `d`, and only it, to `s`. */
  ghost predicate Reaches(cfg: Config, net: Net.Network, d: NodeId, acts: seq<Net.Action>, s: Node) {
    && Net.LegalRun(cfg, net[d := Start(cfg, d, 0)], acts)
    && Net.Run(cfg, net[d := Start(cfg, d, 0)], acts) == net[d := s]
  }

  lemma Deliver(cfg: Config, net: Net.Network, d: NodeId, acts: seq<Net.Action>, s: Node, e: Event)
    requires Reaches(cfg, net, d, acts, s) && Net.Legal(net[d := s], Net.Action(d, e))
    ensures Reaches(cfg, net, d, acts + [Net.Action(d, e)], Handle(cfg, s, e))
  {
    RunOneMore(cfg, net[d := Start(cfg, d, 0)], acts, Net.Action(d, e));
    assert net[d := s][d := Handle(cfg, s, e)] == net[d := Handle(cfg, s, e)];
  }

  /** If the voter is honest, it signed the vote. */
  ghost predicate Vouched(net: Net.Network, v: Vote) {
    v.voter in net ==> v in net[v.voter].signed
  }

  lemma VouchedIsLegal(net: Net.Network, d: NodeId, s: Node, v: Vote)
    requires if v.voter == d then v in s.signed else Vouched(net, v)
    ensures Net.Legal(net[d := s], Net.Action(d, PrevoteMsg(v, true)))
    ensures Net.Legal(net[d := s], Net.Action(d, PrecommitMsg(v, true)))
  {
  }

  // ---------------------------------------------------------------- a node without a proposal

  /** Prevotes and precommits of round 0, and precommits of round 1. */
  datatype Heard = Heard(prevotes: Ballots, precommits: Ballots, later: Ballots)

  /** The node is at height 1 in round 0 without a proposal and has heard `w`. */
  ghost predicate At(s: Node, d: NodeId, all: seq<NodeId>, step: Step, w: Heard) {
    && s.fault == Running && s.id == d && s.validators == all && |all| == 4
    && s.height == 1 && s.round == 0 && s.step == step && s.proposal.None?
    && RoundIn(s.rounds, 0) == RoundVotes(w.prevotes, w.precommits)
    && RoundIn(s.rounds, 1) == RoundVotes(map[], w.later)
    && (s.triggeredPrevote ==> Timeout(1, 0, STEP_PRECOMMIT) in s.timeouts)
    && (s.triggeredPrecommit ==> Timeout(1, 0, STEP_COMMIT) in s.timeouts)
  }

  ghost predicate Keeps(s: Node, s': Node) {
    s.signed <= s'.signed && s.timeouts <= s'.timeouts
  }

  /** Ballots that do not make a node without a proposal go on. */
  ghost predicate Idle(b: Ballots) {
    if Majority(b, 4) == Empty then !TwoThirdsAny(b, 4) else Majority(b, 4) != NilHash
  }

  /** The ballots with a further vote of round 0 filed. */
  function Filed(w: Heard, v: Vote): Heard {
    if v.typ.PREVOTE? then w.(prevotes := w.prevotes[v.voter := v.hash])
    else w.(precommits := w.precommits[v.voter := v.hash])
  }

  lemma Files(s: Node, d: NodeId, all: seq<NodeId>, step: Step, w: Heard, v: Vote)
    requires At(s, d, all, step, w) && v.voter in all && v.height == 1 && v.round == 0
    requires v.voter !in if v.typ.PREVOTE? then w.prevotes else w.precommits
    ensures Addable(s, v) && At(WithVote(s, v), d, all, step, Filed(w, v)) && Keeps(s, WithVote(s, v))
  {
  }

  lemma StaysOnPrevote(s: Node, d: NodeId, all: seq<NodeId>, w: Heard, v: Vote)
    requires At(s, d, all, STEP_PREVOTE, w) && v.round == 0 && w.prevotes != map[] && Idle(w.prevotes)
    ensures var s' := AddPrevoteVote(s, v);
            && At(s', d, all, STEP_PREVOTE, w) && Keeps(s, s')
            && (Majority(w.prevotes, 4) == Empty && |w.prevotes| >= 3 ==> Timeout(1, 0, STEP_PRECOMMIT) in s'.timeouts)
  {
    assert VotesOf(s, PREVOTE, 0) == Some(w.prevotes);
  }

  lemma TakesPrevote(cfg: Config, s: Node, d: NodeId, all: seq<NodeId>, w: Heard, v: Vote)
    requires At(s, d, all, STEP_PREVOTE, w) && v.voter in all && v.voter !in w.prevotes
    requires v == Vote(PREVOTE, v.voter, 1, 0, v.hash) && Idle(w.prevotes[v.voter := v.hash])
    ensures var s', b := Handle(cfg, s, PrevoteMsg(v, true)), w.prevotes[v.voter := v.hash];
            && At(s', d, all, STEP_PREVOTE, w.(prevotes := b)) && Keeps(s, s')
            && (Majority(b, 4) == Empty && |b| >= 3 ==> Timeout(1, 0, STEP_PRECOMMIT) in s'.timeouts)
  {
    Files(s, d, all, STEP_PREVOTE, w, v);
    assert w.prevotes[v.voter := v.hash][v.voter] == v.hash;
    StaysOnPrevote(WithVote(s, v), d, all, Filed(w, v), v);
    assert Handle(cfg, s, PrevoteMsg(v, true)) == AddPrevoteVote(WithVote(s, v), v);
  }

  lemma StaysOnPrecommit(s: Node, d: NodeId, all: seq<NodeId>, w: Heard, v: Vote)
    requires At(s, d, all, STEP_PRECOMMIT, w) && v.round == 0 && w.precommits != map[] && Idle(w.precommits)
    ensures var s' := AddPrecommitVote(s, v);
            && At(s', d, all, STEP_PRECOMMIT, w) && Keeps(s, s')
            && (Majority(w.precommits, 4) == Empty && |w.precommits| >= 3 ==> Timeout(1, 0, STEP_COMMIT) in s'.timeouts)
  {
    assert VotesOf(s, PRECOMMIT, 0) == Some(w.precommits);
  }

  lemma TakesPrecommit(cfg: Config, s: Node, d: NodeId, all: seq<NodeId>, w: Heard, v: Vote)
    requires At(s, d, all, STEP_PRECOMMIT, w) && v.voter in all && v.voter !in w.precommits
    requires v == Vote(PRECOMMIT, v.voter, 1, 0, v.hash) && Idle(w.precommits[v.voter := v.hash])
    ensures var s', b := Handle(cfg, s, PrecommitMsg(v, true)), w.precommits[v.voter := v.hash];
            && At(s', d, all, STEP_PRECOMMIT, w.(precommits := b)) && Keeps(s, s')
            && (Majority(b, 4) == Empty && |b| >= 3 ==> Timeout(1, 0, STEP_COMMIT) in s'.timeouts)
  {
    Files(s, d, all, STEP_PRECOMMIT, w, v);
    assert w.precommits[v.voter := v.hash][v.voter] == v.hash;
    StaysOnPrecommit(WithVote(s, v), d, all, Filed(w, v), v);
    assert Handle(cfg, s, PrecommitMsg(v, true)) == AddPrecommitVote(WithVote(s, v), v);
  }

  lemma TakesLater(cfg: Config, s: Node, d: NodeId, all: seq<NodeId>, w: Heard, v: Vote)
    requires At(s, d, all, STEP_PRECOMMIT, w) && v.voter in all && v.voter !in w.later
    requires v == Vote(PRECOMMIT, v.voter, 1, 1, v.hash) && Majority(w.later[v.voter := v.hash], 4) == Empty
    ensures var s' := Handle(cfg, s, PrecommitMsg(v, true));
            At(s', d, all, STEP_PRECOMMIT, w.(later := w.later[v.voter := v.hash])) && Keeps(s, s')
  {
    assert VotesOf(WithVote(s, v), PRECOMMIT, 1) == Some(w.later[v.voter := v.hash]);
    assert Handle(cfg, s, PrecommitMsg(v, true)) == AddPrecommitVote(WithVote(s, v), v);
  }

  lemma TimesOut(cfg: Config, s: Node, d: NodeId, all: seq<NodeId>, w: Heard)
    requires At(s, d, all, STEP_PREVOTE, w) && w.prevotes != map[] && Majority(w.prevotes, 4) != Empty
    ensures var s' := Handle(cfg, s, TimeoutFired(Timeout(1, 0, STEP_PRECOMMIT)));
            && At(s', d, all, STEP_PRECOMMIT, w) && Keeps(s, s')
            && Vote(PRECOMMIT, d, 1, 0, Majority(w.prevotes, 4)) in s'.signed
  {
    var s', v := Handle(cfg, s, TimeoutFired(Timeout(1, 0, STEP_PRECOMMIT))),
                 Vote(PRECOMMIT, d, 1, 0, Majority(w.prevotes, 4));
    assert MajorityOf(s, PREVOTE, 0) == Majority(w.prevotes, 4);
    assert s'.signed == s.signed + [v];
  }

  // ---------------------------------------------------------------- four votes, one of them nil

  /** The votes of the first `k` of four: the first votes nil, the others `h`. */
  function Split(q: seq<NodeId>, h: Hash, k: nat): Ballots
    requires |q| == 4 && k <= 4
  {
    if k == 0 then map[] else Split(q, h, k - 1)[q[k - 1] := if k == 1 then NilHash else h]
  }

  lemma {:induction false} SplitHolds(q: seq<NodeId>, h: Hash, k: nat)
    requires |q| == 4 && k <= 4 && NoDuplicates(q) && h != NilHash
    ensures |Split(q, h, k)| == k && (forall i :: k <= i < 4 ==> q[i] !in Split(q, h, k))
    ensures Tally(Split(q, h, k), h) == (if k == 0 then 0 else k - 1)
    ensures k > 0 ==> q[0] in Split(q, h, k) && Split(q, h, k)[q[0]] == NilHash
    ensures k > 1 ==> q[1] in Split(q, h, k) && Split(q, h, k)[q[1]] == h
  {
    if k == 0 {
      assert Supporters(Split(q, h, 0), h) == {};
    } else {
      SplitHolds(q, h, k - 1);
      TallyAfterVote(Split(q, h, k - 1), q[k - 1], if k == 1 then NilHash else h, h);
    }
  }

  lemma SplitUndecided(q: seq<NodeId>, h: Hash, k: nat)
    requires |q| == 4 && 0 < k < 4 && NoDuplicates(q) && !IsNilHash(h)
    ensures Majority(Split(q, h, k), 4) == Empty && Idle(Split(q, h, k))
  {
    var b := Split(q, h, k);
    SplitHolds(q, h, k);
    if k == 1 {
      TooFewForMajority(b);
      TallyAfterVote(map[], q[0], NilHash, NilHash);
      assert b == map[][q[0] := NilHash] && b[q[0]] in b.Values;
    } else {
      assert b[q[1]] in b.Values;
      DividedHasNone(b, q[0], q[1]);
    }
  }

  lemma DividedHasNone(b: Ballots, x: NodeId, y: NodeId)
    requires |b| <= 3 && x in b && y in b && b[x] != b[y]
    ensures Majority(b, 4) == Empty
  {
    var m := Majority(b, 4);
    var other := if b[x] == m then y else x;
    Ordering.SubsetSize(Supporters(b, m), b.Keys - {other});
  }

  lemma SplitDecides(q: seq<NodeId>, h: Hash)
    requires |q| == 4 && NoDuplicates(q) && !IsNilHash(h)
    ensures Majority(Split(q, h, 4), 4) == h && Idle(Split(q, h, 4))
  {
    SplitHolds(q, h, 4);
    assert Quorate(Split(q, h, 4), 4, h);
  }

  // ---------------------------------------------------------------- to the majority

  lemma HearPrevote(cfg: Config, net: Net.Network, d: NodeId, acts: seq<Net.Action>, s: Node,
                    all: seq<NodeId>, q: seq<NodeId>, h: Hash, k: nat)
    returns (acts': seq<Net.Action>, s': Node)
    requires |q| == 4 && k < 4 && NoDuplicates(q) && !IsNilHash(h) && q[k] in all
    requires Reaches(cfg, net, d, acts, s) && At(s, d, all, STEP_PREVOTE, Heard(Split(q, h, k), map[], map[]))
    requires var v := Vote(PREVOTE, q[k], 1, 0, if k == 0 then NilHash else h);
             if v.voter == d then v in s.signed else Vouched(net, v)
    ensures Reaches(cfg, net, d, acts', s') && Keeps(s, s')
    ensures At(s', d, all, STEP_PREVOTE, Heard(Split(q, h, k + 1), map[], map[]))
    ensures k == 2 ==> Timeout(1, 0, STEP_PRECOMMIT) in s'.timeouts
  {
    var v := Vote(PREVOTE, q[k], 1, 0, if k == 0 then NilHash else h);
    SplitHolds(q, h, k);
    SplitHolds(q, h, k + 1);
    if k < 3 { SplitUndecided(q, h, k + 1); } else { SplitDecides(q, h); }
    VouchedIsLegal(net, d, s, v);
    Deliver(cfg, net, d, acts, s, PrevoteMsg(v, true));
    TakesPrevote(cfg, s, d, all, Heard(Split(q, h, k), map[], map[]), v);
    acts', s' := acts + [Net.Action(d, PrevoteMsg(v, true))], Handle(cfg, s, PrevoteMsg(v, true));
  }

  lemma HearPrecommit(cfg: Config, net: Net.Network, d: NodeId, acts: seq<Net.Action>, s: Node, all: seq<NodeId>,
                      prevotes: Ballots, q: seq<NodeId>, h: Hash, k: nat)
    returns (acts': seq<Net.Action>, s': Node)
    requires |q| == 4 && k < 4 && NoDuplicates(q) && !IsNilHash(h) && q[k] in all
    requires Reaches(cfg, net, d, acts, s) && At(s, d, all, STEP_PRECOMMIT, Heard(prevotes, Split(q, h, k), map[]))
    requires var v := Vote(PRECOMMIT, q[k], 1, 0, if k == 0 then NilHash else h);
             if v.voter == d then v in s.signed else Vouched(net, v)
    ensures Reaches(cfg, net, d, acts', s') && Keeps(s, s')
    ensures At(s', d, all, STEP_PRECOMMIT, Heard(prevotes, Split(q, h, k + 1), map[]))
    ensures k == 2 ==> Timeout(1, 0, STEP_COMMIT) in s'.timeouts
  {
    var v := Vote(PRECOMMIT, q[k], 1, 0, if k == 0 then NilHash else h);
    SplitHolds(q, h, k);
    SplitHolds(q, h, k + 1);
    if k < 3 { SplitUndecided(q, h, k + 1); } else { SplitDecides(q, h); }
    VouchedIsLegal(net, d, s, v);
    Deliver(cfg, net, d, acts, s, PrecommitMsg(v, true));
    TakesPrecommit(cfg, s, d, all, Heard(prevotes, Split(q, h, k), map[]), v);
    acts', s' := acts + [Net.Action(d, PrecommitMsg(v, true))], Handle(cfg, s, PrecommitMsg(v, true));
  }

  /** The honest among `a`, `b` and `c` prevoted `h`; then `a` precommitted nil and the others `h`. */
  ghost predicate RoundVouched(net: Net.Network, a: NodeId, b: NodeId, c: NodeId, h: Hash) {
    && Vouched(net, Vote(PREVOTE, a, 1, 0, h)) && Vouched(net, Vote(PREVOTE, b, 1, 0, h))
    && Vouched(net, Vote(PREVOTE, c, 1, 0, h)) && Vouched(net, Vote(PRECOMMIT, a, 1, 0, NilHash))
    && Vouched(net, Vote(PRECOMMIT, b, 1, 0, h)) && Vouched(net, Vote(PRECOMMIT, c, 1, 0, h))
  }

  lemma StartPrevotesNil(cfg: Config, net: Net.Network, d: NodeId) returns (acts: seq<Net.Action>, s: Node)
    requires |cfg.validators(1)| == 4
    ensures Reaches(cfg, net, d, acts, s) && Vote(PREVOTE, d, 1, 0, NilHash) in s.signed
    ensures At(s, d, cfg.validators(1), STEP_PREVOTE, Heard(map[], map[], map[]))
  {
    var s0, e := Start(cfg, d, 0), TimeoutFired(Timeout(1, 0, STEP_PREVOTE));
    StartWaits(cfg, d);
    Deliver(cfg, net, d, [], s0, e);
    acts, s := [] + [Net.Action(d, e)], Handle(cfg, s0, e);
    assert s.signed == [Vote(PREVOTE, d, 1, 0, NilHash)];
  }

  lemma PrevotesDecide(cfg: Config, net: Net.Network, a: NodeId, b: NodeId, c: NodeId, d: NodeId, h: Hash)
    returns (acts: seq<Net.Action>, s: Node)
    requires NoDuplicates([d, a, b, c]) && cfg.validators(1) == [a, b, c, d]
    requires !IsNilHash(h) && RoundVouched(net, a, b, c, h)
    ensures Reaches(cfg, net, d, acts, s) && Timeout(1, 0, STEP_PRECOMMIT) in s.timeouts
    ensures At(s, d, [a, b, c, d], STEP_PREVOTE, Heard(Split([d, a, b, c], h, 4), map[], map[]))
  {
    var all, q := [a, b, c, d], [d, a, b, c];
    assert all[0] == a && all[1] == b && all[2] == c && all[3] == d;
    assert q[0] != q[1] && q[0] != q[2] && q[0] != q[3];
    acts, s := StartPrevotesNil(cfg, net, d);
    acts, s := HearPrevote(cfg, net, d, acts, s, all, q, h, 0);
    acts, s := HearPrevote(cfg, net, d, acts, s, all, q, h, 1);
    acts, s := HearPrevote(cfg, net, d, acts, s, all, q, h, 2);
    acts, s := HearPrevote(cfg, net, d, acts, s, all, q, h, 3);
  }

  lemma NodePrecommits(cfg: Config, net: Net.Network, a: NodeId, b: NodeId, c: NodeId, d: NodeId, h: Hash)
    returns (acts: seq<Net.Action>, s: Node)
    requires NoDuplicates([d, a, b, c]) && cfg.validators(1) == [a, b, c, d]
    requires !IsNilHash(h) && RoundVouched(net, a, b, c, h)
    ensures Reaches(cfg, net, d, acts, s) && Vote(PRECOMMIT, d, 1, 0, h) in s.signed
    ensures At(s, d, [a, b, c, d], STEP_PRECOMMIT, Heard(Split([d, a, b, c], h, 4), map[], map[]))
  {
    acts, s := PrevotesDecide(cfg, net, a, b, c, d, h);
    SplitDecides([d, a, b, c], h);
    var e := TimeoutFired(Timeout(1, 0, STEP_PRECOMMIT));
    Deliver(cfg, net, d, acts, s, e);
    TimesOut(cfg, s, d, [a, b, c, d], Heard(Split([d, a, b, c], h, 4), map[], map[]));
    acts, s := acts + [Net.Action(d, e)], Handle(cfg, s, e);
  }

  /** `d` holds a precommit majority for `h` and no proposal, and its commit timeout is pending. */
  ghost predicate Stranded(s: Node, all: seq<NodeId>, d: NodeId, h: Hash, w: Heard) {
    && At(s, d, all, STEP_PRECOMMIT, w) && Majority(w.precommits, 4) == h && w.precommits != map[]
    && Timeout(1, 0, STEP_COMMIT) in s.timeouts
  }

  /** The precommit of `n`, nil for the first of the four, may be delivered to `d`. */
  ghost predicate MayPrecommit(net: Net.Network, d: NodeId, s: Node, q: seq<NodeId>, h: Hash, k: nat)
    requires |q| == 4 && k < 4
  {
    var v := Vote(PRECOMMIT, q[k], 1, 0, if k == 0 then NilHash else h);
    if v.voter == d then v in s.signed else Vouched(net, v)
  }

  lemma HearTwoPrecommits(cfg: Config, net: Net.Network, d: NodeId, acts: seq<Net.Action>, s: Node,
                          q: seq<NodeId>, prevotes: Ballots, h: Hash, k: nat)
    returns (acts': seq<Net.Action>, s': Node)
    requires |q| == 4 && k < 3 && NoDuplicates(q) && !IsNilHash(h)
    requires Reaches(cfg, net, d, acts, s) && At(s, d, q, STEP_PRECOMMIT, Heard(prevotes, Split(q, h, k), map[]))
    requires MayPrecommit(net, d, s, q, h, k) && MayPrecommit(net, d, s, q, h, k + 1)
    ensures Reaches(cfg, net, d, acts', s') && Keeps(s, s')
    ensures At(s', d, q, STEP_PRECOMMIT, Heard(prevotes, Split(q, h, k + 2), map[]))
    ensures k == 2 ==> Timeout(1, 0, STEP_COMMIT) in s'.timeouts
  {
    acts', s' := HearPrecommit(cfg, net, d, acts, s, q, prevotes, q, h, k);
    acts', s' := HearPrecommit(cfg, net, d, acts', s', q, prevotes, q, h, k + 1);
  }

  lemma PrecommitsDecide(cfg: Config, net: Net.Network, a: NodeId, b: NodeId, c: NodeId, d: NodeId, h: Hash)
    returns (acts: seq<Net.Action>, s: Node)
    requires NoDuplicates([a, b, c, d]) && NoDuplicates([d, a, b, c]) && cfg.validators(1) == [a, b, c, d]
    requires !IsNilHash(h) && RoundVouched(net, a, b, c, h)
    ensures var all := [a, b, c, d];
            && Reaches(cfg, net, d, acts, s)
            && Stranded(s, all, d, h, Heard(Split([d, a, b, c], h, 4), Split(all, h, 4), map[]))
  {
    var all, prevotes := [a, b, c, d], Split([d, a, b, c], h, 4);
    assert all[0] != all[3] && all[1] != all[3] && all[2] != all[3];
    acts, s := NodePrecommits(cfg, net, a, b, c, d, h);
    acts, s := HearTwoPrecommits(cfg, net, d, acts, s, all, prevotes, h, 0);
    acts, s := HearTwoPrecommits(cfg, net, d, acts, s, all, prevotes, h, 2);
    SplitHolds(all, h, 4);
    SplitDecides(all, h);
  }

  // ---------------------------------------------------------------- the two panics

  lemma TurnedDistinct(a: NodeId, b: NodeId, c: NodeId, d: NodeId)
    requires NoDuplicates([a, b, c, d])
    ensures NoDuplicates([d, a, b, c])
  {
    var q := [a, b, c, d];
    assert q[0] != q[1] && q[0] != q[2] && q[0] != q[3] && q[1] != q[2] && q[1] != q[3] && q[2] != q[3];
  }

  /** In any network in which the honest among three of four validators signed these votes, legal
      deliveries take the fourth, which has just started, to a commit panic on its timeout. */
  lemma CommitTimeoutPanics(cfg: Config, net: Net.Network, a: NodeId, b: NodeId, c: NodeId, d: NodeId, h: Hash)
    returns (acts: seq<Net.Action>)
    requires NoDuplicates([a, b, c, d]) && cfg.validators(1) == [a, b, c, d]
    requires !IsNilHash(h) && RoundVouched(net, a, b, c, h)
    ensures Net.LegalRun(cfg, net[d := Start(cfg, d, 0)], acts)
    ensures Net.Run(cfg, net[d := Start(cfg, d, 0)], acts)[d].fault == ProposalPanic
    ensures acts != [] && acts[|acts| - 1].event == TimeoutFired(Timeout(1, 0, STEP_COMMIT))
  {
    var s;
    TurnedDistinct(a, b, c, d);
    acts, s := PrecommitsDecide(cfg, net, a, b, c, d, h);
    var e := TimeoutFired(Timeout(1, 0, STEP_COMMIT));
    Deliver(cfg, net, d, acts, s, e);
    StrandedPanics(cfg, s, [a, b, c, d], d, h, Heard(Split([d, a, b, c], h, 4), Split([a, b, c, d], h, 4), map[]));
    acts := acts + [Net.Action(d, e)];
  }

  lemma StrandedPanics(cfg: Config, s: Node, all: seq<NodeId>, d: NodeId, h: Hash, w: Heard)
    requires Stranded(s, all, d, h, w) && !IsNilHash(h)
    ensures Mismatched(s) && Handle(cfg, s, TimeoutFired(Timeout(1, 0, STEP_COMMIT))).fault == ProposalPanic
  {
    assert MajorityOf(s, PRECOMMIT, 0) == h;
  }

  /** The honest among `a`, `b` and `c` precommitted nil in round 1. */
  ghost predicate LaterVouched(net: Net.Network, a: NodeId, b: NodeId, c: NodeId) {
    && Vouched(net, Vote(PRECOMMIT, a, 1, 1, NilHash)) && Vouched(net, Vote(PRECOMMIT, b, 1, 1, NilHash))
    && Vouched(net, Vote(PRECOMMIT, c, 1, 1, NilHash))
  }

  lemma HearLater(cfg: Config, net: Net.Network, d: NodeId, acts: seq<Net.Action>, s: Node, all: seq<NodeId>, h: Hash,
                  w: Heard, n: NodeId)
    returns (acts': seq<Net.Action>, s': Node)
    requires Reaches(cfg, net, d, acts, s) && Stranded(s, all, d, h, w) && n in all && n != d && n !in w.later
    requires Vouched(net, Vote(PRECOMMIT, n, 1, 1, NilHash)) && |w.later| < 2
    ensures Reaches(cfg, net, d, acts', s') && Stranded(s', all, d, h, w.(later := w.later[n := NilHash]))
  {
    var v := Vote(PRECOMMIT, n, 1, 1, NilHash);
    TooFewForMajority(w.later[n := NilHash]);
    VouchedIsLegal(net, d, s, v);
    Deliver(cfg, net, d, acts, s, PrecommitMsg(v, true));
    TakesLater(cfg, s, d, all, w, v);
    acts', s' := acts + [Net.Action(d, PrecommitMsg(v, true))], Handle(cfg, s, PrecommitMsg(v, true));
  }

  lemma LaterMajorityPanics(cfg: Config, s: Node, all: seq<NodeId>, d: NodeId, h: Hash, w: Heard, n: NodeId)
    requires Stranded(s, all, d, h, w) && !IsNilHash(h) && n in all && n !in w.later
    requires Tally(w.later, NilHash) == 2 && |w.later| == 2
    ensures Handle(cfg, s, PrecommitMsg(Vote(PRECOMMIT, n, 1, 1, NilHash), true)).fault == ProposalPanic
  {
    var v, b := Vote(PRECOMMIT, n, 1, 1, NilHash), w.later[n := NilHash];
    assert VotesOf(WithVote(s, v), PRECOMMIT, 1) == Some(b);
    TallyAfterVote(w.later, n, NilHash, NilHash);
    assert Quorate(b, 4, NilHash);
    assert IsMajority(b, 4, Majority(b, 4));
    StrandedPanics(cfg, s, all, d, h, w);
    ProposalPanicsExactly(s, v);
  }

  /** The same, when in place of the timeout nil precommits of round 1 from the three arrive. */
  lemma LaterPrecommitsPanic(cfg: Config, net: Net.Network, a: NodeId, b: NodeId, c: NodeId, d: NodeId, h: Hash)
    returns (acts: seq<Net.Action>)
    requires NoDuplicates([a, b, c, d]) && cfg.validators(1) == [a, b, c, d]
    requires !IsNilHash(h) && RoundVouched(net, a, b, c, h) && LaterVouched(net, a, b, c)
    ensures Net.LegalRun(cfg, net[d := Start(cfg, d, 0)], acts)
    ensures Net.Run(cfg, net[d := Start(cfg, d, 0)], acts)[d].fault == ProposalPanic
    ensures acts != [] && acts[|acts| - 1].event == PrecommitMsg(Vote(PRECOMMIT, c, 1, 1, NilHash), true)
  {
    var s, all := Start(cfg, d, 0), [a, b, c, d];
    assert all[0] != all[2] && all[1] != all[2] && all[2] != all[3];
    acts, s := TwoLater(cfg, net, a, b, c, d, h);
    TwoTally(a, b);
    var e := PrecommitMsg(Vote(PRECOMMIT, c, 1, 1, NilHash), true);
    VouchedIsLegal(net, d, s, e.vote);
    Deliver(cfg, net, d, acts, s, e);
    LaterMajorityPanics(
      cfg, s, all, d, h, Heard(Split([d, a, b, c], h, 4), Split(all, h, 4), map[a := NilHash][b := NilHash]), c);
    acts := acts + [Net.Action(d, e)];
  }

  lemma TwoLater(cfg: Config, net: Net.Network, a: NodeId, b: NodeId, c: NodeId, d: NodeId, h: Hash)
    returns (acts: seq<Net.Action>, s: Node)
    requires NoDuplicates([a, b, c, d]) && cfg.validators(1) == [a, b, c, d]
    requires !IsNilHash(h) && RoundVouched(net, a, b, c, h) && LaterVouched(net, a, b, c)
    ensures var all := [a, b, c, d];
            && a != b && Reaches(cfg, net, d, acts, s)
            && Stranded(s, all, d, h,
                        Heard(Split([d, a, b, c], h, 4), Split(all, h, 4), map[a := NilHash][b := NilHash]))
  {
    var all := [a, b, c, d];
    assert all[0] != all[1] && all[0] != all[3] && all[1] != all[3];
    TurnedDistinct(a, b, c, d);
    acts, s := PrecommitsDecide(cfg, net, a, b, c, d, h);
    var w := Heard(Split([d, a, b, c], h, 4), Split(all, h, 4), map[]);
    acts, s := HearLater(cfg, net, d, acts, s, all, h, w, a);
    acts, s := HearLater(cfg, net, d, acts, s, all, h, w.(later := map[a := NilHash]), b);
  }

  lemma TwoTally(a: NodeId, b: NodeId)
    requires a != b
    ensures Tally(map[a := NilHash][b := NilHash], NilHash) == 2 && |map[a := NilHash][b := NilHash]| == 2
  {
    TallyAfterVote(map[], a, NilHash, NilHash);
    TallyAfterVote(map[a := NilHash], b, NilHash, NilHash);
  }
}
