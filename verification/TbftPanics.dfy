/**
 The two panics of the TBFT node. Entering precommit without a quorum of prevotes of any kind
 cannot happen while only prevotes of the node's own round are delivered; with prevotes of a
 later round it happens exactly when such a vote completes a majority there too early.
 Entering commit with a proposal other than the majority's block happens exactly on a
 timeout, or on a precommit of a later round; the module TbftPanicRuns has a run for each.
 */
module TbftPanics {
  import opened Options
  import Ordering
  import opened Votes
  import opened Tbft
  import Net = TbftSafety

  /** Some prevote outcome is known for the node's round: a majority, enough votes, or a
      majority out of reach. */
  predicate Decided(s: Node) {
    MajorityOf(s, PREVOTE, s.round) != Empty || HasAny(s, PREVOTE, s.round) || HasNoMajority(s, PREVOTE, s.round)
  }

  /** A precommit timeout scheduled for the node's place was scheduled on a quorum of prevotes. */
  ghost predicate TimeoutsBacked(s: Node) {
    && TimeoutsBehind(s)
    && (Timeout(s.height, s.round, STEP_PRECOMMIT) in s.timeouts ==> HasNoMajority(s, PREVOTE, s.round))
  }

  predicate PrevoteArrives(s: Node, e: Event) {
    || (e.PrevoteMsg? && Receives(s, e.vote, e.authentic, STEP_PREVOTE) && e.vote.typ.PREVOTE?)
    || (e.PrecommitMsg? && Receives(s, e.vote, e.authentic, STEP_PRECOMMIT) && e.vote.typ.PREVOTE?)
  }

  /** A prevote of a later round completes a majority the node acts on, while its own round is
      undecided. */
  predicate ActsTooEarly(s: Node, v: Vote) {
    var later := MajorityOf(WithVote(s, v), PREVOTE, v.round);
    && s.round < v.round && s.step == STEP_PREVOTE && Addable(s, v)
    && later != Empty && (s.proposal.Some? || later == NilHash) && !Decided(s)
  }

  lemma OtherRoundUntouched(s: Node, v: Vote, r: nat)
    requires r != v.round
    ensures forall typ :: VotesOf(WithVote(s, v), typ, r) == VotesOf(s, typ, r)
  {
  }

  lemma PrecommitVotesNeverPrevotePanic(s: Node, v: Vote)
    requires s.fault == Running
    ensures AddPrecommitVote(s, v).fault != PrevotePanic
  {
  }

  lemma EnterPrecommitPanics(s: Node)
    requires s.fault == Running && s.step == STEP_PREVOTE
    ensures EnterPrecommit(s, s.height, s.round).fault == PrevotePanic <==> !Decided(s)
  {
  }

  lemma AddPrevotePanics(s: Node, v: Vote)
    requires s.fault == Running && s.round <= v.round
    ensures AddPrevoteVote(s, v).fault == PrevotePanic <==>
            var later := MajorityOf(s, PREVOTE, v.round);
            && s.round < v.round && s.step == STEP_PREVOTE && !Decided(s)
            && later != Empty && (s.proposal.Some? || later == NilHash)
  {
    if s.step == STEP_PREVOTE { EnterPrecommitPanics(s); }
  }

  lemma PrevotePanicsExactly(s: Node, v: Vote)
    requires s.fault == Running && s.round <= v.round
    ensures AddVote(s, v).fault == PrevotePanic <==> v.typ.PREVOTE? && ActsTooEarly(s, v)
  {
    PrecommitVotesNeverPrevotePanic(WithVote(s, v), v);
    AddPrevotePanics(WithVote(s, v), v);
    if s.round < v.round { OtherRoundUntouched(s, v, s.round); }
  }

  /** Exactly when an event makes the node panic on entering precommit. */
  lemma PanicExactly(cfg: Config, s: Node, e: Event)
    requires s.fault == Running && TimeoutsBacked(s) && Possible(s, e)
    ensures Handle(cfg, s, e).fault == PrevotePanic <==> PrevoteArrives(s, e) && ActsTooEarly(s, e.vote)
  {
    match e {
      case PrevoteMsg(v, _) => if s.round <= v.round { PrevotePanicsExactly(s, v); }
      case PrecommitMsg(v, _) => if s.round <= v.round { PrevotePanicsExactly(s, v); }
      case _ =>
    }
  }

  // ---------------------------------------------------------------- whole runs

  lemma EnteringKeepsBacked(s: Node, height: nat, round: nat)
    requires TimeoutsBacked(s) && (height < s.height || (height == s.height && round <= s.round))
    ensures TimeoutsBacked(EnterPrevote(s, height, round)) && TimeoutsBacked(EnterPrecommit(s, height, round))
  {
  }

  lemma EnterCommitKeepsBacked(s: Node, height: nat, round: nat)
    requires TimeoutsBacked(s) && (height < s.height || (height == s.height && round <= s.round))
    ensures TimeoutsBacked(EnterCommit(s, height, round))
  {
  }

  lemma HandleTimeoutKeepsBacked(s: Node, ti: Timeout)
    requires TimeoutsBacked(s) && ti in s.timeouts
    ensures TimeoutsBacked(HandleTimeout(s, ti))
  {
    EnteringKeepsBacked(s, ti.height, ti.round);
    EnterCommitKeepsBacked(s, ti.height, ti.round);
  }

  lemma NewHeightKeepsBacked(cfg: Config, s: Node, height: nat)
    requires TimeoutsBacked(s)
    ensures TimeoutsBacked(EnterNewHeight(cfg, s, height))
  {
  }

  lemma WithVoteKeepsBacked(s: Node, v: Vote)
    requires TimeoutsBacked(s)
    ensures TimeoutsBacked(WithVote(s, v))
  {
    var b, b' := VotesOf(s, PREVOTE, s.round), VotesOf(WithVote(s, v), PREVOTE, s.round);
    if b.Some? {
      assert b'.value == b.value || b'.value == b.value[v.voter := v.hash];
      assert b.value.Keys <= b'.value.Keys;
      Ordering.SubsetSize(b.value.Keys, b'.value.Keys);
    }
  }

  lemma AddVoteKeepsBacked(s: Node, v: Vote)
    requires TimeoutsBacked(s)
    ensures TimeoutsBacked(AddVote(s, v))
  {
    var s' := WithVote(s, v);
    WithVoteKeepsBacked(s, v);
    EnteringKeepsBacked(s', s'.height, s'.round);
    EnterCommitKeepsBacked(s', s'.height, s'.round);
  }

  lemma ProposalsScheduleNothing(cfg: Config, s: Node, e: Event)
    requires e.ProposedBlock? || e.VerifyResult? || e.ProposeMsg?
    ensures var s' := Handle(cfg, s, e);
            s' == s.(step := s'.step, proposal := s'.proposal, verifying := s'.verifying, signed := s'.signed,
                commits := s'.commits)
  {
  }

  lemma HandleKeepsBacked(cfg: Config, s: Node, e: Event)
    requires TimeoutsBacked(s) && Possible(s, e)
    ensures TimeoutsBacked(Handle(cfg, s, e))
  {
    match e {
      case PrevoteMsg(v, _) => AddVoteKeepsBacked(s, v);
      case PrecommitMsg(v, _) => AddVoteKeepsBacked(s, v);
      case TimeoutFired(ti) => HandleTimeoutKeepsBacked(s, ti);
      case BlockHeight(height) => NewHeightKeepsBacked(cfg, s, height + 1);
      case _ => ProposalsScheduleNothing(cfg, s, e);
    }
  }

  /** A run in which a prevote that arrives is never of a later round than the node's. */
  ghost predicate CurrentPrevotesRun(cfg: Config, s: Node, es: seq<Event>)
    decreases |es|
  {
    es == [] ||
    (Possible(s, es[0]) && (PrevoteArrives(s, es[0]) ==> es[0].vote.round <= s.round)
        && CurrentPrevotesRun(cfg, Handle(cfg, s, es[0]), es[1..]))
  }

  /** The precommit panic is unreachable while only current-round prevotes are delivered. */
  lemma {:induction false} NoPrevotePanic(cfg: Config, id: NodeId, ledger: nat, es: seq<Event>)
    requires CurrentPrevotesRun(cfg, Start(cfg, id, ledger), es)
    ensures Final(cfg, Start(cfg, id, ledger), es).fault != PrevotePanic
  {
    NoPrevotePanicFrom(cfg, Start(cfg, id, ledger), es);
  }

  lemma {:induction false} NoPrevotePanicFrom(cfg: Config, s: Node, es: seq<Event>)
    requires TimeoutsBacked(s) && s.fault != PrevotePanic && CurrentPrevotesRun(cfg, s, es)
    ensures Final(cfg, s, es).fault != PrevotePanic
    decreases |es|
  {
    if es != [] {
      if s.fault == Running { PanicExactly(cfg, s, es[0]); }
      HandleKeepsBacked(cfg, s, es[0]);
      NoPrevotePanicFrom(cfg, Handle(cfg, s, es[0]), es[1..]);
    }
  }

  /** A node at height 1 that prevoted nil in round 0 and holds `b` as prevotes of round 1. */
  ghost predicate Waiting(s: Node, all: seq<NodeId>, b: Ballots) {
    && s.fault == Running && s.validators == all && s.height == 1 && s.round == 0 && s.step == STEP_PREVOTE
         && s.proposal.None?
    && 0 !in s.rounds && (if 1 in s.rounds then s.rounds[1].prevotes else map[]) == b
  }

  lemma WaitingTakes(cfg: Config, s: Node, all: seq<NodeId>, b: Ballots, n: NodeId)
    requires Waiting(s, all, b) && n in all && n !in b && Majority(b[n := NilHash], |all|) == Empty
    ensures Waiting(Handle(cfg, s, PrevoteMsg(Vote(PREVOTE, n, 1, 1, NilHash), true)), all, b[n := NilHash])
  {
    var v := Vote(PREVOTE, n, 1, 1, NilHash);
    assert VotesOf(WithVote(s, v), PREVOTE, 1) == Some(b[n := NilHash]);
  }

  lemma WaitingPanics(cfg: Config, s: Node, all: seq<NodeId>, b: Ballots, n: NodeId)
    requires Waiting(s, all, b) && n in all && n !in b && Tally(b, NilHash) == 2 && |b| == 2 && |all| == 4
    ensures Handle(cfg, s, PrevoteMsg(Vote(PREVOTE, n, 1, 1, NilHash), true)).fault == PrevotePanic
  {
    var v := Vote(PREVOTE, n, 1, 1, NilHash);
    assert VotesOf(WithVote(s, v), PREVOTE, 1) == Some(b[n := NilHash]);
    TallyAfterVote(b, n, NilHash, NilHash);
    assert Quorate(b[n := NilHash], 4, NilHash);
    assert IsMajority(b[n := NilHash], 4, Majority(b[n := NilHash], 4));
    PrevotePanicsExactly(s, v);
  }

  function AfterNilPrevote(cfg: Config, s: Node, n: NodeId): Node {
    Handle(cfg, s, PrevoteMsg(Vote(PREVOTE, n, 1, 1, NilHash), true))
  }

  lemma ThreePanic(cfg: Config, s: Node, a: NodeId, b: NodeId, c: NodeId, d: NodeId)
    requires NoDuplicates([a, b, c, d]) && Waiting(s, [a, b, c, d], map[])
    ensures AfterNilPrevote(cfg, AfterNilPrevote(cfg, AfterNilPrevote(cfg, s, a), b), c).fault == PrevotePanic
  {
    var all := [a, b, c, d];
    assert all[0] == a && all[1] == b && all[2] == c;
    var first, second := map[][a := NilHash], map[][a := NilHash][b := NilHash];
    TooFewForMajority(first);
    WaitingTakes(cfg, s, all, map[], a);
    TooFewForMajority(second);
    WaitingTakes(cfg, AfterNilPrevote(cfg, s, a), all, first, b);
    TallyAfterVote(map[], a, NilHash, NilHash);
    TallyAfterVote(first, b, NilHash, NilHash);
    WaitingPanics(cfg, AfterNilPrevote(cfg, AfterNilPrevote(cfg, s, a), b), all, second, c);
  }

  /** The nil prevote of `n` in round 1 may be delivered to `d`: if `n` is honest it signed it. */
  ghost predicate Deliverable(net: Net.Network, d: NodeId, s: Node, n: NodeId) {
    Net.Legal(net[d := s], Net.Action(d, PrevoteMsg(Vote(PREVOTE, n, 1, 1, NilHash), true)))
  }

  /** Prevotes of a later round from three of four validators make a started node that is still
      waiting for its own round panic, in any network in which those of the three that are honest
      signed them. */
  lemma LaterPrevotesPanic(cfg: Config, net: Net.Network, a: NodeId, b: NodeId, c: NodeId, d: NodeId)
    requires NoDuplicates([a, b, c, d]) && cfg.validators(1) == [a, b, c, d]
    requires forall n :: n in [a, b, c] && n in net ==> Vote(PREVOTE, n, 1, 1, NilHash) in net[n].signed
    ensures var first := TimeoutFired(Timeout(1, 0, STEP_PREVOTE));
            var s0 := Handle(cfg, Start(cfg, d, 0), first);
            var s1 := AfterNilPrevote(cfg, s0, a);
            var s2 := AfterNilPrevote(cfg, s1, b);
            && Net.Legal(net[d := Start(cfg, d, 0)], Net.Action(d, first))
            && Deliverable(net, d, s0, a) && Deliverable(net, d, s1, b) && Deliverable(net, d, s2, c)
            && AfterNilPrevote(cfg, s2, c).fault == PrevotePanic
  {
    var all := [a, b, c, d];
    assert all[0] != all[3] && all[1] != all[3] && all[2] != all[3];
    assert a in [a, b, c] && b in [a, b, c] && c in [a, b, c];
    var s0 := Handle(cfg, Start(cfg, d, 0), TimeoutFired(Timeout(1, 0, STEP_PREVOTE)));
    StartWaits(cfg, d);
    ThreePanic(cfg, s0, a, b, c, d);
    SignedIsDeliverable(net, d, s0, a);
    SignedIsDeliverable(net, d, AfterNilPrevote(cfg, s0, a), b);
    SignedIsDeliverable(net, d, AfterNilPrevote(cfg, AfterNilPrevote(cfg, s0, a), b), c);
  }

  lemma StartWaits(cfg: Config, d: NodeId)
    ensures Timeout(1, 0, STEP_PREVOTE) in Start(cfg, d, 0).timeouts
    ensures Waiting(Handle(cfg, Start(cfg, d, 0), TimeoutFired(Timeout(1, 0, STEP_PREVOTE))), cfg.validators(1), map[])
  {
  }

  lemma SignedIsDeliverable(net: Net.Network, d: NodeId, s: Node, n: NodeId)
    requires n != d && (n in net ==> Vote(PREVOTE, n, 1, 1, NilHash) in net[n].signed)
    ensures Deliverable(net, d, s, n)
  {
  }

  lemma TooFewForMajority(b: Ballots)
    requires |b| <= 2
    ensures Majority(b, 4) == Empty
  {
    var h := Majority(b, 4);
    Ordering.SubsetSize(Supporters(b, h), b.Keys);
  }

  // ---------------------------------------------------------------- the commit panic

  /** The node's round has a precommit majority for a block that is not the node's proposal. */
  predicate Mismatched(s: Node) {
    var hash := MajorityOf(s, PRECOMMIT, s.round);
    !IsNilHash(hash) && (s.proposal.None? || s.proposal.value.hash != hash)
  }

  /** A precommit of a later round completes a majority there, nil or for the node's proposal. */
  predicate CommitsTooEarly(s: Node, v: Vote) {
    var later := MajorityOf(WithVote(s, v), PRECOMMIT, v.round);
    && s.round < v.round && s.step == STEP_PRECOMMIT && Addable(s, v) && Mismatched(s)
    && later != Empty && (later == NilHash || (s.proposal.Some? && s.proposal.value.hash == later))
  }

  lemma PrevoteVotesNeverProposalPanic(s: Node, v: Vote)
    requires s.fault == Running
    ensures AddPrevoteVote(s, v).fault != ProposalPanic
  {
  }

  lemma ProposalPanicsExactly(s: Node, v: Vote)
    requires s.fault == Running && s.round <= v.round
    ensures AddVote(s, v).fault == ProposalPanic <==> v.typ.PRECOMMIT? && CommitsTooEarly(s, v)
  {
    PrevoteVotesNeverProposalPanic(WithVote(s, v), v);
    AddPrecommitPanics(WithVote(s, v), v);
    if s.round < v.round { OtherRoundUntouched(s, v, s.round); }
  }

  lemma AddPrecommitPanics(s: Node, v: Vote)
    requires s.fault == Running && s.round <= v.round
    ensures AddPrecommitVote(s, v).fault == ProposalPanic <==>
            var later := MajorityOf(s, PRECOMMIT, v.round);
            && s.round < v.round && s.step == STEP_PRECOMMIT && Mismatched(s)
            && later != Empty && (later == NilHash || (s.proposal.Some? && s.proposal.value.hash == later))
  {
  }

  predicate PrecommitArrives(s: Node, e: Event) {
    || (e.PrevoteMsg? && Receives(s, e.vote, e.authentic, STEP_PREVOTE) && e.vote.typ.PRECOMMIT?)
    || (e.PrecommitMsg? && Receives(s, e.vote, e.authentic, STEP_PRECOMMIT) && e.vote.typ.PRECOMMIT?)
  }

  lemma EnterCommitPanics(s: Node, ti: Timeout)
    requires s.fault == Running && TimeoutsBehind(s) && ti in s.timeouts
    ensures HandleTimeout(s, ti).fault == ProposalPanic <==>
            ti == Timeout(s.height, s.round, STEP_COMMIT) && s.step == STEP_PRECOMMIT && Mismatched(s)
  {
  }

  /** Exactly when an event makes the node panic on entering commit. */
  lemma CommitPanicExactly(cfg: Config, s: Node, e: Event)
    requires s.fault == Running && TimeoutsBacked(s) && Possible(s, e)
    ensures Handle(cfg, s, e).fault == ProposalPanic <==>
            || (PrecommitArrives(s, e) && CommitsTooEarly(s, e.vote))
            || (e == TimeoutFired(Timeout(s.height, s.round, STEP_COMMIT)) && s.step == STEP_PRECOMMIT && Mismatched(s))
  {
    match e {
      case PrevoteMsg(v, _) => if s.round <= v.round { ProposalPanicsExactly(s, v); }
      case PrecommitMsg(v, _) => if s.round <= v.round { ProposalPanicsExactly(s, v); }
      case TimeoutFired(ti) => EnterCommitPanics(s, ti);
      case _ =>
    }
  }
}
