/**
 Safety of the TBFT node and of a network of nodes: places only rise, votes are signed once
 per round, precommits and commits are justified by quorums, and honest nodes that commit
 in one round commit one block.
 */
module TbftSafety {
  import opened Options
  import Ordering
  import opened Votes
  import opened Tbft

  // ---------------------------------------------------------------- one node

  lemma QuorumGrows(
      cfg: Config, recorded: set<Vote>, recorded': set<Vote>, typ: VoteType, height: nat, round: nat, hash: Hash)
    requires recorded <= recorded' && QuorumFor(cfg, recorded, typ, height, round, hash)
    ensures QuorumFor(cfg, recorded', typ, height, round, hash)
  {
    var q :| IsQuorumFor(cfg, recorded, typ, height, round, hash, q);
    assert IsQuorumFor(cfg, recorded', typ, height, round, hash, q);
  }

  lemma JustifiedGrows(cfg: Config, s: Node, s': Node)
    requires Justified(cfg, s) && s.recorded <= s'.recorded && s'.signed == s.signed && s'.commits == s.commits
    ensures Justified(cfg, s')
  {
    forall v | v in s'.signed && v.typ.PRECOMMIT? && !IsNilHash(v.hash)
      ensures QuorumFor(cfg, s'.recorded, PREVOTE, v.height, v.round, v.hash)
    {
      QuorumGrows(cfg, s.recorded, s'.recorded, PREVOTE, v.height, v.round, v.hash);
    }
    forall c | c in s'.commits ensures QuorumFor(cfg, s'.recorded, PRECOMMIT, c.height, c.round, c.hash) {
      QuorumGrows(cfg, s.recorded, s'.recorded, PRECOMMIT, c.height, c.round, c.hash);
    }
  }

  /** A majority in a node's vote set is a quorum among its recorded votes. */
  lemma MajorityIsQuorum(cfg: Config, s: Node, typ: VoteType, round: nat)
    requires s.validators == cfg.validators(s.height) && BallotsRecorded(s) && MajorityOf(s, typ, round) != Empty
    ensures QuorumFor(cfg, s.recorded, typ, s.height, round, MajorityOf(s, typ, round))
  {
    var b, hash := VotesOf(s, typ, round).value, MajorityOf(s, typ, round);
    var q := Supporters(b, hash);
    forall v | v in q ensures v in s.validators && Vote(typ, v, s.height, round, hash) in s.recorded {
      assert v in VotesOf(s, typ, round).value && b[v] == hash;
    }
    assert IsQuorumFor(cfg, s.recorded, typ, s.height, round, hash, q);
  }

  /** The outcome of one transition: the invariant holds and the node moved forward only. */
  ghost predicate Forward(cfg: Config, s: Node, s': Node) {
    && Inv(cfg, s') && PlaceLe(s, s') && s'.id == s.id
    && s.signed <= s'.signed && s.timeouts <= s'.timeouts && s.commits <= s'.commits && s.recorded <= s'.recorded
  }

  lemma EnterNewRoundForward(cfg: Config, s: Node, round: nat)
    requires SignsOnce(s) && TimeoutsBehind(s) && BallotsRecorded(s) && Justified(cfg, s)
    requires s.validators == cfg.validators(s.height)
    requires s.round < round || (s.round == round && s.step == STEP_NEW_HEIGHT)
    ensures Forward(cfg, s, EnterNewRound(s, s.height, round))
    ensures EnterNewRound(s, s.height, round).round == round && EnterNewRound(s, s.height, round).step == STEP_PROPOSE
  {
    var s' := EnterNewRound(s, s.height, round);
    forall t | t in s'.timeouts ensures t.height < s'.height || (t.height == s'.height && t.round <= s'.round) {
      if t !in s.timeouts { assert t == Timeout(s.height, round, STEP_PREVOTE); }
    }
    assert BallotsRecorded(s') by {
      assert forall typ, r: nat :: VotesOf(s', typ, r) == VotesOf(s, typ, r);
    }
  }

  lemma EnterNewHeightForward(cfg: Config, s: Node, height: nat)
    requires SignsOnce(s) && TimeoutsBehind(s) && Justified(cfg, s) && s.height < height
    ensures Forward(cfg, s, EnterNewHeight(cfg, s, height))
    ensures var s' := EnterNewHeight(cfg, s, height);
            s'.height == height && s'.round == 0 && s'.step == STEP_PROPOSE && s'.rounds == map[]
                && s'.signed == s.signed
  {
    var s' := Node(s.id, cfg.validators(height), height, 0, STEP_NEW_HEIGHT, None, None, false, false, map[],
                   s.signed, s.timeouts, s.commits, s.recorded, s.fault);
    assert forall i :: 0 <= i < |s.signed| ==> Reached(s, s.signed[i]) && Reached(s', s.signed[i]);
    EnterNewRoundForward(cfg, s', 0);
  }

  /** A node that signs for its current round, in a step it has not signed for, signs once. */
  lemma SignForward(cfg: Config, s: Node, s': Node, v: Vote)
    requires Inv(cfg, s)
    requires s' == s.(step := s'.step, proposal := s'.proposal, signed := s.signed + [v])
    requires v.voter == s.id && v.height == s.height && v.round == s.round
    requires v.typ.PREVOTE? ==> s.step == STEP_PROPOSE && s'.step == STEP_PREVOTE
    requires v.typ.PRECOMMIT? ==> s.step == STEP_PREVOTE && s'.step == STEP_PRECOMMIT
    requires v.typ.PRECOMMIT? && !IsNilHash(v.hash) ==> QuorumFor(cfg, s.recorded, PREVOTE, v.height, v.round, v.hash)
    requires ProposalsCurrent(s')
    ensures Forward(cfg, s, s')
  {
    assert forall i :: 0 <= i < |s.signed| ==>
        Reached(s, s.signed[i]) && Reached(s', s.signed[i]) && !SameSlot(s.signed[i], v);
    assert BallotsRecorded(s') by {
      assert forall typ, r: nat :: VotesOf(s', typ, r) == VotesOf(s, typ, r);
    }
    forall u | u in s'.signed && u.typ.PRECOMMIT? && !IsNilHash(u.hash)
      ensures QuorumFor(cfg, s'.recorded, PREVOTE, u.height, u.round, u.hash)
    {
      if u != v { assert u in s.signed; }
    }
  }

  lemma EnterPrevoteForward(cfg: Config, s: Node, height: nat, round: nat)
    requires Inv(cfg, s) && (height < s.height || (height == s.height && round <= s.round))
    ensures Forward(cfg, s, EnterPrevote(s, height, round))
  {
    var s' := EnterPrevote(s, height, round);
    if s' != s {
      SignForward(cfg, s, s', s'.signed[|s.signed|]);
    }
  }

  lemma EnterPrecommitForward(cfg: Config, s: Node, height: nat, round: nat)
    requires Inv(cfg, s) && (height < s.height || (height == s.height && round <= s.round))
    ensures Forward(cfg, s, EnterPrecommit(s, height, round))
  {
    var s' := EnterPrecommit(s, height, round);
    if s' != s {
      if s'.fault == PrevotePanic && |s'.signed| == |s.signed| {
        StepOnlyForward(cfg, s, s');
      } else {
        if MajorityOf(s, PREVOTE, s.round) != Empty { MajorityIsQuorum(cfg, s, PREVOTE, s.round); }
        SignForward(cfg, s, s', s'.signed[|s.signed|]);
      }
    }
  }

  /** Raising the step, or changing proposals within the round, alone. */
  lemma StepOnlyForward(cfg: Config, s: Node, s': Node)
    requires Inv(cfg, s) && Rank(s.step) <= Rank(s'.step)
    requires s' == s.(step := s'.step, proposal := s'.proposal, verifying := s'.verifying, fault := s'.fault)
    requires ProposalsCurrent(s')
    ensures Forward(cfg, s, s')
  {
    assert forall i :: 0 <= i < |s.signed| ==> Reached(s, s.signed[i]) && Reached(s', s.signed[i]);
    assert BallotsRecorded(s') by {
      assert forall typ, r: nat :: VotesOf(s', typ, r) == VotesOf(s, typ, r);
    }
    JustifiedGrows(cfg, s, s');
  }

  lemma ScheduleForward(cfg: Config, s: Node, s': Node, t: Timeout)
    requires Inv(cfg, s) && t.height == s.height && t.round == s.round
    requires s' == s.(timeouts := s.timeouts + [t],
                      triggeredPrevote := s'.triggeredPrevote, triggeredPrecommit := s'.triggeredPrecommit)
    ensures Forward(cfg, s, s')
  {
    forall u | u in s'.timeouts ensures u.height < s'.height || (u.height == s'.height && u.round <= s'.round) {
      if u != t { assert u in s.timeouts; }
    }
    assert forall i :: 0 <= i < |s.signed| ==> Reached(s, s.signed[i]) && Reached(s', s.signed[i]);
    assert BallotsRecorded(s') by {
      assert forall typ, r: nat :: VotesOf(s', typ, r) == VotesOf(s, typ, r);
    }
    JustifiedGrows(cfg, s, s');
  }

  /** Handing over the block of a precommit majority of the current round. */
  lemma CommitForward(cfg: Config, s: Node, s': Node, c: Commit)
    requires Inv(cfg, s) && Rank(s.step) <= Rank(s'.step)
    requires s' == s.(step := s'.step, proposal := s'.proposal, commits := s.commits + [c])
    requires c == Commit(s.height, s.round, MajorityOf(s, PRECOMMIT, s.round)) && c.hash != Empty
    requires ProposalsCurrent(s')
    ensures Forward(cfg, s, s')
  {
    MajorityIsQuorum(cfg, s, PRECOMMIT, s.round);
    assert forall i :: 0 <= i < |s.signed| ==> Reached(s, s.signed[i]) && Reached(s', s.signed[i]);
    assert BallotsRecorded(s') by {
      assert forall typ, r: nat :: VotesOf(s', typ, r) == VotesOf(s, typ, r);
    }
    forall d | d in s'.commits ensures QuorumFor(cfg, s'.recorded, PRECOMMIT, d.height, d.round, d.hash) {
      if d != c { assert d in s.commits; }
    }
  }

  lemma StayForward(cfg: Config, s: Node)
    requires Inv(cfg, s)
    ensures Forward(cfg, s, s)
  {
  }

  lemma FinishForward(cfg: Config, s: Node, hash: Hash)
    requires Inv(cfg, s) && hash == MajorityOf(s, PRECOMMIT, s.round) && hash != Empty
    ensures Forward(cfg, s, Finish(s, hash))
  {
    if s.proposal.None? || s.proposal.value.hash != hash {
      StepOnlyForward(cfg, s, Finish(s, hash));
    } else {
      CommitForward(cfg, s, Finish(s, hash), Commit(s.height, s.round, hash));
    }
  }

  lemma DecideForward(cfg: Config, s: Node, hash: Hash, round: nat)
    requires Inv(cfg, s) && hash == MajorityOf(s, PRECOMMIT, s.round) && s.round <= round
    ensures Forward(cfg, s, Decide(s, hash, round))
  {
    var mid := s.(step := STEP_COMMIT);
    StepOnlyForward(cfg, s, mid);
    if IsNilHash(hash) { EnterNewRoundForward(cfg, mid, round + 1); } else { FinishForward(cfg, mid, hash); }
    ForwardTrans(cfg, s, mid, Decide(s, hash, round));
  }

  lemma EnterCommitForward(cfg: Config, s: Node, height: nat, round: nat)
    requires Inv(cfg, s) && (height < s.height || (height == s.height && round <= s.round))
    ensures Forward(cfg, s, EnterCommit(s, height, round))
  {
    if s.height != height || s.round > round || (s.round == round && s.step != STEP_PRECOMMIT) {
      StayForward(cfg, s);
    } else {
      DecideForward(cfg, s, MajorityOf(s, PRECOMMIT, s.round), round);
    }
  }

  lemma WithVoteForward(cfg: Config, s: Node, v: Vote)
    requires Inv(cfg, s) && v.height == s.height
    ensures Forward(cfg, s, WithVote(s, v))
  {
    var s' := WithVote(s, v);
    assert forall i :: 0 <= i < |s.signed| ==> Reached(s, s.signed[i]) && Reached(s', s.signed[i]);
    JustifiedGrows(cfg, s, s');
    forall typ, r: nat, u | VotesOf(s', typ, r).Some? && u in VotesOf(s', typ, r).value
      ensures u in s'.validators && Vote(typ, u, s'.height, r, VotesOf(s', typ, r).value[u]) in s'.recorded
    {
      BallotAfterVote(s, v, typ, r, u);
    }
  }

  lemma BallotAfterVote(s: Node, v: Vote, typ: VoteType, r: nat, u: NodeId)
    requires VotesOf(WithVote(s, v), typ, r).Some? && u in VotesOf(WithVote(s, v), typ, r).value
    ensures || (VotesOf(s, typ, r).Some? && u in VotesOf(s, typ, r).value
        && VotesOf(WithVote(s, v), typ, r).value[u] == VotesOf(s, typ, r).value[u])
            || (Addable(s, v) && typ == v.typ && r == v.round && u == v.voter
                 && VotesOf(WithVote(s, v), typ, r).value[u] == v.hash)
  {
  }

  lemma ForwardTrans(cfg: Config, s: Node, s': Node, s'': Node)
    requires Forward(cfg, s, s') && Forward(cfg, s', s'')
    ensures Forward(cfg, s, s'')
  {
  }

  lemma AwaitPrevotesForward(cfg: Config, s: Node)
    requires Inv(cfg, s)
    ensures Forward(cfg, s, AwaitPrevotes(s))
  {
    if HasAny(s, PREVOTE, s.round) {
      EnterPrecommitForward(cfg, s, s.height, s.round);
    } else if HasNoMajority(s, PREVOTE, s.round) && !s.triggeredPrevote {
      ScheduleForward(cfg, s, AwaitPrevotes(s), Timeout(s.height, s.round, STEP_PRECOMMIT));
    } else {
      StayForward(cfg, s);
    }
  }

  lemma AddPrevoteVoteForward(cfg: Config, s: Node, v: Vote)
    requires Inv(cfg, s)
    ensures Forward(cfg, s, AddPrevoteVote(s, v))
  {
    StayForward(cfg, s);
    AwaitPrevotesForward(cfg, s);
    EnterPrecommitForward(cfg, s, s.height, s.round);
  }

  lemma AwaitPrecommitsForward(cfg: Config, s: Node)
    requires Inv(cfg, s)
    ensures Forward(cfg, s, AwaitPrecommits(s))
  {
    if HasAny(s, PRECOMMIT, s.round) {
      EnterCommitForward(cfg, s, s.height, s.round);
    } else if HasNoMajority(s, PRECOMMIT, s.round) && !s.triggeredPrecommit {
      ScheduleForward(cfg, s, AwaitPrecommits(s), Timeout(s.height, s.round, STEP_COMMIT));
    } else {
      StayForward(cfg, s);
    }
  }

  lemma AddPrecommitVoteForward(cfg: Config, s: Node, v: Vote)
    requires Inv(cfg, s)
    ensures Forward(cfg, s, AddPrecommitVote(s, v))
  {
    StayForward(cfg, s);
    AwaitPrecommitsForward(cfg, s);
    EnterCommitForward(cfg, s, s.height, s.round);
  }

  lemma AddVoteForward(cfg: Config, s: Node, v: Vote)
    requires Inv(cfg, s) && v.height == s.height
    ensures Forward(cfg, s, AddVote(s, v))
  {
    var s' := WithVote(s, v);
    WithVoteForward(cfg, s, v);
    AddPrevoteVoteForward(cfg, s', v);
    AddPrecommitVoteForward(cfg, s', v);
    ForwardTrans(cfg, s, s', AddVote(s, v));
  }

  lemma PrevoteVerifiedForward(cfg: Config, s: Node, hash: Hash, dposOk: bool)
    requires Inv(cfg, s) && s.verifying.Some?
    ensures Forward(cfg, s, PrevoteVerified(s, hash, dposOk))
  {
    if s.step != STEP_PROPOSE || s.verifying.value.hash != hash || !dposOk {
      StepOnlyForward(cfg, s, PrevoteVerified(s, hash, dposOk));
    } else {
      var mid := s.(proposal := s.verifying);
      StepOnlyForward(cfg, s, mid);
      EnterPrevoteForward(cfg, mid, s.height, s.round);
      ForwardTrans(cfg, s, mid, PrevoteVerified(s, hash, dposOk));
    }
  }

  lemma HandleVerifyResultForward(cfg: Config, s: Node, height: nat, hash: Hash, success: bool, dposOk: bool)
    requires Inv(cfg, s)
    ensures Forward(cfg, s, HandleVerifyResult(s, height, hash, success, dposOk))
  {
    if s.verifying.None? {
      StayForward(cfg, s);
    } else if s.height == height && s.round == s.verifying.value.round && !success {
      StepOnlyForward(cfg, s, s.(verifying := None));
    } else {
      TakeVerifiedForward(cfg, s, hash, dposOk);
    }
  }

  lemma TakeVerifiedForward(cfg: Config, s: Node, hash: Hash, dposOk: bool)
    requires Inv(cfg, s) && s.verifying.Some?
    ensures Forward(cfg, s, TakeVerified(s, hash, dposOk))
  {
    if s.verifying.value.hash == hash && hash != Empty && MajorityOf(s, PRECOMMIT, s.round) == hash {
      CommitForward(cfg, s, CommitVerified(s), Commit(s.height, s.round, hash));
    } else {
      PrevoteVerifiedForward(cfg, s, hash, dposOk);
    }
  }

  lemma HandleProposedBlockForward(cfg: Config, s: Node, blockHeight: nat, hash: Hash, signs: bool)
    requires Inv(cfg, s)
    ensures Forward(cfg, s, HandleProposedBlock(cfg, s, blockHeight, hash, signs))
  {
    var s' := HandleProposedBlock(cfg, s, blockHeight, hash, signs);
    if |s'.signed| > |s.signed| { SignForward(cfg, s, s', s'.signed[|s.signed|]); }
  }

  lemma HandleTimeoutForward(cfg: Config, s: Node, ti: Timeout)
    requires Inv(cfg, s) && ti in s.timeouts
    ensures Forward(cfg, s, HandleTimeout(s, ti))
  {
    match ti.step {
      case STEP_PREVOTE => EnterPrevoteForward(cfg, s, ti.height, ti.round);
      case STEP_PRECOMMIT => EnterPrecommitForward(cfg, s, ti.height, ti.round);
      case STEP_COMMIT => EnterCommitForward(cfg, s, ti.height, ti.round);
      case _ =>
    }
  }

  lemma ProcProposeForward(cfg: Config, s: Node, p: Proposal, authentic: bool)
    requires Inv(cfg, s)
    ensures Forward(cfg, s, ProcPropose(cfg, s, p, authentic))
  {
    StepOnlyForward(cfg, s, ProcPropose(cfg, s, p, authentic));
  }

  lemma ReceiveForward(cfg: Config, s: Node, v: Vote)
    requires Inv(cfg, s)
    ensures Forward(cfg, s, s) && (s.height == v.height ==> Forward(cfg, s, AddVote(s, v)))
  {
    StayForward(cfg, s);
    if s.height == v.height { AddVoteForward(cfg, s, v); }
  }

  lemma MoveOnForward(cfg: Config, s: Node, committed: nat)
    requires Inv(cfg, s)
    ensures Forward(cfg, s, MoveOn(cfg, s, committed))
  {
    if s.height > committed { StayForward(cfg, s); } else { EnterNewHeightForward(cfg, s, committed + 1); }
  }

  /** Every event keeps the invariant and moves the node forward only. */
  lemma HandleForward(cfg: Config, s: Node, e: Event)
    requires Inv(cfg, s) && Possible(s, e)
    ensures Forward(cfg, s, Handle(cfg, s, e))
  {
    if s.fault == Running {
      match e {
        case ProposedBlock(blockHeight, hash, signs) => HandleProposedBlockForward(cfg, s, blockHeight, hash, signs);
        case VerifyResult(height, hash, success, dposOk) =>
          HandleVerifyResultForward(cfg, s, height, hash, success, dposOk);
        case BlockHeight(height) => MoveOnForward(cfg, s, height);
        case ProposeMsg(p, authentic) => ProcProposeForward(cfg, s, p, authentic);
        case PrevoteMsg(v, authentic) => ReceiveForward(cfg, s, v);
        case PrecommitMsg(v, authentic) => ReceiveForward(cfg, s, v);
        case TimeoutFired(ti) => HandleTimeoutForward(cfg, s, ti);
      }
    }
  }

  lemma StartInv(cfg: Config, id: NodeId, ledger: nat)
    ensures Inv(cfg, Start(cfg, id, ledger)) && Start(cfg, id, ledger).id == id
    ensures Start(cfg, id, ledger).signed == [] && Start(cfg, id, ledger).recorded == {}
  {
    EnterNewHeightForward(cfg, Blank(id), ledger + 1);
  }

  // ---------------------------------------------------------------- what a vote leads to

  /** The ballots of the node's round once `v` is in. */
  function BallotsWith(s: Node, v: Vote): Ballots {
    var b := VotesOf(s, v.typ, v.round);
    (if b.Some? then b.value else map[])[v.voter := v.hash]
  }

  /** A prevote of its round makes a waiting node precommit the hash that reached a quorum if
      the node has a proposal, nil if nil did or if no hash can any more, and else nothing. */
  lemma PrevoteLeadsTo(cfg: Config, s: Node, v: Vote)
    requires s.fault == Running && s.step == STEP_PREVOTE && v.typ.PREVOTE? && v.round == s.round && Addable(s, v)
    requires |BallotsWith(s, v)| <= |s.validators|
    ensures var b, n, s' := BallotsWith(s, v), |s.validators|, Handle(cfg, s, PrevoteMsg(v, true));
            && (forall h :: Quorate(b, n, h) && (s.proposal.Some? || h == NilHash) ==>
                  s'.step == STEP_PRECOMMIT && s'.signed == s.signed + [Vote(PRECOMMIT, s.id, s.height, s.round, h)])
            && ((forall h :: !Quorate(b, n, h)) && TwoThirdsAny(b, n) ==>
                  s'.step == STEP_PRECOMMIT
                      && s'.signed == s.signed + [Vote(PRECOMMIT, s.id, s.height, s.round, NilHash)])
            && ((forall h :: Quorate(b, n, h) ==> s.proposal.None? && h != NilHash) && !TwoThirdsAny(b, n) ==>
                  s'.step == STEP_PREVOTE && s'.signed == s.signed)
  {
    assert VotesOf(WithVote(s, v), PREVOTE, s.round) == Some(BallotsWith(s, v));
    assert IsMajority(BallotsWith(s, v), |s.validators|, MajorityOf(WithVote(s, v), PREVOTE, s.round));
  }

  /** What a precommit of the round does, by the hash that then has a majority. */
  lemma PrecommitOutcome(s: Node, v: Vote, m: Hash)
    requires s.step == STEP_PRECOMMIT && v.round == s.round && m == MajorityOf(s, PRECOMMIT, s.round)
    ensures var s' := AddPrecommitVote(s, v);
            && s'.signed == s.signed && s'.fault == s.fault
            && (s.proposal.Some? && s.proposal.value.hash == m && !IsNilHash(m) ==>
                  s'.step == STEP_COMMIT
                      && s'.commits == s.commits + [Commit(s.proposal.value.blockHeight, s.round, m)])
            && (m == NilHash || (m == Empty && HasAny(s, PRECOMMIT, s.round)) ==>
                  s'.height == s.height && s'.round == s.round + 1 && s'.step == STEP_PROPOSE
                      && s'.commits == s.commits)
            && (m != NilHash && (s.proposal.None? || s.proposal.value.hash != m || m == Empty)
                 && (m == Empty ==> !HasAny(s, PRECOMMIT, s.round)) ==>
                  s'.step == STEP_PRECOMMIT && s'.round == s.round && s'.commits == s.commits)
  {
  }

  /** A precommit of its round makes a waiting node commit its proposal if that reached a
      quorum, go to the next round if nil did or if no hash can any more, and else wait. */
  lemma PrecommitLeadsTo(cfg: Config, s: Node, v: Vote)
    requires s.fault == Running && s.step == STEP_PRECOMMIT && v.typ.PRECOMMIT? && v.round == s.round && Addable(s, v)
    requires |BallotsWith(s, v)| <= |s.validators|
    ensures var b, n, s' := BallotsWith(s, v), |s.validators|, Handle(cfg, s, PrecommitMsg(v, true));
            && s'.signed == s.signed && s'.fault == Running
            && (forall h :: Quorate(b, n, h) && h != NilHash && s.proposal.Some? && s.proposal.value.hash == h ==>
                  s'.step == STEP_COMMIT
                      && s'.commits == s.commits + [Commit(s.proposal.value.blockHeight, s.round, h)])
            && (Quorate(b, n, NilHash) || ((forall h :: !Quorate(b, n, h)) && TwoThirdsAny(b, n)) ==>
                  s'.height == s.height && s'.round == s.round + 1 && s'.step == STEP_PROPOSE
                      && s'.commits == s.commits)
            && ((forall h :: Quorate(b, n, h) ==> h != NilHash && (s.proposal.None? || s.proposal.value.hash != h))
                 && !TwoThirdsAny(b, n) ==>
                  s'.step == STEP_PRECOMMIT && s'.round == s.round && s'.commits == s.commits)
  {
    var filed := WithVote(s, v);
    var m := MajorityOf(filed, PRECOMMIT, s.round);
    assert VotesOf(filed, PRECOMMIT, s.round) == Some(BallotsWith(s, v));
    assert IsMajority(BallotsWith(s, v), |s.validators|, m);
    PrecommitOutcome(filed, v, m);
    assert Handle(cfg, s, PrecommitMsg(v, true)) == AddPrecommitVote(filed, v);
  }

  // ---------------------------------------------------------------- runs of one node

  ghost predicate PossibleRun(cfg: Config, s: Node, es: seq<Event>)
    decreases |es|
  {
    es == [] || (Possible(s, es[0]) && PossibleRun(cfg, Handle(cfg, s, es[0]), es[1..]))
  }

  /** Over a whole run the place only rises, no scheduled timeout names a later round, at most
      one vote is signed per type, height and round, and precommits and commits have quorums. */
  lemma {:induction false} RunForward(cfg: Config, s: Node, es: seq<Event>)
    requires Inv(cfg, s) && PossibleRun(cfg, s, es)
    ensures Forward(cfg, s, Final(cfg, s, es))
    decreases |es|
  {
    if es != [] {
      var s' := Handle(cfg, s, es[0]);
      HandleForward(cfg, s, es[0]);
      RunForward(cfg, s', es[1..]);
      ForwardTrans(cfg, s, s', Final(cfg, s', es[1..]));
    }
  }

  // ---------------------------------------------------------------- the network

  /** The honest nodes, by id; every other validator may send anything under its own name. */
  type Network = map<NodeId, Node>

  /** An action of the network: an event reaches an honest node. */
  datatype Action = Action(who: NodeId, event: Event)

  predicate IsVoteMsg(e: Event) {
    e.PrevoteMsg? || e.PrecommitMsg?
  }

  /** Only a vote an honest node signed passes for a vote of that node. */
  ghost predicate Genuine(net: Network, a: Action) {
    IsVoteMsg(a.event) && (a.event.authentic || a.event.vote.voter == a.who) && a.event.vote.voter in net ==>
      a.event.vote in net[a.event.vote.voter].signed
  }

  ghost predicate Legal(net: Network, a: Action) {
    a.who in net && Possible(net[a.who], a.event) && Genuine(net, a)
  }

  function Step(cfg: Config, net: Network, a: Action): Network {
    if a.who in net then net[a.who := Handle(cfg, net[a.who], a.event)] else net
  }

  function Run(cfg: Config, net: Network, acts: seq<Action>): (net': Network)
    ensures net'.Keys == net.Keys
  {
    if acts == [] then net else Run(cfg, Step(cfg, net, acts[0]), acts[1..])
  }

  ghost predicate LegalRun(cfg: Config, net: Network, acts: seq<Action>) {
    acts == [] || (Legal(net, acts[0]) && LegalRun(cfg, Step(cfg, net, acts[0]), acts[1..]))
  }

  ghost predicate Started(cfg: Config, net: Network) {
    forall n :: n in net ==> exists ledger :: net[n] == Start(cfg, n, ledger)
  }

  ghost predicate NetInv(cfg: Config, net: Network) {
    && (forall n :: n in net ==> net[n].id == n && Inv(cfg, net[n]))
    && (forall n, v :: n in net && v in net[n].recorded && v.voter in net ==> v in net[v.voter].signed)
  }

  lemma PrecommitRecordsNothing(s: Node, height: nat, round: nat)
    ensures EnterPrecommit(s, height, round).recorded == s.recorded
  {
  }

  lemma DecideRecordsNothing(s: Node, hash: Hash, round: nat)
    ensures Decide(s, hash, round).recorded == s.recorded
  {
  }

  lemma CommitRecordsNothing(s: Node, height: nat, round: nat)
    ensures EnterCommit(s, height, round).recorded == s.recorded
  {
    DecideRecordsNothing(s, MajorityOf(s, PRECOMMIT, s.round), round);
  }

  lemma ActRecordsNothing(s: Node, v: Vote)
    ensures ActOn(s, v).recorded == s.recorded
  {
    PrecommitRecordsNothing(s, s.height, s.round);
    CommitRecordsNothing(s, s.height, s.round);
  }

  lemma AddVoteRecords(s: Node, v: Vote)
    ensures AddVote(s, v).recorded <= s.recorded + {v}
  {
    ActRecordsNothing(WithVote(s, v), v);
  }

  /** An event records no vote but the one it carries. */
  lemma RecordsOnlyItsVote(cfg: Config, s: Node, e: Event, v: Vote)
    requires v in Handle(cfg, s, e).recorded && v !in s.recorded
    ensures IsVoteMsg(e) && e.vote == v && (e.authentic || v.voter == s.id)
  {
    match e {
      case PrevoteMsg(u, _) => AddVoteRecords(s, u);
      case PrecommitMsg(u, _) => AddVoteRecords(s, u);
      case TimeoutFired(ti) =>
        PrecommitRecordsNothing(s, ti.height, ti.round);
        CommitRecordsNothing(s, ti.height, ti.round);
      case _ =>
    }
  }

  lemma StepKeepsNetInv(cfg: Config, net: Network, a: Action)
    requires NetInv(cfg, net) && Legal(net, a)
    ensures NetInv(cfg, Step(cfg, net, a))
  {
    var s, net' := net[a.who], Step(cfg, net, a);
    HandleForward(cfg, s, a.event);
    forall n, v | n in net' && v in net'[n].recorded && v.voter in net' ensures v in net'[v.voter].signed {
      if v !in net[n].recorded { RecordsOnlyItsVote(cfg, s, a.event, v); }
      assert v in net[v.voter].signed;
    }
  }

  lemma {:induction false} RunKeepsNetInv(cfg: Config, net: Network, acts: seq<Action>)
    requires NetInv(cfg, net) && LegalRun(cfg, net, acts)
    ensures NetInv(cfg, Run(cfg, net, acts))
    decreases |acts|
  {
    if acts != [] {
      StepKeepsNetInv(cfg, net, acts[0]);
      RunKeepsNetInv(cfg, Step(cfg, net, acts[0]), acts[1..]);
    }
  }

  // ---------------------------------------------------------------- agreement

  ghost function Faulty(cfg: Config, net: Network, height: nat): set<NodeId> {
    Voters(cfg.validators(height)) - net.Keys
  }

  /** Validators are listed once and fewer than a third of them are faulty. */
  ghost predicate MostlyHonest(cfg: Config, net: Network, height: nat) {
    NoDuplicates(cfg.validators(height)) && 3 * |Faulty(cfg, net, height)| < |cfg.validators(height)|
  }

  lemma QuorumsShareHonest(cfg: Config, net: Network, height: nat, q: set<NodeId>, q': set<NodeId>) returns (n: NodeId)
    requires MostlyHonest(cfg, net, height)
    requires q <= Voters(cfg.validators(height)) && |q| >= Quorum(|cfg.validators(height)|)
    requires q' <= Voters(cfg.validators(height)) && |q'| >= Quorum(|cfg.validators(height)|)
    ensures n in q && n in q' && n in net
  {
    var all, bad := Voters(cfg.validators(height)), Faulty(cfg, net, height);
    VotersBound(cfg.validators(height));
    Ordering.SubsetSize(q + q', all);
    assert |q + q'| + |q * q'| == |q| + |q'|;
    if q * q' <= bad { Ordering.SubsetSize(q * q', bad); }
    n :| n in q * q' && n !in bad;
  }

  /** Two quorums of one kind, at one height and round, recorded by honest nodes, are for one
      hash: an honest validator stands in both and signed only once. */
  lemma QuorumsAgree(
      cfg: Config, net: Network, a: NodeId, b: NodeId, typ: VoteType, height: nat, round: nat, hash: Hash, hash': Hash)
    requires NetInv(cfg, net) && MostlyHonest(cfg, net, height) && a in net && b in net
    requires QuorumFor(cfg, net[a].recorded, typ, height, round, hash)
    requires QuorumFor(cfg, net[b].recorded, typ, height, round, hash')
    ensures hash == hash'
  {
    var q :| IsQuorumFor(cfg, net[a].recorded, typ, height, round, hash, q);
    var q' :| IsQuorumFor(cfg, net[b].recorded, typ, height, round, hash', q');
    var n := QuorumsShareHonest(cfg, net, height, q, q');
    var v, v' := Vote(typ, n, height, round, hash), Vote(typ, n, height, round, hash');
    assert v in net[a].recorded && v' in net[b].recorded;
    SignedOnce(net[n], v, v');
  }

  lemma SignedOnce(s: Node, v: Vote, v': Vote)
    requires SignsOnce(s) && v in s.signed && v' in s.signed && SameSlot(v, v')
    ensures v == v'
  {
    var i :| 0 <= i < |s.signed| && s.signed[i] == v;
    var j :| 0 <= j < |s.signed| && s.signed[j] == v';
  }

  lemma StartedNetInv(cfg: Config, net: Network)
    requires Started(cfg, net)
    ensures NetInv(cfg, net)
  {
    forall n | n in net ensures net[n].id == n && Inv(cfg, net[n]) && net[n].recorded == {} {
      var ledger :| net[n] == Start(cfg, n, ledger);
      StartInv(cfg, n, ledger);
    }
  }

  predicate BlockPrecommit(v: Vote, height: nat, round: nat) {
    v.typ.PRECOMMIT? && v.height == height && v.round == round && !IsNilHash(v.hash)
  }

  predicate CommitAt(c: Commit, height: nat, round: nat) {
    c.height == height && c.round == round
  }

  /** What two nodes agree on at a height and round: the block they commit, and the block they
      precommit. */
  ghost predicate Agreed(s: Node, s': Node, height: nat, round: nat) {
    && (forall c, c' ::
          c in s.commits && c' in s'.commits && CommitAt(c, height, round) && CommitAt(c', height, round) ==>
            c.hash == c'.hash)
    && (forall v, v' ::
          v in s.signed && v' in s'.signed && BlockPrecommit(v, height, round) && BlockPrecommit(v', height, round) ==>
            v.hash == v'.hash)
  }

  lemma NetAgrees(cfg: Config, net: Network, a: NodeId, b: NodeId, height: nat, round: nat)
    requires NetInv(cfg, net) && MostlyHonest(cfg, net, height) && a in net && b in net
    ensures Agreed(net[a], net[b], height, round)
  {
    forall c, c' | c in net[a].commits && c' in net[b].commits && CommitAt(c, height, round)
        && CommitAt(c', height, round)
      ensures c.hash == c'.hash
    {
      QuorumsAgree(cfg, net, a, b, PRECOMMIT, height, round, c.hash, c'.hash);
    }
    forall v, v' | v in net[a].signed && v' in net[b].signed && BlockPrecommit(v, height, round)
        && BlockPrecommit(v', height, round)
      ensures v.hash == v'.hash
    {
      QuorumsAgree(cfg, net, a, b, PREVOTE, height, round, v.hash, v'.hash);
    }
  }

  /** Agreement: in every run of the network, two honest nodes that commit at one height and
      round commit one block, and those that precommit a block there precommit one block. */
  lemma HonestNodesAgree(cfg: Config, start: Network, acts: seq<Action>, a: NodeId, b: NodeId, height: nat, round: nat)
    requires Started(cfg, start) && LegalRun(cfg, start, acts) && MostlyHonest(cfg, start, height)
    requires a in start && b in start
    ensures Agreed(Run(cfg, start, acts)[a], Run(cfg, start, acts)[b], height, round)
  {
    StartedNetInv(cfg, start);
    RunKeepsNetInv(cfg, start, acts);
    NetAgrees(cfg, Run(cfg, start, acts), a, b, height, round);
  }

  // ---------------------------------------------------------------- a run that commits

  /** What a node holds in round 0 of height 1 as the only validator, with its own block proposed. */
  ghost predicate Alone(s: Node, a: NodeId, hash: Hash, step: Step, prevotes: Ballots) {
    && s.fault == Running && s.id == a && s.validators == [a] && s.height == 1 && s.round == 0 && s.step == step
    && s.proposal == Some(Proposal(a, 1, 0, 1, hash)) && s.commits == []
    && s.rounds == if prevotes == map[] then map[] else map[0 := RoundVotes(prevotes, map[])]
  }

  lemma OwnVoteIsQuorum(a: NodeId, hash: Hash)
    requires hash != Empty
    ensures Quorate(map[a := hash], 1, hash) && Majority(map[a := hash], 1) == hash
  {
    assert Supporters(map[a := hash], hash) == {a};
    assert IsMajority(map[a := hash], 1, Majority(map[a := hash], 1));
  }

  lemma AlonePrecommits(cfg: Config, s: Node, a: NodeId, hash: Hash)
    requires Alone(s, a, hash, STEP_PREVOTE, map[]) && !IsNilHash(hash)
    ensures var s' := Handle(cfg, s, PrevoteMsg(Vote(PREVOTE, a, 1, 0, hash), true));
            Alone(s', a, hash, STEP_PRECOMMIT, map[a := hash])
                && s'.signed == s.signed + [Vote(PRECOMMIT, a, 1, 0, hash)]
  {
    var v := Vote(PREVOTE, a, 1, 0, hash);
    assert WithVote(s, v).rounds == map[0 := RoundVotes(map[a := hash], map[])];
    OwnVoteIsQuorum(a, hash);
  }

  lemma AloneCommits(cfg: Config, s: Node, a: NodeId, hash: Hash)
    requires Alone(s, a, hash, STEP_PRECOMMIT, map[a := hash]) && !IsNilHash(hash)
    ensures Handle(cfg, s, PrecommitMsg(Vote(PRECOMMIT, a, 1, 0, hash), true)).commits == [Commit(1, 0, hash)]
  {
    var v := Vote(PRECOMMIT, a, 1, 0, hash);
    assert VotesOf(WithVote(s, v), PRECOMMIT, 0) == Some(map[a := hash]);
    OwnVoteIsQuorum(a, hash);
  }

  /** The machine decides: a sole validator that proposes and hears its own votes commits. */
  lemma SoleValidatorCommits(cfg: Config, a: NodeId, hash: Hash)
    requires cfg.validators(1) == [a] && cfg.proposer(1, 0) == Some(a) && !IsNilHash(hash)
    ensures var prevote, precommit := PrevoteMsg(Vote(PREVOTE, a, 1, 0, hash), true),
        PrecommitMsg(Vote(PRECOMMIT, a, 1, 0, hash), true);
            var s1 := Handle(cfg, Start(cfg, a, 0), ProposedBlock(1, hash, true));
            var s2 := Handle(cfg, s1, prevote);
            && Legal(map[a := s1], Action(a, prevote)) && Legal(map[a := s2], Action(a, precommit))
            && Handle(cfg, s2, precommit).commits == [Commit(1, 0, hash)]
  {
    var s1 := Handle(cfg, Start(cfg, a, 0), ProposedBlock(1, hash, true));
    assert Alone(s1, a, hash, STEP_PREVOTE, map[]) && s1.signed == [Vote(PREVOTE, a, 1, 0, hash)];
    AlonePrecommits(cfg, s1, a, hash);
    AloneCommits(cfg, Handle(cfg, s1, PrevoteMsg(Vote(PREVOTE, a, 1, 0, hash), true)), a, hash);
  }
}
