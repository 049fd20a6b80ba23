/**
 What single events lead to in a TBFT node: proposals, verification results, votes that come late
 or for another round, timeouts and committed heights. Together with what a vote of the current
 round leads to, these say for each event when it moves the node and where.
 */
module TbftEvents {
  import opened Options
  import opened Votes
  import opened Tbft
  import opened TbftSafety

  // ---------------------------------------------------------------- which events matter

  /** The step a timeout ends. */
  function StepBefore(step: Step): Step {
    match step
    case STEP_PREVOTE => STEP_PROPOSE
    case STEP_PRECOMMIT => STEP_PREVOTE
    case _ => STEP_PRECOMMIT
  }

  /** A vote for the height, of a later round or of this one and not too late, whose signature checks out
      or which is the node's own. */
  predicate IsInTime(s: Node, v: Vote, authentic: bool, past: bool) {
    v.height == s.height && (authentic || v.voter == s.id) && (v.round > s.round || (v.round == s.round && !past))
  }

  /** The event means something to the node where it stands. */
  predicate Concerns(cfg: Config, s: Node, e: Event) {
    && s.fault == Running
    && match e
       case ProposedBlock(blockHeight, _, signs) =>
         blockHeight == s.height && s.step == STEP_PROPOSE && signs && cfg.proposer(s.height, s.round) == Some(s.id)
       case VerifyResult(_, _, _, _) => s.verifying.Some?
       case BlockHeight(committed) => committed >= s.height
       case ProposeMsg(p, authentic) =>
         && authentic && p.blockHeight == s.height && p.round == s.round && s.step == STEP_PROPOSE
         && cfg.proposer(p.height, p.round) == Some(p.voter) && s.proposal.None? && s.verifying.None?
       case PrevoteMsg(v, authentic) => IsInTime(s, v, authentic, s.step == STEP_PRECOMMIT || s.step == STEP_COMMIT)
       case PrecommitMsg(v, authentic) => IsInTime(s, v, authentic, s.step == STEP_COMMIT)
       case TimeoutFired(t) =>
         t.height == s.height && (t.round > s.round || (t.round == s.round && StepBefore(t.step) == s.step))
  }

  lemma RankOrder(step: Step)
    ensures Rank(step) <= Rank(STEP_PREVOTE) <==> step != STEP_PRECOMMIT && step != STEP_COMMIT
    ensures Rank(step) <= Rank(STEP_PRECOMMIT) <==> step != STEP_COMMIT
  {
  }

  /** An event without meaning to the node leaves it entirely as it is; a block of its own, a proposal or
      a committed height that has meaning does not. */
  lemma IgnoredExactly(cfg: Config, s: Node, e: Event)
    ensures !Concerns(cfg, s, e) ==> Handle(cfg, s, e) == s
    ensures Concerns(cfg, s, e) && (e.ProposedBlock? || e.ProposeMsg? || e.BlockHeight?) ==> Handle(cfg, s, e) != s
  {
    RankOrder(s.step);
  }

  // ---------------------------------------------------------------- proposals

  /** The proposer of the round takes up its own block and prevotes it. */
  lemma ProposerPrevotesItsBlock(cfg: Config, s: Node, hash: Hash)
    requires s.fault == Running && s.step == STEP_PROPOSE && cfg.proposer(s.height, s.round) == Some(s.id)
    ensures var s' := Handle(cfg, s, ProposedBlock(s.height, hash, true));
            && s'.step == STEP_PREVOTE
            && s'.proposal == Some(Proposal(s.id, s.height, s.round, s.height, hash))
            && s'.signed == s.signed + [Vote(PREVOTE, s.id, s.height, s.round, hash)]
  {
  }

  // ---------------------------------------------------------------- verification results

  /** A result that is a failure for the node's height: the block is dropped and nothing else happens. */
  lemma FailedBlockIsDropped(cfg: Config, s: Node, hash: Hash, dposOk: bool)
    requires Inv(cfg, s) && s.fault == Running
    ensures Handle(cfg, s, VerifyResult(s.height, hash, false, dposOk)) == s.(verifying := None)
  {
  }

  /** A verified block no precommit majority waits for: the node prevotes it, in the propose step,
      unless the DPoS check refuses it. */
  lemma VerifiedBlockIsPrevoted(cfg: Config, s: Node)
    requires s.fault == Running && s.step == STEP_PROPOSE && s.verifying.Some?
    requires MajorityOf(s, PRECOMMIT, s.round) != s.verifying.value.hash || s.verifying.value.hash == Empty
    ensures var p := s.verifying.value;
            var s' := Handle(cfg, s, VerifyResult(s.height, p.hash, true, true));
            && s'.step == STEP_PREVOTE && s'.proposal == s.verifying
            && s'.signed == s.signed + [Vote(PREVOTE, s.id, s.height, s.round, p.hash)]
    ensures Handle(cfg, s, VerifyResult(s.height, s.verifying.value.hash, true, false)) == s
  {
  }

  /** A verified block that already has a precommit majority is handed over. */
  lemma DecidedBlockIsCommitted(cfg: Config, s: Node, dposOk: bool)
    requires s.fault == Running && s.verifying.Some? && s.verifying.value.hash != Empty
    requires MajorityOf(s, PRECOMMIT, s.round) == s.verifying.value.hash
    ensures var p := s.verifying.value;
            var s' := Handle(cfg, s, VerifyResult(s.height, p.hash, true, dposOk));
            && s'.proposal == s.verifying && s'.signed == s.signed && s'.step == s.step
            && s'.commits == s.commits + [Commit(p.blockHeight, s.round, p.hash)]
  {
  }

  /** A result for another block, or one that comes after the propose step without a majority waiting
      for the block: the block under verification is dropped and nothing else happens. */
  lemma UselessResultDropsBlock(cfg: Config, s: Node, hash: Hash, dposOk: bool)
    requires s.fault == Running && s.verifying.Some?
    requires s.verifying.value.hash != hash || s.step != STEP_PROPOSE
    requires MajorityOf(s, PRECOMMIT, s.round) != hash || s.verifying.value.hash != hash || hash == Empty
    ensures Handle(cfg, s, VerifyResult(s.height, hash, true, dposOk)) == s.(verifying := None)
  {
  }

  // ---------------------------------------------------------------- votes

  /** Taking a vote adds the voter's first ballot of that kind and round, if it is a validator's, and
      changes no other. */
  lemma BallotsWithVote(s: Node, v: Vote, typ: VoteType, r: nat, n: NodeId)
    requires v.height == s.height
    ensures BallotsGrow(s, AddVote(s, v), v, true, typ, r, n) && RecordGrows(s, AddVote(s, v), v, true)
  {
    ActKeepsBallots(WithVote(s, v), v);
  }

  /** The voter is a validator without a ballot of that kind in that round. */
  predicate IsFirst(s: Node, v: Vote) {
    v.voter in s.validators && v.voter !in BallotsFor(RoundIn(s.rounds, v.round), v.typ)
  }

  /** Of `n`'s ballots of this kind in round `r`: an old one stays, and a new one is that of `v`, if taken. */
  predicate BallotsGrow(s: Node, s': Node, v: Vote, taken: bool, typ: VoteType, r: nat, n: NodeId) {
    var before, after := BallotsFor(RoundIn(s.rounds, r), typ), BallotsFor(RoundIn(s'.rounds, r), typ);
    if n in before then n in after && after[n] == before[n]
    else if taken && IsFirst(s, v) && n == v.voter && typ == v.typ && r == v.round then n in after && after[n] == v.hash
    else n !in after
  }

  predicate RecordGrows(s: Node, s': Node, v: Vote, taken: bool) {
    s'.recorded == if taken && IsFirst(s, v) then s.recorded + {v} else s.recorded
  }

  /** A vote message counts exactly when it is in time and the voter's first; a second one of a voter, one
      of a stranger and one that comes too late leave every ballot as it is. */
  lemma VoteCountsExactly(cfg: Config, s: Node, e: Event, typ: VoteType, r: nat, n: NodeId)
    requires s.fault == Running && IsVoteMsg(e)
    ensures BallotsGrow(s, Handle(cfg, s, e), e.vote, Concerns(cfg, s, e), typ, r, n)
    ensures RecordGrows(s, Handle(cfg, s, e), e.vote, Concerns(cfg, s, e))
  {
    if Concerns(cfg, s, e) {
      assert Handle(cfg, s, e) == AddVote(s, e.vote);
      BallotsWithVote(s, e.vote, typ, r, n);
    } else {
      IgnoredExactly(cfg, s, e);
    }
  }

  lemma ActKeepsBallots(s: Node, v: Vote)
    ensures ActOn(s, v).rounds == s.rounds && ActOn(s, v).recorded == s.recorded
  {
    PrecommitKeepsBallots(s, s.height, s.round);
    CommitKeepsBallots(s, s.height, s.round);
  }

  lemma PrecommitKeepsBallots(s: Node, height: nat, round: nat)
    ensures EnterPrecommit(s, height, round).rounds == s.rounds
    ensures EnterPrecommit(s, height, round).recorded == s.recorded
  {
  }

  lemma DecideKeepsBallots(s: Node, hash: Hash, round: nat)
    ensures Decide(s, hash, round).rounds == s.rounds && Decide(s, hash, round).recorded == s.recorded
  {
  }

  lemma CommitKeepsBallots(s: Node, height: nat, round: nat)
    ensures EnterCommit(s, height, round).rounds == s.rounds
    ensures EnterCommit(s, height, round).recorded == s.recorded
  {
    DecideKeepsBallots(s, MajorityOf(s, PRECOMMIT, s.round), round);
  }

  /** A vote that is not of the kind the step waits for, or of another round and without a majority
      there, is filed and nothing else happens. */
  lemma VoteIsOnlyFiled(s: Node, v: Vote)
    requires || s.step != (if v.typ.PREVOTE? then STEP_PREVOTE else STEP_PRECOMMIT)
             || (v.round != s.round && MajorityOf(WithVote(s, v), v.typ, v.round) == Empty)
    ensures AddVote(s, v) == s.(rounds := AddVote(s, v).rounds, recorded := AddVote(s, v).recorded)
  {
  }

  // ---------------------------------------------------------------- timeouts and heights

  /** A node whose time to wait for a proposal is up prevotes what it holds, nil without a proposal. */
  lemma UnheardPrevotesNil(cfg: Config, s: Node)
    requires s.fault == Running && s.step == STEP_PROPOSE
    ensures var s' := Handle(cfg, s, TimeoutFired(Timeout(s.height, s.round, STEP_PREVOTE)));
            var hash := if s.proposal.None? then NilHash else s.proposal.value.hash;
            && s'.step == STEP_PREVOTE && s'.signed == s.signed + [Vote(PREVOTE, s.id, s.height, s.round, hash)]
  {
  }

  /** One whose time to wait for prevotes is up precommits the majority, and nil if enough disagree. */
  lemma UndecidedPrecommitsNil(cfg: Config, s: Node)
    requires s.fault == Running && s.step == STEP_PREVOTE && HasNoMajority(s, PREVOTE, s.round)
    ensures var s' := Handle(cfg, s, TimeoutFired(Timeout(s.height, s.round, STEP_PRECOMMIT)));
            var m := MajorityOf(s, PREVOTE, s.round);
            && s'.step == STEP_PRECOMMIT && s'.fault == Running
            && s'.signed == s.signed + [Vote(PRECOMMIT, s.id, s.height, s.round, if m == Empty then NilHash else m)]
  {
  }

  /** One whose time to wait for precommits is up goes to the next round, unless a block is decided. */
  lemma UndecidedMovesOn(cfg: Config, s: Node)
    requires s.fault == Running && s.step == STEP_PRECOMMIT && IsNilHash(MajorityOf(s, PRECOMMIT, s.round))
    ensures var s' := Handle(cfg, s, TimeoutFired(Timeout(s.height, s.round, STEP_COMMIT)));
            && s'.height == s.height && s'.round == s.round + 1 && s'.step == STEP_PROPOSE && s'.proposal.None?
            && s'.verifying.None? && !s'.triggeredPrevote && !s'.triggeredPrecommit && s'.rounds == s.rounds
            && s'.timeouts == s.timeouts + [Timeout(s.height, s.round + 1, STEP_PREVOTE)]
  {
  }

  /** A committed height takes the node to the one after it, unless it is there already. */
  lemma CommittedHeightMovesOn(cfg: Config, s: Node, committed: nat)
    requires s.fault == Running
    ensures var s' := Handle(cfg, s, BlockHeight(committed));
            if committed < s.height then s' == s
            else
              && s'.height == committed + 1 && s'.round == 0 && s'.step == STEP_PROPOSE && s'.rounds == map[]
              && s'.validators == cfg.validators(committed + 1) && s'.proposal.None? && s'.verifying.None?
              && !s'.triggeredPrevote && !s'.triggeredPrecommit
              && s'.signed == s.signed && s'.commits == s.commits
              && s'.timeouts == s.timeouts + [Timeout(committed + 1, 0, STEP_PREVOTE)]
  {
  }

  // ---------------------------------------------------------------- timeouts over every run

  /** No timeout is scheduled twice, and the marks tell which of the round's are. */
  ghost predicate TimeoutsOnce(s: Node) {
    && (forall i, j :: 0 <= i < j < |s.timeouts| ==> s.timeouts[i] != s.timeouts[j])
    && Timeout(s.height, s.round, STEP_PREVOTE) in s.timeouts
    && (s.triggeredPrevote <==> Timeout(s.height, s.round, STEP_PRECOMMIT) in s.timeouts)
    && (s.triggeredPrecommit <==> Timeout(s.height, s.round, STEP_COMMIT) in s.timeouts)
  }

  /** Nothing is scheduled, with the node at its place and its marks as they were. */
  predicate SchedulesNothing(s: Node, s': Node) {
    && s'.timeouts == s.timeouts && s'.height == s.height && s'.round == s.round
    && s'.triggeredPrevote == s.triggeredPrevote && s'.triggeredPrecommit == s.triggeredPrecommit
  }

  lemma NothingScheduled(s: Node, s': Node)
    requires TimeoutsOnce(s) && SchedulesNothing(s, s')
    ensures TimeoutsOnce(s')
  {
  }

  lemma NewRoundOnce(s: Node, height: nat, round: nat)
    requires forall i, j :: 0 <= i < j < |s.timeouts| ==> s.timeouts[i] != s.timeouts[j]
    requires forall t :: t in s.timeouts ==> t.height < height || (t.height == height && t.round < round)
    requires s.height <= height && (s.round < round || (s.round == round && s.step == STEP_NEW_HEIGHT))
    ensures TimeoutsOnce(EnterNewRound(s, height, round))
  {
    var s' := EnterNewRound(s, height, round);
    assert s'.timeouts == s.timeouts + [Timeout(height, round, STEP_PREVOTE)];
    assert s'.timeouts[|s.timeouts|] == Timeout(height, round, STEP_PREVOTE);
    forall i | 0 <= i < |s.timeouts| ensures s.timeouts[i] != Timeout(height, round, STEP_PREVOTE) {
      assert s.timeouts[i] in s.timeouts;
    }
  }

  lemma ScheduleOnce(s: Node, s': Node, t: Timeout)
    requires TimeoutsOnce(s) && t !in s.timeouts && t.height == s.height && t.round == s.round
    requires s'.height == s.height && s'.round == s.round && s'.timeouts == s.timeouts + [t]
    requires t.step == STEP_PRECOMMIT || t.step == STEP_COMMIT
    requires s'.triggeredPrevote == (s.triggeredPrevote || t.step == STEP_PRECOMMIT)
    requires s'.triggeredPrecommit == (s.triggeredPrecommit || t.step == STEP_COMMIT)
    ensures TimeoutsOnce(s')
  {
    assert s'.timeouts[|s.timeouts|] == t;
  }

  lemma PrecommitSchedulesNothing(s: Node, height: nat, round: nat)
    ensures SchedulesNothing(s, EnterPrecommit(s, height, round))
  {
  }

  lemma DecideOnce(s: Node, hash: Hash, round: nat)
    requires TimeoutsOnce(s) && TimeoutsBehind(s) && s.round <= round
    ensures TimeoutsOnce(Decide(s, hash, round))
  {
    var mid := s.(step := STEP_COMMIT);
    if IsNilHash(hash) { NewRoundOnce(mid, s.height, round + 1); } else { NothingScheduled(s, Finish(mid, hash)); }
  }

  lemma CommitOnce(s: Node, height: nat, round: nat)
    requires TimeoutsOnce(s) && TimeoutsBehind(s)
    ensures TimeoutsOnce(EnterCommit(s, height, round))
  {
    if s.round <= round { DecideOnce(s, MajorityOf(s, PRECOMMIT, s.round), round); }
  }

  lemma PrevoteActOnce(s: Node, v: Vote)
    requires TimeoutsOnce(s)
    ensures TimeoutsOnce(AddPrevoteVote(s, v))
  {
    var t := EnterPrecommit(s, s.height, s.round);
    PrecommitSchedulesNothing(s, s.height, s.round);
    NothingScheduled(s, t);
    if HasNoMajority(s, PREVOTE, s.round) && !s.triggeredPrevote {
      var t' := s.(timeouts := s.timeouts + [Timeout(s.height, s.round, STEP_PRECOMMIT)], triggeredPrevote := true);
      ScheduleOnce(s, t', Timeout(s.height, s.round, STEP_PRECOMMIT));
    }
  }

  lemma PrecommitActOnce(s: Node, v: Vote)
    requires TimeoutsOnce(s) && TimeoutsBehind(s)
    ensures TimeoutsOnce(AddPrecommitVote(s, v))
  {
    CommitOnce(s, s.height, s.round);
    ScheduleCommitOnce(s, true);
    ScheduleCommitOnce(s, false);
  }

  lemma ScheduleCommitOnce(s: Node, enough: bool)
    requires TimeoutsOnce(s)
    ensures TimeoutsOnce(ScheduleCommit(s, enough))
  {
    if enough && !s.triggeredPrecommit {
      ScheduleOnce(s, ScheduleCommit(s, enough), Timeout(s.height, s.round, STEP_COMMIT));
    }
  }

  lemma AddVoteOnce(s: Node, v: Vote)
    requires TimeoutsOnce(s) && TimeoutsBehind(s)
    ensures TimeoutsOnce(AddVote(s, v))
  {
    var s' := WithVote(s, v);
    NothingScheduled(s, s');
    PrevoteActOnce(s', v);
    PrecommitActOnce(s', v);
  }

  lemma MoveOnOnce(cfg: Config, s: Node, committed: nat)
    requires TimeoutsOnce(s) && TimeoutsBehind(s)
    ensures TimeoutsOnce(MoveOn(cfg, s, committed))
  {
    if s.height <= committed { NewRoundOnce(Reset(cfg, s, committed + 1), committed + 1, 0); }
  }

  lemma ProposalsSchedule(cfg: Config, s: Node, e: Event)
    requires e.ProposedBlock? || e.VerifyResult? || e.ProposeMsg?
    ensures SchedulesNothing(s, Handle(cfg, s, e))
  {
  }

  lemma HandleOnce(cfg: Config, s: Node, e: Event)
    requires TimeoutsOnce(s) && TimeoutsBehind(s)
    ensures TimeoutsOnce(Handle(cfg, s, e))
  {
    match e {
      case PrevoteMsg(v, _) => AddVoteOnce(s, v);
      case PrecommitMsg(v, _) => AddVoteOnce(s, v);
      case BlockHeight(committed) => MoveOnOnce(cfg, s, committed);
      case TimeoutFired(ti) =>
        CommitOnce(s, ti.height, ti.round);
        PrecommitSchedulesNothing(s, ti.height, ti.round);
        NothingScheduled(s, EnterPrecommit(s, ti.height, ti.round));
        NothingScheduled(s, EnterPrevote(s, ti.height, ti.round));
      case _ =>
        ProposalsSchedule(cfg, s, e);
        NothingScheduled(s, Handle(cfg, s, e));
    }
  }

  lemma {:induction false} OnceFrom(cfg: Config, s: Node, es: seq<Event>)
    requires TimeoutsOnce(s) && Inv(cfg, s) && PossibleRun(cfg, s, es)
    ensures TimeoutsOnce(Final(cfg, s, es))
    decreases |es|
  {
    if es != [] {
      HandleOnce(cfg, s, es[0]);
      HandleForward(cfg, s, es[0]);
      OnceFrom(cfg, Handle(cfg, s, es[0]), es[1..]);
    }
  }

  /** In every run each timeout is scheduled at most once, and that of the proposal always is. */
  lemma TimeoutsScheduledOnce(cfg: Config, id: NodeId, ledger: nat, es: seq<Event>)
    requires PossibleRun(cfg, Start(cfg, id, ledger), es)
    ensures TimeoutsOnce(Final(cfg, Start(cfg, id, ledger), es))
  {
    StartInv(cfg, id, ledger);
    NewRoundOnce(Reset(cfg, Blank(id), ledger + 1), ledger + 1, 0);
    OnceFrom(cfg, Start(cfg, id, ledger), es);
  }
}
