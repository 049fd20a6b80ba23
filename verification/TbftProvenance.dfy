/**
 Where a node's prevotes come from, over the events of a run: every prevote for a block is for one
 the node proposed itself as the proposer of the round, or for one the proposer of the round sent
 and whose verification did not fail.
 */
module TbftProvenance {
  import opened Options
  import opened Votes
  import opened Tbft
  import opened TbftSafety

  // ---------------------------------------------------------------- the events behind a prevote

  /** An authentic proposal for this block, by the proposer, came before the `k`-th event. */
  ghost predicate ProposedBefore(cfg: Config, es: seq<Event>, k: nat, height: nat, round: nat, hash: Hash) {
    exists j :: 0 <= j < k && j < |es| && ProposedBy(cfg, es[j], height, round, hash)
  }

  predicate ProposedBy(cfg: Config, e: Event, height: nat, round: nat, hash: Hash) {
    e.ProposeMsg? && e.authentic && Proposes(cfg, e.proposal, height, round, hash)
  }

  predicate Proposes(cfg: Config, p: Proposal, height: nat, round: nat, hash: Hash) {
    p.hash == hash && p.blockHeight == height && p.round == round && cfg.proposer(p.height, p.round) == Some(p.voter)
  }

  /** With the node at this height and round, the `k`-th event lets it prevote `hash`: it proposes the
      block itself, or the result for a block proposed to it is not a failure for this height. */
  ghost predicate VettedAt(cfg: Config, s0: Node, es: seq<Event>, k: nat, height: nat, round: nat, hash: Hash)
    requires k < |es|
  {
    var s := Final(cfg, s0, es[..k]);
    && s.height == height && s.round == round
    && match es[k]
       case ProposedBlock(blockHeight, blockHash, signs) =>
         blockHeight == height && blockHash == hash && signs && cfg.proposer(height, round) == Some(s.id)
       case VerifyResult(verifiedHeight, verifiedHash, success, _) =>
         && verifiedHash == hash && (verifiedHeight == height ==> success)
         && ProposedBefore(cfg, es, k, height, round, hash)
       case _ => false
  }

  ghost predicate Vetted(cfg: Config, s0: Node, es: seq<Event>, height: nat, round: nat, hash: Hash) {
    exists k :: 0 <= k < |es| && VettedAt(cfg, s0, es, k, height, round, hash)
  }

  /** What the events so far say about the node they led to. */
  ghost predicate Traced(cfg: Config, s0: Node, es: seq<Event>, s: Node) {
    && (s.verifying.Some? ==> ProposedBefore(cfg, es, |es|, s.height, s.round, s.verifying.value.hash))
    && (s.proposal.Some? ==> Vetted(cfg, s0, es, s.height, s.round, s.proposal.value.hash))
    && (forall v :: v in s.signed && v.typ.PREVOTE? && !IsNilHash(v.hash) ==>
          Vetted(cfg, s0, es, v.height, v.round, v.hash))
  }

  lemma {:induction false} FinalOneMore(cfg: Config, s: Node, es: seq<Event>, e: Event)
    ensures Final(cfg, s, es + [e]) == Handle(cfg, Final(cfg, s, es), e)
    decreases |es|
  {
    if es == [] {
      assert es + [e] == [e] && [e][1..] == [];
    } else {
      assert (es + [e])[0] == es[0] && (es + [e])[1..] == es[1..] + [e];
      FinalOneMore(cfg, Handle(cfg, s, es[0]), es[1..], e);
    }
  }

  lemma ProposedStays(cfg: Config, es: seq<Event>, e: Event, k: nat, height: nat, round: nat, hash: Hash)
    requires ProposedBefore(cfg, es, k, height, round, hash)
    ensures ProposedBefore(cfg, es + [e], k, height, round, hash)
  {
    var j :| 0 <= j < k && j < |es| && ProposedBy(cfg, es[j], height, round, hash);
    assert (es + [e])[j] == es[j];
  }

  lemma VettedStays(cfg: Config, s0: Node, es: seq<Event>, e: Event, height: nat, round: nat, hash: Hash)
    requires Vetted(cfg, s0, es, height, round, hash)
    ensures Vetted(cfg, s0, es + [e], height, round, hash)
  {
    var k :| 0 <= k < |es| && VettedAt(cfg, s0, es, k, height, round, hash);
    assert (es + [e])[..k] == es[..k] && (es + [e])[k] == es[k];
    if es[k].VerifyResult? { ProposedStays(cfg, es, e, k, height, round, hash); }
    assert VettedAt(cfg, s0, es + [e], k, height, round, hash);
  }

  // ---------------------------------------------------------------- how proposals and prevotes change

  predicate SamePlace(s: Node, s': Node) {
    s'.height == s.height && s'.round == s.round
  }

  /** Blocks held are dropped or stay, with the node at its place, and no prevote is signed. */
  ghost predicate Undisturbed(s: Node, s': Node) {
    && (s'.verifying.Some? ==> SamePlace(s, s') && s'.verifying == s.verifying)
    && (s'.proposal.Some? ==> SamePlace(s, s') && s'.proposal == s.proposal)
    && (forall v :: v in s'.signed && v.typ.PREVOTE? ==> v in s.signed)
  }

  lemma NewRoundUndisturbed(s: Node, round: nat)
    ensures Undisturbed(s, EnterNewRound(s, s.height, round))
  {
  }

  lemma PrecommitUndisturbed(s: Node, height: nat, round: nat)
    ensures Undisturbed(s, EnterPrecommit(s, height, round))
  {
  }

  lemma DecideUndisturbed(s: Node, hash: Hash, round: nat)
    ensures Undisturbed(s, Decide(s, hash, round))
  {
    NewRoundUndisturbed(s.(step := STEP_COMMIT), round + 1);
  }

  lemma CommitUndisturbed(s: Node, height: nat, round: nat)
    ensures Undisturbed(s, EnterCommit(s, height, round))
  {
    DecideUndisturbed(s, MajorityOf(s, PRECOMMIT, s.round), round);
  }

  lemma PrevoteUndisturbed(s: Node, v: Vote)
    ensures Undisturbed(s, AwaitPrevotes(s)) && Undisturbed(s, AddPrevoteVote(s, v))
  {
    PrecommitUndisturbed(s, s.height, s.round);
  }

  lemma AwaitUndisturbed(s: Node)
    ensures Undisturbed(s, AwaitPrecommits(s))
  {
    CommitUndisturbed(s, s.height, s.round);
  }

  lemma PrecommitVoteUndisturbed(s: Node, v: Vote)
    ensures Undisturbed(s, AddPrecommitVote(s, v))
  {
    AwaitUndisturbed(s);
    CommitUndisturbed(s, s.height, s.round);
  }

  lemma ActUndisturbed(s: Node, v: Vote)
    ensures Undisturbed(s, ActOn(s, v))
  {
    PrevoteUndisturbed(s, v);
    PrecommitVoteUndisturbed(s, v);
  }

  lemma VoteUndisturbed(s: Node, v: Vote)
    ensures Undisturbed(s, AddVote(s, v))
  {
    ActUndisturbed(WithVote(s, v), v);
  }

  lemma MoveOnUndisturbed(cfg: Config, s: Node, committed: nat)
    ensures Undisturbed(s, MoveOn(cfg, s, committed))
  {
  }

  /** Events other than these neither bring in a block nor sign a prevote. */
  lemma OthersUndisturbed(cfg: Config, s: Node, e: Event)
    requires !e.ProposedBlock? && !e.VerifyResult? && !e.ProposeMsg?
    requires !(e.TimeoutFired? && e.ti.step == STEP_PREVOTE)
    ensures Undisturbed(s, Handle(cfg, s, e))
  {
    match e {
      case BlockHeight(committed) => MoveOnUndisturbed(cfg, s, committed);
      case PrevoteMsg(v, _) => VoteUndisturbed(s, v);
      case PrecommitMsg(v, _) => VoteUndisturbed(s, v);
      case TimeoutFired(ti) =>
        PrecommitUndisturbed(s, ti.height, ti.round);
        CommitUndisturbed(s, ti.height, ti.round);
    }
  }

  /** `s'` signed no new prevote, or one for the proposal it holds, nil without one. */
  ghost predicate PrevotesHeld(s: Node, s': Node) {
    forall v :: v in s'.signed && v.typ.PREVOTE? && !IsNilHash(v.hash) && v !in s.signed ==>
      v.height == s'.height && v.round == s'.round && s'.proposal.Some? && s'.proposal.value.hash == v.hash
  }

  lemma EnterPrevoteHolds(s: Node, height: nat, round: nat)
    ensures var s' := EnterPrevote(s, height, round);
            && PrevotesHeld(s, s') && SamePlace(s, s') && s'.proposal == s.proposal && s'.verifying == s.verifying
  {
  }

  /** The blocks held after a message or result: as before, or from that event. */
  ghost predicate FromEvent(cfg: Config, s: Node, e: Event, s': Node) {
    && PrevotesHeld(s, s')
    && (s'.verifying.Some? ==>
          && SamePlace(s, s')
          && (s'.verifying == s.verifying || (ProposedNow(cfg, s, e) && s'.verifying.value == e.proposal)))
    && (s'.proposal.Some? ==>
          && SamePlace(s, s')
          && (s'.proposal == s.proposal || OwnNow(cfg, s, e, s'.proposal.value.hash) || PassedNow(s, e, s')))
  }

  predicate ProposedNow(cfg: Config, s: Node, e: Event) {
    e.ProposeMsg? && ProposedBy(cfg, e, s.height, s.round, e.proposal.hash)
  }

  predicate OwnNow(cfg: Config, s: Node, e: Event, hash: Hash) {
    && e.ProposedBlock? && e.blockHeight == s.height && e.signs && e.blockHash == hash
    && cfg.proposer(s.height, s.round) == Some(s.id)
  }

  predicate PassedNow(s: Node, e: Event, s': Node) {
    && e.VerifyResult? && s.verifying.Some? && s'.proposal == s.verifying
    && s.verifying.value.hash == e.verifiedHash && (e.verifiedHeight == s.height ==> e.success)
  }

  lemma ResultFromEvent(cfg: Config, s: Node, e: Event)
    requires ProposalsCurrent(s) && e.VerifyResult?
    ensures FromEvent(cfg, s, e, HandleVerifyResult(s, e.verifiedHeight, e.verifiedHash, e.success, e.dposOk))
  {
    if s.verifying.Some? && (e.verifiedHeight == s.height ==> e.success) {
      PassedFromEvent(cfg, s, e);
    }
  }

  lemma PassedFromEvent(cfg: Config, s: Node, e: Event)
    requires e.VerifyResult? && s.verifying.Some? && (e.verifiedHeight == s.height ==> e.success)
    ensures FromEvent(cfg, s, e, TakeVerified(s, e.verifiedHash, e.dposOk))
  {
    var held := s.(proposal := s.verifying);
    EnterPrevoteHolds(held, s.height, s.round);
    assert PrevotesHeld(s, EnterPrevote(held, s.height, s.round));
  }

  lemma ProposedFromEvent(cfg: Config, s: Node, e: Event)
    requires e.ProposedBlock?
    ensures FromEvent(cfg, s, e, HandleProposedBlock(cfg, s, e.blockHeight, e.blockHash, e.signs))
  {
    var p := Proposal(s.id, s.height, s.round, e.blockHeight, e.blockHash);
    EnterPrevoteHolds(s.(proposal := Some(p)), s.height, s.round);
  }

  lemma UndisturbedFromEvent(cfg: Config, s: Node, e: Event, s': Node)
    requires Undisturbed(s, s')
    ensures FromEvent(cfg, s, e, s')
  {
  }

  lemma HandleFromEvent(cfg: Config, s: Node, e: Event)
    requires Inv(cfg, s)
    ensures FromEvent(cfg, s, e, Handle(cfg, s, e))
  {
    if s.fault != Running {
      UndisturbedFromEvent(cfg, s, e, s);
    } else if e.ProposedBlock? {
      ProposedFromEvent(cfg, s, e);
    } else if e.VerifyResult? {
      ResultFromEvent(cfg, s, e);
    } else if e.TimeoutFired? && e.ti.step == STEP_PREVOTE {
      EnterPrevoteHolds(s, e.ti.height, e.ti.round);
    } else if !e.ProposeMsg? {
      OthersUndisturbed(cfg, s, e);
      UndisturbedFromEvent(cfg, s, e, Handle(cfg, s, e));
    }
  }

  lemma TracedOneMore(cfg: Config, s0: Node, es: seq<Event>, e: Event)
    requires var s := Final(cfg, s0, es); Traced(cfg, s0, es, s) && Inv(cfg, s)
    ensures Traced(cfg, s0, es + [e], Final(cfg, s0, es + [e]))
  {
    var s := Final(cfg, s0, es);
    var s' := Handle(cfg, s, e);
    FinalOneMore(cfg, s0, es, e);
    HandleFromEvent(cfg, s, e);
    if s'.verifying.Some? { TracedVerifying(cfg, s0, es, e); }
    if s'.proposal.Some? { TracedProposal(cfg, s0, es, e); }
    forall v | v in s'.signed && v.typ.PREVOTE? && !IsNilHash(v.hash)
      ensures Vetted(cfg, s0, es + [e], v.height, v.round, v.hash)
    {
      if v in s.signed { VettedStays(cfg, s0, es, e, v.height, v.round, v.hash); }
    }
  }

  lemma TracedVerifying(cfg: Config, s0: Node, es: seq<Event>, e: Event)
    requires var s := Final(cfg, s0, es); Traced(cfg, s0, es, s) && Inv(cfg, s) && Handle(cfg, s, e).verifying.Some?
    ensures var s' := Handle(cfg, Final(cfg, s0, es), e);
            ProposedBefore(cfg, es + [e], |es| + 1, s'.height, s'.round, s'.verifying.value.hash)
  {
    var s := Final(cfg, s0, es);
    var s' := Handle(cfg, s, e);
    HandleFromEvent(cfg, s, e);
    if s'.verifying == s.verifying {
      ProposedStays(cfg, es, e, |es|, s.height, s.round, s.verifying.value.hash);
      var j :| 0 <= j < |es| && ProposedBy(cfg, (es + [e])[j], s.height, s.round, s.verifying.value.hash);
    } else {
      assert (es + [e])[|es|] == e;
    }
  }

  lemma TracedProposal(cfg: Config, s0: Node, es: seq<Event>, e: Event)
    requires var s := Final(cfg, s0, es); Traced(cfg, s0, es, s) && Inv(cfg, s) && Handle(cfg, s, e).proposal.Some?
    ensures var s' := Handle(cfg, Final(cfg, s0, es), e);
            Vetted(cfg, s0, es + [e], s'.height, s'.round, s'.proposal.value.hash)
  {
    var s := Final(cfg, s0, es);
    var s' := Handle(cfg, s, e);
    HandleFromEvent(cfg, s, e);
    if s'.proposal == s.proposal {
      VettedStays(cfg, s0, es, e, s.height, s.round, s.proposal.value.hash);
    } else {
      assert (es + [e])[..|es|] == es && (es + [e])[|es|] == e;
      if e.VerifyResult? { ProposedStays(cfg, es, e, |es|, s.height, s.round, s.verifying.value.hash); }
      assert VettedAt(cfg, s0, es + [e], |es|, s.height, s.round, s'.proposal.value.hash);
    }
  }

  // ---------------------------------------------------------------- over every run

  lemma PossibleBefore(cfg: Config, s: Node, es: seq<Event>, e: Event)
    requires PossibleRun(cfg, s, es + [e])
    ensures PossibleRun(cfg, s, es)
    decreases |es|
  {
    if es != [] {
      assert (es + [e])[0] == es[0] && (es + [e])[1..] == es[1..] + [e];
      PossibleBefore(cfg, Handle(cfg, s, es[0]), es[1..], e);
    }
  }

  lemma {:induction false} RunIsTraced(cfg: Config, id: NodeId, ledger: nat, es: seq<Event>)
    requires PossibleRun(cfg, Start(cfg, id, ledger), es)
    ensures Traced(cfg, Start(cfg, id, ledger), es, Final(cfg, Start(cfg, id, ledger), es))
    decreases |es|
  {
    var s0 := Start(cfg, id, ledger);
    StartInv(cfg, id, ledger);
    if es != [] {
      var front, last := es[..|es| - 1], es[|es| - 1];
      assert es == front + [last];
      PossibleBefore(cfg, s0, front, last);
      RunIsTraced(cfg, id, ledger, front);
      RunForward(cfg, s0, front);
      TracedOneMore(cfg, s0, front, last);
    }
  }

  /** In every run, a prevote for a block has behind it the event that let the node vote for it. */
  lemma PrevotesAreVetted(cfg: Config, id: NodeId, ledger: nat, es: seq<Event>, v: Vote)
    requires PossibleRun(cfg, Start(cfg, id, ledger), es)
    requires v in Final(cfg, Start(cfg, id, ledger), es).signed && v.typ.PREVOTE? && !IsNilHash(v.hash)
    ensures Vetted(cfg, Start(cfg, id, ledger), es, v.height, v.round, v.hash)
  {
    RunIsTraced(cfg, id, ledger, es);
  }
}
