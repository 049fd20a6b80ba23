/**
 The consensus object of a TBFT node. It files votes in vote-set objects and asks them for
 majorities; its other fields are assigned in place by the handlers and by the methods that enter
 a step. Seen through `State`, which takes the ballots from the vote sets, every event takes the
 object where the transition functions say, and each block it hands over comes with a
 certificate that passes verification.
 */
module TbftNode {
  import opened Options
  import opened Votes
  import opened RoundVoteSets
  import Tbft
  import opened TbftSafety

  /** Verifiers that know the validators accept the certificate for the committed hash. */
  ghost predicate CertificateFor(cfg: Tbft.Config, qc: VoteSetProto, height: nat, round: nat, hash: Hash) {
    && WellKeyed(qc) && qc.typ.PRECOMMIT? && qc.height == height && qc.round == round
    && Quorate(BallotsOf(Admitted(qc, cfg.validators(height))), |cfg.validators(height)|, hash)
  }

  ghost predicate Certifies(cfg: Tbft.Config, qc: VoteSetProto, c: Tbft.Commit) {
    CertificateFor(cfg, qc, c.height, c.round, c.hash)
  }

  /** Each block handed over has a certificate of precommits of its height and round for it. */
  ghost predicate AllCertified(cfg: Tbft.Config, certificates: seq<VoteSetProto>, commits: seq<Tbft.Commit>) {
    && |certificates| == |commits|
    && forall i :: 0 <= i < |commits| ==> Certifies(cfg, certificates[i], commits[i])
  }

  lemma OneMoreCertified(
      cfg: Tbft.Config, certificates: seq<VoteSetProto>, commits: seq<Tbft.Commit>, qc: VoteSetProto, c: Tbft.Commit)
    requires AllCertified(cfg, certificates, commits) && Certifies(cfg, qc, c)
    ensures AllCertified(cfg, certificates + [qc], commits + [c])
  {
  }

  class ConsensusState {
    const cfg: Tbft.Config
    const id: NodeId
    var height: nat
    var round: nat
    var step: Tbft.Step
    var proposal: Option<Tbft.Proposal>
    var verifying: Option<Tbft.Proposal>
    var triggeredPrevote: bool
    var triggeredPrecommit: bool
    var votes: HeightRoundVoteSet
    var signed: seq<Vote>
    var timeouts: seq<Tbft.Timeout>
    var commits: seq<Tbft.Commit>
    var certificates: seq<VoteSetProto>
    var recorded: set<Vote>
    var fault: Tbft.Fault

    /** The vote sets are those of the current height and its validators. */
    ghost predicate Ready()
      reads this`votes, this`height, votes, votes.sets
    {
      votes.Valid() && votes.height == height && votes.validators == cfg.validators(height)
    }

    ghost predicate Certified()
      reads this`commits, this`certificates
    {
      AllCertified(cfg, certificates, commits)
    }

    /** The proposals held are for blocks of the current height. */
    ghost predicate Current()
      reads this`height, this`proposal, this`verifying
    {
      && (proposal.Some? ==> proposal.value.blockHeight == height)
      && (verifying.Some? ==> verifying.value.blockHeight == height)
    }

    ghost predicate Sound()
      reads this`commits, this`certificates, this`height, this`proposal, this`verifying
    {
      Certified() && Current()
    }

    ghost predicate Valid()
      reads this, votes, votes.sets
    {
      Ready() && Sound()
    }

    ghost function State(): Tbft.Node
      reads this, votes
    {
      Tbft.Node(id, votes.validators, height, round, step, proposal, verifying, triggeredPrevote, triggeredPrecommit,
                votes.ballots, signed, timeouts, commits, recorded, fault)
    }

    constructor (cfg: Tbft.Config, id: NodeId, ledger: nat)
      ensures Valid() && fresh(votes) && votes.sets == {}
      ensures this.cfg == cfg && State() == Tbft.Start(cfg, id, ledger) && Tbft.Inv(cfg, State())
    {
      this.cfg, this.id := cfg, id;
      height, round, step := 0, 0, Tbft.STEP_NEW_HEIGHT;
      proposal, verifying := None, None;
      triggeredPrevote, triggeredPrecommit := false, false;
      var sets := new HeightRoundVoteSet(0, []);
      votes := sets;
      signed, timeouts, commits, certificates, recorded, fault := [], [], [], [], {}, Tbft.Running;
      new;
      Begin(ledger);
    }

    /** From the blank state to the height after the ledger's last block. */
    method Begin(ledger: nat)
      requires State() == Tbft.Blank(id) && certificates == []
      modifies this`votes, this`height, this`round, this`step, this`timeouts
      modifies this`proposal, this`verifying, this`triggeredPrevote, this`triggeredPrecommit
      ensures Valid() && fresh(votes) && votes.sets == {}
      ensures State() == Tbft.Start(cfg, id, ledger) && Tbft.Inv(cfg, State())
    {
      Restart(ledger + 1);
      StartInv(cfg, id, ledger);
    }

    // -------------------------------------------------------------- entering steps

    method EnterPropose(height: nat, round: nat)
      modifies this`timeouts, this`step
      ensures State() == Tbft.EnterPropose(old(State()), height, round)
    {
      if this.height != height || this.round > round || (this.round == round && step != Tbft.STEP_NEW_ROUND) { return; }
      timeouts := timeouts + [Tbft.Timeout(height, round, Tbft.STEP_PREVOTE)];
      step := Tbft.STEP_PROPOSE;
    }

    method ClearRound()
      modifies this`proposal, this`verifying, this`triggeredPrevote, this`triggeredPrecommit
      ensures State() == old(State()).(proposal := None, verifying := None, triggeredPrevote := false,
          triggeredPrecommit := false)
    {
      proposal, verifying, triggeredPrevote, triggeredPrecommit := None, None, false, false;
    }

    method EnterNewRound(height: nat, round: nat)
      requires height == this.height && Current()
      modifies this`round, this`step, this`timeouts
      modifies this`proposal, this`verifying, this`triggeredPrevote, this`triggeredPrecommit
      ensures Current() && State() == Tbft.EnterNewRound(old(State()), height, round)
    {
      if this.round > round || (this.round == round && step != Tbft.STEP_NEW_HEIGHT) { return; }
      this.round, step := round, Tbft.STEP_NEW_ROUND;
      ClearRound();
      EnterPropose(height, round);
    }

    method EnterNewHeight(height: nat)
      requires Valid()
      modifies this`votes, this`height, this`round, this`step, this`timeouts
      modifies this`proposal, this`verifying, this`triggeredPrevote, this`triggeredPrecommit
      ensures Valid() && (votes == old(votes) || fresh(votes)) && fresh(votes.sets - old(votes.sets))
      ensures State() == Tbft.EnterNewHeight(cfg, old(State()), height)
    {
      if this.height < height { Restart(height); }
    }

    method Restart(height: nat)
      requires this.height < height
      modifies this`votes, this`height, this`round, this`step, this`timeouts
      modifies this`proposal, this`verifying, this`triggeredPrevote, this`triggeredPrecommit
      ensures Ready() && Current() && fresh(votes) && votes.sets == {}
      ensures State() == Tbft.EnterNewRound(Tbft.Reset(cfg, old(State()), height), height, 0)
    {
      Reset(height);
      EnterNewRound(height, 0);
    }

    /** A fresh state for a height; what was signed and scheduled stays out there. */
    method Reset(height: nat)
      modifies this`votes, this`height, this`round, this`step
      modifies this`proposal, this`verifying, this`triggeredPrevote, this`triggeredPrecommit
      ensures Ready() && Current() && fresh(votes) && votes.sets == {} && this.height == height
      ensures State() == Tbft.Reset(cfg, old(State()), height)
    {
      var sets := new HeightRoundVoteSet(height, cfg.validators(height));
      votes := sets;
      this.height, this.round, step := height, 0, Tbft.STEP_NEW_HEIGHT;
      ClearRound();
    }

    method EnterPrevote(height: nat, round: nat)
      modifies this`step, this`signed
      ensures State() == Tbft.EnterPrevote(old(State()), height, round)
    {
      if this.height != height || this.round > round || (this.round == round && step != Tbft.STEP_PROPOSE) { return; }
      step := Tbft.STEP_PREVOTE;
      var hash := NilHash;
      if proposal.Some? { hash := proposal.value.hash; }
      signed := signed + [Vote(PREVOTE, id, this.height, this.round, hash)];
    }

    /** The hash with a majority, as the vote set of a round reports it. */
    method MajorityOf(typ: VoteType, r: nat) returns (hash: Hash)
      requires votes.Valid()
      ensures hash == Tbft.MajorityIn(votes.ballots, |votes.validators|, typ, r)
    {
      hash := votes.TwoThirdsMajority(typ, r);
    }

    /** What to precommit: the hash with a majority, nil if the votes cannot or do not agree, and
        nothing while too few votes are in. */
    method PrecommitChoice() returns (hash: Option<Hash>)
      requires votes.Valid()
      ensures hash == Tbft.PrecommitChoice(votes.ballots, |votes.validators|, round)
    {
      var majority := votes.TwoThirdsMajority(PREVOTE, round);
      if majority != Empty { return Some(majority); }
      var any := votes.HasTwoThirdsAny(PREVOTE, round);
      var enough := votes.HasTwoThirdsNoMajority(PREVOTE, round);
      hash := if any || enough then Some(NilHash) else None;
    }

    method EnterPrecommit(height: nat, round: nat)
      requires votes.Valid()
      modifies this`step, this`signed, this`fault
      ensures State() == Tbft.EnterPrecommit(old(State()), height, round)
    {
      if this.height != height || this.round > round || (this.round == round && step != Tbft.STEP_PREVOTE) { return; }
      var hash := PrecommitChoice();
      step := Tbft.STEP_PRECOMMIT;
      if hash.None? {
        fault := Tbft.PrevotePanic;
      } else {
        signed := signed + [Vote(PRECOMMIT, id, this.height, this.round, hash.value)];
      }
    }

    /** The certificate for a hash with a precommit majority in the current round. */
    method CertificateOf(hash: Hash) returns (qc: VoteSetProto)
      requires Ready() && hash != Empty && hash == Tbft.MajorityIn(votes.ballots, |votes.validators|, PRECOMMIT, round)
      ensures CertificateFor(cfg, qc, height, round, hash)
    {
      qc := votes.Certificate(round);
    }

    /** Hands over a block with its certificate. */
    method CommitBlock(block: Tbft.Proposal, qc: VoteSetProto)
      requires Certified() && CertificateFor(cfg, qc, block.blockHeight, round, block.hash)
      modifies this`commits, this`certificates
      ensures Certified()
      ensures State() == old(State()).(commits := old(commits) + [Tbft.Commit(block.blockHeight, round, block.hash)])
    {
      OneMoreCertified(cfg, certificates, commits, qc, Tbft.Commit(block.blockHeight, round, block.hash));
      certificates := certificates + [qc];
      commits := commits + [Tbft.Commit(block.blockHeight, round, block.hash)];
    }

    method EnterCommit(height: nat, round: nat)
      requires Valid()
      modifies this`round, this`step, this`timeouts, this`fault, this`commits, this`certificates
      modifies this`proposal, this`verifying, this`triggeredPrevote, this`triggeredPrecommit
      ensures Sound() && State() == Tbft.EnterCommit(old(State()), height, round)
    {
      if this.height != height || this.round > round || (this.round == round && step != Tbft.STEP_PRECOMMIT) { return; }
      var hash := MajorityOf(PRECOMMIT, this.round);
      var qc := None;
      if !Tbft.IsNilHash(hash) {
        var certificate := CertificateOf(hash);
        qc := Some(certificate);
      }
      Decide(hash, qc, round);
    }

    /** Ends the round with the hash its precommits have a majority for, if any. */
    method Decide(hash: Hash, qc: Option<VoteSetProto>, round: nat)
      requires Sound()
      requires Tbft.IsNilHash(hash) || (qc.Some? && CertificateFor(cfg, qc.value, height, this.round, hash))
      modifies this`round, this`step, this`timeouts, this`fault, this`commits, this`certificates
      modifies this`proposal, this`verifying, this`triggeredPrevote, this`triggeredPrecommit
      ensures Sound() && State() == Tbft.Decide(old(State()), hash, round)
    {
      step := Tbft.STEP_COMMIT;
      if Tbft.IsNilHash(hash) {
        EnterNewRound(this.height, round + 1);
      } else {
        Finish(hash, qc.value);
      }
    }

    method Finish(hash: Hash, qc: VoteSetProto)
      requires Sound() && CertificateFor(cfg, qc, height, round, hash)
      modifies this`fault, this`commits, this`certificates
      ensures Sound() && State() == Tbft.Finish(old(State()), hash)
    {
      if proposal.None? || proposal.value.hash != hash {
        fault := Tbft.ProposalPanic;
      } else {
        CommitBlock(proposal.value, qc);
      }
    }

    // -------------------------------------------------------------- votes

    /** Files a vote in the vote set of its kind and round; afterwards the ballots are with it. */
    method RecordVote(v: Vote) returns (added: bool)
      requires Valid()
      modifies this`recorded, votes`rounds, votes`sets, votes`ballots
      modifies votes.sets`sum, votes.sets`maj23, votes.sets`votes, votes.sets`votesByBlock, votes.sets`ballots
      ensures Valid() && votes == old(votes) && fresh(votes.sets - old(votes.sets))
      ensures State() == Tbft.WithVote(old(State()), v) && added == Tbft.Addable(old(State()), v)
    {
      added := votes.AddVote(v);
      if added { recorded := recorded + {v}; }
    }

    method AddVote(v: Vote)
      requires Valid()
      modifies this, votes, votes.sets
      ensures Valid() && votes == old(votes) && fresh(votes.sets - old(votes.sets))
      ensures State() == Tbft.AddVote(old(State()), v)
    {
      var added := RecordVote(v);
      if added { ActOn(v); }
    }

    method ActOn(v: Vote)
      requires Valid()
      modifies this`round, this`step, this`timeouts, this`fault, this`signed, this`commits, this`certificates
      modifies this`proposal, this`verifying, this`triggeredPrevote, this`triggeredPrecommit
      ensures Valid() && votes == old(votes) && votes.sets == old(votes.sets)
      ensures State() == Tbft.ActOn(old(State()), v)
    {
      if v.typ.PREVOTE? { ActOnPrevote(v); } else { ActOnPrecommit(v); }
    }

    method ActOnPrevote(v: Vote)
      requires Valid()
      modifies this`step, this`signed, this`fault, this`triggeredPrevote, this`timeouts
      ensures Valid() && State() == Tbft.AddPrevoteVote(old(State()), v)
    {
      AddPrevoteVote(v);
    }

    method ActOnPrecommit(v: Vote)
      requires Valid()
      modifies this`round, this`step, this`timeouts, this`fault, this`commits, this`certificates
      modifies this`proposal, this`verifying, this`triggeredPrevote, this`triggeredPrecommit
      ensures Valid() && State() == Tbft.AddPrecommitVote(old(State()), v)
    {
      AddPrecommitVote(v);
    }

    method AddPrevoteVote(v: Vote)
      requires votes.Valid()
      modifies this`step, this`signed, this`fault, this`triggeredPrevote, this`timeouts
      ensures State() == Tbft.AddPrevoteVote(old(State()), v)
    {
      if step != Tbft.STEP_PREVOTE { return; }
      var hash := MajorityOf(PREVOTE, v.round);
      if hash == Empty {
        if round == v.round { AwaitPrevotes(); }
      } else if proposal.Some? || Tbft.IsNilHash(hash) {
        EnterPrecommit(height, round);
      }
    }

    /** Without a majority, goes on if none can come, or starts the timeout once. */
    method AwaitPrevotes()
      requires votes.Valid()
      modifies this`step, this`signed, this`fault, this`triggeredPrevote, this`timeouts
      ensures State() == Tbft.AwaitPrevotes(old(State()))
    {
      var any, enough := Outlook(PREVOTE);
      if any {
        EnterPrecommit(height, round);
      } else if enough && !triggeredPrevote {
        triggeredPrevote := true;
        timeouts := timeouts + [Tbft.Timeout(height, round, Tbft.STEP_PRECOMMIT)];
      }
    }

    /** Whether no hash can reach a quorum any more this round, and whether enough votes are in. */
    method Outlook(typ: VoteType) returns (any: bool, enough: bool)
      requires votes.Valid()
      ensures any == Tbft.AnyIn(votes.ballots, |votes.validators|, typ, round)
      ensures enough == Tbft.EnoughIn(votes.ballots, |votes.validators|, typ, round)
    {
      any := votes.HasTwoThirdsAny(typ, round);
      enough := votes.HasTwoThirdsNoMajority(typ, round);
    }

    method AddPrecommitVote(v: Vote)
      requires Valid()
      modifies this`round, this`step, this`timeouts, this`fault, this`commits, this`certificates
      modifies this`proposal, this`verifying, this`triggeredPrevote, this`triggeredPrecommit
      ensures Sound() && State() == Tbft.AddPrecommitVote(old(State()), v)
    {
      if step != Tbft.STEP_PRECOMMIT { return; }
      var hash := MajorityOf(PRECOMMIT, v.round);
      if hash != Empty {
        if Tbft.IsNilHash(hash) || (proposal.Some? && hash == proposal.value.hash) { EnterCommit(height, round); }
        return;
      }
      if round == v.round { AwaitPrecommits(); }
    }

    /** Without a majority, ends the round if none can come, or starts the timeout once. */
    method AwaitPrecommits()
      requires Valid()
      modifies this`round, this`step, this`timeouts, this`fault, this`commits, this`certificates
      modifies this`proposal, this`verifying, this`triggeredPrevote, this`triggeredPrecommit
      ensures Sound() && State() == Tbft.AwaitPrecommits(old(State()))
    {
      var any, enough := Outlook(PRECOMMIT);
      if any { EnterCommit(height, round); } else { ScheduleCommit(enough); }
    }

    method ScheduleCommit(enough: bool)
      requires Sound()
      modifies this`timeouts, this`triggeredPrecommit
      ensures Sound() && State() == Tbft.ScheduleCommit(old(State()), enough)
    {
      if enough && !triggeredPrecommit {
        triggeredPrecommit := true;
        timeouts := timeouts + [Tbft.Timeout(height, round, Tbft.STEP_COMMIT)];
      }
    }

    // -------------------------------------------------------------- handlers

    method HandleProposedBlock(blockHeight: nat, hash: Hash, signs: bool)
      requires Current()
      modifies this`proposal, this`step, this`signed
      ensures Current() && State() == Tbft.HandleProposedBlock(cfg, old(State()), blockHeight, hash, signs)
    {
      if blockHeight != height || cfg.proposer(height, round) != Some(id) || step != Tbft.STEP_PROPOSE { return; }
      if !signs { return; }
      proposal := Some(Tbft.Proposal(id, height, round, blockHeight, hash));
      EnterPrevote(height, round);
    }

    method HandleVerifyResult(height: nat, hash: Hash, success: bool, dposOk: bool)
      requires Valid()
      modifies this`proposal, this`verifying, this`step, this`signed, this`commits, this`certificates
      ensures Sound() && State() == Tbft.HandleVerifyResult(old(State()), height, hash, success, dposOk)
    {
      if verifying.None? { return; }
      if this.height == height && round == verifying.value.round && !success {
        verifying := None;
        return;
      }
      TakeVerified(hash, dposOk);
    }

    /** A verified block is handed over if a precommit majority waits for it, and prevoted else. */
    method TakeVerified(hash: Hash, dposOk: bool)
      requires Valid() && verifying.Some?
      modifies this`proposal, this`verifying, this`step, this`signed, this`commits, this`certificates
      ensures Sound() && State() == Tbft.TakeVerified(old(State()), hash, dposOk)
    {
      var qc := CertificateIfDecided(hash);
      if verifying.value.hash == hash && qc.Some? {
        CommitVerified(qc.value);
      } else {
        PrevoteVerified(hash, dposOk);
      }
    }

    method CertificateIfDecided(hash: Hash) returns (qc: Option<VoteSetProto>)
      requires Ready()
      ensures qc.Some? <==>
          hash != Empty && Tbft.MajorityIn(votes.ballots, |votes.validators|, PRECOMMIT, round) == hash
      ensures qc.Some? ==> CertificateFor(cfg, qc.value, height, round, hash)
    {
      var majority := MajorityOf(PRECOMMIT, round);
      if majority == Empty || majority != hash { return None; }
      var certificate := CertificateOf(hash);
      return Some(certificate);
    }

    method CommitVerified(qc: VoteSetProto)
      requires Sound() && verifying.Some? && CertificateFor(cfg, qc, height, round, verifying.value.hash)
      modifies this`proposal, this`commits, this`certificates
      ensures Sound() && State() == Tbft.CommitVerified(old(State()))
    {
      proposal := verifying;
      CommitBlock(proposal.value, qc);
    }

    method PrevoteVerified(hash: Hash, dposOk: bool)
      requires Current() && verifying.Some?
      modifies this`proposal, this`verifying, this`step, this`signed
      ensures Current() && State() == Tbft.PrevoteVerified(old(State()), hash, dposOk)
    {
      if step != Tbft.STEP_PROPOSE || verifying.value.hash != hash {
        verifying := None;
        return;
      }
      if !dposOk { return; }
      proposal := verifying;
      EnterPrevote(height, round);
    }

    method ProcPropose(p: Tbft.Proposal, authentic: bool)
      requires Current()
      modifies this`verifying
      ensures Current() && State() == Tbft.ProcPropose(cfg, old(State()), p, authentic)
    {
      if !authentic || height != p.blockHeight || round != p.round || step != Tbft.STEP_PROPOSE { return; }
      if cfg.proposer(p.height, p.round) != Some(p.voter) { return; }
      if proposal.Some? || verifying.Some? { return; }
      verifying := Some(p);
    }

    method HandleTimeout(ti: Tbft.Timeout)
      requires Valid()
      modifies this`round, this`step, this`timeouts, this`fault, this`signed, this`commits, this`certificates
      modifies this`proposal, this`verifying, this`triggeredPrevote, this`triggeredPrecommit
      ensures Sound() && State() == Tbft.HandleTimeout(old(State()), ti)
    {
      match ti.step {
        case STEP_PREVOTE => EnterPrevote(ti.height, ti.round);
        case STEP_PRECOMMIT => EnterPrecommit(ti.height, ti.round);
        case STEP_COMMIT => EnterCommit(ti.height, ti.round);
        case _ =>
      }
    }

    function Receives(v: Vote, authentic: bool, latest: Tbft.Step): (ok: bool)
      reads this, votes
      ensures ok == Tbft.Receives(State(), v, authentic, latest)
    {
      && height == v.height && round <= v.round
      && (round == v.round ==> Tbft.Rank(step) <= Tbft.Rank(latest)) && (v.voter == id || authentic)
    }

    /** One turn of the event loop takes the object where the machine goes, and only forward; every
        block handed over stays certified. */
    method Handle(e: Tbft.Event)
      requires Valid() && Tbft.Inv(cfg, State()) && Tbft.Possible(State(), e)
      modifies this, votes, votes.sets
      ensures Valid() && (votes == old(votes) || fresh(votes)) && fresh(votes.sets - old(votes.sets))
      ensures State() == Tbft.Handle(cfg, old(State()), e) && Forward(cfg, old(State()), State())
    {
      HandleForward(cfg, State(), e);
      React(e);
    }

    method React(e: Tbft.Event)
      requires Valid()
      modifies this, votes, votes.sets
      ensures Valid() && (votes == old(votes) || fresh(votes)) && fresh(votes.sets - old(votes.sets))
      ensures State() == Tbft.Handle(cfg, old(State()), e)
    {
      if fault != Tbft.Running { return; }
      if e.BlockHeight? {
        MoveOn(e.committedHeight);
      } else if e.PrevoteMsg? || e.PrecommitMsg? {
        ReceiveVote(e);
      } else {
        Step(e);
      }
    }

    method MoveOn(committed: nat)
      requires Valid()
      modifies this`votes, this`height, this`round, this`step, this`timeouts
      modifies this`proposal, this`verifying, this`triggeredPrevote, this`triggeredPrecommit
      ensures Valid() && (votes == old(votes) || fresh(votes)) && fresh(votes.sets - old(votes.sets))
      ensures State() == Tbft.MoveOn(cfg, old(State()), committed)
    {
      if height <= committed { EnterNewHeight(committed + 1); }
    }

    method ReceiveVote(e: Tbft.Event)
      requires Valid() && fault == Tbft.Running && (e.PrevoteMsg? || e.PrecommitMsg?)
      modifies this, votes, votes.sets
      ensures Valid() && votes == old(votes) && fresh(votes.sets - old(votes.sets))
      ensures State() == Tbft.Handle(cfg, old(State()), e)
    {
      var latest := if e.PrevoteMsg? then Tbft.STEP_PREVOTE else Tbft.STEP_PRECOMMIT;
      if Receives(e.vote, e.authentic, latest) { AddVote(e.vote); }
    }

    /** The events that leave the vote sets alone. */
    method Step(e: Tbft.Event)
      requires Valid() && fault == Tbft.Running && !e.BlockHeight? && !e.PrevoteMsg? && !e.PrecommitMsg?
      modifies this`round, this`step, this`timeouts, this`fault, this`signed, this`commits, this`certificates
      modifies this`proposal, this`verifying, this`triggeredPrevote, this`triggeredPrecommit
      ensures Valid() && State() == Tbft.Handle(cfg, old(State()), e)
    {
      match e {
        case ProposedBlock(blockHeight, hash, signs) => HandleProposedBlock(blockHeight, hash, signs);
        case VerifyResult(verified, hash, success, dposOk) => HandleVerifyResult(verified, hash, success, dposOk);
        case ProposeMsg(p, authentic) => ProcPropose(p, authentic);
        case TimeoutFired(ti) => HandleTimeout(ti);
      }
    }

    /** The certificate attached to any block handed over is of the block's height and passes the
        majority check of a verifier, who takes the validators of that height. */
    method VerifyCommitted(i: nat) returns (ok: bool)
      requires Certified() && i < |commits|
      ensures ok && i < |certificates| && certificates[i].height == commits[i].height
    {
      var qc := certificates[i];
      assert Certifies(cfg, qc, commits[i]);
      ok := VerifyQuorum(qc, cfg.validators(commits[i].height), commits[i].hash);
    }
  }
}
