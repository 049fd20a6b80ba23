/**
 The TBFT node: a (height, round, step) machine driven by proposals, verification results,
 votes, timeouts and committed heights. A node keeps, per round, the ballots of its vote
 sets, and leaves behind the votes it signed, the timeouts it scheduled and the blocks it
 handed over for commit.
 */
module Tbft {
  import opened Options
  import opened Votes

  datatype Step = STEP_NEW_HEIGHT | STEP_NEW_ROUND | STEP_PROPOSE | STEP_PREVOTE | STEP_PRECOMMIT | STEP_COMMIT

  function Rank(s: Step): nat {
    match s
    case STEP_NEW_HEIGHT => 0
    case STEP_NEW_ROUND => 1
    case STEP_PROPOSE => 2
    case STEP_PREVOTE => 3
    case STEP_PRECOMMIT => 4
    case STEP_COMMIT => 5
  }

  datatype Proposal = Proposal(voter: NodeId, height: nat, round: nat, blockHeight: nat, hash: Hash)

  datatype Timeout = Timeout(height: nat, round: nat, step: Step)

  /** A block handed to the committer, and the round it was decided in. */
  datatype Commit = Commit(height: nat, round: nat, hash: Hash)

  datatype RoundVotes = RoundVotes(prevotes: Ballots, precommits: Ballots)

  /** A panic ends the node: no prevote quorum of any kind on entering precommit, or a
      precommit majority that the node's proposal does not match. */
  datatype Fault = Running | PrevotePanic | ProposalPanic

  /** What every node knows of the chain: the validators at each height and the proposer of
      each round. */
  datatype Config = Config(validators: nat -> seq<NodeId>, proposer: (nat, nat) -> Option<NodeId>)

  datatype Node = Node(
    id: NodeId, validators: seq<NodeId>, height: nat, round: nat, step: Step,
    proposal: Option<Proposal>, verifying: Option<Proposal>,
    triggeredPrevote: bool, triggeredPrecommit: bool, rounds: map<nat, RoundVotes>,
    signed: seq<Vote>, timeouts: seq<Timeout>, commits: seq<Commit>, recorded: set<Vote>, fault: Fault)

  datatype Event =
    | ProposedBlock(blockHeight: nat, blockHash: Hash, signs: bool)
    | VerifyResult(verifiedHeight: nat, verifiedHash: Hash, success: bool, dposOk: bool)
    | BlockHeight(committedHeight: nat)
    | ProposeMsg(proposal: Proposal, authentic: bool)
    | PrevoteMsg(vote: Vote, authentic: bool)
    | PrecommitMsg(vote: Vote, authentic: bool)
    | TimeoutFired(ti: Timeout)

  predicate IsNilHash(h: Hash) {
    h.Empty? || h.NilHash?
  }

  // ---------------------------------------------------------------- vote sets

  function VotesIn(rounds: map<nat, RoundVotes>, typ: VoteType, round: nat): Option<Ballots> {
    if round !in rounds then None
    else if typ.PREVOTE? then Some(rounds[round].prevotes)
    else Some(rounds[round].precommits)
  }

  function MajorityIn(rounds: map<nat, RoundVotes>, n: nat, typ: VoteType, round: nat): Hash {
    var b := VotesIn(rounds, typ, round);
    if b.None? then Empty else Majority(b.value, n)
  }

  predicate AnyIn(rounds: map<nat, RoundVotes>, n: nat, typ: VoteType, round: nat) {
    var b := VotesIn(rounds, typ, round);
    b.Some? && TwoThirdsAny(b.value, n)
  }

  predicate EnoughIn(rounds: map<nat, RoundVotes>, n: nat, typ: VoteType, round: nat) {
    var b := VotesIn(rounds, typ, round);
    b.Some? && |b.value| >= Quorum(n)
  }

  function VotesOf(s: Node, typ: VoteType, round: nat): Option<Ballots> {
    VotesIn(s.rounds, typ, round)
  }

  function MajorityOf(s: Node, typ: VoteType, round: nat): Hash {
    MajorityIn(s.rounds, |s.validators|, typ, round)
  }

  predicate HasAny(s: Node, typ: VoteType, round: nat) {
    AnyIn(s.rounds, |s.validators|, typ, round)
  }

  predicate HasNoMajority(s: Node, typ: VoteType, round: nat) {
    EnoughIn(s.rounds, |s.validators|, typ, round)
  }

  function BallotsFor(rv: RoundVotes, typ: VoteType): Ballots {
    if typ.PREVOTE? then rv.prevotes else rv.precommits
  }

  /** A round's ballots once `v` is filed, if it is. */
  function Filing(rv: RoundVotes, v: Vote, added: bool): RoundVotes {
    if !added then rv
    else if v.typ.PREVOTE? then rv.(prevotes := rv.prevotes[v.voter := v.hash])
    else rv.(precommits := rv.precommits[v.voter := v.hash])
  }

  /** The ballots of a round; none if it has no vote sets yet. */
  function RoundIn(rounds: map<nat, RoundVotes>, round: nat): RoundVotes {
    if round in rounds then rounds[round] else RoundVotes(map[], map[])
  }

  /** A vote is added if its voter is a validator without a vote in that set. */
  predicate Addable(s: Node, v: Vote) {
    && v.height == s.height && v.voter in s.validators
    && v.voter !in BallotsFor(RoundIn(s.rounds, v.round), v.typ)
  }

  function WithVote(s: Node, v: Vote): Node {
    s.(rounds := s.rounds[v.round := Filing(RoundIn(s.rounds, v.round), v, Addable(s, v))],
       recorded := if Addable(s, v) then s.recorded + {v} else s.recorded)
  }

  // ---------------------------------------------------------------- entering steps

  function EnterPropose(s: Node, height: nat, round: nat): Node {
    if s.height != height || s.round > round || (s.round == round && s.step != STEP_NEW_ROUND) then s
    else s.(step := STEP_PROPOSE, timeouts := s.timeouts + [Timeout(height, round, STEP_PREVOTE)])
  }

  function EnterNewRound(s: Node, height: nat, round: nat): Node {
    if s.height > height || s.round > round || (s.round == round && s.step != STEP_NEW_HEIGHT) then s
    else
      var s' := s.(height := height, round := round, step := STEP_NEW_ROUND, triggeredPrevote := false,
                   triggeredPrecommit := false, proposal := None, verifying := None);
      EnterPropose(s', height, round)
  }

  /** A fresh state for a height; what was signed and scheduled stays out there. */
  function Reset(cfg: Config, s: Node, height: nat): Node {
    Node(s.id, cfg.validators(height), height, 0, STEP_NEW_HEIGHT, None, None, false, false, map[],
         s.signed, s.timeouts, s.commits, s.recorded, s.fault)
  }

  function EnterNewHeight(cfg: Config, s: Node, height: nat): Node {
    if s.height >= height then s else EnterNewRound(Reset(cfg, s, height), height, 0)
  }

  function EnterPrevote(s: Node, height: nat, round: nat): Node {
    if s.height != height || s.round > round || (s.round == round && s.step != STEP_PROPOSE) then s
    else
      var hash := if s.proposal.Some? then s.proposal.value.hash else NilHash;
      s.(step := STEP_PREVOTE, signed := s.signed + [Vote(PREVOTE, s.id, s.height, s.round, hash)])
  }

  /** What to precommit: the hash with a prevote majority, nil if the votes cannot or do not
      agree, and nothing while too few are in. */
  function PrecommitChoice(rounds: map<nat, RoundVotes>, n: nat, round: nat): Option<Hash> {
    var majority := MajorityIn(rounds, n, PREVOTE, round);
    if majority != Empty then Some(majority)
    else if AnyIn(rounds, n, PREVOTE, round) || EnoughIn(rounds, n, PREVOTE, round) then Some(NilHash)
    else None
  }

  function EnterPrecommit(s: Node, height: nat, round: nat): Node {
    if s.height != height || s.round > round || (s.round == round && s.step != STEP_PREVOTE) then s
    else
      var s' := s.(step := STEP_PRECOMMIT);
      var choice := PrecommitChoice(s.rounds, |s.validators|, s.round);
      if choice.None? then s'.(fault := PrevotePanic)
      else s'.(signed := s.signed + [Vote(PRECOMMIT, s.id, s.height, s.round, choice.value)])
  }

  /** Hands over the node's proposal if it is the block with the majority. */
  function Finish(s: Node, hash: Hash): Node {
    if s.proposal.None? || s.proposal.value.hash != hash then s.(fault := ProposalPanic)
    else s.(commits := s.commits + [Commit(s.proposal.value.blockHeight, s.round, hash)])
  }

  /** Ends the round with the hash its precommits have a majority for, if any. */
  function Decide(s: Node, hash: Hash, round: nat): Node {
    var s' := s.(step := STEP_COMMIT);
    if IsNilHash(hash) then EnterNewRound(s', s.height, round + 1) else Finish(s', hash)
  }

  function EnterCommit(s: Node, height: nat, round: nat): Node {
    if s.height != height || s.round > round || (s.round == round && s.step != STEP_PRECOMMIT) then s
    else Decide(s, MajorityOf(s, PRECOMMIT, s.round), round)
  }

  // ---------------------------------------------------------------- votes

  /** Without a prevote majority: goes on if none can come, or starts the timeout once. */
  function AwaitPrevotes(s: Node): Node {
    if HasAny(s, PREVOTE, s.round) then EnterPrecommit(s, s.height, s.round)
    else if HasNoMajority(s, PREVOTE, s.round) && !s.triggeredPrevote then
      s.(timeouts := s.timeouts + [Timeout(s.height, s.round, STEP_PRECOMMIT)], triggeredPrevote := true)
    else s
  }

  function AddPrevoteVote(s: Node, v: Vote): Node {
    var hash := MajorityOf(s, PREVOTE, v.round);
    if s.step != STEP_PREVOTE then s
    else if hash == Empty then if s.round == v.round then AwaitPrevotes(s) else s
    else if s.proposal.Some? || IsNilHash(hash) then EnterPrecommit(s, s.height, s.round)
    else s
  }

  /** Starts the commit timeout once, when enough precommits are in. */
  function ScheduleCommit(s: Node, enough: bool): Node {
    if enough && !s.triggeredPrecommit then
      s.(timeouts := s.timeouts + [Timeout(s.height, s.round, STEP_COMMIT)], triggeredPrecommit := true)
    else s
  }

  function AwaitPrecommits(s: Node): Node {
    if HasAny(s, PRECOMMIT, s.round) then EnterCommit(s, s.height, s.round)
    else ScheduleCommit(s, HasNoMajority(s, PRECOMMIT, s.round))
  }

  function AddPrecommitVote(s: Node, v: Vote): Node {
    var hash := MajorityOf(s, PRECOMMIT, v.round);
    if s.step != STEP_PRECOMMIT then s
    else if hash == Empty then if s.round == v.round then AwaitPrecommits(s) else s
    else if IsNilHash(hash) || (s.proposal.Some? && hash == s.proposal.value.hash) then
        EnterCommit(s, s.height, s.round)
    else s
  }

  function ActOn(s: Node, v: Vote): Node {
    if v.typ.PREVOTE? then AddPrevoteVote(s, v) else AddPrecommitVote(s, v)
  }

  function AddVote(s: Node, v: Vote): Node {
    if Addable(s, v) then ActOn(WithVote(s, v), v) else WithVote(s, v)
  }

  /** A vote message is handled when it is for this height, for this round at no later step
      than `latest` or for a later round, and its signature checks out or it is one's own. */
  predicate Receives(s: Node, v: Vote, authentic: bool, latest: Step) {
    && s.height == v.height && s.round <= v.round
    && (s.round == v.round ==> Rank(s.step) <= Rank(latest))
    && (v.voter == s.id || authentic)
  }

  // ---------------------------------------------------------------- handlers

  function HandleProposedBlock(cfg: Config, s: Node, blockHeight: nat, hash: Hash, signs: bool): Node {
    if blockHeight != s.height || cfg.proposer(s.height, s.round) != Some(s.id) || s.step != STEP_PROPOSE
        || !signs then s
    else EnterPrevote(s.(proposal := Some(Proposal(s.id, s.height, s.round, blockHeight, hash))), s.height, s.round)
  }

  /** Hands over the verified block, which already has a precommit majority. */
  function CommitVerified(s: Node): Node
    requires s.verifying.Some?
  {
    var p := s.verifying.value;
    s.(proposal := s.verifying, commits := s.commits + [Commit(p.blockHeight, s.round, p.hash)])
  }

  function PrevoteVerified(s: Node, hash: Hash, dposOk: bool): Node
    requires s.verifying.Some?
  {
    if s.step != STEP_PROPOSE || s.verifying.value.hash != hash then s.(verifying := None)
    else if !dposOk then s
    else EnterPrevote(s.(proposal := s.verifying), s.height, s.round)
  }

  /** A verified block is handed over if a precommit majority waits for it, and prevoted else. */
  function TakeVerified(s: Node, hash: Hash, dposOk: bool): Node
    requires s.verifying.Some?
  {
    if s.verifying.value.hash == hash && hash != Empty && MajorityOf(s, PRECOMMIT, s.round) == hash then
        CommitVerified(s)
    else PrevoteVerified(s, hash, dposOk)
  }

  function HandleVerifyResult(s: Node, height: nat, hash: Hash, success: bool, dposOk: bool): Node {
    if s.verifying.None? then s
    else if s.height == height && s.round == s.verifying.value.round && !success then s.(verifying := None)
    else TakeVerified(s, hash, dposOk)
  }

  function ProcPropose(cfg: Config, s: Node, p: Proposal, authentic: bool): Node {
    if !authentic || s.height != p.blockHeight || s.round != p.round || s.step != STEP_PROPOSE
       || cfg.proposer(p.height, p.round) != Some(p.voter) || s.proposal.Some? || s.verifying.Some? then s
    else s.(verifying := Some(p))
  }

  function HandleTimeout(s: Node, ti: Timeout): Node {
    match ti.step
    case STEP_PREVOTE => EnterPrevote(s, ti.height, ti.round)
    case STEP_PRECOMMIT => EnterPrecommit(s, ti.height, ti.round)
    case STEP_COMMIT => EnterCommit(s, ti.height, ti.round)
    case _ => s
  }

  /** A block of this height or a later one is in the ledger: the node goes to the height after it. */
  function MoveOn(cfg: Config, s: Node, committed: nat): Node {
    if s.height > committed then s else EnterNewHeight(cfg, s, committed + 1)
  }

  function Handle(cfg: Config, s: Node, e: Event): Node {
    if s.fault != Running then s
    else match e
      case ProposedBlock(blockHeight, hash, signs) => HandleProposedBlock(cfg, s, blockHeight, hash, signs)
      case VerifyResult(height, hash, success, dposOk) => HandleVerifyResult(s, height, hash, success, dposOk)
      case BlockHeight(height) => MoveOn(cfg, s, height)
      case ProposeMsg(p, authentic) => ProcPropose(cfg, s, p, authentic)
      case PrevoteMsg(v, authentic) => if Receives(s, v, authentic, STEP_PREVOTE) then AddVote(s, v) else s
      case PrecommitMsg(v, authentic) => if Receives(s, v, authentic, STEP_PRECOMMIT) then AddVote(s, v) else s
      case TimeoutFired(ti) => HandleTimeout(s, ti)
  }

  function Blank(id: NodeId): Node {
    Node(id, [], 0, 0, STEP_NEW_HEIGHT, None, None, false, false, map[], [], [], [], {}, Running)
  }

  /** A node started on a ledger whose last block has height `ledger`. */
  function Start(cfg: Config, id: NodeId, ledger: nat): Node {
    EnterNewHeight(cfg, Blank(id), ledger + 1)
  }

  /** An event a node may meet: only timeouts it scheduled fire. */
  ghost predicate Possible(s: Node, e: Event) {
    e.TimeoutFired? ==> e.ti in s.timeouts
  }

  function Final(cfg: Config, s: Node, es: seq<Event>): Node
    decreases |es|
  {
    if es == [] then s else Final(cfg, Handle(cfg, s, es[0]), es[1..])
  }

  // ---------------------------------------------------------------- the node invariant

  /** (height, round, step) in lexicographic order. */
  predicate PlaceLe(s: Node, s': Node) {
    || s.height < s'.height
    || (s.height == s'.height && s.round < s'.round)
    || (s.height == s'.height && s.round == s'.round && Rank(s.step) <= Rank(s'.step))
  }

  /** No vote signed at a (type, height, round) again, and none ahead of the node's place. */
  ghost predicate SignsOnce(s: Node) {
    && (forall i :: 0 <= i < |s.signed| ==> s.signed[i].voter == s.id && Reached(s, s.signed[i]))
    && (forall i, j :: 0 <= i < j < |s.signed| ==> !SameSlot(s.signed[i], s.signed[j]))
  }

  predicate SameSlot(v: Vote, v': Vote) {
    v.typ == v'.typ && v.height == v'.height && v.round == v'.round
  }

  predicate Reached(s: Node, v: Vote) {
    || v.height < s.height
    || (v.height == s.height && v.round < s.round)
    || (v.height == s.height && v.round == s.round
         && Rank(if v.typ.PREVOTE? then STEP_PREVOTE else STEP_PRECOMMIT) <= Rank(s.step))
  }

  /** Every scheduled timeout is for a place the node has reached or passed. */
  ghost predicate TimeoutsBehind(s: Node) {
    forall t :: t in s.timeouts ==> t.height < s.height || (t.height == s.height && t.round <= s.round)
  }

  /** Every ballot of the current height is a recorded vote of a validator. */
  ghost predicate BallotsRecorded(s: Node) {
    forall typ, r: nat, v :: VotesOf(s, typ, r).Some? && v in VotesOf(s, typ, r).value ==>
      v in s.validators && Vote(typ, v, s.height, r, VotesOf(s, typ, r).value[v]) in s.recorded
  }

  ghost predicate ProposalsCurrent(s: Node) {
    && (s.proposal.Some? ==> s.proposal.value.blockHeight == s.height && s.proposal.value.round == s.round)
    && (s.verifying.Some? ==> s.verifying.value.blockHeight == s.height && s.verifying.value.round == s.round)
  }

  /** Each validator in `q`, a quorum at `height`, has a recorded vote of one kind for `hash`. */
  ghost predicate IsQuorumFor(
      cfg: Config, recorded: set<Vote>, typ: VoteType, height: nat, round: nat, hash: Hash, q: set<NodeId>)
  {
    && q <= Voters(cfg.validators(height)) && |q| >= Quorum(|cfg.validators(height)|)
    && forall v :: v in q ==> Vote(typ, v, height, round, hash) in recorded
  }

  ghost predicate QuorumFor(cfg: Config, recorded: set<Vote>, typ: VoteType, height: nat, round: nat, hash: Hash) {
    exists q :: IsQuorumFor(cfg, recorded, typ, height, round, hash, q)
  }

  /** A non-nil precommit has a prevote quorum behind it; a commit, a precommit quorum. */
  ghost predicate Justified(cfg: Config, s: Node) {
    && (forall v :: v in s.signed && v.typ.PRECOMMIT? && !IsNilHash(v.hash) ==>
         QuorumFor(cfg, s.recorded, PREVOTE, v.height, v.round, v.hash))
    && (forall c :: c in s.commits ==> QuorumFor(cfg, s.recorded, PRECOMMIT, c.height, c.round, c.hash))
  }

  ghost predicate Inv(cfg: Config, s: Node) {
    && s.validators == cfg.validators(s.height) && Rank(s.step) >= Rank(STEP_PROPOSE)
    && SignsOnce(s) && TimeoutsBehind(s) && BallotsRecorded(s) && ProposalsCurrent(s) && Justified(cfg, s)
  }
}
