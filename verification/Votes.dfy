/**
 TBFT vote sets: one vote per validator, a running tally per block hash, and the first hash
 to reach the quorum recorded as the two-thirds majority.
 */
module Votes {
  import opened Options
  import Ordering

  datatype NodeId = NodeId(name: string)

  /** A block hash: the nil slice, the marker of a vote for no block, or any other bytes. */
  datatype Hash = Empty | NilHash | Digest(bytes: string)

  datatype VoteType = PREVOTE | PRECOMMIT

  datatype Vote = Vote(typ: VoteType, voter: NodeId, height: nat, round: nat, hash: Hash)

  datatype Error = VoteNil | UnexpectedStep | InvalidValidator | VoteForDifferentHash

  /** The votes of a set by voter, reduced to the hash each voter chose. */
  type Ballots = map<NodeId, Hash>

  /** The least number of votes above two thirds of `n`. */
  function Quorum(n: nat): (q: nat)
    ensures 3 * q > 2 * n && 3 * (q - 1) <= 2 * n
  {
    n * 2 / 3 + 1
  }

  function Supporters(b: Ballots, h: Hash): set<NodeId> {
    set v | v in b && b[v] == h
  }

  function Tally(b: Ballots, h: Hash): nat {
    |Supporters(b, h)|
  }

  predicate Quorate(b: Ballots, n: nat, h: Hash) {
    h != Empty && Tally(b, h) >= Quorum(n)
  }

  /** `m` is the hash with a quorum, or the empty hash when no non-empty hash has one. */
  ghost predicate IsMajority(b: Ballots, n: nat, m: Hash) {
    && (m != Empty ==> Quorate(b, n, m))
    && (forall h :: Quorate(b, n, h) ==> h == m)
  }

  // ---------------------------------------------------------------- counting

  function Voters(validators: seq<NodeId>): set<NodeId> {
    set v | v in validators
  }

  ghost predicate NoDuplicates(validators: seq<NodeId>) {
    forall i, j :: 0 <= i < j < |validators| ==> validators[i] != validators[j]
  }

  lemma {:induction false} VotersBound(validators: seq<NodeId>)
    ensures |Voters(validators)| <= |validators|
    ensures NoDuplicates(validators) ==> |Voters(validators)| == |validators|
  {
    if validators != [] {
      var front, last := validators[..|validators| - 1], validators[|validators| - 1];
      VotersBound(front);
      assert Voters(validators) == Voters(front) + {last};
      if NoDuplicates(validators) {
        assert last !in Voters(front);
      }
    }
  }

  lemma BallotsBound(b: Ballots, validators: seq<NodeId>)
    requires b.Keys <= Voters(validators)
    ensures |b| <= |validators|
  {
    Ordering.SubsetSize(b.Keys, Voters(validators));
    VotersBound(validators);
  }

  /** Two hashes cannot both have a quorum. */
  lemma QuorumIsUnique(b: Ballots, n: nat, h: Hash, h': Hash)
    requires |b| <= n && Tally(b, h) >= Quorum(n) && Tally(b, h') >= Quorum(n)
    ensures h == h'
  {
    if h != h' {
      var s, s' := Supporters(b, h), Supporters(b, h');
      assert s !! s';
      assert |s + s'| == |s| + |s'|;
      Ordering.SubsetSize(s + s', b.Keys);
    }
  }

  lemma MajorityIsUnique(b: Ballots, n: nat, m: Hash, m': Hash)
    requires IsMajority(b, n, m) && IsMajority(b, n, m')
    ensures m == m'
  {
  }

  /** Later ballots extend earlier ones. */
  ghost predicate Grows(b: Ballots, b': Ballots) {
    forall v :: v in b ==> v in b' && b'[v] == b[v]
  }

  /** Once set, the majority never changes. */
  lemma MajorityIsStable(b: Ballots, b': Ballots, n: nat, m: Hash, m': Hash)
    requires Grows(b, b') && |b'| <= n
    requires IsMajority(b, n, m) && IsMajority(b', n, m') && m != Empty
    ensures m' == m
  {
    Ordering.SubsetSize(Supporters(b, m), Supporters(b', m));
    assert Quorate(b', n, m);
  }

  lemma SupportersAfterVote(b: Ballots, voter: NodeId, hash: Hash, h: Hash)
    requires voter !in b
    ensures Supporters(b[voter := hash], h) == if h == hash then Supporters(b, h) + {voter} else Supporters(b, h)
  {
  }

  lemma TallyAfterVote(b: Ballots, voter: NodeId, hash: Hash, h: Hash)
    requires voter !in b
    ensures Tally(b[voter := hash], h) == Tally(b, h) + if h == hash then 1 else 0
  {
    SupportersAfterVote(b, voter, hash, h);
    assert voter !in Supporters(b, h);
  }

  /** What one new vote does to the majority, decided from the voted hash's tally alone. */
  lemma MajorityAfterVote(b: Ballots, n: nat, m: Hash, voter: NodeId, hash: Hash, m': Hash)
    requires voter !in b && |b| < n && IsMajority(b, n, m)
    requires m' == if Tally(b, hash) < Quorum(n) <= Tally(b, hash) + 1 && m == Empty then hash else m
    ensures IsMajority(b[voter := hash], n, m')
  {
    var b' := b[voter := hash];
    forall h ensures Tally(b', h) == Tally(b, h) + if h == hash then 1 else 0 {
      TallyAfterVote(b, voter, hash, h);
    }
    assert |b'| == |b| + 1;
    forall h | Quorate(b', n, h) ensures h == m' {
      if m != Empty {
        QuorumIsUnique(b', n, h, m);
      } else {
        assert !Quorate(b, n, h);
      }
    }
  }

  /** The majority as a function of the ballots. */
  function Majority(b: Ballots, n: nat): (m: Hash)
    ensures |b| <= n ==> IsMajority(b, n, m)
    ensures m != Empty ==> Quorate(b, n, m)
  {
    VotedIfQuorate(b, n);
    if |b| <= n && exists h :: h in b.Values && Quorate(b, n, h) then
      UniqueIfQuorate(b, n);
      var h :| h in b.Values && Quorate(b, n, h);
      h
    else Empty
  }

  lemma VotedIfQuorate(b: Ballots, n: nat)
    ensures forall h :: Quorate(b, n, h) ==> h in b.Values
  {
    forall h | Quorate(b, n, h) ensures h in b.Values {
      var v :| v in Supporters(b, h);
      assert b[v] == h;
    }
  }

  lemma UniqueIfQuorate(b: Ballots, n: nat)
    requires |b| <= n
    ensures forall h, h' :: Quorate(b, n, h) && Quorate(b, n, h') ==> h == h'
  {
    forall h, h' | Quorate(b, n, h) && Quorate(b, n, h') ensures h == h' {
      QuorumIsUnique(b, n, h, h');
    }
  }

  // ---------------------------------------------------------------- hopeless rounds

  predicate TwoThirdsAny(b: Ballots, n: nat) {
    forall h :: h in b.Values ==> Tally(b, h) + (n - |b|) < Quorum(n)
  }

  /** `b'` extends `b` by votes of further members of `all`. */
  ghost predicate Completes(b: Ballots, b': Ballots, all: set<NodeId>) {
    Grows(b, b') && b'.Keys <= all
  }

  lemma LeftToVote(b: Ballots, all: set<NodeId>)
    requires b.Keys <= all
    ensures |all - b.Keys| == |all| - |b|
  {
    assert all == b.Keys + (all - b.Keys);
  }

  lemma CompletionBound(b: Ballots, b': Ballots, all: set<NodeId>, h: Hash)
    requires b.Keys <= all && Completes(b, b', all)
    ensures Tally(b', h) <= Tally(b, h) + (|all| - |b|)
  {
    var rest := all - b.Keys;
    LeftToVote(b, all);
    Ordering.SubsetSize(Supporters(b', h), Supporters(b, h) + rest);
    assert |Supporters(b, h) + rest| == |Supporters(b, h)| + |rest|;
  }

  function Fill(b: Ballots, rest: set<NodeId>, h: Hash): Ballots {
    b + map v | v in rest :: h
  }

  lemma FillSupporters(b: Ballots, rest: set<NodeId>, h: Hash)
    requires b.Keys !! rest
    ensures Supporters(Fill(b, rest, h), h) == Supporters(b, h) + rest
    ensures Grows(b, Fill(b, rest, h)) && Fill(b, rest, h).Keys == b.Keys + rest
  {
  }

  lemma FullCompletion(b: Ballots, all: set<NodeId>, h: Hash) returns (b': Ballots)
    requires b.Keys <= all
    ensures Completes(b, b', all) && Tally(b', h) == Tally(b, h) + (|all| - |b|)
  {
    var rest := all - b.Keys;
    LeftToVote(b, all);
    b' := Fill(b, rest, h);
    FillSupporters(b, rest, h);
    assert |Supporters(b, h) + rest| == |Supporters(b, h)| + |rest|;
  }

  /** With at least one vote in, the test holds exactly when no choice of the remaining
      validators can give any hash a quorum; with no vote in, it holds regardless. */
  lemma TwoThirdsAnyExact(b: Ballots, validators: seq<NodeId>)
    requires NoDuplicates(validators) && b.Keys <= Voters(validators)
    ensures TwoThirdsAny(b, |validators|) <==>
      b == map[] || !exists b', h :: Completes(b, b', Voters(validators)) && Tally(b', h) >= Quorum(|validators|)
  {
    VotersBound(validators);
    SomeHashReachable(b, Voters(validators));
  }

  lemma SomeHashReachable(b: Ballots, all: set<NodeId>)
    requires b.Keys <= all
    ensures TwoThirdsAny(b, |all|) <==>
        b == map[] || !exists b', h :: Completes(b, b', all) && Tally(b', h) >= Quorum(|all|)
  {
    if b != map[] {
      var v :| v in b;
      assert b[v] in b.Values;
      if TwoThirdsAny(b, |all|) {
        forall b', h | Completes(b, b', all) ensures Tally(b', h) < Quorum(|all|) {
          CompletionBound(b, b', all, h);
          if h !in b.Values {
            assert Supporters(b, h) == {};
          }
        }
      } else {
        var h :| h in b.Values && Tally(b, h) + (|all| - |b|) >= Quorum(|all|);
        var b' := FullCompletion(b, all, h);
      }
    }
  }

  // ---------------------------------------------------------------- the vote set

  datatype BlockVotes = BlockVotes(votes: map<NodeId, Vote>, sum: nat)

  datatype VoteSetProto = VoteSetProto(
    typ: VoteType, height: nat, round: nat, sum: nat, maj23: Hash,
    votes: map<NodeId, Vote>, votesByBlock: map<Hash, BlockVotes>)

  ghost function BallotsOf(votes: map<NodeId, Vote>): Ballots {
    map v | v in votes :: votes[v].hash
  }

  class VoteSet {
    const typ: VoteType
    const height: nat
    const round: nat
    const validators: seq<NodeId>
    var sum: nat
    var maj23: Hash
    var votes: map<NodeId, Vote>
    var votesByBlock: map<Hash, BlockVotes>
    /** The hash each voter voted for. */
    ghost var ballots: Ballots

    constructor (typ: VoteType, height: nat, round: nat, validators: seq<NodeId>)
      ensures Valid() && votes == map[] && ballots == map[]
      ensures this.typ == typ && this.height == height && this.round == round && this.validators == validators
    {
      this.typ, this.height, this.round, this.validators := typ, height, round, validators;
      sum, maj23, votes, votesByBlock, ballots := 0, Empty, map[], map[], map[];
      new;
      assert forall h :: Supporters(BallotsOf(votes), h) == {};
    }

    /** The vote is for this set: of its type, height and round. */
    predicate InPlace(vote: Vote) {
      vote.typ == typ && vote.height == height && vote.round == round
    }

    predicate Admissible(vote: Vote) {
      InPlace(vote) && vote.voter in validators
    }

    ghost predicate Valid()
      reads this`sum, this`maj23, this`votes, this`votesByBlock, this`ballots
    {
      && (forall v :: v in votes ==> votes[v].voter == v && Admissible(votes[v]))
      && Consistent(votes, sum, votesByBlock, |validators|, maj23)
      && ballots == BallotsOf(votes)
    }

    lemma Bounds()
      requires Valid()
      ensures sum <= |validators|
    {
      assert BallotsOf(votes).Keys == votes.Keys;
      assert votes.Keys <= Voters(validators);
      BallotsBound(BallotsOf(votes), validators);
    }

    method AddVote(vote: Option<Vote>) returns (added: bool, err: Option<Error>)
      requires Valid()
      modifies this`sum, this`maj23, this`votes, this`votesByBlock, this`ballots
      ensures Valid()
      ensures added <==> vote.Some? && Admissible(vote.value) && vote.value.voter !in old(votes)
      ensures votes == if added then old(votes)[vote.value.voter := vote.value] else old(votes)
      ensures ballots == if added then old(ballots)[vote.value.voter := vote.value.hash] else old(ballots)
      ensures !added ==> unchanged(this)
      ensures old(maj23) != Empty ==> maj23 == old(maj23)
      ensures err == Some(VoteNil) <==> vote.None?
      ensures err == Some(UnexpectedStep) <==> vote.Some? && !InPlace(vote.value)
      ensures err == Some(InvalidValidator) <==> vote.Some? && InPlace(vote.value) && vote.value.voter !in validators
      ensures err == Some(VoteForDifferentHash) <==>
                && vote.Some? && Admissible(vote.value) && vote.value.voter in old(votes)
                && old(votes)[vote.value.voter].hash != vote.value.hash
    {
      if vote.None? {
        return false, Some(VoteNil);
      }
      var v := vote.value;
      if v.typ != typ || v.height != height || v.round != round {
        return false, Some(UnexpectedStep);
      }
      if v.voter !in validators {
        return false, Some(InvalidValidator);
      }
      if v.voter in votes {
        return false, if v.hash == votes[v.voter].hash then None else Some(VoteForDifferentHash);
      }
      Record(v);
      added, err := true, None;
    }

    /** Files a vote of a new voter and notes the majority if this vote completes it. */
    method Record(v: Vote)
      requires Valid() && Admissible(v) && v.voter !in votes
      modifies this`sum, this`maj23, this`votes, this`votesByBlock, this`ballots
      ensures Valid() && votes == old(votes)[v.voter := v] && ballots == old(ballots)[v.voter := v.hash]
      ensures old(maj23) != Empty ==> maj23 == old(maj23)
    {
      NewVoteFits(votes, v);
      BallotsAfterVote(votes, v);
      ballots := ballots[v.voter := v.hash];
      votes, sum, votesByBlock, maj23 := FileConsistently(votes, sum, votesByBlock, |validators|, maj23, v);
    }

    lemma NewVoteFits(before: map<NodeId, Vote>, v: Vote)
      requires (forall u :: u in before ==> before[u].voter == u && Admissible(before[u])) && Admissible(v)
          && v.voter !in before
      ensures |BallotsOf(before)| == |before| < |validators|
    {
      var all := before.Keys + {v.voter};
      assert all <= Voters(validators);
      assert |all| == |before.Keys| + 1;
      Ordering.SubsetSize(all, Voters(validators));
      VotersBound(validators);
      assert BallotsOf(before).Keys == before.Keys;
    }

    method TwoThirdsMajority() returns (hash: Hash, ok: bool)
      requires Valid()
      ensures ok <==> exists h :: Quorate(BallotsOf(votes), |validators|, h)
      ensures if ok then Quorate(BallotsOf(votes), |validators|, hash) else hash == Empty
    {
      if maj23 != Empty {
        return maj23, true;
      }
      return Empty, false;
    }

    method HasTwoThirdsAny() returns (ret: bool)
      requires Valid()
      ensures ret <==> TwoThirdsAny(BallotsOf(votes), |validators|)
    {
      Bounds();
      ret := true;
      var leftSum: nat := |validators| - sum;
      var todo := votesByBlock.Keys;
      while todo != {} && ret
        invariant todo <= votesByBlock.Keys
        invariant ret <==> forall h :: h in votesByBlock.Keys - todo ==>
            votesByBlock[h].sum + leftSum < Quorum(|validators|)
        decreases todo
      {
        var h :| h in todo;
        todo := todo - {h};
        if votesByBlock[h].sum + leftSum >= Quorum(|validators|) {
          ret := false;
        }
      }
      AnyFromIndex(votes, votesByBlock, |validators|);
    }

    method HasTwoThirdsNoMajority() returns (ret: bool)
      requires Valid()
      ensures ret <==> |BallotsOf(votes)| >= Quorum(|validators|)
    {
      assert BallotsOf(votes).Keys == votes.Keys;
      ret := sum >= Quorum(|validators|);
    }

    method ToProto() returns (p: VoteSetProto)
      ensures p == VoteSetProto(typ, height, round, sum, maj23, votes, votesByBlock)
    {
      p := VoteSetProto(typ, height, round, sum, maj23, votes, votesByBlock);
    }
  }

  /** `bv` files exactly the votes for `h`. */
  ghost predicate Filed(votes: map<NodeId, Vote>, h: Hash, bv: BlockVotes) {
    && (forall v :: v in bv.votes <==> v in votes && votes[v].hash == h)
    && (forall v :: v in bv.votes ==> bv.votes[v] == votes[v])
  }

  ghost predicate VotedFor(votes: map<NodeId, Vote>, h: Hash) {
    exists v :: v in votes && votes[v].hash == h
  }

  /** The running sums, the index and the majority agree with the votes. */
  ghost predicate Consistent(votes: map<NodeId, Vote>, sum: nat, index: map<Hash, BlockVotes>, n: nat, maj23: Hash) {
    && sum == |votes|
    && Indexed(votes, index) && Summed(index)
    && IsMajority(BallotsOf(votes), n, maj23)
  }

  function MajorityAfter(index: map<Hash, BlockVotes>, n: nat, maj23: Hash, hash: Hash): Hash {
    var oldSum := FiledVotes(index, hash).sum;
    if oldSum < Quorum(n) <= oldSum + 1 && maj23 == Empty then hash else maj23
  }

  lemma NewVoteConsistent(
      votes: map<NodeId, Vote>, sum: nat, index: map<Hash, BlockVotes>, n: nat, maj23: Hash, v: Vote)
    requires Consistent(votes, sum, index, n, maj23) && v.voter !in votes && |BallotsOf(votes)| == |votes| < n
    ensures Consistent(votes[v.voter := v], sum + 1, FileVote(index, v), n, MajorityAfter(index, n, maj23, v.hash))
    ensures votes[v.voter := v] + FileVote(index, v)[v.hash].votes == votes[v.voter := v]
  {
    NewVoteIndexed(votes, index, v);
    NewVoteSummed(votes, index, v);
    CountsAgree(votes, index, v.hash);
    BallotsAfterVote(votes, v);
    MajorityAfterVote(BallotsOf(votes), n, maj23, v.voter, v.hash, MajorityAfter(index, n, maj23, v.hash));
    MergeIsIdle(votes[v.voter := v], v.hash, FileVote(index, v)[v.hash]);
  }

  /** Files a vote and notes its hash as the majority if it completes the first quorum. Merging in
      the votes for that hash adds nothing, since they are all there. */
  method Tabulate(votes: map<NodeId, Vote>, sum: nat, index: map<Hash, BlockVotes>, n: nat, maj23: Hash, v: Vote)
    returns (votes': map<NodeId, Vote>, sum': nat, index': map<Hash, BlockVotes>, maj23': Hash)
    requires votes[v.voter := v] + FileVote(index, v)[v.hash].votes == votes[v.voter := v]
    ensures votes' == votes[v.voter := v] && sum' == sum + 1 && index' == FileVote(index, v)
    ensures maj23' == MajorityAfter(index, n, maj23, v.hash)
  {
    votes', sum', maj23' := votes[v.voter := v], sum + 1, maj23;
    var blockVotes := FiledVotes(index, v.hash);
    var oldSum, quorum := blockVotes.sum, Quorum(n);
    blockVotes := BlockVotes(blockVotes.votes[v.voter := v], blockVotes.sum + 1);
    index' := index[v.hash := blockVotes];
    if oldSum < quorum && quorum <= blockVotes.sum && maj23 == Empty {
      maj23' := v.hash;
      votes' := votes' + blockVotes.votes;
    }
  }

  method FileConsistently(
      votes: map<NodeId, Vote>, sum: nat, index: map<Hash, BlockVotes>, n: nat, maj23: Hash, v: Vote)
    returns (votes': map<NodeId, Vote>, sum': nat, index': map<Hash, BlockVotes>, maj23': Hash)
    requires Consistent(votes, sum, index, n, maj23) && v.voter !in votes && |BallotsOf(votes)| == |votes| < n
    ensures Consistent(votes', sum', index', n, maj23') && votes' == votes[v.voter := v]
    ensures maj23 != Empty ==> maj23' == maj23
  {
    NewVoteConsistent(votes, sum, index, n, maj23, v);
    votes', sum', index', maj23' := Tabulate(votes, sum, index, n, maj23, v);
  }

  lemma MergeIsIdle(votes: map<NodeId, Vote>, h: Hash, bv: BlockVotes)
    requires Filed(votes, h, bv)
    ensures votes + bv.votes == votes
  {
  }

  /** The per-hash index files every vote, under every hash voted for and no other. */
  ghost predicate Indexed(votes: map<NodeId, Vote>, index: map<Hash, BlockVotes>) {
    forall h :: (h in index <==> VotedFor(votes, h)) && (h in index ==> Filed(votes, h, index[h]))
  }

  ghost predicate Summed(index: map<Hash, BlockVotes>) {
    forall h :: h in index ==> index[h].sum == |index[h].votes|
  }

  function FiledVotes(index: map<Hash, BlockVotes>, h: Hash): BlockVotes {
    if h in index then index[h] else BlockVotes(map[], 0)
  }

  lemma BallotsAfterVote(votes: map<NodeId, Vote>, v: Vote)
    ensures BallotsOf(votes[v.voter := v]) == BallotsOf(votes)[v.voter := v.hash]
  {
  }

  lemma IndexIsDetermined(votes: map<NodeId, Vote>, index: map<Hash, BlockVotes>, index': map<Hash, BlockVotes>)
    requires Indexed(votes, index) && Summed(index) && Indexed(votes, index') && Summed(index')
    ensures index == index'
  {
    forall h | h in index ensures index[h] == index'[h] {
      FiledIsDetermined(votes, h, index[h], index'[h]);
    }
  }

  lemma FiledIsDetermined(votes: map<NodeId, Vote>, h: Hash, bv: BlockVotes, bv': BlockVotes)
    requires Filed(votes, h, bv) && Filed(votes, h, bv') && bv.sum == |bv.votes| && bv'.sum == |bv'.votes|
    ensures bv == bv'
  {
    assert bv.votes == bv'.votes;
  }

  lemma FiledSupporters(votes: map<NodeId, Vote>, h: Hash, bv: BlockVotes)
    requires Filed(votes, h, bv)
    ensures bv.votes.Keys == Supporters(BallotsOf(votes), h)
  {
  }

  lemma CountsAgree(votes: map<NodeId, Vote>, index: map<Hash, BlockVotes>, h: Hash)
    requires Indexed(votes, index) && Summed(index)
    ensures Tally(BallotsOf(votes), h) == FiledVotes(index, h).sum
  {
    FiledSupporters(votes, h, FiledVotes(index, h));
    assert |FiledVotes(index, h).votes.Keys| == |FiledVotes(index, h).votes|;
  }

  lemma VotedHashes(votes: map<NodeId, Vote>, h: Hash)
    ensures VotedFor(votes, h) <==> h in BallotsOf(votes).Values
  {
    if VotedFor(votes, h) {
      var v :| v in votes && votes[v].hash == h;
      assert BallotsOf(votes)[v] == h;
    }
  }

  lemma AnyFromIndex(votes: map<NodeId, Vote>, index: map<Hash, BlockVotes>, n: nat)
    requires Indexed(votes, index) && Summed(index)
    ensures TwoThirdsAny(BallotsOf(votes), n) <==> forall h :: h in index ==> index[h].sum + (n - |votes|) < Quorum(n)
  {
    assert BallotsOf(votes).Keys == votes.Keys;
    forall h ensures h in index <==> h in BallotsOf(votes).Values {
      VotedHashes(votes, h);
    }
    forall h | h in index ensures Tally(BallotsOf(votes), h) == index[h].sum {
      CountsAgree(votes, index, h);
    }
  }

  function FileVote(index: map<Hash, BlockVotes>, v: Vote): map<Hash, BlockVotes> {
    var bv := FiledVotes(index, v.hash);
    index[v.hash := BlockVotes(bv.votes[v.voter := v], bv.sum + 1)]
  }

  lemma NewVoteIndexed(votes: map<NodeId, Vote>, index: map<Hash, BlockVotes>, v: Vote)
    requires Indexed(votes, index) && v.voter !in votes
    ensures Indexed(votes[v.voter := v], FileVote(index, v))
  {
    var votes', index' := votes[v.voter := v], FileVote(index, v);
    forall h ensures h in index' <==> VotedFor(votes', h) {
      if VotedFor(votes, h) {
        var u :| u in votes && votes[u].hash == h;
        assert votes'[u].hash == h;
      }
      assert votes'[v.voter].hash == v.hash;
    }
    forall h | h in index' ensures Filed(votes', h, index'[h]) {
      if h in index { assert Filed(votes, h, index[h]); }
    }
  }

  lemma NewVoteSummed(votes: map<NodeId, Vote>, index: map<Hash, BlockVotes>, v: Vote)
    requires Indexed(votes, index) && Summed(index) && v.voter !in votes
    ensures Summed(FileVote(index, v))
  {
    var bv := FiledVotes(index, v.hash);
    assert v.voter !in bv.votes by {
      if v.hash in index { assert Filed(votes, v.hash, index[v.hash]); }
    }
    assert |bv.votes[v.voter := v]| == |bv.votes| + 1;
  }

  // ---------------------------------------------------------------- order of arrival

  ghost predicate OneVoteEach(cast: seq<Vote>) {
    forall i, j :: 0 <= i < j < |cast| ==> cast[i].voter != cast[j].voter
  }

  predicate Contains(votes: map<NodeId, Vote>, v: Vote) {
    v.voter in votes && votes[v.voter] == v
  }

  /** `votes` holds exactly the admissible ones of the first `i` votes cast. */
  ghost predicate HoldsFirst(vs: VoteSet, votes: map<NodeId, Vote>, cast: seq<Vote>, i: nat)
    requires i <= |cast|
  {
    forall v :: Contains(votes, v) <==> v in cast[..i] && vs.Admissible(v)
  }

  lemma CastOneMore(vs: VoteSet, before: map<NodeId, Vote>, after: map<NodeId, Vote>, cast: seq<Vote>, i: nat)
    requires OneVoteEach(cast) && i < |cast| && HoldsFirst(vs, before, cast, i)
    requires forall u :: u in before ==> before[u].voter == u
    requires var v := cast[i];
             after == if vs.Admissible(v) && v.voter !in before then before[v.voter := v] else before
    ensures HoldsFirst(vs, after, cast, i + 1)
  {
    assert cast[..i + 1] == cast[..i] + [cast[i]];
    if cast[i].voter in before { assert Contains(before, before[cast[i].voter]); }
    forall v ensures Contains(after, v) <==> v in cast[..i + 1] && vs.Admissible(v) {
      assert Contains(before, v) <==> v in cast[..i] && vs.Admissible(v);
    }
  }

  /** Adds votes in the order given. When each voter votes once, exactly the admissible ones stay. */
  method AddAll(vs: VoteSet, cast: seq<Vote>)
    requires vs.Valid() && vs.votes == map[] && OneVoteEach(cast)
    modifies vs
    ensures vs.Valid() && forall v :: Contains(vs.votes, v) <==> v in cast && vs.Admissible(v)
  {
    for i := 0 to |cast|
      invariant vs.Valid() && HoldsFirst(vs, vs.votes, cast, i)
    {
      ghost var before := vs.votes;
      var _, _ := vs.AddVote(Some(cast[i]));
      CastOneMore(vs, before, vs.votes, cast, i);
    }
    assert cast[..|cast|] == cast;
  }

  lemma SameContents(votes: map<NodeId, Vote>, votes': map<NodeId, Vote>)
    requires (forall k :: k in votes ==> votes[k].voter == k) && (forall k :: k in votes' ==> votes'[k].voter == k)
    requires forall v :: Contains(votes, v) <==> Contains(votes', v)
    ensures votes == votes'
  {
    forall k | k in votes ensures k in votes' && votes'[k] == votes[k] { assert Contains(votes, votes[k]); }
    forall k | k in votes' ensures k in votes { assert Contains(votes', votes'[k]); }
  }

  /** Two vote sets given the same votes, one of each voter, in different orders end up with the
      same votes, tallies and majority. */
  method ArrivalOrderIrrelevant(vs: VoteSet, vs': VoteSet, cast: seq<Vote>, cast': seq<Vote>)
    requires vs != vs' && vs.Valid() && vs'.Valid() && vs.votes == vs'.votes == map[]
    requires vs.typ == vs'.typ && vs.height == vs'.height && vs.round == vs'.round && vs.validators == vs'.validators
    requires OneVoteEach(cast) && OneVoteEach(cast') && forall v :: v in cast <==> v in cast'
    modifies vs, vs'
    ensures vs.Valid() && vs'.Valid() && vs.votes == vs'.votes && vs.sum == vs'.sum && vs.maj23 == vs'.maj23
    ensures vs.votesByBlock == vs'.votesByBlock
  {
    AddAll(vs, cast);
    AddAll(vs', cast');
    SameContents(vs.votes, vs'.votes);
    MajorityIsUnique(BallotsOf(vs.votes), |vs.validators|, vs.maj23, vs'.maj23);
    IndexIsDetermined(vs.votes, vs.votesByBlock, vs'.votesByBlock);
  }

  // ---------------------------------------------------------------- rebuilding a quorum certificate

  /** Every vote is filed under its voter, as in any proto written by a vote set. */
  ghost predicate WellKeyed(p: VoteSetProto) {
    forall k :: k in p.votes ==> p.votes[k].voter == k
  }

  /** The votes of a proto that a vote set over `validators` admits. */
  ghost function Admitted(p: VoteSetProto, validators: seq<NodeId>): map<NodeId, Vote> {
    map k | k in p.votes && p.votes[k].typ == p.typ && p.votes[k].height == p.height && p.votes[k].round == p.round
         && p.votes[k].voter in validators :: p.votes[k]
  }

  predicate IsFor(vs: VoteSet, p: VoteSetProto, validators: seq<NodeId>) {
    vs.typ == p.typ && vs.height == p.height && vs.round == p.round && vs.validators == validators
  }

  /** The admitted votes outside `todo`. */
  ghost function AdmittedBut(p: VoteSetProto, validators: seq<NodeId>, todo: set<NodeId>): map<NodeId, Vote> {
    map k | k in Admitted(p, validators) && k !in todo :: p.votes[k]
  }

  lemma AdmittedOneMore(p: VoteSetProto, validators: seq<NodeId>, todo: set<NodeId>, k: NodeId)
    requires k in todo && todo <= p.votes.Keys
    ensures k !in AdmittedBut(p, validators, todo)
    ensures AdmittedBut(p, validators, todo - {k})
         == if k in Admitted(p, validators) then AdmittedBut(p, validators, todo)[k := p.votes[k]]
            else AdmittedBut(p, validators, todo)
  {
  }

  /** Rebuilds a vote set by adding the votes of a proto in any order. */
  method NewVoteSetFromProto(p: VoteSetProto, validators: seq<NodeId>) returns (vs: VoteSet)
    ensures fresh(vs) && vs.Valid() && IsFor(vs, p, validators)
    ensures forall v :: v in vs.votes ==> vs.votes[v] in p.votes.Values
    ensures WellKeyed(p) ==> vs.votes == Admitted(p, validators)
  {
    vs := new VoteSet(p.typ, p.height, p.round, validators);
    var todo := p.votes.Keys;
    while todo != {}
      invariant fresh(vs) && vs.Valid() && IsFor(vs, p, validators)
      invariant forall v :: v in vs.votes ==> vs.votes[v] in p.votes.Values
      invariant todo <= p.votes.Keys
      invariant WellKeyed(p) ==> vs.votes == AdmittedBut(p, validators, todo)
      decreases todo
    {
      var k :| k in todo;
      if WellKeyed(p) { AdmittedOneMore(p, validators, todo, k); }
      var _, _ := vs.AddVote(Some(p.votes[k]));
      todo := todo - {k};
    }
  }

  /** The majority part of block verification: rebuild the certificate, require a majority,
      and require that it is for this block. */
  method VerifyQuorum(qc: VoteSetProto, validators: seq<NodeId>, blockHash: Hash) returns (ok: bool)
    ensures WellKeyed(qc) ==> (ok <==> Quorate(BallotsOf(Admitted(qc, validators)), |validators|, blockHash))
    ensures ok ==> HoldsQuorum(qc, qc.votes.Values, validators, blockHash)
  {
    var vs := NewVoteSetFromProto(qc, validators);
    var hash, has := vs.TwoThirdsMajority();
    if !has {
      return false;
    }
    ok := hash == blockHash;
    VotesMakeQuorum(qc, vs, hash);
  }

  /** Among `votes`, each of a quorum of validators has a vote for `hash` at the proto's place. */
  ghost predicate HoldsQuorum(p: VoteSetProto, votes: set<Vote>, validators: seq<NodeId>, hash: Hash) {
    exists q: set<NodeId> :: QuorumVoted(q, p, votes, validators, hash)
  }

  ghost predicate QuorumVoted(q: set<NodeId>, p: VoteSetProto, votes: set<Vote>, validators: seq<NodeId>, hash: Hash) {
    && q <= Voters(validators) && |q| >= Quorum(|validators|)
    && forall v :: v in q ==> Vote(p.typ, v, p.height, p.round, hash) in votes
  }

  lemma VotesMakeQuorum(p: VoteSetProto, vs: VoteSet, hash: Hash)
    requires vs.Valid() && IsFor(vs, p, vs.validators) && forall v :: v in vs.votes ==> vs.votes[v] in p.votes.Values
    requires Quorate(BallotsOf(vs.votes), |vs.validators|, hash)
    ensures HoldsQuorum(p, p.votes.Values, vs.validators, hash)
  {
    var q := Supporters(BallotsOf(vs.votes), hash);
    forall v | v in q ensures v in vs.validators && Vote(p.typ, v, p.height, p.round, hash) in p.votes.Values {
      assert vs.votes[v] == Vote(p.typ, v, p.height, p.round, hash);
    }
    assert QuorumVoted(q, p, p.votes.Values, vs.validators, hash);
  }

  /** The verifier looks neither at the kind nor at the height of a certificate: that of any vote
      set with a majority passes. */
  method AnyKindPasses(vs: VoteSet) returns (ok: bool)
    requires vs.Valid() && vs.maj23 != Empty
    ensures ok
  {
    var p := vs.ToProto();
    AttachedCertificateAccepted(vs);
    ok := VerifyQuorum(p, vs.validators, vs.maj23);
  }

  /** Among the votes the validators admit, a quorum are precommits for `hash` at `height`. */
  ghost predicate PrecommitQuorum(qc: VoteSetProto, validators: seq<NodeId>, height: nat, hash: Hash) {
    exists round :: HoldsQuorum(qc.(typ := PRECOMMIT, height := height, round := round),
                                Admitted(qc, validators).Values, validators, hash)
  }

  /** An accepted certificate stands for a quorum of precommits at a height exactly when it says
      it is one of precommits at that height. */
  lemma StandsForPrecommits(qc: VoteSetProto, validators: seq<NodeId>, height: nat, hash: Hash)
    requires WellKeyed(qc) && Quorate(BallotsOf(Admitted(qc, validators)), |validators|, hash)
    ensures PrecommitQuorum(qc, validators, height, hash) <==> qc.typ.PRECOMMIT? && qc.height == height
  {
    var votes := Admitted(qc, validators);
    if qc.typ.PRECOMMIT? && qc.height == height {
      var q := Supporters(BallotsOf(votes), hash);
      forall v | v in q ensures v in validators && Vote(PRECOMMIT, v, height, qc.round, hash) in votes.Values {
        assert votes[v] == Vote(PRECOMMIT, v, height, qc.round, hash);
      }
      assert QuorumVoted(q, qc, votes.Values, validators, hash);
      assert qc.(typ := PRECOMMIT, height := height, round := qc.round) == qc;
      assert HoldsQuorum(qc, votes.Values, validators, hash);
    }
    if PrecommitQuorum(qc, validators, height, hash) {
      AdmittedAsPrecommits(qc, validators, height, hash);
    }
  }

  lemma AdmittedAsPrecommits(qc: VoteSetProto, validators: seq<NodeId>, height: nat, hash: Hash)
    requires PrecommitQuorum(qc, validators, height, hash)
    ensures qc.typ.PRECOMMIT? && qc.height == height
  {
    var votes := Admitted(qc, validators).Values;
    var round :| HoldsQuorum(qc.(typ := PRECOMMIT, height := height, round := round), votes, validators, hash);
    var q :| QuorumVoted(q, qc.(typ := PRECOMMIT, height := height, round := round), votes, validators, hash);
    assert |q| > 0;
    var v :| v in q;
  }

  /** A vote set read back from its own proto has the same votes, tallies and majority. */
  method RoundTrip(vs: VoteSet) returns (vs': VoteSet)
    requires vs.Valid()
    ensures fresh(vs') && vs'.Valid() && vs'.votes == vs.votes && vs'.sum == vs.sum && vs'.maj23 == vs.maj23
    ensures vs'.votesByBlock == vs.votesByBlock
  {
    var p := vs.ToProto();
    vs' := NewVoteSetFromProto(p, vs.validators);
    assert Admitted(p, vs.validators) == vs.votes;
    MajorityIsUnique(BallotsOf(vs.votes), |vs.validators|, vs.maj23, vs'.maj23);
    IndexIsDetermined(vs.votes, vs.votesByBlock, vs'.votesByBlock);
  }

  /** A certificate attached when a block commits is accepted by every verifier with the same
      validators. */
  lemma AttachedCertificateAccepted(vs: VoteSet)
    requires vs.Valid() && vs.maj23 != Empty
    ensures var p := VoteSetProto(vs.typ, vs.height, vs.round, vs.sum, vs.maj23, vs.votes, vs.votesByBlock);
            WellKeyed(p) && Quorate(BallotsOf(Admitted(p, vs.validators)), |vs.validators|, vs.maj23)
  {
    var p := VoteSetProto(vs.typ, vs.height, vs.round, vs.sum, vs.maj23, vs.votes, vs.votesByBlock);
    assert Admitted(p, vs.validators) == vs.votes;
  }
}
