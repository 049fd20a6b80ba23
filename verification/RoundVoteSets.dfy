/**
 The vote sets of one height: a pair of vote-set objects per round, made when the first vote of
 the round arrives. Seen as ballots, filing a vote and asking for majorities is what the TBFT
 machine does with its rounds.
 */
module RoundVoteSets {
  import opened Options
  import opened Votes
  import Tbft

  /** The vote sets of one round. */
  datatype RoundVoteSet = RoundVoteSet(prevotes: VoteSet, precommits: VoteSet)

  function SetFor(rv: RoundVoteSet, typ: VoteType): VoteSet {
    if typ.PREVOTE? then rv.prevotes else rv.precommits
  }

  ghost function BallotsHeld(rv: RoundVoteSet): Tbft.RoundVotes
    reads rv.prevotes`ballots, rv.precommits`ballots
  {
    Tbft.RoundVotes(rv.prevotes.ballots, rv.precommits.ballots)
  }

  ghost predicate AllValid(sets: set<VoteSet>)
    reads sets`sum, sets`maj23, sets`votes, sets`votesByBlock, sets`ballots
  {
    forall vs {:trigger vs.Valid()} :: vs in sets ==> vs.Valid()
  }

  lemma AllValidTogether(sets: set<VoteSet>, sets': set<VoteSet>)
    requires AllValid(sets) && AllValid(sets')
    ensures AllValid(sets + sets')
  {
  }

  /** Adds a vote to one of several vote sets, seen as ballots. */
  method Give(ghost sets: set<VoteSet>, vs: VoteSet, v: Vote) returns (added: bool)
    requires vs in sets && AllValid(sets)
    modifies vs`sum, vs`maj23, vs`votes, vs`votesByBlock, vs`ballots
    ensures AllValid(sets) && added == (vs.Admissible(v) && v.voter !in old(vs.ballots))
    ensures vs.ballots == if added then old(vs.ballots)[v.voter := v.hash] else old(vs.ballots)
  {
    assert vs.Valid();
    added := GiveOne(vs, v);
  }

  method GiveOne(vs: VoteSet, v: Vote) returns (added: bool)
    requires vs.Valid()
    modifies vs`sum, vs`maj23, vs`votes, vs`votesByBlock, vs`ballots
    ensures vs.Valid() && added == (vs.Admissible(v) && v.voter !in old(vs.ballots))
    ensures vs.ballots == if added then old(vs.ballots)[v.voter := v.hash] else old(vs.ballots)
  {
    var err;
    added, err := vs.AddVote(Some(v));
  }

  lemma FiledIn(before: map<nat, Tbft.RoundVotes>, r: nat, rv: Tbft.RoundVotes)
    ensures before[r := Tbft.RoundIn(before, r)][r := rv] == before[r := rv]
  {
  }

  class HeightRoundVoteSet {
    const height: nat
    const validators: seq<NodeId>
    var rounds: map<nat, RoundVoteSet>
    /** The vote-set objects in `rounds`. */
    ghost var sets: set<VoteSet>
    /** The ballots of each round. */
    ghost var ballots: map<nat, Tbft.RoundVotes>

    predicate IsFor(vs: VoteSet, typ: VoteType, r: nat) {
      vs.typ == typ && vs.height == height && vs.round == r && vs.validators == validators
    }

    /** Each round has its own vote sets. */
    ghost predicate Arranged()
      reads this`rounds, this`sets
    {
      forall r :: r in rounds ==>
        && rounds[r].prevotes in sets && IsFor(rounds[r].prevotes, PREVOTE, r)
        && rounds[r].precommits in sets && IsFor(rounds[r].precommits, PRECOMMIT, r)
    }

    /** The ballots noted for each round are those its vote sets hold. */
    ghost predicate Noted()
      requires Arranged()
      reads this`rounds, this`sets, this`ballots, sets`ballots
    {
      ballots.Keys == rounds.Keys && forall r :: r in rounds ==> ballots[r] == BallotsHeld(rounds[r])
    }

    ghost predicate Valid()
      reads this, sets
    {
      Arranged() && Noted() && AllValid(sets)
    }

    constructor (height: nat, validators: seq<NodeId>)
      ensures Valid() && this.height == height && this.validators == validators && ballots == map[] && sets == {}
    {
      this.height, this.validators, rounds, sets, ballots := height, validators, map[], {}, map[];
    }

    method MakeRound(r: nat) returns (rv: RoundVoteSet)
      ensures fresh(rv.prevotes) && IsFor(rv.prevotes, PREVOTE, r)
      ensures fresh(rv.precommits) && IsFor(rv.precommits, PRECOMMIT, r)
      ensures AllValid({rv.prevotes, rv.precommits}) && BallotsHeld(rv) == Tbft.RoundVotes(map[], map[])
    {
      var prevotes := new VoteSet(PREVOTE, height, r, validators);
      var precommits := new VoteSet(PRECOMMIT, height, r, validators);
      rv := RoundVoteSet(prevotes, precommits);
    }

    /** Sees to it that a round has vote sets. */
    method EnsureRound(r: nat)
      requires Valid()
      modifies this`rounds, this`sets, this`ballots
      ensures Valid() && fresh(sets - old(sets)) && r in rounds
      ensures ballots == old(ballots)[r := Tbft.RoundIn(old(ballots), r)]
    {
      if r in rounds { return; }
      var rv := MakeRound(r);
      Attach(r, rv);
    }

    method Attach(r: nat, rv: RoundVoteSet)
      requires Valid() && r !in rounds && IsFor(rv.prevotes, PREVOTE, r) && IsFor(rv.precommits, PRECOMMIT, r)
      requires AllValid({rv.prevotes, rv.precommits})
      modifies this`rounds, this`sets, this`ballots
      ensures Valid() && sets == old(sets) + {rv.prevotes, rv.precommits} && r in rounds
      ensures ballots == old(ballots)[r := BallotsHeld(rv)]
    {
      AllValidTogether(sets, {rv.prevotes, rv.precommits});
      rounds := rounds[r := rv];
      sets, ballots := sets + {rv.prevotes, rv.precommits}, ballots[r := BallotsHeld(rv)];
    }

    ghost method Note(now: map<nat, Tbft.RoundVotes>)
      requires AllValid(sets)
      modifies this`ballots
      ensures ballots == now && AllValid(sets)
    {
      ballots := now;
    }

    /** Before, the vote sets held `held` and the rounds `before`; one took a vote, or not. */
    lemma NotedAfter(vs: VoteSet, v: Vote, added: bool, held: map<VoteSet, Ballots>, before: map<nat, Tbft.RoundVotes>)
      requires Arranged() && v.round in rounds && vs == SetFor(rounds[v.round], v.typ)
      requires held.Keys == sets && before.Keys == rounds.Keys
      requires forall r :: r in rounds ==>
          before[r] == Tbft.RoundVotes(held[rounds[r].prevotes], held[rounds[r].precommits])
      requires ballots == before[v.round := Tbft.Filing(before[v.round], v, added)]
      requires vs.ballots == if added then held[vs][v.voter := v.hash] else held[vs]
      requires forall o :: o in sets && o != vs ==> o.ballots == held[o]
      ensures Noted()
    {
      forall r | r in rounds && r != v.round ensures rounds[r].prevotes != vs && rounds[r].precommits != vs {
        assert IsFor(vs, v.typ, v.round);
      }
      assert rounds[v.round].prevotes != rounds[v.round].precommits;
    }

    /** Adds a vote to the set of its kind in a round that has sets. */
    method AddToRound(v: Vote) returns (added: bool)
      requires Valid() && v.round in rounds
      modifies this`ballots, sets`sum, sets`maj23, sets`votes, sets`votesByBlock, sets`ballots
      ensures Valid() && ballots == old(ballots)[v.round := Tbft.Filing(old(ballots)[v.round], v, added)]
      ensures added == (v.height == height && v.voter in validators
          && v.voter !in Tbft.BallotsFor(old(ballots)[v.round], v.typ))
    {
      var vs := SetFor(rounds[v.round], v.typ);
      assert IsFor(vs, v.typ, v.round) && vs.ballots == Tbft.BallotsFor(ballots[v.round], v.typ);
      ghost var held, before := map o | o in sets :: o.ballots, ballots;
      added := Give(sets, vs, v);
      Note(before[v.round := Tbft.Filing(before[v.round], v, added)]);
      NotedAfter(vs, v, added, held, before);
    }

    /** Files a vote in the vote set of its kind and round, which is made if there is none. */
    method AddVote(v: Vote) returns (added: bool)
      requires Valid()
      modifies this`rounds, this`sets, this`ballots, sets`sum, sets`maj23, sets`votes, sets`votesByBlock, sets`ballots
      ensures Valid() && fresh(sets - old(sets))
      ensures var rv := Tbft.RoundIn(old(ballots), v.round);
              && added == (v.height == height && v.voter in validators && v.voter !in Tbft.BallotsFor(rv, v.typ))
              && ballots == old(ballots)[v.round := Tbft.Filing(rv, v, added)]
    {
      ghost var before := ballots;
      EnsureRound(v.round);
      added := AddToRound(v);
      FiledIn(before, v.round, Tbft.Filing(Tbft.RoundIn(before, v.round), v, added));
    }

    // -------------------------------------------------------------- asking the vote sets

    ghost function BallotsAt(typ: VoteType, r: nat): Option<Ballots>
      reads this`ballots
    {
      if r in ballots then Some(Tbft.BallotsFor(ballots[r], typ)) else None
    }

    /** The vote set of a kind in a round, if there is one. */
    method VoteSetOf(typ: VoteType, r: nat) returns (vs: VoteSet?)
      requires Valid()
      ensures vs == null <==> BallotsAt(typ, r).None?
      ensures vs != null ==> vs in sets && vs.Valid() && IsFor(vs, typ, r) && BallotsAt(typ, r) == Some(vs.ballots)
    {
      if r !in rounds { return null; }
      vs := SetFor(rounds[r], typ);
      assert vs.Valid();
    }

    /** The majority a round's vote set reports is the hash with a quorum of its ballots. */
    method TwoThirdsMajority(typ: VoteType, r: nat) returns (hash: Hash)
      requires Valid()
      ensures hash == if BallotsAt(typ, r).None? then Empty else Majority(BallotsAt(typ, r).value, |validators|)
    {
      var vs := VoteSetOf(typ, r);
      if vs == null { return Empty; }
      var ok;
      hash, ok := vs.TwoThirdsMajority();
      ReportedMajority(vs, hash);
    }

    method HasTwoThirdsAny(typ: VoteType, r: nat) returns (any: bool)
      requires Valid()
      ensures any == (BallotsAt(typ, r).Some? && TwoThirdsAny(BallotsAt(typ, r).value, |validators|))
    {
      var vs := VoteSetOf(typ, r);
      if vs == null { return false; }
      any := vs.HasTwoThirdsAny();
    }

    method HasTwoThirdsNoMajority(typ: VoteType, r: nat) returns (enough: bool)
      requires Valid()
      ensures enough == (BallotsAt(typ, r).Some? && |BallotsAt(typ, r).value| >= Quorum(|validators|))
    {
      var vs := VoteSetOf(typ, r);
      if vs == null { return false; }
      enough := vs.HasTwoThirdsNoMajority();
    }

    /** The certificate of a round whose precommits have a majority passes verification for it. */
    method Certificate(r: nat) returns (qc: VoteSetProto)
      requires Valid() && BallotsAt(PRECOMMIT, r).Some?
      ensures qc.typ.PRECOMMIT? && qc.height == height && qc.round == r && WellKeyed(qc)
      ensures BallotsOf(Admitted(qc, validators)) == BallotsAt(PRECOMMIT, r).value
    {
      var vs := VoteSetOf(PRECOMMIT, r);
      qc := vs.ToProto();
      assert Admitted(qc, validators) == vs.votes;
    }
  }

  lemma ReportedMajority(vs: VoteSet, hash: Hash)
    requires vs.Valid() && (hash == Empty ==> forall h :: !Quorate(BallotsOf(vs.votes), |vs.validators|, h))
    requires hash != Empty ==> Quorate(BallotsOf(vs.votes), |vs.validators|, hash)
    ensures hash == Majority(vs.ballots, |vs.validators|)
  {
    vs.Bounds();
    assert BallotsOf(vs.votes).Keys == vs.votes.Keys;
    assert IsMajority(BallotsOf(vs.votes), |vs.validators|, Majority(BallotsOf(vs.votes), |vs.validators|));
  }
}
