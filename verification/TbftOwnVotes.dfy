/**
 Agreement without trusting votes under the receiver's own name. The node checks signatures of
 votes by others only, so here a vote that names the receiver may be anything. Two nodes still
 agree if most validators are honest when these two are counted among the faulty.
 */
module TbftOwnVotes {
  import opened Votes
  import opened Tbft
  import opened TbftSafety

  /** Only a vote an honest node signed passes, at other nodes, for a vote of that node. */
  ghost predicate GenuineOfOthers(net: Network, a: Action) {
    IsVoteMsg(a.event) && a.event.authentic && a.event.vote.voter in net && a.event.vote.voter != a.who ==>
      a.event.vote in net[a.event.vote.voter].signed
  }

  ghost predicate Deliverable(net: Network, a: Action) {
    a.who in net && Possible(net[a.who], a.event) && GenuineOfOthers(net, a)
  }

  ghost predicate DeliverableRun(cfg: Config, net: Network, acts: seq<Action>) {
    acts == [] || (Deliverable(net, acts[0]) && DeliverableRun(cfg, TbftSafety.Step(cfg, net, acts[0]), acts[1..]))
  }

  /** Every legal run is one of these. */
  lemma {:induction false} LegalIsDeliverable(cfg: Config, net: Network, acts: seq<Action>)
    requires LegalRun(cfg, net, acts)
    ensures DeliverableRun(cfg, net, acts)
    decreases |acts|
  {
    if acts != [] { LegalIsDeliverable(cfg, TbftSafety.Step(cfg, net, acts[0]), acts[1..]); }
  }

  ghost predicate OthersInv(cfg: Config, net: Network) {
    && (forall n :: n in net ==> net[n].id == n && Inv(cfg, net[n]))
    && (forall n, v :: n in net && v in net[n].recorded && v.voter in net && v.voter != n ==> v in net[v.voter].signed)
  }

  lemma StepKeepsOthersInv(cfg: Config, net: Network, a: Action)
    requires OthersInv(cfg, net) && Deliverable(net, a)
    ensures OthersInv(cfg, TbftSafety.Step(cfg, net, a))
  {
    var s, net' := net[a.who], TbftSafety.Step(cfg, net, a);
    HandleForward(cfg, s, a.event);
    forall n, v | n in net' && v in net'[n].recorded && v.voter in net' && v.voter != n
      ensures v in net'[v.voter].signed
    {
      if v !in net[n].recorded { RecordsOnlyItsVote(cfg, s, a.event, v); }
      assert v in net[v.voter].signed;
    }
  }

  lemma {:induction false} RunKeepsOthersInv(cfg: Config, net: Network, acts: seq<Action>)
    requires OthersInv(cfg, net) && DeliverableRun(cfg, net, acts)
    ensures OthersInv(cfg, Run(cfg, net, acts))
    decreases |acts|
  {
    if acts != [] {
      StepKeepsOthersInv(cfg, net, acts[0]);
      RunKeepsOthersInv(cfg, TbftSafety.Step(cfg, net, acts[0]), acts[1..]);
    }
  }

  lemma OthersAgree(
      cfg: Config, net: Network, a: NodeId, b: NodeId, typ: VoteType, height: nat, round: nat, hash: Hash, hash': Hash)
    requires OthersInv(cfg, net) && MostlyHonest(cfg, net - {a, b}, height) && a in net && b in net
    requires QuorumFor(cfg, net[a].recorded, typ, height, round, hash)
    requires QuorumFor(cfg, net[b].recorded, typ, height, round, hash')
    ensures hash == hash'
  {
    var q :| IsQuorumFor(cfg, net[a].recorded, typ, height, round, hash, q);
    var q' :| IsQuorumFor(cfg, net[b].recorded, typ, height, round, hash', q');
    var n := QuorumsShareHonest(cfg, net - {a, b}, height, q, q');
    var v, v' := Vote(typ, n, height, round, hash), Vote(typ, n, height, round, hash');
    assert v in net[a].recorded && v' in net[b].recorded;
    SignedOnce(net[n], v, v');
  }

  lemma OthersNetAgrees(cfg: Config, net: Network, a: NodeId, b: NodeId, height: nat, round: nat)
    requires OthersInv(cfg, net) && MostlyHonest(cfg, net - {a, b}, height) && a in net && b in net
    ensures Agreed(net[a], net[b], height, round)
  {
    forall c, c' | c in net[a].commits && c' in net[b].commits && CommitAt(c, height, round)
        && CommitAt(c', height, round)
      ensures c.hash == c'.hash
    {
      OthersAgree(cfg, net, a, b, PRECOMMIT, height, round, c.hash, c'.hash);
    }
    forall v, v' | v in net[a].signed && v' in net[b].signed && BlockPrecommit(v, height, round)
        && BlockPrecommit(v', height, round)
      ensures v.hash == v'.hash
    {
      OthersAgree(cfg, net, a, b, PREVOTE, height, round, v.hash, v'.hash);
    }
  }

  lemma StartedOthersInv(cfg: Config, net: Network)
    requires Started(cfg, net)
    ensures OthersInv(cfg, net)
  {
    StartedNetInv(cfg, net);
  }

  lemma HonestByName(cfg: Config, net: Network, net': Network, but: set<NodeId>, height: nat)
    requires net.Keys == net'.Keys && MostlyHonest(cfg, net - but, height)
    ensures MostlyHonest(cfg, net' - but, height)
  {
    assert (net - but).Keys == (net' - but).Keys;
  }

  /** In every run in which only votes under other nodes' names are genuine, two honest nodes agree
      if fewer than a third of the validators are faulty, these two counted among them. */
  lemma AgreeWithoutOwnVotes(
      cfg: Config, start: Network, acts: seq<Action>, a: NodeId, b: NodeId, height: nat, round: nat)
    requires Started(cfg, start) && DeliverableRun(cfg, start, acts) && MostlyHonest(cfg, start - {a, b}, height)
    requires a in start && b in start
    ensures Agreed(Run(cfg, start, acts)[a], Run(cfg, start, acts)[b], height, round)
  {
    StartedOthersInv(cfg, start);
    RunKeepsOthersInv(cfg, start, acts);
    HonestByName(cfg, start, Run(cfg, start, acts), {a, b}, height);
    OthersNetAgrees(cfg, Run(cfg, start, acts), a, b, height, round);
  }
}
