/**
 The governance contract: which nodes take part in consensus, under which permanent index,
 which of them validate, and how many votes make a quorum.
 */
module Governance {
  import opened Decimal
  import opened Options
  import opened Ordering
  import J = Josephus

  datatype Member = Member(index: nat, nodeId: string)

  /** Tunable settings; as wanted by a configuration, zero leaves a setting as it is. */
  datatype Settings = Settings(cachedLen: nat, roundTimeoutMill: nat, intervalMill: nat)

  /** A named value of a configuration, as text. */
  datatype Entry = Entry(key: string, value: string)

  datatype Config = Config(sequence: nat, nodes: seq<seq<string>>, ext: seq<Entry>)

  const CACHED_LEN := "CachedLen"
  const ROUND_TIMEOUT_MILL := "HotstuffRoundTimeoutMill"
  const ROUND_TIMEOUT_INTERVAL_MILL := "HotstuffRoundTimeoutIntervalMill"
  const MINIMUM_TIMEOUT_MILL: nat := 4000
  const MINIMUM_INTERVAL_MILL: nat := 100

  predicate Gives(e: Entry, key: string, minimum: nat) {
    e.key == key && ParseUint64(e.value).Some? && ParseUint64(e.value).value >= minimum
  }

  /** The value of the last entry that gives `key` a number of at least `minimum`, or zero. */
  function LastGiven(ext: seq<Entry>, key: string, minimum: nat): nat {
    if ext == [] then 0
    else if Gives(ext[|ext| - 1], key, minimum) then ParseUint64(ext[|ext| - 1].value).value
    else LastGiven(ext[..|ext| - 1], key, minimum)
  }

  function Wanted(ext: seq<Entry>): Settings {
    Settings(LastGiven(ext, CACHED_LEN, 0), LastGiven(ext, ROUND_TIMEOUT_MILL, MINIMUM_TIMEOUT_MILL),
             LastGiven(ext, ROUND_TIMEOUT_INTERVAL_MILL, MINIMUM_INTERVAL_MILL))
  }

  datatype Contract = Contract(
    curMaxIndex: nat, n: nat, minQuorumForQc: nat, lastMinQuorumForQc: nat, members: seq<Member>,
    validators: seq<Member>, validatorNum: nat, configSequence: nat, settings: Settings)

  const MIN_QUORUM_FOR_QC: nat := 3

  function QuorumForQc(n: nat): nat {
    var q := (2 * n + 1) / 3;
    if q < MIN_QUORUM_FOR_QC then MIN_QUORUM_FOR_QC else q
  }

  function ConfiguredIds(nodes: seq<seq<string>>): set<string> {
    set node, nid | node in nodes && nid in node :: nid
  }

  function NodeIds(members: seq<Member>): set<string> {
    set m | m in members :: m.nodeId
  }

  ghost predicate AscendingIndex(members: seq<Member>) {
    forall i, j :: 0 <= i < j < |members| ==> members[i].index < members[j].index
  }

  ghost predicate UniqueIds(members: seq<Member>) {
    forall m, m' :: m in members && m' in members && m.nodeId == m'.nodeId ==> m == m'
  }

  /** What holds of a contract's members at all times. */
  ghost predicate Valid(c: Contract) {
    AscendingIndex(c.members) && UniqueIds(c.members) && forall m :: m in c.members ==> m.index < c.curMaxIndex
  }

  /** The members for `ids`: those already known stay as they are, and the others get the next
      free indices in the order of their names. */
  ghost predicate Allocates(known: seq<Member>, curMax: nat, ids: set<string>, members: seq<Member>, newMax: nat) {
    && NodeIds(members) == ids && UniqueIds(members)
    && newMax == curMax + |ids - NodeIds(known)|
    && (forall m :: m in members && m.nodeId in NodeIds(known) ==> m in known)
    && (forall m :: m in members && m.nodeId !in NodeIds(known) ==> curMax <= m.index < newMax)
    && NewInNameOrder(known, members)
  }

  ghost predicate NewInNameOrder(known: seq<Member>, members: seq<Member>) {
    forall m, m' ::
      m in members && m' in members && m.nodeId !in NodeIds(known) && m'.nodeId !in NodeIds(known) && m != m' ==>
        (m.index < m'.index <==> LexLe(m.nodeId, m'.nodeId))
  }

  function Adjusted(s: Settings, wanted: Settings): Settings {
    Settings(if wanted.cachedLen != 0 then wanted.cachedLen else s.cachedLen,
             if wanted.roundTimeoutMill != 0 then wanted.roundTimeoutMill else s.roundTimeoutMill,
             if wanted.intervalMill != 0 then wanted.intervalMill else s.intervalMill)
  }

  /** A contract after a configuration: unless its sequence is the one already seen, the members
      are the configured nodes; quorum and validators follow when nodes or settings changed. */
  ghost predicate Updated(c: Contract, cfg: Config, c': Contract, changed: bool) {
    UpdatedTo(c, cfg.sequence, ConfiguredIds(cfg.nodes), Adjusted(c.settings, Wanted(cfg.ext)), c', changed)
  }

  ghost predicate UpdatedTo(
      c: Contract, sequence: nat, ids: set<string>, settings: Settings, c': Contract, changed: bool)
  {
    if c.configSequence == sequence then c' == c && !changed
    else
      && c'.configSequence == sequence && c'.settings == settings
      && AscendingIndex(c'.members) && Allocates(c.members, c.curMaxIndex, ids, c'.members, c'.curMaxIndex)
      && (changed <==> ids != NodeIds(c.members) || c'.settings != c.settings)
      && (if changed then
            && c'.n == c'.validatorNum == |c'.members| && c'.validators == c'.members
            && c'.minQuorumForQc == QuorumForQc(|c'.members|) && c'.lastMinQuorumForQc == c.minQuorumForQc
          else c' == c.(configSequence := sequence))
  }

  // ---------------------------------------------------------------- indices over any run of updates

  ghost predicate IsRun(cs: seq<Contract>, cfgs: seq<Config>) {
    && |cs| == |cfgs| + 1 && Valid(cs[0])
    && forall k :: 0 <= k < |cfgs| ==> Follows(cs, cfgs, k)
  }

  ghost predicate Follows(cs: seq<Contract>, cfgs: seq<Config>, k: nat)
    requires k < |cfgs| && |cs| == |cfgs| + 1
  {
    Updated(cs[k], cfgs[k], cs[k + 1], true) || Updated(cs[k], cfgs[k], cs[k + 1], false)
  }

  lemma FollowsKeeps(cs: seq<Contract>, cfgs: seq<Config>, k: nat)
    requires IsRun(cs, cfgs) && k < |cfgs| && Valid(cs[k])
    ensures Valid(cs[k + 1]) && cs[k + 1].curMaxIndex >= cs[k].curMaxIndex
    ensures forall m :: m in cs[k + 1].members ==> m in cs[k].members || m.index >= cs[k].curMaxIndex
    ensures forall m :: m in cs[k].members && m.nodeId in NodeIds(cs[k + 1].members) ==> m in cs[k + 1].members
  {
    assert Follows(cs, cfgs, k);
    UpdateKeepsValid(cs[k], cfgs[k], cs[k + 1], Updated(cs[k], cfgs[k], cs[k + 1], true));
  }

  lemma UpdateKeepsValid(c: Contract, cfg: Config, c': Contract, changed: bool)
    requires Valid(c) && Updated(c, cfg, c', changed)
    ensures Valid(c') && c'.curMaxIndex >= c.curMaxIndex
    ensures forall m :: m in c'.members ==> m in c.members || m.index >= c.curMaxIndex
    ensures forall m :: m in c.members && m.nodeId in NodeIds(c'.members) ==> m in c'.members
  {
    if c.configSequence != cfg.sequence {
      forall m | m in c.members && m.nodeId in NodeIds(c'.members) ensures m in c'.members {
        var m' :| m' in c'.members && m'.nodeId == m.nodeId;
        assert m'.nodeId in NodeIds(c.members);
      }
    }
  }

  lemma {:induction false} RunKeepsIndices(cs: seq<Contract>, cfgs: seq<Config>, i: nat, j: nat)
    requires IsRun(cs, cfgs) && i <= j < |cs|
    ensures Valid(cs[i]) && Valid(cs[j]) && cs[i].curMaxIndex <= cs[j].curMaxIndex
    ensures forall m :: m in cs[j].members ==> m in cs[i].members || m.index >= cs[i].curMaxIndex
    decreases j, j - i
  {
    if i < j {
      RunKeepsIndices(cs, cfgs, i, j - 1);
      FollowsKeeps(cs, cfgs, j - 1);
    } else if j > 0 {
      RunKeepsIndices(cs, cfgs, j - 1, j - 1);
      FollowsKeeps(cs, cfgs, j - 1);
    }
  }

  /** No index is ever given to a second node. */
  lemma IndexNeverReused(cs: seq<Contract>, cfgs: seq<Config>, i: nat, j: nat, m: Member, m': Member)
    requires IsRun(cs, cfgs) && i <= j < |cs| && m in cs[i].members && m' in cs[j].members && m.index == m'.index
    ensures m == m'
  {
    RunKeepsIndices(cs, cfgs, i, j);
  }

  ghost predicate IsMemberThroughout(cs: seq<Contract>, id: string, i: nat, j: nat) {
    j < |cs| && forall k :: i <= k <= j ==> id in NodeIds(cs[k].members)
  }

  lemma StepKeepsMember(cs: seq<Contract>, cfgs: seq<Config>, k: nat, m: Member)
    requires IsRun(cs, cfgs) && k < |cfgs| && m in cs[k].members && m.nodeId in NodeIds(cs[k + 1].members)
    ensures m in cs[k + 1].members
  {
    RunKeepsIndices(cs, cfgs, k, k);
    FollowsKeeps(cs, cfgs, k);
  }

  /** A node that stays a member keeps its index. */
  lemma {:induction false} StayingKeepsIndex(cs: seq<Contract>, cfgs: seq<Config>, i: nat, j: nat, m: Member)
    requires IsRun(cs, cfgs) && i <= j && IsMemberThroughout(cs, m.nodeId, i, j) && m in cs[i].members
    ensures m in cs[j].members
    decreases j - i
  {
    if i < j {
      StayingKeepsIndex(cs, cfgs, i, j - 1, m);
      StepKeepsMember(cs, cfgs, j - 1, m);
    }
  }

  // ---------------------------------------------------------------- the loops

  /** The configured ids, each once, in the order they are met. */
  method CollectIds(nodes: seq<seq<string>>) returns (ids: seq<string>)
    ensures Distinct(ids) && Elements(ids) == ConfiguredIds(nodes)
  {
    ids := [];
    for i := 0 to |nodes|
      invariant Distinct(ids) && Elements(ids) == ConfiguredIds(nodes[..i])
    {
      ids := CollectNode(ids, nodes[i]);
      assert nodes[..i + 1] == nodes[..i] + [nodes[i]];
      assert ConfiguredIds(nodes[..i + 1]) == ConfiguredIds(nodes[..i]) + Elements(nodes[i]);
    }
    assert nodes[..|nodes|] == nodes;
  }

  method CollectNode(known: seq<string>, node: seq<string>) returns (ids: seq<string>)
    requires Distinct(known)
    ensures Distinct(ids) && Elements(ids) == Elements(known) + Elements(node)
  {
    ids := known;
    for i := 0 to |node|
      invariant Distinct(ids) && Elements(ids) == Elements(known) + Elements(node[..i])
    {
      assert node[..i + 1] == node[..i] + [node[i]];
      assert Elements(node[..i + 1]) == Elements(node[..i]) + {node[i]};
      if node[i] !in ids {
        assert Elements(ids + [node[i]]) == Elements(ids) + {node[i]};
        ids := ids + [node[i]];
      }
    }
    assert node[..|node|] == node;
  }

  /** The `k`-th member: a known node as it is, another with an index from `curMax` up to `index`. */
  ghost predicate AllocatedAt(known: seq<Member>, curMax: nat, id: string, m: Member, index: nat) {
    && m.nodeId == id && (id in NodeIds(known) ==> m in known)
    && (id !in NodeIds(known) ==> curMax <= m.index < index)
  }

  ghost predicate AllocatedEach(known: seq<Member>, curMax: nat, ids: seq<string>, members: seq<Member>, index: nat) {
    |members| <= |ids| && forall k :: 0 <= k < |members| ==> AllocatedAt(known, curMax, ids[k], members[k], index)
  }

  /** How many of the first `i` ids are not known. */
  ghost function NewAmong(known: seq<Member>, ids: seq<string>, i: nat): nat
    requires i <= |ids|
  {
    |Elements(ids[..i]) - NodeIds(known)|
  }

  ghost predicate NewAscend(known: seq<Member>, ids: seq<string>, members: seq<Member>) {
    && |members| <= |ids|
    && forall k, l :: 0 <= k < l < |members| && ids[k] !in NodeIds(known) && ids[l] !in NodeIds(known) ==>
         members[k].index < members[l].index
  }

  /** The first `i` ids have their members; indices below `index` are given out. */
  ghost predicate AllocatedUpTo(
      known: seq<Member>, curMax: nat, ids: seq<string>, members: seq<Member>, index: nat, i: nat)
  {
    && |members| == i <= |ids| && index == curMax + NewAmong(known, ids, i)
    && AllocatedEach(known, curMax, ids, members, index) && NewAscend(known, ids, members)
  }

  lemma AllocatedOneMore(
      known: seq<Member>, curMax: nat, ids: seq<string>, members: seq<Member>, index: nat, i: nat, m: Member)
    requires AllocatedUpTo(known, curMax, ids, members, index, i) && i < |ids| && Distinct(ids) && m.nodeId == ids[i]
    requires if ids[i] in NodeIds(known) then m in known else m.index == index
    ensures var index' := if ids[i] in NodeIds(known) then index else index + 1;
            AllocatedUpTo(known, curMax, ids, members + [m], index', i + 1)
  {
    NewCount(known, ids, i);
    EachOneMore(known, curMax, ids, members, index, m);
    AscendOneMore(known, curMax, ids, members, index, m);
  }

  lemma EachOneMore(known: seq<Member>, curMax: nat, ids: seq<string>, members: seq<Member>, index: nat, m: Member)
    requires AllocatedEach(known, curMax, ids, members, index) && |members| < |ids| && m.nodeId == ids[|members|]
    requires if ids[|members|] in NodeIds(known) then m in known else m.index == index >= curMax
    ensures var index' := if ids[|members|] in NodeIds(known) then index else index + 1;
            AllocatedEach(known, curMax, ids, members + [m], index')
  {
    var i, members' := |members|, members + [m];
    var index' := if ids[i] in NodeIds(known) then index else index + 1;
    forall k | 0 <= k < i + 1 ensures AllocatedAt(known, curMax, ids[k], members'[k], index') {
      if k < i { assert AllocatedAt(known, curMax, ids[k], members[k], index); }
    }
  }

  lemma AscendOneMore(known: seq<Member>, curMax: nat, ids: seq<string>, members: seq<Member>, index: nat, m: Member)
    requires AllocatedEach(known, curMax, ids, members, index) && NewAscend(known, ids, members) && |members| < |ids|
    requires ids[|members|] !in NodeIds(known) ==> m.index == index
    ensures NewAscend(known, ids, members + [m])
  {
    var i, members' := |members|, members + [m];
    forall k, l | 0 <= k < l < |members'| && ids[k] !in NodeIds(known) && ids[l] !in NodeIds(known)
      ensures members'[k].index < members'[l].index
    {
      if l == i { assert AllocatedAt(known, curMax, ids[k], members[k], index); }
    }
  }

  /** Members for ids in ascending order: a known node as it is, another with the next index. */
  method AllocateIndices(known: seq<Member>, curMax: nat, ids: seq<string>) returns (members: seq<Member>, index: nat)
    requires UniqueIds(known) && Distinct(ids) && SortedBy(LexLe, ids)
    ensures AllocatedUpTo(known, curMax, ids, members, index, |ids|)
  {
    var oldMembers := MembersById(known);
    members, index := [], curMax;
    for i := 0 to |ids|
      invariant AllocatedUpTo(known, curMax, ids, members, index, i)
    {
      if ids[i] in oldMembers {
        var m := oldMembers[ids[i]];
        AllocatedOneMore(known, curMax, ids, members, index, i, m);
        members := members + [m];
      } else {
        AllocatedOneMore(known, curMax, ids, members, index, i, Member(index, ids[i]));
        members := members + [Member(index, ids[i])];
        index := index + 1;
      }
    }
  }

  lemma NewCount(known: seq<Member>, ids: seq<string>, i: nat)
    requires Distinct(ids) && i < |ids|
    ensures NewAmong(known, ids, i + 1) == NewAmong(known, ids, i) + if ids[i] in NodeIds(known) then 0 else 1
  {
    assert ids[i] !in ids[..i];
    assert Elements(ids[..i + 1]) == Elements(ids[..i]) + {ids[i]};
    var before, after := Elements(ids[..i]) - NodeIds(known), Elements(ids[..i + 1]) - NodeIds(known);
    assert after == if ids[i] in NodeIds(known) then before else before + {ids[i]};
  }

  method MembersById(members: seq<Member>) returns (byId: map<string, Member>)
    requires UniqueIds(members)
    ensures byId.Keys == NodeIds(members) && forall id :: id in byId ==> byId[id] in members && byId[id].nodeId == id
  {
    byId := map[];
    for i := 0 to |members|
      invariant byId.Keys == NodeIds(members[..i]) && forall id :: id in byId ==>
          byId[id] in members && byId[id].nodeId == id
    {
      assert members[..i + 1] == members[..i] + [members[i]];
      assert NodeIds(members[..i + 1]) == NodeIds(members[..i]) + {members[i].nodeId};
      byId := byId[members[i].nodeId := members[i]];
    }
    assert members[..|members|] == members;
  }

  lemma AllocatedMember(
      known: seq<Member>, curMax: nat, ids: seq<string>, members: seq<Member>, index: nat, m: Member)
    requires AllocatedUpTo(known, curMax, ids, members, index, |ids|) && m in members
    ensures m.nodeId in ids && AllocatedAt(known, curMax, m.nodeId, m, index)
  {
    var k :| 0 <= k < |members| && members[k] == m;
    assert AllocatedAt(known, curMax, ids[k], members[k], index);
  }

  lemma AllocatedIds(known: seq<Member>, curMax: nat, ids: seq<string>, members: seq<Member>, index: nat)
    requires AllocatedUpTo(known, curMax, ids, members, index, |ids|)
    ensures NodeIds(members) == Elements(ids)
  {
    forall x ensures x in NodeIds(members) <==> x in ids {
      if x in ids {
        var k :| 0 <= k < |ids| && ids[k] == x;
        assert AllocatedAt(known, curMax, ids[k], members[k], index) && members[k] in members;
      }
      if m :| m in members && m.nodeId == x { AllocatedMember(known, curMax, ids, members, index, m); }
    }
  }

  lemma AllocatedInOrder(
      known: seq<Member>, curMax: nat, ids: seq<string>, members: seq<Member>, index: nat, k: nat, l: nat)
    requires Distinct(ids) && SortedBy(LexLe, ids) && AllocatedUpTo(known, curMax, ids, members, index, |ids|)
    requires k < |ids| && l < |ids| && k != l && ids[k] !in NodeIds(known) && ids[l] !in NodeIds(known)
    ensures members[k].index < members[l].index <==> LexLe(members[k].nodeId, members[l].nodeId)
  {
    assert AllocatedAt(known, curMax, ids[k], members[k], index);
    assert AllocatedAt(known, curMax, ids[l], members[l], index);
    LexOrder(ids[k], ids[l]);
    assert k < l ==> LexLe(ids[k], ids[l]);
    assert l < k ==> LexLe(ids[l], ids[k]);
  }

  lemma AllocatedAllInOrder(known: seq<Member>, curMax: nat, ids: seq<string>, members: seq<Member>, index: nat)
    requires Distinct(ids) && SortedBy(LexLe, ids) && AllocatedUpTo(known, curMax, ids, members, index, |ids|)
    ensures NewInNameOrder(known, members)
  {
    forall m, m' | m in members && m' in members && m.nodeId !in NodeIds(known) && m'.nodeId !in NodeIds(known)
        && m != m'
      ensures m.index < m'.index <==> LexLe(m.nodeId, m'.nodeId)
    {
      var k :| 0 <= k < |members| && members[k] == m;
      var l :| 0 <= l < |members| && members[l] == m';
      assert AllocatedAt(known, curMax, ids[k], members[k], index);
      assert AllocatedAt(known, curMax, ids[l], members[l], index);
      AllocatedInOrder(known, curMax, ids, members, index, k, l);
    }
  }

  lemma IdsFixMembers(ids: seq<string>, members: seq<Member>)
    requires Distinct(ids) && |members| == |ids| && forall k :: 0 <= k < |ids| ==> members[k].nodeId == ids[k]
    ensures UniqueIds(members) && Distinct(members)
  {
    forall m, m' | m in members && m' in members && m.nodeId == m'.nodeId ensures m == m' {
      var k :| 0 <= k < |members| && members[k] == m;
      var l :| 0 <= l < |members| && members[l] == m';
      assert ids[k] == ids[l];
    }
  }

  lemma AllocatedUnique(known: seq<Member>, curMax: nat, ids: seq<string>, members: seq<Member>, index: nat)
    requires Distinct(ids) && AllocatedUpTo(known, curMax, ids, members, index, |ids|)
    ensures UniqueIds(members) && Distinct(members)
  {
    forall k | 0 <= k < |ids| ensures members[k].nodeId == ids[k] {
      assert AllocatedAt(known, curMax, ids[k], members[k], index);
    }
    IdsFixMembers(ids, members);
  }

  lemma AllocatedAll(known: seq<Member>, curMax: nat, ids: seq<string>, members: seq<Member>, index: nat)
    requires Distinct(ids) && SortedBy(LexLe, ids) && AllocatedUpTo(known, curMax, ids, members, index, |ids|)
    ensures Allocates(known, curMax, Elements(ids), members, index)
  {
    assert ids[..|ids|] == ids;
    AllocatedIds(known, curMax, ids, members, index);
    forall m | m in members ensures AllocatedAt(known, curMax, m.nodeId, m, index) {
      AllocatedMember(known, curMax, ids, members, index, m);
    }
    AllocatedUnique(known, curMax, ids, members, index);
    AllocatedAllInOrder(known, curMax, ids, members, index);
  }

  // ---------------------------------------------------------------- members in index order

  predicate IndexLe(m: Member, m': Member) {
    m.index <= m'.index
  }

  lemma LexIsTotal()
    ensures TotalOrder(LexLe)
  {
    forall a, b ensures LexLe(a, b) || LexLe(b, a) { LexOrder(a, b); }
    forall a, b, c | LexLe(a, b) && LexLe(b, c) ensures LexLe(a, c) { LexTransitive(a, b, c); }
  }

  ghost predicate UniqueIndices(members: seq<Member>) {
    forall m, m' :: m in members && m' in members && m.index == m'.index ==> m == m'
  }

  lemma AllocatedIndicesUnique(known: seq<Member>, curMax: nat, ids: set<string>, members: seq<Member>, newMax: nat)
    requires Allocates(known, curMax, ids, members, newMax) && AscendingIndex(known) && forall m :: m in known ==>
        m.index < curMax
    ensures UniqueIndices(members)
  {
    forall m, m' | m in members && m' in members && m.index == m'.index ensures m == m' {
      if m.nodeId !in NodeIds(known) && m'.nodeId !in NodeIds(known) { NewIndicesUnique(known, members, m, m'); }
    }
  }

  lemma NewIndicesUnique(known: seq<Member>, members: seq<Member>, m: Member, m': Member)
    requires NewInNameOrder(known, members) && m in members && m' in members && m.index == m'.index
    requires m.nodeId !in NodeIds(known) && m'.nodeId !in NodeIds(known)
    ensures m == m'
  {
    LexOrder(m.nodeId, m'.nodeId);
  }

  lemma SortAscends(members: seq<Member>)
    requires UniqueIndices(members) && Distinct(members)
    ensures AscendingIndex(Sort(IndexLe, members))
  {
    var r := Sort(IndexLe, members);
    SortSorts(IndexLe, members);
    SameMembers(r, members);
    DistinctKept(members, r);
    forall i, j | 0 <= i < j < |r| ensures r[i].index < r[j].index {
      assert IndexLe(r[i], r[j]) && r[i] in r && r[j] in r;
    }
  }

  lemma AllocatesSameMembers(
      known: seq<Member>, curMax: nat, ids: set<string>, members: seq<Member>, members': seq<Member>, newMax: nat)
    requires Allocates(known, curMax, ids, members, newMax) && forall m :: m in members <==> m in members'
    ensures Allocates(known, curMax, ids, members', newMax)
  {
    assert NodeIds(members') == NodeIds(members);
  }

  lemma SortKeepsAllocation(known: seq<Member>, curMax: nat, ids: set<string>, members: seq<Member>, newMax: nat)
    requires Allocates(known, curMax, ids, members, newMax) && UniqueIndices(members) && Distinct(members)
    ensures var sorted := Sort(IndexLe, members);
            AscendingIndex(sorted) && Allocates(known, curMax, ids, sorted, newMax) && |sorted| == |members|
  {
    SortAscends(members);
    SameMembers(Sort(IndexLe, members), members);
    AllocatesSameMembers(known, curMax, ids, members, Sort(IndexLe, members), newMax);
  }

  /** The configured nodes as members, and the next free index. */
  method ConfiguredMembers(known: seq<Member>, curMax: nat, nodes: seq<seq<string>>)
    returns (members: seq<Member>, index: nat)
    requires AscendingIndex(known) && UniqueIds(known) && forall m :: m in known ==> m.index < curMax
    ensures Allocates(known, curMax, ConfiguredIds(nodes), members, index)
    ensures Distinct(members) && UniqueIndices(members) && |members| == |ConfiguredIds(nodes)|
  {
    var met := CollectIds(nodes);
    var ids := Sort(LexLe, met);
    SortedIds(met);
    members, index := AllocateIndices(known, curMax, ids);
    AllocatedAll(known, curMax, ids, members, index);
    AllocatedUnique(known, curMax, ids, members, index);
    AllocatedIndicesUnique(known, curMax, Elements(ids), members, index);
    DistinctSize(ids);
  }

  method GenesisMembers(nodes: seq<seq<string>>) returns (members: seq<Member>, index: nat)
    ensures Allocates([], 0, ConfiguredIds(nodes), members, index)
    ensures AscendingIndex(members) && UniqueIds(members) && forall m :: m in members ==> m.index < index
  {
    members, index := ConfiguredMembers([], 0, nodes);
    SortKeepsAllocation([], 0, ConfiguredIds(nodes), members, index);
    members := Sort(IndexLe, members);
  }

  lemma SortedIds(met: seq<string>)
    requires Distinct(met)
    ensures var ids := Sort(LexLe, met); Distinct(ids) && SortedBy(LexLe, ids) && Elements(ids) == Elements(met)
  {
    var ids := Sort(LexLe, met);
    LexIsTotal();
    SortSorts(LexLe, met);
    DistinctKept(met, ids);
    SameMembers(met, ids);
  }

  // ---------------------------------------------------------------- choosing validators

  function Padded(bytes: seq<bv8>, i: nat): bv8 {
    if i < |bytes| then bytes[i] else 0
  }

  function BigEndian(b: seq<bv8>): nat {
    if b == [] then 0 else BigEndian(b[..|b| - 1]) * 256 + b[|b| - 1] as nat
  }

  /** The number made of the first eight bytes, each mixed with the byte 24 places on. */
  function SeedOf(bytes: seq<bv8>): nat {
    BigEndian(seq(8, i requires 0 <= i < 8 => Padded(bytes, i) ^ Padded(bytes, i + 24)))
  }

  method MixSeed(bytes: seq<bv8>) returns (seed: nat)
    ensures seed == SeedOf(bytes)
  {
    var padded := bytes;
    while |padded| < 40
      invariant |padded| >= |bytes| && forall k :: 0 <= k < |padded| ==> padded[k] == Padded(bytes, k)
    {
      padded := padded + [0];
    }
    var b := new bv8[8];
    for i := 0 to 8
      invariant forall k :: 0 <= k < i ==> b[k] == Padded(bytes, k) ^ Padded(bytes, k + 24)
    {
      for j := 0 to 4
        invariant forall k :: 0 <= k < i ==> b[k] == Padded(bytes, k) ^ Padded(bytes, k + 24)
        invariant j > 0 ==> b[i] == Padded(bytes, i) ^ Padded(bytes, i + 8 * (j - 1))
      {
        b[i] := padded[i] ^ padded[i + 8 * j];
      }
    }
    seed := 0;
    for i := 0 to 8
      invariant seed == BigEndian(b[..i])
    {
      assert b[..i + 1][..i] == b[..i];
      seed := seed * 256 + b[i] as nat;
    }
    assert b[..8] == seq(8, i requires 0 <= i < 8 => Padded(bytes, i) ^ Padded(bytes, i + 24));
  }

  method MembersAt(members: seq<Member>, list: seq<nat>) returns (picked: seq<Member>)
    requires forall x :: x in list ==> x < |members|
    ensures |picked| == |list| && forall k :: 0 <= k < |list| ==> list[k] < |members| && picked[k] == members[list[k]]
  {
    picked := [];
    for i := 0 to |list|
      invariant |picked| == i && forall k :: 0 <= k < i ==> list[k] < |members| && picked[k] == members[list[k]]
    {
      assert list[i] in list;
      picked := picked + [members[list[i]]];
    }
  }

  lemma PickedMembers(members: seq<Member>, list: seq<nat>, picked: seq<Member>)
    requires AscendingIndex(members) && J.Ascending(list) && |picked| == |list|
    requires forall k :: 0 <= k < |list| ==> list[k] < |members| && picked[k] == members[list[k]]
    ensures AscendingIndex(picked)
    ensures forall m :: m in picked ==> m in members
    ensures forall k :: 0 <= k < |members| ==> (members[k] in picked <==> k in list)
  {
    forall k | 0 <= k < |members| ensures members[k] in picked <==> k in list {
      if members[k] in picked {
        var i :| 0 <= i < |picked| && picked[i] == members[k];
        assert list[i] == k;
      }
      if k in list {
        var i :| 0 <= i < |list| && list[i] == k;
        assert picked[i] == members[k];
      }
    }
  }

  lemma SortOfAscending(members: seq<Member>)
    requires AscendingIndex(members)
    ensures Sort(IndexLe, members) == members
  {
    SortSorts(IndexLe, members);
    SortedUnique(IndexLe, members, Sort(IndexLe, members));
  }

  /** All members if there are no more than wanted, and else those at the places of the Josephus
      walk, in index order. */
  method CreateValidators(members: seq<Member>, validatorNum: nat, seedBytes: seq<bv8>)
    returns (validators: seq<Member>)
    ensures |members| <= validatorNum ==> validators == members
    ensures |members| > validatorNum && AscendingIndex(members) ==>
              var n, seed := |members|, SeedOf(seedBytes) % |members|;
              var places := J.Josephus(J.Range(n), seed, seed, validatorNum);
              && |validators| == validatorNum && AscendingIndex(validators)
              && (forall k :: 0 <= k < n ==> (members[k] in validators <==> k in places))
              && (forall m :: m in validators ==> m in members)
  {
    if |members| <= validatorNum { return members; }
    var seed := MixSeed(seedBytes);
    seed := seed % |members|;
    J.RemainderIs(seed, |members|, 0, seed);
    var list := J.GetRandomList(|members|, validatorNum, seed);
    validators := MembersAt(members, list);
    if AscendingIndex(members) {
      PickedMembers(members, list, validators);
      SortOfAscending(validators);
    }
    validators := Sort(IndexLe, validators);
  }

  // ---------------------------------------------------------------- settings

  method ReadSettings(ext: seq<Entry>) returns (wanted: Settings)
    ensures wanted == Wanted(ext)
  {
    wanted := Settings(0, 0, 0);
    for i := 0 to |ext|
      invariant wanted == Wanted(ext[..i])
    {
      assert ext[..i + 1][..i] == ext[..i];
      var v := ParseUint64(ext[i].value);
      if v.Some? {
        if ext[i].key == CACHED_LEN {
          wanted := wanted.(cachedLen := v.value);
        } else if ext[i].key == ROUND_TIMEOUT_MILL && v.value >= MINIMUM_TIMEOUT_MILL {
          wanted := wanted.(roundTimeoutMill := v.value);
        } else if ext[i].key == ROUND_TIMEOUT_INTERVAL_MILL && v.value >= MINIMUM_INTERVAL_MILL {
          wanted := wanted.(intervalMill := v.value);
        }
      }
    }
    assert ext[..|ext|] == ext;
  }

  // ---------------------------------------------------------------- the contract object

  class GovernanceContract {
    var curMaxIndex: nat
    var n: nat
    var minQuorumForQc: nat
    var lastMinQuorumForQc: nat
    var members: seq<Member>
    var validators: seq<Member>
    var validatorNum: nat
    var configSequence: nat
    var settings: Settings

    function State(): Contract
      reads this
    {
      Contract(curMaxIndex, n, minQuorumForQc, lastMinQuorumForQc, members,
               validators, validatorNum, configSequence, settings)
    }

    /** The genesis contract: the configured nodes, indexed in the order of their names. */
    constructor (cfg: Config, seedBytes: seq<bv8>)
      ensures Valid(State()) && Allocates([], 0, ConfiguredIds(cfg.nodes), members, curMaxIndex)
      ensures n == validatorNum == |members| && validators == members && minQuorumForQc == QuorumForQc(|members|)
      ensures configSequence == cfg.sequence && settings == Adjusted(Settings(0, 0, 0), Wanted(cfg.ext))
    {
      var ms, index := GenesisMembers(cfg.nodes);
      members, curMaxIndex, validatorNum, n := ms, index, |ms|, |ms|;
      minQuorumForQc, lastMinQuorumForQc := QuorumForQc(|ms|), 0;
      configSequence, settings := cfg.sequence, Adjusted(Settings(0, 0, 0), Wanted(cfg.ext));
      var vs := CreateValidators(ms, |ms|, seedBytes);
      validators := vs;
    }

    /** Takes over the settings the configuration gives; unreadable and too small values do not count. */
    method UpdateSettings(ext: seq<Entry>) returns (changed: bool)
      modifies this`settings
      ensures settings == Adjusted(old(settings), Wanted(ext)) && changed == (settings != old(settings))
    {
      var wanted := ReadSettings(ext);
      changed := false;
      if wanted.cachedLen != 0 && settings.cachedLen != wanted.cachedLen {
        settings := settings.(cachedLen := wanted.cachedLen);
        changed := true;
      }
      if wanted.roundTimeoutMill != 0 && settings.roundTimeoutMill != wanted.roundTimeoutMill {
        settings := settings.(roundTimeoutMill := wanted.roundTimeoutMill);
        changed := true;
      }
      if wanted.intervalMill != 0 && settings.intervalMill != wanted.intervalMill {
        settings := settings.(intervalMill := wanted.intervalMill);
        changed := true;
      }
    }

    method UpdateByConfig(cfg: Config, seedBytes: seq<bv8>) returns (changed: bool)
      requires Valid(State())
      modifies this
      ensures Updated(old(State()), cfg, State(), changed) && Valid(State())
    {
      if configSequence == cfg.sequence { return false; }
      changed := Reconfigure(cfg, seedBytes);
      UpdateKeepsValid(old(State()), cfg, State(), changed);
    }

    method Reconfigure(cfg: Config, seedBytes: seq<bv8>) returns (changed: bool)
      requires Valid(State()) && configSequence != cfg.sequence
      modifies this
      ensures Updated(old(State()), cfg, State(), changed)
    {
      ghost var c := State();
      var ms, index := ConfiguredMembers(members, curMaxIndex, cfg.nodes);
      changed := Adopt(cfg, ms, index, seedBytes);
      AllocationUpdates(c, cfg.sequence, ConfiguredIds(cfg.nodes), settings, ms, index);
    }

    /** Rewrites the contract for these members if the index, their number or a setting changed. */
    method Adopt(cfg: Config, ms: seq<Member>, index: nat, seedBytes: seq<bv8>) returns (changed: bool)
      modifies this
      ensures settings == Adjusted(old(settings), Wanted(cfg.ext))
          && changed == Rewrites(old(State()), settings, ms, index)
      ensures State() == if changed then Rewritten(old(State()), cfg.sequence, settings, Sort(IndexLe, ms), index)
                         else old(State()).(configSequence := cfg.sequence)
    {
      changed := UpdateSettings(cfg.ext);
      if index != curMaxIndex || |ms| != |members| || changed {
        changed := true;
        Rewrite(Sort(IndexLe, ms), index, seedBytes);
      }
      configSequence := cfg.sequence;
    }

    method Rewrite(ms: seq<Member>, index: nat, seedBytes: seq<bv8>)
      modifies this
      ensures State() == old(State()).(curMaxIndex := index, n := |ms|, minQuorumForQc := QuorumForQc(|ms|),
          lastMinQuorumForQc := old(minQuorumForQc),
                                       members := ms, validatorNum := |ms|, validators := ms)
    {
      lastMinQuorumForQc := minQuorumForQc;
      curMaxIndex, n, minQuorumForQc := index, |ms|, QuorumForQc(|ms|);
      members, validatorNum := ms, |ms|;
      validators := CreateValidators(ms, validatorNum, seedBytes);
    }
  }

  /** The index and the count are unchanged exactly when the nodes are. */
  lemma RewriteExactly(c: Contract, ids: set<string>, ms: seq<Member>, index: nat)
    requires Valid(c) && Allocates(c.members, c.curMaxIndex, ids, ms, index) && |ms| == |ids|
    ensures (index != c.curMaxIndex || |ms| != |c.members|) <==> ids != NodeIds(c.members)
    ensures index == c.curMaxIndex && |ms| == |c.members| ==>
        Allocates(c.members, c.curMaxIndex, ids, c.members, c.curMaxIndex)
  {
    var known := NodeIds(c.members);
    IdsSize(c.members);
    if index == c.curMaxIndex && |ms| == |c.members| {
      assert ids - known == {};
      assert ids <= known;
      SubsetOfSameSize(ids, known);
    }
    if ids == known { assert ids - known == {}; }
  }

  function Rewritten(c: Contract, sequence: nat, settings: Settings, ms: seq<Member>, index: nat): Contract {
    Contract(index, |ms|, QuorumForQc(|ms|), c.minQuorumForQc, ms, ms, |ms|, sequence, settings)
  }

  predicate Rewrites(c: Contract, settings: Settings, ms: seq<Member>, index: nat) {
    index != c.curMaxIndex || |ms| != |c.members| || settings != c.settings
  }

  /** Rewriting on a changed index, count or setting, and else leaving the members, is the update. */
  lemma AllocationUpdates(c: Contract, sequence: nat, ids: set<string>, settings: Settings, ms: seq<Member>, index: nat)
    requires Valid(c) && c.configSequence != sequence && UniqueIndices(ms) && Distinct(ms)
    requires Allocates(c.members, c.curMaxIndex, ids, ms, index) && |ms| == |ids|
    ensures var c' := if Rewrites(c, settings, ms, index) then
        Rewritten(c, sequence, settings, Sort(IndexLe, ms), index)
                      else c.(configSequence := sequence);
            UpdatedTo(c, sequence, ids, settings, c', Rewrites(c, settings, ms, index))
  {
    RewriteExactly(c, ids, ms, index);
    SortKeepsAllocation(c.members, c.curMaxIndex, ids, ms, index);
  }

  lemma SubsetOfSameSize<T>(a: set<T>, b: set<T>)
    requires a <= b && |a| == |b|
    ensures a == b
  {
    assert b == a + (b - a);
  }

  lemma {:induction false} IdsSize(members: seq<Member>)
    requires UniqueIds(members) && AscendingIndex(members)
    ensures |NodeIds(members)| == |members|
  {
    if members != [] {
      IdsSize(members[1..]);
      assert NodeIds(members) == {members[0].nodeId} + NodeIds(members[1..]);
      assert members[0].nodeId !in NodeIds(members[1..]);
    }
  }
}
