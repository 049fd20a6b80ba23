/**
 Quorum certificates of chained HotStuff: counting the votes of a certificate, accepting it,
 and how many voters two accepted certificates must share.
 */
module QuorumCert {
  import opened Options
  import Ordering
  import opened Governance

  datatype VoteData = VoteData(height: nat, level: nat, authorIdx: nat, blockId: Option<string>, newView: bool)

  /** A certificate; a vote in it may be missing. */
  datatype Qc = Qc(height: nat, level: nat, epochId: nat, newView: bool, blockId: Option<string>,
      votes: seq<Option<VoteData>>)

  datatype Fault = NilVote | InvalidVote | WrongPlace | DuplicateAuthor

  datatype Counts = Failed(fault: Fault) | Counted(newViewNum: nat, votedBlockNum: nat)

  datatype Verdict =
    | Accepted | NilBlockId | UnexpectedBlockId | InvalidEpoch | BadVotes(fault: Fault) | TooFewNewView | TooFewVotes

  /** Vote checks done elsewhere: author, certificate and signature. */
  type Checked = VoteData -> bool

  // ---------------------------------------------------------------- counting

  ghost predicate VoteGood(qc: Qc, valid: Checked, k: nat)
    requires k < |qc.votes|
  {
    var v := qc.votes[k];
    v.Some? && valid(v.value) && v.value.height == qc.height && v.value.level == qc.level
  }

  ghost predicate AuthorTwice(qc: Qc, k: nat)
    requires k < |qc.votes|
  {
    qc.votes[k].Some? && exists i ::
        0 <= i < k && qc.votes[i].Some? && qc.votes[i].value.authorIdx == qc.votes[k].value.authorIdx
  }

  /** The first `k` votes are good and come from different authors. */
  ghost predicate GoodUpTo(qc: Qc, valid: Checked, k: nat)
    requires k <= |qc.votes|
  {
    forall i :: 0 <= i < k ==> VoteGood(qc, valid, i) && !AuthorTwice(qc, i)
  }

  /** The fault of the vote at `k`: it is missing, else invalid, else misplaced, else repeated. */
  ghost predicate FaultAt(qc: Qc, valid: Checked, k: nat, f: Fault)
    requires k < |qc.votes|
  {
    var v := qc.votes[k];
    match f
    case NilVote => v.None?
    case InvalidVote => v.Some? && !valid(v.value)
    case WrongPlace => v.Some? && valid(v.value) && !VoteGood(qc, valid, k)
    case DuplicateAuthor => VoteGood(qc, valid, k) && AuthorTwice(qc, k)
  }

  predicate ForBlock(qc: Qc, v: VoteData) {
    v.blockId.Some? && v.blockId.value != "" && v.blockId == qc.blockId
  }

  function BlockAuthors(qc: Qc): set<nat> {
    set v | v in qc.votes && v.Some? && ForBlock(qc, v.value) :: v.value.authorIdx
  }

  function NewViewAuthors(qc: Qc): set<nat> {
    set v | v in qc.votes && v.Some? && v.value.newView :: v.value.authorIdx
  }

  /** The authors of the first `k` votes. */
  function AuthorsBefore(qc: Qc, k: nat): set<nat>
    requires k <= |qc.votes|
  {
    set i | 0 <= i < k && qc.votes[i].Some? :: qc.votes[i].value.authorIdx
  }

  function BlockAuthorsBefore(qc: Qc, k: nat): set<nat>
    requires k <= |qc.votes|
  {
    set i | 0 <= i < k && qc.votes[i].Some? && ForBlock(qc, qc.votes[i].value) :: qc.votes[i].value.authorIdx
  }

  function NewViewAuthorsBefore(qc: Qc, k: nat): set<nat>
    requires k <= |qc.votes|
  {
    set i | 0 <= i < k && qc.votes[i].Some? && qc.votes[i].value.newView :: qc.votes[i].value.authorIdx
  }

  /** What is wrong with the vote at `k`, given the authors met before it. */
  method CheckVote(qc: Qc, valid: Checked, k: nat, voteIdxs: map<nat, bool>) returns (fault: Option<Fault>)
    requires k < |qc.votes| && voteIdxs.Keys == AuthorsBefore(qc, k)
    ensures fault.None? <==> VoteGood(qc, valid, k) && !AuthorTwice(qc, k)
    ensures fault.Some? ==> FaultAt(qc, valid, k, fault.value)
  {
    var vote := qc.votes[k];
    if vote.None? { return Some(NilVote); }
    if !valid(vote.value) { return Some(InvalidVote); }
    if vote.value.height != qc.height || vote.value.level != qc.level { return Some(WrongPlace); }
    assert vote.value.authorIdx in AuthorsBefore(qc, k) <==> AuthorTwice(qc, k);
    if vote.value.authorIdx in voteIdxs { return Some(DuplicateAuthor); }
    return None;
  }

  lemma CountsOnVotes(qc: Qc, valid: Checked)
    ensures GoodUpTo(qc, valid, |qc.votes|) <==> VotesInOrder(qc, valid)
    ensures qc.blockId.Some? ==> MostVoted(qc, |BlockAuthors(qc)|)
    ensures MostAsked(qc, |NewViewAuthors(qc)|)
  {
    GoodIsInOrder(qc, valid);
    CountsAreMost(qc);
  }

  method CountNumFromVotes(qc: Qc, valid: Checked) returns (r: Counts)
    ensures r.Counted? <==> GoodUpTo(qc, valid, |qc.votes|)
    ensures r.Counted? ==> r.newViewNum == |NewViewAuthors(qc)| && r.votedBlockNum == |BlockAuthors(qc)|
    ensures r.Failed? ==> exists k :: 0 <= k < |qc.votes| && GoodUpTo(qc, valid, k) && FaultAt(qc, valid, k, r.fault)
    ensures r.Counted? <==> VotesInOrder(qc, valid)
    ensures r.Counted? && qc.blockId.Some? ==> MostVoted(qc, r.votedBlockNum)
    ensures r.Counted? ==> MostAsked(qc, r.newViewNum)
  {
    var votedBlock: map<nat, VoteData>, votedNewView: map<nat, VoteData> := map[], map[];
    var voteIdxs: map<nat, bool> := map[];
    for i := 0 to |qc.votes|
      invariant GoodUpTo(qc, valid, i) && voteIdxs.Keys == AuthorsBefore(qc, i)
      invariant votedBlock.Keys == BlockAuthorsBefore(qc, i)
      invariant votedNewView.Keys == NewViewAuthorsBefore(qc, i)
    {
      var fault := CheckVote(qc, valid, i, voteIdxs);
      if fault.Some? {
        CountsOnVotes(qc, valid);
        return Failed(fault.value);
      }
      var vote := qc.votes[i].value;
      AuthorsOneMore(qc, i);
      voteIdxs := voteIdxs[vote.authorIdx := true];
      if vote.newView { votedNewView := votedNewView[vote.authorIdx := vote]; }
      if ForBlock(qc, vote) { votedBlock := votedBlock[vote.authorIdx := vote]; }
    }
    AllAuthors(qc);
    CountsOnVotes(qc, valid);
    return Counted(|votedNewView|, |votedBlock|);
  }

  lemma AuthorsOneMore(qc: Qc, i: nat)
    requires i < |qc.votes| && qc.votes[i].Some?
    ensures var v := qc.votes[i].value;
            && AuthorsBefore(qc, i + 1) == AuthorsBefore(qc, i) + {v.authorIdx}
            && BlockAuthorsBefore(qc, i + 1) ==
                 BlockAuthorsBefore(qc, i) + (if ForBlock(qc, v) then {v.authorIdx} else {})
            && NewViewAuthorsBefore(qc, i + 1) ==
                 NewViewAuthorsBefore(qc, i) + (if v.newView then {v.authorIdx} else {})
  {
  }

  lemma AllAuthors(qc: Qc)
    ensures BlockAuthorsBefore(qc, |qc.votes|) == BlockAuthors(qc)
    ensures NewViewAuthorsBefore(qc, |qc.votes|) == NewViewAuthors(qc)
  {
  }

  // ---------------------------------------------------------------- in the terms of the votes

  /** Each of `authors` has a vote in the certificate for the certificate's block. */
  ghost predicate VotedFor(qc: Qc, authors: set<nat>) {
    forall a :: a in authors ==>
      exists v :: Some(v) in qc.votes && v.authorIdx == a && v.blockId == qc.blockId && v.blockId != Some("")
  }

  ghost predicate AskedNewView(qc: Qc, authors: set<nat>) {
    forall a :: a in authors ==> exists v :: Some(v) in qc.votes && v.authorIdx == a && v.newView
  }

  /** Every vote is there, valid and of the certificate's height and level, and no author votes twice. */
  ghost predicate VotesInOrder(qc: Qc, valid: Checked) {
    && (forall k :: 0 <= k < |qc.votes| ==>
          && qc.votes[k].Some? && valid(qc.votes[k].value)
          && qc.votes[k].value.height == qc.height && qc.votes[k].value.level == qc.level)
    && (forall j, k :: 0 <= j < k < |qc.votes| && qc.votes[j].Some? && qc.votes[k].Some? ==>
          qc.votes[j].value.authorIdx != qc.votes[k].value.authorIdx)
  }

  lemma GoodIsInOrder(qc: Qc, valid: Checked)
    ensures GoodUpTo(qc, valid, |qc.votes|) <==> VotesInOrder(qc, valid)
  {
    if GoodUpTo(qc, valid, |qc.votes|) {
      forall j, k | 0 <= j < k < |qc.votes| && qc.votes[j].Some? && qc.votes[k].Some?
        ensures qc.votes[j].value.authorIdx != qc.votes[k].value.authorIdx
      {
        assert VoteGood(qc, valid, k) && !AuthorTwice(qc, k);
      }
      forall k | 0 <= k < |qc.votes|
        ensures qc.votes[k].Some? && valid(qc.votes[k].value)
        ensures qc.votes[k].value.height == qc.height && qc.votes[k].value.level == qc.level
      {
        assert VoteGood(qc, valid, k);
      }
    }
    if VotesInOrder(qc, valid) {
      forall k | 0 <= k < |qc.votes| ensures VoteGood(qc, valid, k) && !AuthorTwice(qc, k) {
        assert qc.votes[k].Some?;
      }
    }
  }

  lemma BlockAuthorsVoted(qc: Qc, authors: set<nat>)
    requires qc.blockId.Some?
    ensures VotedFor(qc, authors) <==> authors <= BlockAuthors(qc)
  {
    forall a | a in BlockAuthors(qc)
      ensures exists v :: Some(v) in qc.votes && v.authorIdx == a && v.blockId == qc.blockId && v.blockId != Some("")
    {
      var v :| v in qc.votes && v.Some? && ForBlock(qc, v.value) && v.value.authorIdx == a;
      assert Some(v.value) in qc.votes;
    }
    forall a | a in authors && VotedFor(qc, authors) ensures a in BlockAuthors(qc) {
      var v :| Some(v) in qc.votes && v.authorIdx == a && v.blockId == qc.blockId && v.blockId != Some("");
      assert ForBlock(qc, Some(v).value);
    }
  }

  lemma NewViewAuthorsAsked(qc: Qc, authors: set<nat>)
    ensures AskedNewView(qc, authors) <==> authors <= NewViewAuthors(qc)
  {
    forall a | a in NewViewAuthors(qc) ensures exists v :: Some(v) in qc.votes && v.authorIdx == a && v.newView {
      var v :| v in qc.votes && v.Some? && v.value.newView && v.value.authorIdx == a;
      assert Some(v.value) in qc.votes;
    }
    forall a | a in authors && AskedNewView(qc, authors) ensures a in NewViewAuthors(qc) {
      var v :| Some(v) in qc.votes && v.authorIdx == a && v.newView;
      assert Some(v).value.newView;
    }
  }

  /** Exactly `n` authors voted for the certificate's block. */
  ghost predicate MostVoted(qc: Qc, n: nat) {
    exists authors: set<nat> ::
      |authors| == n && VotedFor(qc, authors) && forall others: set<nat> :: VotedFor(qc, others) ==> others <= authors
  }

  ghost predicate MostAsked(qc: Qc, n: nat) {
    exists authors: set<nat> ::
      |authors| == n && AskedNewView(qc, authors)
      && forall others: set<nat> :: AskedNewView(qc, others) ==> others <= authors
  }

  lemma CountsAreMost(qc: Qc)
    ensures qc.blockId.Some? ==> MostVoted(qc, |BlockAuthors(qc)|)
    ensures MostAsked(qc, |NewViewAuthors(qc)|)
  {
    forall others: set<nat> ensures AskedNewView(qc, others) <==> others <= NewViewAuthors(qc) {
      NewViewAuthorsAsked(qc, others);
    }
    if qc.blockId.Some? {
      forall others: set<nat> ensures VotedFor(qc, others) <==> others <= BlockAuthors(qc) {
        BlockAuthorsVoted(qc, others);
      }
    }
  }

  /** At least `quorum` authors voted for what the certificate is for. */
  ghost predicate Backed(qc: Qc, quorum: nat) {
    exists authors: set<nat> ::
      |authors| >= quorum && if qc.newView then AskedNewView(qc, authors) else VotedFor(qc, authors)
  }

  lemma BackedExactly(qc: Qc, quorum: nat)
    requires qc.newView || qc.blockId.Some?
    ensures Backed(qc, quorum) <==> if qc.newView then |NewViewAuthors(qc)| >= quorum else |BlockAuthors(qc)| >= quorum
  {
    var most := if qc.newView then NewViewAuthors(qc) else BlockAuthors(qc);
    forall authors: set<nat>
      ensures (if qc.newView then AskedNewView(qc, authors) else VotedFor(qc, authors)) <==> authors <= most
    {
      if qc.newView { NewViewAuthorsAsked(qc, authors); } else { BlockAuthorsVoted(qc, authors); }
    }
    if authors: set<nat> :|
      |authors| >= quorum && if qc.newView then AskedNewView(qc, authors) else VotedFor(qc, authors)
    {
      Ordering.SubsetSize(authors, most);
    }
    assert if qc.newView then AskedNewView(qc, most) else VotedFor(qc, most);
  }

  // ---------------------------------------------------------------- accepting

  /** A certificate of the last epoch passes on its form alone; one of this epoch needs good
      votes, and above level zero a quorum of them. */
  ghost predicate Accepts(qc: Qc, epoch: nat, quorum: nat, valid: Checked) {
    && (qc.newView <==> qc.blockId.None?)
    && (epoch == qc.epochId + 1 ||
        (&& epoch == qc.epochId && GoodUpTo(qc, valid, |qc.votes|)
         && (qc.level > 0 ==> if qc.newView then |NewViewAuthors(qc)| >= quorum else |BlockAuthors(qc)| >= quorum)))
  }

  /** In the terms of the votes alone: what an accepted certificate is. */
  lemma AcceptsOnVotes(qc: Qc, epoch: nat, quorum: nat, valid: Checked)
    ensures Accepts(qc, epoch, quorum, valid) <==>
      && (qc.newView <==> qc.blockId.None?)
      && (epoch == qc.epochId + 1 ||
          (epoch == qc.epochId && VotesInOrder(qc, valid) && (qc.level > 0 ==> Backed(qc, quorum))))
  {
    GoodIsInOrder(qc, valid);
    if qc.newView || qc.blockId.Some? { BackedExactly(qc, quorum); }
  }

  method VerifyJustifyQC(qc: Qc, epoch: nat, quorum: nat, valid: Checked) returns (r: Verdict)
    ensures r == Accepted <==> Accepts(qc, epoch, quorum, valid)
    ensures epoch == qc.epochId && qc.level > 0 && (qc.newView <==> qc.blockId.None?) ==>
      (r == Accepted <==> VotesInOrder(qc, valid) && Backed(qc, quorum))
  {
    AcceptsOnVotes(qc, epoch, quorum, valid);
    if !qc.newView && qc.blockId.None? { return NilBlockId; }
    if qc.newView && qc.blockId.Some? { return UnexpectedBlockId; }
    if epoch == qc.epochId + 1 { return Accepted; }
    if qc.epochId != epoch { return InvalidEpoch; }
    var counts := CountNumFromVotes(qc, valid);
    if counts.Failed? { return BadVotes(counts.fault); }
    if qc.level > 0 && qc.newView && counts.newViewNum < quorum { return TooFewNewView; }
    if qc.level > 0 && !qc.newView && counts.votedBlockNum < quorum { return TooFewVotes; }
    return Accepted;
  }

  // ---------------------------------------------------------------- shared voters

  /** A certificate for a block, of the current epoch and above level zero, that is accepted
      with the quorum of the `validators`. */
  ghost predicate Certifies(qc: Qc, epoch: nat, validators: set<nat>, valid: Checked) {
    && epoch == qc.epochId && qc.level > 0 && !qc.newView
    && Accepts(qc, epoch, QuorumForQc(|validators|), valid)
    && forall v :: v in qc.votes && v.Some? ==> v.value.authorIdx in validators
  }

  lemma AuthorsAreValidators(qc: Qc, epoch: nat, validators: set<nat>, valid: Checked)
    requires Certifies(qc, epoch, validators, valid)
    ensures BlockAuthors(qc) <= validators && |BlockAuthors(qc)| >= QuorumForQc(|validators|)
  {
  }

  lemma SharedAtLeast(a: set<nat>, b: set<nat>, all: set<nat>)
    requires a <= all && b <= all
    ensures |a * b| >= |a| + |b| - |all|
  {
    assert |a + b| + |a * b| == |a| + |b|;
    Ordering.SubsetSize(a + b, all);
  }

  /** Two certificates share more voters than can be faulty, unless the number of validators is
      two more than a multiple of three; then one voter may be missing. */
  lemma CertificatesShareVoters(qc: Qc, qc': Qc, epoch: nat, validators: set<nat>, valid: Checked)
    requires |validators| >= 4 && Certifies(qc, epoch, validators, valid) && Certifies(qc', epoch, validators, valid)
    ensures exists shared: set<nat> ::
      && shared <= validators && VotedFor(qc, shared) && VotedFor(qc', shared)
      && var n := |validators|; if n % 3 != 2 then |shared| > (n - 1) / 3 else |shared| >= (n - 1) / 3
  {
    AuthorsAreValidators(qc, epoch, validators, valid);
    AuthorsAreValidators(qc', epoch, validators, valid);
    var shared := BlockAuthors(qc) * BlockAuthors(qc');
    SharedAtLeast(BlockAuthors(qc), BlockAuthors(qc'), validators);
    BlockAuthorsVoted(qc, shared);
    BlockAuthorsVoted(qc', shared);
  }

  function VotesFrom(lo: nat, hi: nat, blockId: string): seq<Option<VoteData>>
    requires lo <= hi
  {
    seq(hi - lo, i requires 0 <= i < hi - lo => Some(VoteData(1, 1, lo + i, Some(blockId), false)))
  }

  function Span(lo: nat, hi: nat): set<nat> {
    set i | lo <= i < hi && InSpan(lo, i)
  }

  predicate InSpan(lo: nat, i: nat) {
    lo <= i
  }

  lemma {:induction false} SpanSize(lo: nat, hi: nat)
    requires lo <= hi
    ensures |Span(lo, hi)| == hi - lo
    decreases hi
  {
    if lo < hi {
      SpanSize(lo, hi - 1);
      assert Span(lo, hi) == Span(lo, hi - 1) + {hi - 1};
    } else {
      assert Span(lo, hi) == {};
    }
  }

  predicate AnyVote(v: VoteData) {
    true
  }

  function CertificateFrom(lo: nat, hi: nat, blockId: string): Qc
    requires lo <= hi
  {
    Qc(1, 1, 0, false, Some(blockId), VotesFrom(lo, hi, blockId))
  }

  lemma VotesFromAuthors(lo: nat, hi: nat, blockId: string)
    requires lo <= hi && blockId != ""
    ensures var qc := CertificateFrom(lo, hi, blockId);
            GoodUpTo(qc, AnyVote, |qc.votes|) && BlockAuthors(qc) == Span(lo, hi)
  {
    var qc := CertificateFrom(lo, hi, blockId);
    forall a | a in Span(lo, hi) ensures a in BlockAuthors(qc) {
      assert qc.votes[a - lo] == Some(VoteData(1, 1, a, Some(blockId), false));
    }
  }

  lemma QuorumCertifies(lo: nat, hi: nat, n: nat, blockId: string)
    requires lo <= hi <= n && blockId != "" && hi - lo >= QuorumForQc(n)
    ensures Certifies(CertificateFrom(lo, hi, blockId), 0, Span(0, n), AnyVote)
  {
    SpanSize(0, n);
    SpanSize(lo, hi);
    VotesFromAuthors(lo, hi, blockId);
  }

  /** With two more validators than a multiple of three, two certificates for different blocks
      can share exactly as many voters as can be faulty. */
  lemma CertificatesMayShareTooFew(n: nat) returns (qc: Qc, qc': Qc)
    requires n >= 4 && n % 3 == 2
    ensures Certifies(qc, 0, Span(0, n), AnyVote) && Certifies(qc', 0, Span(0, n), AnyVote)
    ensures qc.height == qc'.height && qc.level == qc'.level && qc.blockId != qc'.blockId
    ensures |BlockAuthors(qc) * BlockAuthors(qc')| == (n - 1) / 3
    ensures forall shared: set<nat> :: VotedFor(qc, shared) && VotedFor(qc', shared) ==> |shared| <= (n - 1) / 3
  {
    qc, qc' := TwoCertificates(n);
    NoMoreShared(qc, qc');
  }

  lemma TwoCertificates(n: nat) returns (qc: Qc, qc': Qc)
    requires n >= 4 && n % 3 == 2
    ensures Certifies(qc, 0, Span(0, n), AnyVote) && Certifies(qc', 0, Span(0, n), AnyVote)
    ensures qc.height == qc'.height && qc.level == qc'.level && qc.blockId != qc'.blockId
    ensures |BlockAuthors(qc) * BlockAuthors(qc')| == (n - 1) / 3
  {
    var q := QuorumForQc(n);
    QuorumLeaves(n, q);
    qc, qc' := CertificateFrom(0, q, "a"), CertificateFrom(n - q, n, "b");
    QuorumCertifies(0, q, n, "a");
    QuorumCertifies(n - q, n, n, "b");
    CertificatesShare(n, q, "a", "b");
  }

  lemma NoMoreShared(qc: Qc, qc': Qc)
    requires qc.blockId.Some? && qc'.blockId.Some?
    ensures forall shared: set<nat> :: VotedFor(qc, shared) && VotedFor(qc', shared) ==>
      |shared| <= |BlockAuthors(qc) * BlockAuthors(qc')|
  {
    forall shared: set<nat> | VotedFor(qc, shared) && VotedFor(qc', shared)
      ensures |shared| <= |BlockAuthors(qc) * BlockAuthors(qc')|
    {
      BlockAuthorsVoted(qc, shared);
      BlockAuthorsVoted(qc', shared);
      Ordering.SubsetSize(shared, BlockAuthors(qc) * BlockAuthors(qc'));
    }
  }

  lemma QuorumLeaves(n: nat, q: nat)
    requires n >= 4 && n % 3 == 2 && q == QuorumForQc(n)
    ensures q <= n <= 2 * q && 2 * q - n == (n - 1) / 3
  {
    var k := n / 3;
    assert n == 3 * k + 2;
  }

  lemma CertificatesShare(n: nat, q: nat, a: string, b: string)
    requires q <= n <= 2 * q && a != "" && b != ""
    ensures |BlockAuthors(CertificateFrom(0, q, a)) * BlockAuthors(CertificateFrom(n - q, n, b))| == 2 * q - n
  {
    VotesFromAuthors(0, q, a);
    VotesFromAuthors(n - q, n, b);
    SpansShare(n, q);
  }

  lemma SpansShare(n: nat, q: nat)
    requires q <= n <= 2 * q
    ensures |Span(0, q) * Span(n - q, n)| == 2 * q - n
  {
    assert Span(0, q) * Span(n - q, n) == Span(n - q, q);
    SpanSize(n - q, q);
  }
}
