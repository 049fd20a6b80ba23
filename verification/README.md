# ChainMaker: a verified model of its stateful cores

This project models the parts of ChainMaker in which many steps must fit together, and proves what
they keep over every run.

- **Snapshots and the DAG** (`RWSets`, `Dag`, `ParallelReplay`, `Snapshots`, `Serializability`,
  `Execution`, `BlockCommit`, `CommitChain`). Transactions run optimistically over a shared
  snapshot, are admitted by comparing the last writer of each location read with the sequence they
  started at, and are then ordered by a transitively reduced conflict graph. Proved: the graph is
  exact, any order that respects it reproduces block order, admission is serializable over every
  interleaving, the snapshot object goes where the machine of interleavings goes, and when a block
  commits a direct successor reads what it read before, an indirect one exactly where nothing it
  was cut off from matters; over a whole chain of commits the last snapshot reads as the chain
  replayed.
- **TBFT** (`Votes`, `RoundVoteSets`, `Tbft`, `TbftSafety`, `TbftEvents`, `TbftProvenance`,
  `TbftOwnVotes`, `TbftPanics`, `TbftPanicRuns`, `TbftNode`, `Proposers`). Vote sets with a quorum
  of 2n/3+1 and a (height, round, step) machine driven by proposals, votes, timeouts and committed
  heights. Proved: places only rise, votes are signed once per round, precommits and commits are
  backed by quorums, every prevote is for a block the node proposed or saw pass verification,
  honest nodes agree within a round, and exactly when the two panics of the machine happen. The
  node object, which files votes in vote-set objects and asks them for majorities, refines that
  machine, and every block it hands over carries a certificate that passes verification.
- **Block synchronisation** (`Sync`, `SyncSafety`, `SyncEffects`, `SyncRoutines`). A scheduler and
  a processor exchange messages over a ledger that consensus advances too. Proved over every
  interleaving: the bounds on what is tracked, and that no height above the ledger gets stuck; what
  each message does, height by height; and that a late block is asked of another peer.
- **Governance** (`Josephus`, `Governance`, `GovernanceRuns`, `QuorumCert`). Choice of validators
  by a walk around a circle, permanent indices, settings and quorums over any sequence of
  configurations, and what the quorum formula guarantees about two certificates.
- **DPoS** (`Decimal`, `Unbonding`, `UnbondingLaws`, `Election`). Unbonding pays every delegator,
  conserves the total and never overdraws; elections give half of the seats to the heaviest
  candidates and do not depend on input order.

`Options` and `Ordering` hold shared definitions. Objects whose fields the program assigns in
place are classes here, loops are loops, and each method is proved against a function or a
predicate on values; theorems about whole runs are about those.

Conventions. A nil byte slice is the empty string, except where nil and empty are told apart.
Locked methods are atomic steps. Iteration over a map is in any order. Heights, rounds and
counters are unbounded except where a width decides the outcome: the 64-bit subtraction when old
snapshots are collected, the 32-bit indices of the graph, and the 32-bit proposer offsets. Clocks,
random permutations, signature and certificate checks, proposal signing, and the answers of
verifier and committer are parameters. The context a transaction runs in during a block is not
part of this repository; its reads, writes and report are those of the query context, with the
snapshot in place of the store.

Where code and intent differ, the code is modelled and the difference is a result: the wrap-around
that unlinks uncommitted predecessors (`Snapshots.TooOldExact`,
`BlockCommit.UncommittedPredecessorLost`), the empty vote set that counts as "two thirds of any"
(`Votes.TwoThirdsAnyExact`), the certificate whose kind is not checked
(`Votes.StandsForPrecommits`), the panic on prevotes of a later round (`TbftPanics.PanicExactly`),
the panic of a node that holds a precommit majority without the block
(`TbftPanics.CommitPanicExactly`, `TbftPanicRuns.CommitTimeoutPanics`,
`TbftPanicRuns.LaterPrecommitsPanic`), the votes under a node's own name that it takes unchecked
(`TbftOwnVotes.AgreeWithoutOwnVotes`), the overflowing proposer offset
(`Proposers.HasProposerExactly`), the first write of a transaction winning over its last when a
balance is read (`Unbonding.ReadThroughExact`), and the quorum that is one vote short when n mod 3
is 2 (`QuorumCert.CertificatesMayShareTooFew`).

## Model

| member | source | states |
|---|---|---|
| `Dag.EncodingsIntersect` | module/snapshot/snapshot_impl.go:272-305 | Bit sets of two key sets under one injective key dictionary intersect exactly when the key sets do. |
| `Dag.MarkKeys` | module/snapshot/snapshot_impl.go:284-301 | The dictionary loop over one read or write list keeps the dictionary injective, only extends it, and returns the bit set of exactly those keys. |
| `Dag.BuildRWBitmaps` | module/snapshot/snapshot_impl.go:272-305 | For every pair of transactions the read/write, write/write and conflict tests on bitmaps agree with the tests on key sets, by key alone. |
| `Dag.BuildCumulativeBitmap` | module/snapshot/snapshot_impl.go:307-325 | Entry i is the union of the bitmaps 0..i, for reads and for writes. |
| `Dag.FastConflictedExact` | module/snapshot/snapshot_impl.go:436-444 | The shortcut test against the cumulative bitmaps holds exactly when some earlier transaction conflicts. |
| `Dag.BuildReach` | module/snapshot/snapshot_impl.go:405-422 | The backward scan gives a row whose direct edges are conflicts, reach every conflict, and are implied by no other edge of the row. |
| `Dag.ReachIsClosure` | module/snapshot/snapshot_impl.go:373-422 | A reach row is the reflexive-transitive closure of the edges. |
| `Dag.BuildConflictDag` | module/snapshot/snapshot_impl.go:373-402 | The non-SQL DAG is exact (edges are conflicts to lower indices, every conflicting pair has a path, no edge is implied by others) and the reach map is its closure. |
| `Dag.BuildDAG` | module/snapshot/snapshot_impl.go:334-402 | The vertex lists, as 32-bit numbers in ascending order, form the exact DAG, and every edge goes to an earlier transaction with which, on the lists of accesses, a written key is shared; with SQL each transaction points at the one before it. |
| `Dag.ExactDagUnique` | module/snapshot/snapshot_impl.go:334-402 | A table has only one exact DAG, so the three clauses fix the result edge by edge. |
| `Dag.ConflictOnAccesses` | module/snapshot/snapshot_impl.go:425-433 | Two transactions conflict exactly when one writes a key that the other reads or writes, stated on their lists of accesses; two reads of a key are no conflict. |
| `Dag.ExactDagOnAccesses` | module/snapshot/snapshot_impl.go:373-433 | On the lists of accesses: an edge goes to an earlier transaction that shares a written key, and any two that share one are joined by a path. |
| `Dag.ReadersHaveNoEdge` | module/snapshot/snapshot_impl.go:373-433 | Transactions that write nothing the other touches are not joined directly, so a block of readers has no edges. |
| `ParallelReplay.ConflictsKeepOrder` | module/snapshot/snapshot_impl.go:334-433 | In an order that respects the DAG, conflicting transactions keep their block order. |
| `ParallelReplay.RespectsExactly` | module/snapshot/snapshot_impl.go:334-433 | An order respects the DAG exactly when, of any two transactions that share a written key, the one earlier in the block comes first. |
| `ParallelReplay.BlockOrderYieldsBlockLog` | module/snapshot/snapshot_impl.go:334-433 | Executing in block order reproduces the recorded read-write sets. |
| `ParallelReplay.AnyDagOrderEqualsBlockOrder` | module/snapshot/snapshot_impl.go:334-433 | Executing the block in any order that respects the DAG gives every transaction the read-write set of block order, and the same final store. |
| `ParallelReplay.SameFinalState` | module/snapshot/snapshot_impl.go:334-433 | Committing the logged write sets in any order that respects the DAG gives the same store as block order. |
| `ParallelReplay.SqlDagForcesBlockOrder` | module/snapshot/snapshot_impl.go:363-371 | Block order is the only order that respects the SQL DAG. |
| `Snapshots.KeyCollisionExact` | module/snapshot/snapshot_impl.go:446-448 | Joined keys of two contracts can collide exactly when one contract name is a proper prefix of the other. |
| `Snapshots.CacheIsTransparent` | module/snapshot/snapshot_impl.go:126-156 | Over an honest read cache and prefix-free contract names, reading write table, then read table, then below equals replaying the log over what is below. |
| `Snapshots.CommitPreservesReads` | module/snapshot/snapshot_impl.go:126-156 | Dropping the bottom layer and committing its log to the store changes no read of the stack. |
| `Snapshots.Record` | module/snapshot/snapshot_impl.go:213-230 | The read and write loops turn the tables of a log into the tables of the log with one more entry. |
| `Snapshots.Snapshot.constructor` | module/snapshot/snapshot_mananger_delegate.go:39-64 | A new snapshot has empty tables, no predecessor and is not sealed. |
| `Snapshots.Snapshot.GetKey` | module/snapshot/snapshot_impl.go:126-156 | The read through the chain of pre-snapshots equals lookup newest layer first over the store. |
| `Snapshots.Snapshot.Apply` | module/snapshot/snapshot_impl.go:210-239 | The log, transaction list and result map grow by one entry, and the tables stay the last-access index of the log. |
| `Snapshots.Snapshot.ApplyTxSimContext` | module/snapshot/snapshot_impl.go:160-207 | Sealed: refused. Iterator: set aside. Otherwise accepted exactly when no location read was last written at or after the start sequence; a refusal changes nothing and an acceptance appends. |
| `Snapshots.TooOldExact` | module/snapshot/snapshot_manager.go:91-91 | With 64-bit wrap-around, a predecessor is collected exactly when it is more than 8 below the committed height or above it. |
| `Snapshots.LinkCutExactly` | module/snapshot/snapshot_manager.go:62-98 | A link is cut exactly when it goes to the committed block, to a predecessor more than eight heights back, or, by wrap-around, to one above the committed height; otherwise it is kept. |
| `Snapshots.StackReadsAsReplay` | module/snapshot/snapshot_impl.go:126-156 | Over layers with honest caches and prefix-free contract names, a read through all of them equals replaying the layers, oldest first, over the store. |
| `Snapshots.UnlinkedReadExact` | module/snapshot/snapshot_manager.go:84-98 | Cut off from uncommitted layers when the bottom one commits, a snapshot reads a location as before exactly when its own tables hold it, or no cut-off log writes it, or the last write there is what the committed store holds. |
| `BlockCommit.DirectSuccessorReadsSurvive` | module/snapshot/snapshot_manager.go:54-99 | For a bottom block admitted through any interleaving: the manager is notified of its commit, its writes reach the store, and a direct successor reads every location of prefix-free contracts as it did before. |
| `BlockCommit.IndirectSuccessorReads` | module/snapshot/snapshot_manager.go:84-98 | For a stack admitted layer by layer: a snapshot whose predecessor the height test selects loses its link, and then exactly the locations of the condition of Snapshots.UnlinkedReadExact read as before. |
| `BlockCommit.UncommittedPredecessorLost` | module/snapshot/snapshot_manager.go:54-99 | Run through the manager: snapshots of blocks 5, 6 and 7 are stacked, 6 writes, 7 reads the value; once 5 commits, 7 reads what the store held. |
| `CommitChain.RunAgrees` | module/snapshot/snapshot_impl.go:126-239 | Over two views that agree on the contracts in use, a legal interleaving runs to the same state. |
| `CommitChain.ChainStaysAdmitted` | module/snapshot/snapshot_manager.go:21-99 | In a chain where each block runs partly over its uncommitted predecessor and partly after that commits, every log is one admitted over the store with all earlier blocks committed. |
| `CommitChain.ChainReadsSurvive` | module/snapshot/snapshot_manager.go:54-99 | Each commit of such a chain leaves every read of the next block as it was. |
| `CommitChain.CommitInTurn` | module/snapshot/snapshot_manager.go:21-99 | Run through the manager: a chain of blocks, each made on the one before and committed once the next is there, ends with the last snapshot alone, which reads as the whole chain replayed over the first store. |
| `Snapshots.Manager.NewSnapshot` | module/snapshot/snapshot_manager.go:21-52 | The new snapshot is stored under its fingerprint and linked to the previous one exactly when that is held; chains stay finite unless a block names itself as its predecessor. |
| `Snapshots.Manager.CollectOld` | module/snapshot/snapshot_manager.go:85-98 | In any map order, exactly the links to predecessors the height test selects are cut; those predecessors are dropped, and nothing is dropped that no held snapshot was linked to. |
| `Snapshots.Manager.NotifyBlockCommitted` | module/snapshot/snapshot_manager.go:54-99 | Both fingerprints of the block are gone, direct successors are unlinked, and every other snapshot and link is kept unless a held snapshot was linked to it and the height test selects it. |
| `Snapshots.Manager.constructor` | module/snapshot/snapshot_manager.go:15-19 | A new manager holds no snapshots. |
| `Snapshots.Manager.UnlinkSuccessors` | module/snapshot/snapshot_manager.go:62-73 | Exactly the snapshots whose predecessor has the committed fingerprint lose their link. |
| `Serializability.StepKeepsInv` | module/snapshot/snapshot_impl.go:126-239 | Each begin, read or apply keeps the log serial, the read cache honest and every running transaction's reads dated. |
| `Serializability.RunKeepsInv` | module/snapshot/snapshot_impl.go:126-239 | The invariant holds after every interleaving of begins, reads and applies. |
| `Serializability.EveryRunIsSerializable` | module/snapshot/snapshot_impl.go:126-239 | Over every interleaving, each accepted checked transaction's reads, other than of its own writes, equal replaying the log before it over the base; the snapshot reads as the replayed log. |
| `Serializability.StaleExactly` | module/snapshot/snapshot_impl.go:194-203 | A transaction is refused exactly when one admitted since its start wrote a location it read. |
| `Serializability.AdmittedBlockReplays` | module/snapshot/snapshot_impl.go:126-433 | A block admitted through any interleaving is reproduced, with the same store, by executing it in any order that respects its DAG. |
| `Execution.Perform` | module/snapshot/snapshot_impl.go:126-239 | Any interleaving of transactions on a new snapshot, standing on any others, leaves the object in the state of the machine's run, so what is proved of runs holds of the object. |
| `Execution.ReadsItsOwnWrite` | module/rpcserver/tx_query_sim_context.go:57-85 | Whatever others do in between, a transaction reads the value it last wrote to a location. |
| `Execution.ReadsRepeat` | module/rpcserver/tx_query_sim_context.go:57-79 | Whatever others do in between, a location read twice gives one value. |
| `Execution.FirstReadIsCurrent` | module/snapshot/snapshot_impl.go:126-156 | In every run a first read gives what replaying the transactions admitted so far over the base gives. |
| `Execution.FullReportIsLegal` | module/rpcserver/tx_query_sim_context.go:212-231 | In every run, the read-write set that lists all a transaction read and wrote is one the serializability theorem admits. |
| `Votes.Majority` | module/consensus/tbft/vote.go:326-349 | The hash with a quorum of 2n/3+1 ballots, or the empty hash when no non-empty hash has one. |
| `Votes.MajorityIsStable` | module/consensus/tbft/vote.go:290-351 | More ballots never change a majority. |
| `Votes.AddAll` | module/consensus/tbft/vote.go:290-351 | Votes of different voters added one by one, in any order, leave exactly the admissible ones. |
| `Votes.ArrivalOrderIrrelevant` | module/consensus/tbft/vote.go:290-351 | Two vote sets given the same votes, one of each voter, in different orders end with the same votes, tallies, index and majority. |
| `Votes.TwoThirdsAnyExact` | module/consensus/tbft/vote.go:377-393 | True exactly when there is no vote yet, or no choice of the remaining validators lets any hash reach the quorum. |
| `Votes.VoteSet.constructor` | module/consensus/tbft/vote.go:203-215 | A new vote set is empty. |
| `Votes.VoteSet.Bounds` | module/consensus/tbft/vote.go:382-382 | The number of votes never exceeds the number of validators, so the remaining count does not underflow. |
| `Votes.VoteSet.AddVote` | module/consensus/tbft/vote.go:290-351 | Added exactly when well placed, from a validator and not a repeat; each of the four errors is returned exactly for its cause; tallies, index and majority stay those of the votes held, and a majority once set never changes. |
| `Votes.VoteSet.TwoThirdsMajority` | module/consensus/tbft/vote.go:353-366 | Reports a hash exactly when one has a quorum among the votes held. |
| `Votes.VoteSet.HasTwoThirdsAny` | module/consensus/tbft/vote.go:377-393 | The loop over tallies decides whether every voted hash falls short even with all remaining votes. |
| `Votes.VoteSet.HasTwoThirdsNoMajority` | module/consensus/tbft/vote.go:396-402 | True exactly when a quorum of votes of any kind is held. |
| `Votes.RoundTrip` | module/consensus/tbft/vote.go:217-256 | A set sent and rebuilt with the same validators has the same votes, tallies, index and majority. |
| `Votes.NewVoteSetFromProto` | module/consensus/tbft/vote.go:217-230 | Under any map order the rebuilt set is valid and holds only votes of the message, and exactly those the validators admit if each is filed under its voter. |
| `Votes.VerifyQuorum` | module/consensus/tbft/utils.go:89-99 | For any message, acceptance means that a quorum of different validators has a vote for the block hash in it; one filed by voter is accepted exactly when the admitted votes hold that quorum. |
| `Votes.AnyKindPasses` | module/consensus/tbft/utils.go:89-99 | The kind of a certificate is not looked at: that of any vote set with a majority, prevotes too, passes. |
| `Votes.StandsForPrecommits` | module/consensus/tbft/utils.go:89-99 | An accepted certificate stands for a quorum of precommits at a height exactly when it declares itself one of precommits at that height. |
| `Votes.AttachedCertificateAccepted` | module/consensus/tbft/utils.go:89-99 | The certificate of any set with a majority passes that check for the majority hash. |
| `RoundVoteSets.HeightRoundVoteSet.AddVote` | module/consensus/tbft/vote.go:548-557 | A vote goes to the vote-set object of its kind and round, made if missing; it is added exactly when for this height, from a validator and its first there; seen as ballots no other set changes. |
| `RoundVoteSets.HeightRoundVoteSet.TwoThirdsMajority` | module/consensus/tbft/vote.go:353-366 | The majority the object of a round reports is the hash with a quorum of its ballots, and empty without one. |
| `RoundVoteSets.HeightRoundVoteSet.HasTwoThirdsAny` | module/consensus/tbft/vote.go:377-393 | The object's answer is the test on its ballots; a round without votes answers no. |
| `RoundVoteSets.HeightRoundVoteSet.HasTwoThirdsNoMajority` | module/consensus/tbft/vote.go:396-402 | Yes exactly when the round's object holds a quorum of ballots of any kind. |
| `RoundVoteSets.HeightRoundVoteSet.Certificate` | module/consensus/tbft/vote.go:232-256 | The message made of a round's precommits is admitted whole by verifiers with the same validators. |
| `TbftSafety.SignForward` | module/consensus/tbft/consensus_tbft_impl.go:1078-1197 | A vote signed for the current place, in a step not signed for, keeps at most one vote per type, height and round. |
| `TbftSafety.EnterPrevoteForward` | module/consensus/tbft/consensus_tbft_impl.go:1078-1135 | Entering prevote keeps the invariant and never moves the place back. |
| `TbftSafety.EnterPrecommitForward` | module/consensus/tbft/consensus_tbft_impl.go:1138-1197 | Entering precommit keeps the invariant; a non-nil precommit has a quorum of prevotes for that hash in that round. |
| `TbftSafety.EnterCommitForward` | module/consensus/tbft/consensus_tbft_impl.go:1200-1246 | Entering commit keeps the invariant; a block handed over has a quorum of precommits in that round. |
| `TbftSafety.EnterNewRoundForward` | module/consensus/tbft/consensus_tbft_impl.go:1018-1075 | A new round is entered in the propose step with a timeout of that round only. |
| `TbftSafety.EnterNewHeightForward` | module/consensus/tbft/consensus_tbft_impl.go:961-1015 | A new height is entered in round 0 at the propose step, with its own validators and no ballots, keeping what was signed before. |
| `TbftSafety.AddVoteForward` | module/consensus/tbft/consensus_tbft_impl.go:841-958 | Filing a vote and acting on it keeps the invariant and moves forward only. |
| `TbftSafety.HandleVerifyResultForward` | module/consensus/tbft/consensus_tbft_impl.go:484-565 | A verification result keeps the invariant; the commit it may make has a quorum of precommits for the verified block. What each result leads to is stated by TbftEvents. |
| `TbftSafety.HandleProposedBlockForward` | module/consensus/tbft/consensus_tbft_impl.go:414-482 | A proposed block keeps the invariant and leads to at most one prevote. |
| `TbftSafety.HandleTimeoutForward` | module/consensus/tbft/consensus_tbft_impl.go:771-788 | A scheduled timeout that fires keeps the invariant and moves forward only. |
| `TbftSafety.HandleForward` | module/consensus/tbft/consensus_tbft_impl.go:414-958 | Every event keeps the invariant; place, signed votes, timeouts, commits and recorded votes only grow. |
| `TbftSafety.RunForward` | module/consensus/tbft/consensus_tbft_impl.go:771-1246 | Over every run the place only rises, no scheduled timeout names a later round, at most one prevote and one precommit is signed per height and round, and precommits and commits have their quorums. |
| `TbftEvents.IgnoredExactly` | module/consensus/tbft/consensus_tbft_impl.go:385-788 | Over all kinds of events: one that is not for the node's height, round, step and role leaves it entirely as it is, and a block of its own, a proposal or a committed height that is does not. |
| `TbftEvents.VoteCountsExactly` | module/consensus/tbft/consensus_tbft_impl.go:671-868 | A vote message counts, in every kind and round of ballots, exactly when it is in time, authentic or the node's own, and the first of a validator; no other ballot changes, and exactly the votes counted are recorded. |
| `TbftEvents.VoteIsOnlyFiled` | module/consensus/tbft/consensus_tbft_impl.go:870-958 | A vote of a kind the step does not wait for, or of another round without a majority there, is filed and moves nothing. |
| `TbftEvents.ProposerPrevotesItsBlock` | module/consensus/tbft/consensus_tbft_impl.go:414-482 | The proposer of the round takes up its own block and prevotes it. |
| `TbftEvents.FailedBlockIsDropped` | module/consensus/tbft/consensus_tbft_impl.go:503-513 | A failed verification for the node's height drops the block and changes nothing else: no vote, no proposal, no step. |
| `TbftEvents.VerifiedBlockIsPrevoted` | module/consensus/tbft/consensus_tbft_impl.go:539-564 | A block that passed, with no precommit majority waiting for it, becomes the proposal and is prevoted, unless the DPoS check refuses it. |
| `TbftEvents.DecidedBlockIsCommitted` | module/consensus/tbft/consensus_tbft_impl.go:515-537 | A block that passed and already has a precommit majority becomes the proposal and is handed over, with no vote. |
| `TbftEvents.UselessResultDropsBlock` | module/consensus/tbft/consensus_tbft_impl.go:515-564 | A result for another block, or after the propose step without a majority waiting, drops the block under verification and nothing else. |
| `TbftEvents.UnheardPrevotesNil` | module/consensus/tbft/consensus_tbft_impl.go:1078-1135 | When the time for a proposal is up the node prevotes the one it holds, or nil. |
| `TbftEvents.UndecidedPrecommitsNil` | module/consensus/tbft/consensus_tbft_impl.go:1138-1197 | When the time for prevotes is up, with a quorum of them in, the node precommits the majority, or nil. |
| `TbftEvents.UndecidedMovesOn` | module/consensus/tbft/consensus_tbft_impl.go:1200-1246 | When the time for precommits is up without a block decided, the next round begins without proposal or marks, with one new timeout, and all ballots are kept. |
| `TbftEvents.CommittedHeightMovesOn` | module/consensus/tbft/consensus_tbft_impl.go:567-582 | A committed height takes the node to round 0 of the height after it, with that height's validators and no ballots, unless it is there already. |
| `TbftEvents.TimeoutsScheduledOnce` | module/consensus/tbft/consensus_tbft_impl.go:870-1075 | In every run no timeout is scheduled twice, the one for the round's proposal is scheduled, and the marks tell which of the other two are. |
| `TbftProvenance.PrevotesAreVetted` | module/consensus/tbft/consensus_tbft_impl.go:414-565 | In every run each prevote for a block is for one the node itself proposed as proposer at that height and round, or for one the proposer sent before and whose result, met there, was not a failure for that height. |
| `TbftSafety.PrevoteLeadsTo` | module/consensus/tbft/consensus_tbft_impl.go:870-912 | A prevote of its round makes a waiting node precommit exactly the hash that reached the quorum, nil when nil did or nothing can, and otherwise nothing. |
| `TbftSafety.PrecommitLeadsTo` | module/consensus/tbft/consensus_tbft_impl.go:914-958 | A precommit of its round makes a waiting node commit its proposal exactly when that reached the quorum, go to the next round when nil did or nothing can, and otherwise wait. |
| `TbftSafety.StepKeepsNetInv` | module/consensus/tbft/consensus_tbft_impl.go:671-751 | A delivery to one honest node keeps every node's invariant and the fact that votes recorded under an honest name were signed by it. |
| `TbftSafety.QuorumsShareHonest` | module/consensus/tbft/vote.go:326-349 | With fewer than a third of duplicate-free validators faulty, two quorums share an honest validator. |
| `TbftSafety.QuorumsAgree` | module/consensus/tbft/vote.go:290-351 | Two quorums of one kind recorded by honest nodes at one height and round are for one hash. |
| `TbftSafety.HonestNodesAgree` | module/consensus/tbft/consensus_tbft_impl.go:515-537 | In every run of the network with fewer than a third faulty, two honest nodes commit one block at a height and round, and precommit one block there. |
| `TbftOwnVotes.AgreeWithoutOwnVotes` | module/consensus/tbft/consensus_tbft_impl.go:690-739 | In every run in which only votes under other nodes' names are genuine, as the signature check secures, two honest nodes agree at a height and round if fewer than a third of the validators are faulty, these two counted among them. |
| `TbftSafety.SoleValidatorCommits` | module/consensus/tbft/consensus_tbft_impl.go:414-1246 | Legal deliveries lead to a decision: a sole validator that proposes a block and hears its own prevote and precommit commits that block. |
| `TbftPanics.PanicExactly` | module/consensus/tbft/consensus_tbft_impl.go:1150-1164 | Entering precommit without any prevote outcome happens exactly when a prevote of a later round completes a majority the node acts on while its own round is undecided. |
| `TbftPanics.NoPrevotePanic` | module/consensus/tbft/consensus_tbft_impl.go:870-1197 | In every run that delivers no prevote of a later round the panic on entering precommit is unreachable. |
| `TbftPanics.LaterPrevotesPanic` | module/consensus/tbft/consensus_tbft_impl.go:899-911 | From a start, a pending timeout and nil prevotes of round 1 from three of four validators, each deliverable in any network where the honest ones signed theirs, make a node waiting in round 0 panic. |
| `TbftPanics.CommitPanicExactly` | module/consensus/tbft/consensus_tbft_impl.go:1200-1246 | Entering commit with a block other than the proposal happens exactly on a commit timeout of the round, or on a later-round precommit that completes a majority, while the round has a majority for another block. |
| `TbftPanicRuns.CommitTimeoutPanics` | module/consensus/tbft/consensus_tbft_impl.go:1200-1246 | A legal run from a start, in any network where the honest of the three others signed the votes it names, after which a node without the proposal enters commit on its timeout and panics. |
| `TbftPanicRuns.LaterPrecommitsPanic` | module/consensus/tbft/consensus_tbft_impl.go:914-958 | The same, with the panic brought on by nil precommits of the next round. |
| `TbftPanics.HandleKeepsBacked` | module/consensus/tbft/consensus_tbft_impl.go:870-958 | A precommit timeout pending for the node's place always has a quorum of prevotes behind it. |
| `TbftNode.ConsensusState.constructor` | module/consensus/tbft/consensus_tbft_impl.go:961-1015 | The started object is at the height after the ledger's last block, in round 0, and satisfies the node invariant. |
| `TbftNode.ConsensusState.Handle` | module/consensus/tbft/consensus_tbft_impl.go:385-412 | Through its vote-set objects, one turn of the event loop takes the object where the machine on ballots goes, keeps the node invariant and moves only forward; every block handed over stays certified. Where the machine goes on each event is stated by TbftEvents and TbftSafety. |
| `TbftNode.ConsensusState.CertificateOf` | module/consensus/tbft/consensus_tbft_impl.go:1217-1241 | The certificate made for a hash with a precommit majority is a well-keyed set of precommits of the node's height and round whose admitted votes hold a quorum for it. |
| `TbftNode.ConsensusState.VerifyCommitted` | module/consensus/tbft/utils.go:75-99 | In every reachable state the certificate of each block handed over is of the block's height and passes the verifier, with the validators of that height, for that block. |
| `Proposers.EachProposesOnce` | module/consensus/tbft/validator.go:97-107 | Where the offsets fit 32 bits, each validator proposes exactly once in any n rounds in a row. |
| `Proposers.ProposerOfTurn` | module/consensus/tbft/validator.go:97-107 | Where the offsets fit, the proposer of the blocks of a turn is the validator at place (turn + round) mod n, the first turn one block short. |
| `Proposers.HasProposerExactly` | module/consensus/tbft/validator.go:97-107 | A round has a proposer exactly when the 32-bit sum of the offsets has a clear sign bit or is a multiple of n short of wrapping. |
| `Proposers.OffsetOverflows` | module/consensus/tbft/validator.go:102-106 | At height 2^31 with four validators and one block per proposer, round 0 has no proposer. |
| `Sync.NextNew` | module/sync/scheduler.go:199-211 | The least height still to be asked for, or none when there is none. |
| `Sync.SelectPeer` | module/sync/scheduler.go:234-254 | A peer that has the block, with the fewest requests under way, first by name; the empty name only when no peer has it. |
| `SyncRoutines.Track` | module/sync/scheduler.go:123-126 | Every height of the window not tracked yet becomes new; the others stay as they are. |
| `SyncRoutines.MarkRequested` | module/sync/scheduler.go:184-188 | The batch from a height to the peer's height is marked in all three request tables. |
| `SyncRoutines.FindBelow` | module/sync/scheduler.go:131-139 | The tracked heights strictly below the ledger, in any map order. |
| `SyncRoutines.LeastNew` | module/sync/scheduler.go:200-205 | The loop finds the least new height in any map order. |
| `SyncRoutines.MaxHeight` | module/sync/scheduler.go:213-221 | The greatest peer height, or zero. |
| `SyncRoutines.PeersWith` | module/sync/scheduler.go:256-264 | Exactly the peers that are high enough. |
| `SyncRoutines.CountRequests` | module/sync/scheduler.go:266-274 | The number of heights being asked of a peer. |
| `SyncRoutines.GroupByRequests` | module/sync/scheduler.go:240-244 | Every peer is in the group of its number of requests, and groups hold nothing else. |
| `SyncRoutines.ChoosePeer` | module/sync/scheduler.go:234-254 | Grouping, least key and first name give the preferred peer. |
| `SyncRoutines.TakeBlocks` | module/sync/scheduler.go:285-297 | Block by block, arriving heights leave the request tables, and tracked ones become received; processing is needed exactly when one was tracked. |
| `SyncRoutines.Enqueue` | module/sync/processor.go:61-74 | Blocks above the ledger join the queue, the first per height, never replacing a queued one. |
| `SyncRoutines.FindStale` | module/sync/processor.go:100-105 | The queued heights not above the ledger, in any map order. |
| `SyncRoutines.SyncScheduler.constructor` | module/sync/scheduler.go:50-74 | A new scheduler tracks nothing and expects the height after the ledger's. |
| `SyncRoutines.SyncScheduler.AddPendingBlocks` | module/sync/scheduler.go:114-127 | The window after the next height becomes tracked unless the pool is full or the peer is not ahead. |
| `SyncRoutines.SyncScheduler.HandleDetection` | module/sync/scheduler.go:129-142 | Heights below the ledger leave every table and the next height restarts after the ledger's. |
| `SyncRoutines.SyncScheduler.IsNeedSync` | module/sync/scheduler.go:223-232 | True exactly when a peer is two ahead, or one ahead after the waiting time. |
| `SyncRoutines.SyncScheduler.NextHeightToReq` | module/sync/scheduler.go:199-211 | The least new height, or none; one that is behind is dropped instead. |
| `SyncRoutines.SyncScheduler.HandleScheduleMsg` | module/sync/scheduler.go:159-197 | A batch from the least new height is asked of the preferred peer, under exactly the conditions of the handler. |
| `SyncRoutines.SyncScheduler.HandleSyncedBlocks` | module/sync/scheduler.go:276-302 | The tables take the batch and it is passed on exactly when some height was tracked. |
| `SyncRoutines.SyncProcessor.constructor` | module/sync/processor.go:40-47 | The queue starts empty. |
| `SyncRoutines.SyncProcessor.HandleReceivedBlocks` | module/sync/processor.go:61-74 | The queue takes the blocks above the ledger that it lacks. |
| `SyncRoutines.SyncProcessor.HandleDetection` | module/sync/processor.go:99-106 | Exactly the queued heights not above the ledger are removed. |
| `SyncSafety.NodeStatusKeeps` | module/sync/scheduler.go:94-127 | A peer status keeps the scheduler's bounds and the next height. |
| `SyncSafety.DetectionKeeps` | module/sync/scheduler.go:129-142 | Detection keeps the bounds and never lowers the next height. |
| `SyncSafety.LivenessKeeps` | module/sync/scheduler.go:144-157 | A timeout keeps the bounds and leaves no height above the ledger marked pending without a request. What it does is stated by SyncEffects.LivenessExactly. |
| `SyncSafety.ScheduleKeeps` | module/sync/scheduler.go:159-211 | A request keeps the bounds. |
| `SyncSafety.SyncedKeeps` | module/sync/scheduler.go:276-302 | An arriving batch keeps the bounds, and a height newly received is on its way to the processor. |
| `SyncSafety.ResponseKeeps` | module/sync/scheduler.go:304-328 | A report keeps the bounds and never lowers the next height. |
| `SyncSafety.ProcessStepKeeps` | module/sync/processor.go:76-97 | Processing a block keeps the system invariant, with the ledger advancing in between. |
| `SyncSafety.StepKeepsInv` | module/sync/scheduler.go:94-328 | Every step of scheduler, processor and outside commits keeps the invariant; next height and ledger never go back. |
| `SyncSafety.RunKeepsInv` | module/sync/scheduler.go:94-328 | The same over every run. |
| `SyncSafety.EveryRunIsSafe` | module/sync/scheduler.go:94-328 | With pool and batch of at least 1, in every run the next height is at most one past the ledger, request tables have equal domains, everything tracked is below ledger + pool + batch, and no height above the ledger is stuck: it is new, being asked for, or in the pipeline. |
| `SyncSafety.NextBlockIsRequested` | module/sync/scheduler.go:94-211 | After a detection and a status of a peer ahead, at most two scheduling turns have the next block asked of a peer that has it. |
| `SyncSafety.ArrivedBlockIsQueued` | module/sync/processor.go:61-74 | A block for the next height that arrives and is taken is in the processor's queue. |
| `SyncSafety.QueuedBlockCommits` | module/sync/blockchain_sync_server.go:370-392 | A queued next block that passes is in the ledger, counted, reported, and the scheduler moves past it. |
| `SyncEffects.LivenessExactly` | module/sync/scheduler.go:144-157 | An overdue request for the next height is undone, the height is new again if above the ledger, its peer and no other is dropped, and no other height changes; without one nothing happens. |
| `SyncEffects.StatusExactly` | module/sync/scheduler.go:94-127 | A peer that went back or archived what is needed is dropped or ignored; any other is noted with its height, and exactly the untracked heights of the window become new while the pool has room. |
| `SyncEffects.DetectionExactly` | module/sync/scheduler.go:129-142 | Exactly the tracked heights below the ledger's are forgotten, and the one after the ledger's last is new and next. |
| `SyncEffects.SyncedExactly` | module/sync/scheduler.go:276-302 | Exactly the heights that arrive leave the request tables, and those tracked are received from that peer. |
| `SyncEffects.ResponseExactly` | module/sync/scheduler.go:304-328 | After a success the height is done with and the next one past it; after a failure the height is new and the sender dropped; nothing else changes. |
| `SyncEffects.PassedOnExactly` | module/sync/scheduler.go:285-301 | Over all kinds of steps: a batch goes to the processor exactly when it arrives and a height in it is tracked, and leaves only when taken. |
| `SyncEffects.ScheduleExactly` | module/sync/scheduler.go:159-197 | Nothing without a peer far enough ahead or a new height; a least new height that is behind is dropped; otherwise the batch from it is asked, with its time, of a peer that has it, is least busy and first by name among those. |
| `SyncEffects.LateBlockIsAskedElsewhere` | module/sync/scheduler.go:144-197 | After a request timed out with another peer ahead, the scheduling turns, one more than there are heights left over, have the block asked of a peer other than the one that kept it waiting. |
| `SyncEffects.ReceivedExactly` | module/sync/processor.go:61-74 | A queued block stays; of the blocks that arrive exactly the first for each height above the ledger joins the queue. |
| `SyncEffects.QueueExactly` | module/sync/processor.go:61-106 | Over all kinds of steps: a queued block leaves exactly when judged or when a detection finds it in the ledger, and none joins but the first for its height of a batch taken. |
| `SyncEffects.RefusedBlockIsAskedAgain` | module/sync/blockchain_sync_server.go:370-392 | A block the verifier or the committer refuses is reported so and not counted; its height is new again, its sender dropped, and the next height stays. |
| `SyncEffects.KnownBlockIsPassed` | module/sync/blockchain_sync_server.go:370-392 | A block that is in the ledger already is reported, counted and passed, and its sender is kept. |
| `SyncEffects.ProcessedAreCommitted` | module/sync/processor.go:76-97 | In every run no more blocks are counted as processed than the ledger grew by. |
| `Josephus.JosephusIsWalk` | module/consensus/governance/governance_opt.go:306-319 | The list-removal form and the circular form of the walk choose the same entries in the same order. |
| `Josephus.ChooseAround` | module/consensus/governance/governance_opt.go:304-319 | The loop over the marked array terminates and chooses exactly the list-removal walk's entries, in order. |
| `Josephus.GetRandomList` | module/consensus/governance/governance_opt.go:290-321 | All indices when there are no more than wanted; otherwise exactly the wanted number, strictly ascending, below n, and the same set as the list-removal walk from seed mod n. |
| `Governance.MixSeed` | module/consensus/governance/governance_opt.go:331-346 | The seed is the big-endian number of the first eight bytes, each mixed with the byte 24 places on, short seeds padded with zeros. |
| `Governance.CreateValidators` | module/consensus/governance/governance_opt.go:323-356 | All members when no more than wanted; otherwise, from members in index order, the wanted number at the places of the Josephus walk, in index order. |
| `Governance.CollectIds` | module/consensus/governance/governance_opt.go:519-527 | Every configured id exactly once. |
| `Governance.AllocateIndices` | module/consensus/governance/governance_opt.go:529-542 | In name order, a known node keeps its member and another gets the next index. |
| `Governance.ConfiguredMembers` | module/consensus/governance/governance_opt.go:512-542 | The members are exactly the configured nodes, with distinct indices; newcomers get consecutive indices in name order. |
| `Governance.GovernanceContract.constructor` | module/consensus/governance/governance_opt.go:199-269 | The genesis members are the configured nodes indexed from 0 in name order; the quorum is max((2n+1)/3, 3). |
| `Governance.ReadSettings` | module/consensus/governance/governance_opt.go:91-140 | The wanted settings are the last readable 64-bit values given under each key, those below the lower limits not counting. |
| `Governance.GovernanceContract.UpdateSettings` | module/consensus/governance/governance_opt.go:91-140 | Settings the configuration gives and that differ replace the old ones, and only that counts as a change. |
| `Governance.GovernanceContract.UpdateByConfig` | module/consensus/governance/governance_opt.go:501-582 | A seen sequence changes nothing; otherwise members, indices, quorum, validators and settings follow the configuration, and a rewrite happens exactly when nodes or settings changed. |
| `Governance.RewriteExactly` | module/consensus/governance/governance_opt.go:546-546 | The index and the count of members are unchanged exactly when the set of nodes is. |
| `Governance.UpdateKeepsValid` | module/consensus/governance/governance_opt.go:501-582 | An update keeps indices distinct and below the maximum, never lowers the maximum, and keeps every staying member. |
| `Governance.IndexNeverReused` | module/consensus/governance/governance_opt.go:501-582 | Over any sequence of updates no index is ever given to a second node. |
| `Governance.StayingKeepsIndex` | module/consensus/governance/governance_opt.go:501-582 | Over any sequence of updates a node that stays a member keeps its index. |
| `GovernanceRuns.LastGivenExactly` | module/consensus/governance/governance_opt.go:91-140 | A setting is given the number of the last entry with its key that is readable and not below the limit, and none without such an entry. |
| `GovernanceRuns.SettingsAreThoseGiven` | module/consensus/governance/governance_opt.go:91-140 | A new configuration sets exactly what it gives, under its three keys and limits, and leaves the rest. |
| `GovernanceRuns.SettingsStayInForce` | module/consensus/governance/governance_opt.go:91-140 | Over any sequence of updates timeouts never fall below their limits and no setting returns to zero. |
| `GovernanceRuns.QuorumStaysFitting` | module/consensus/governance/governance_opt.go:546-570 | Over any sequence of updates counts and validators are those of the members, and the quorum is the number nearest to two thirds of them, at least three. |
| `GovernanceRuns.LastQuorumIsPrevious` | module/consensus/governance/governance_opt.go:546-570 | An update that changes nodes or settings keeps the quorum before it as the last one. |
| `GovernanceRuns.SeedDigits` | module/consensus/governance/governance_opt.go:331-346 | The digits of the seed to base 256 are the first eight bytes, each mixed with the one 24 places on. |
| `GovernanceRuns.SeedIgnoresMiddle` | module/consensus/governance/governance_opt.go:331-346 | Bytes 8 to 23, and those from the 32nd on, do not count. |
| `QuorumCert.CountNumFromVotes` | module/consensus/chainedbft/impl.go:494-525 | Counts succeed exactly when every vote is present, valid, of the certificate's height and level and from an author of its own, and are then the greatest numbers of authors with a vote for the certificate's block and for a new view; otherwise the first bad vote gives its fault. |
| `QuorumCert.VerifyJustifyQC` | module/consensus/chainedbft/protocol.go:199-232 | A certificate is accepted exactly when its form fits and it is of the last epoch, or of this one with votes in order and, above level 0, a quorum of authors with votes for its own block, or for a new view. |
| `QuorumCert.BlockAuthorsVoted` | module/consensus/chainedbft/impl.go:508-524 | The authors counted for the block are exactly those with a vote for the certificate's own, non-empty block id. |
| `QuorumCert.AcceptsOnVotes` | module/consensus/chainedbft/protocol.go:199-232 | Acceptance in terms of the votes alone, both ways: form, epoch, votes in order, and a quorum of authors with a vote for this block id or for a new view. |
| `QuorumCert.CertificatesShareVoters` | module/consensus/governance/governance_opt.go:255-255 | With n >= 4 validators, for two accepted block certificates there are validators with a vote for the one's block in it and for the other's in the other, more than (n-1)/3 of them unless n mod 3 is 2, and then at least (n-1)/3. |
| `QuorumCert.CertificatesMayShareTooFew` | module/consensus/governance/governance_opt.go:557-557 | For every n >= 4 with n mod 3 equal to 2 there are two accepted certificates for different blocks in which exactly (n-1)/3 validators voted for both, and no larger set did. |
| `Decimal.RoundTrip` | module/consensus/dpos/contract_info.go:281-286 | A balance of any size survives being written in decimal and read back. |
| `Decimal.DigitsAreDecimal` | module/consensus/dpos/contract_info.go:281-286 | Each further digit of a number written in decimal is its remainder by ten. |
| `Decimal.PlusIsIgnored` | module/consensus/dpos/contract_info.go:281-286 | A plus sign before digits changes nothing, and a sign alone is not a number. |
| `Decimal.Uint64Exactly` | module/consensus/governance/governance_opt.go:91-140 | Settings are read as unsigned 64-bit numbers: every smaller number is read back, larger ones, signs and the empty text are refused. |
| `Unbonding.GetState` | module/consensus/dpos/state.go:15-34 | The backward scan returns the first write in the last transaction that writes the key, or else the store's value. |
| `Unbonding.ReadThroughExact` | module/consensus/dpos/state.go:15-34 | That equals replaying the block over the store exactly when the last writing transaction's first and last write of the key agree. |
| `Unbonding.WrittenOnceAgrees` | module/consensus/dpos/state.go:19-26 | A transaction that writes a key at most once has equal first and last writes of it. |
| `Unbonding.TwiceWrittenDiffers` | module/consensus/dpos/state.go:19-26 | A transaction that writes a key twice, differently, makes the reading differ from the replay. |
| `Unbonding.BalanceOf` | module/consensus/dpos/contract_info.go:309-325 | The balance read through the block: zero when empty, an error when unreadable or not a number. |
| `Unbonding.CreateUnbondingRwSet` | module/consensus/dpos/contract_info.go:229-273 | The nested loops pay all entries in turn, and stop with the error of the first that fails. |
| `UnbondingLaws.SucceedsExactly` | module/consensus/dpos/contract_info.go:229-307 | An unbonding succeeds exactly when every amount and balance needed can be read and the stake account covers each payout in turn. |
| `UnbondingLaws.FirstFailureReported` | module/consensus/dpos/contract_info.go:229-307 | A failed unbonding reports why the first payout that cannot be made cannot: the delegator's balance, the amount, the stake balance, or too little stake, in this order. |
| `UnbondingLaws.NewAccountStartsAtZero` | module/consensus/dpos/contract_info.go:309-325 | An account the block does not write and the store does not hold starts at zero. |
| `UnbondingLaws.StoredAccountStarts` | module/consensus/dpos/contract_info.go:309-325 | An account the block does not write starts at the number stored; an unreadable store or a text that is no number is an error. |
| `UnbondingLaws.CoveredSucceeds` | module/consensus/dpos/contract_info.go:229-307 | Payouts with readable amounts, none negative, that the stake account covers in all succeed, to delegators without an account too. |
| `UnbondingLaws.BooksBalance` | module/consensus/dpos/contract_info.go:229-273 | The balances kept are those of the accounts touched: start plus all entries credited, less the total for the stake account. |
| `UnbondingLaws.StaysCovered` | module/consensus/dpos/contract_info.go:290-307 | With no negative amount or start, no balance becomes negative. |
| `UnbondingLaws.UnbondingPays` | module/consensus/dpos/contract_info.go:229-325 | Replayed last-wins over the store after the block, each delegator holds its balance and all its entries, the stake account its balance less the total, and no other account changes, if the last writer of the key in the block gives it one value. |
| `UnbondingLaws.DelegatorsGetTheirEntries` | module/consensus/dpos/contract_info.go:229-325 | In terms of the undelegations: a delegator's balance grows by the sum of its entries and the stake account's falls by the sum of all, under the same condition. |
| `UnbondingLaws.UnbondingConserves` | module/consensus/dpos/contract_info.go:229-325 | The sum over any accounts that include everyone paid and the stake account is unchanged, under the same condition. |
| `Election.PickSet` | module/consensus/dpos/utils.go:54-57 | The candidates at the drawn places, in any map order. |
| `Election.LeaveOut` | module/consensus/dpos/utils.go:59-64 | The sorted candidates that were not drawn, in order. |
| `Election.ValidatorsElection` | module/consensus/dpos/utils.go:28-80 | Errors for no seats and too few candidates; all candidates when seats match; otherwise the candidates are sorted in place, heaviest first, and the seats are those of the two drawings, one fixed sequence, heaviest first, when the output is sorted. |
| `Election.ElectionIsFair` | module/consensus/dpos/utils.go:28-118 | A sorted election seats n different candidates, at least n/2 of them among the first n of the sorted candidates. |
| `Election.SortedByWeight` | module/consensus/dpos/utils.go:110-118 | Sorted candidates never grow in weight, and those of one weight are in the order of their names. |
| `Election.TopIsHeaviest` | module/consensus/dpos/utils.go:28-118 | Each of the first n sorted candidates weighs more than every candidate outside, or as much with an earlier name. |
| `Election.HalfAreHeaviest` | module/consensus/dpos/utils.go:28-118 | At least n/2 of the seats go to candidates that weigh no less than any candidate outside the n heaviest. |
| `Election.SeatedExactly` | module/consensus/dpos/utils.go:46-74 | A candidate is seated exactly when its place is among the first n/2 of the first drawing, or its place without those drawn is among the first n - n/2 of the second. |
| `Election.ElectionIgnoresOrder` | module/consensus/dpos/utils.go:28-118 | The seats do not depend on the order the candidates come in. |

## Left out

- Agreement across TBFT rounds and liveness: the locking fields are never assigned, so the code does not decide them.
- TBFT write-ahead log and its replay, gossip, timers, metrics and the debug switches: input, output, timing or deliberate misbehaviour.
- Signatures, certificates, hashing and message encoding: assumed authentic, collision free and faithful.
- TbftNode.ConsensusState.Handle: a failed signature is ignored by the code and the vote is sent all the same, so signing never fails here.
- UnbondingLaws.UnbondingPays: holds where the block's last writer of the account's key gives it one value; `Unbonding.ReadThroughExact` shows this is needed.
- BlockCommit.DirectSuccessorReadsSurvive: contract names in use must not be prefixes of one another, since joined keys could then collide (`Snapshots.KeyCollisionExact`).
- TbftSafety.HonestNodesAgree: assumes that a vote under an honest name was signed by that node and that honest nodes share the validators of a height. For votes under the receiver's own name the code does not secure this, since they are taken without a signature check wherever they come from; `TbftOwnVotes.AgreeWithoutOwnVotes` does without it, but needs more honest validators, at least ten in all with one faulty, so what such votes do to agreement among fewer is open.
- Snapshots.Snapshot.ApplyTxSimContext: the second sealed check takes a lock that is already held; the two checks are one here.
- Serializability.EveryRunIsSerializable: iterator transactions skip the check and are run alone by a scheduler that is not part of this model.
- Dag.BuildDAG: beyond 2^32 transactions the 32-bit indices repeat and nothing is claimed.
- SyncRoutines.LeastNew: the code marks "no height" by the greatest 64-bit number; here it is a separate value, and heights near that number are not modelled.
- SyncRoutines.FirstByName: stands for sorting the names and taking the first.
- Epoch switching of next validators, transit blocks and the encoding of the governance contract: field copies around the modelled operations.
- QuorumCert.VerifyJustifyQC: the quorum is a parameter, so the choice between the old and the new quorum at a switch height is not modelled.
- Unbonding.CreateUnbondingRwSet: the key of an address and the stake address come from outside; keys are assumed to differ for different addresses.
- Election.ValidatorsElection: the two permutations are parameters, so that they come from one seed is not modelled; weights are numbers already.
- Proposers.EachProposesOnce: rounds are not negative and the blocks per proposer not zero.
- Chained HotStuff beyond counting votes, the Raft engine, the transaction scheduler and virtual machines, evidence snapshots, access control, RPC, networking, subscriptions, caches and command-line tools: plumbing, or not decided by the modelled files.
