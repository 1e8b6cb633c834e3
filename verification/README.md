# Verified model of the Mysticeti consensus core

This project models the safety core of the Mysticeti consensus implementation and proves what it relies on.
`dafny verify dfyconfig.toml` checks all of it.

The system is a DAG of blocks. Each validator holds a view of the DAG that is closed above its own
garbage-collection (GC) round. Faulty authors hold less than the validity threshold of the stake and may
equivocate; every other author has one chain of own ancestors. Signatures are taken to authenticate authors and
digests to be free of collisions.

1. **Commit rule.** `CommitRule` defines the direct and the indirect rule. `BaseCommitter` and
   `UniversalCommitter` carry them out with the source's loops, memo table and early exits, and are proved equal
   to the rule. `CommitSafety` proves that any two views agree, `UniversalCommitter.LogsAgree` lifts this to whole
   runs, and `TotalOrder` to the committed blocks, one by one and in order. `CommitLiveness` proves the other
   direction: what a view has to show for a leader to be committed and output.
2. **Block manager.** `BlockIndex` states the invariant of the three indexes, `BlockSteps` the loops, and
   `BlockManager` the object. `BlockRuns` proves that the outcome depends only on what was received, and exactly when
   over runs of all operations the DAG is the closed view the commit rule asks for. `CertifiedCommits` proves that the
   blocks of fetched commits may be taken in as one batch and then committed one after the other.
3. **DAG state.** `DagCache` defines the operations of the cache in front of the store, with the committed flags,
   the committed rounds and their checkpoints, and compares all runs with a plain set of accepted blocks.
   `DagSteps` has the loops and `DagState` the object. `CausalHistory` and `Linearizer` have the traversals,
   `CommittedRounds` and `Recovery` what a restart rebuilds. `CommitRecords` proves that the linearizer's commits
   are always acceptable to the DAG state.
4. **Commit finalizer.** `Finality` and `VoteLinks` define what happens to a commit, `FinalizerSteps` has the
   loops and `CommitFinalizer` the object. `FinalityBuffer` proves the invariant, `FinalityRuns` conservation over
   all runs, `FinalityVotes` that stored votes are those of the author chains still linked, and `FinalityFates` why
   every transaction ended as it did. `FinalityTiming` and `FinalityProgress` prove that nothing is held back longer
   than the inputs ask for. `FinalizerInput` derives what is expected of the commits from the linearizer.
   `FinalityAgreement` and `FinalityDisputes` prove exactly when validators agree on indirectly finalized
   transactions. `CommitCertificates`, `FinalityWorld` and `FinalityEverywhere` prove agreement on all transactions,
   direct finalization included. `FinalityExample` and `DisputedConsensus` build a consensus whose validators
   disagree.
5. **Commit syncer.** `CommitRanges` and `CommitSyncer` prove that no index is lost or handed over twice.
   `CommitChain` proves that two certified responses agree on every index they share.

## Findings

Properties that the code has only under a condition. Each comes with a concrete input where it fails and with the
condition under which it holds.

- **Wave length.** Blames are counted only in the round after the leader. With waves of more than three rounds two
  views of a DAG without a single fault can decide one slot differently (`WaveLength.LongWaveExample`). The direct
  rules agree if and only if waves have three rounds (`WaveLength.DirectDecisionsAgreeIff`).
- **Reject votes on blocks of later commits.** A block may carry a reject vote on a block it does not link, and
  verification lets it through. Once the commit of the voting block is output, the finalizer forgets the vote; a
  validator that still buffers that commit passes it on to the author's next block. Two validators that decide the
  same commits can then output different fates for a transaction: with four authorities, one of them faulty, and each
  validator counting the votes in the blocks it has seen (`DisputedConsensus.SameCommitsDifferentFates`). They agree,
  whatever stakes they count, if and only if acceptance at the deadline does not hang on commits before that of the
  transaction, which can be read off the commits (`FinalityDisputes.FatesAgreeIff`). Votes cast in the commit of the
  transaction or later cause no dispute (`FinalityAgreement.LateVotesAreUndisputed`).
- **Eviction without a cached round.** With no round cached below the last one, eviction can take the last block of
  an authority out of memory, and the existence check then denies it (`DagForgets.ForgetVerified`). The cache is
  faithful over all runs of verified blocks if and only if a round is cached, there is no authority, or the only
  authority leads above a positive GC depth (`DagForgets.FaithfulIff`).
- **Committed blocks ahead of the GC round.** Blocks of certified commits are taken in before the GC round moves,
  and until then the DAG may lack ancestors above it: one block with a quorum of parents that passes verification is
  enough (`BlockRuns.OpenBeforeCaughtUp`). In every committee, over all runs of verified blocks, the DAG is closed if
  and only if the GC round has reached the one the committed blocks are closed above (`BlockRuns.ClosedIff`), as it
  does within the same turn of the commit loop. Until then the leaders of these commits still have their whole
  history (`CertifiedCommits.CertifiedLeadersAreHeld`), which is all that expanding them asks for.

Where code and comments differ, the code is followed. The comment at `consensus/core/src/block_manager.rs:77` says
accepted blocks come back in ascending order of round; the code returns them in causal order, which is what is
proved. The comment at `consensus/core/src/commit_finalizer.rs:372-373` says that votes of blocks already output are
no longer needed; the second finding shows when they are.

## Model

| member | source | states |
|---|---|---|
| `Committee.ThresholdsAreComplementary` | consensus/config/src/committee.rs:39-58 | Quorum and validity thresholds add up to the total stake plus one. |
| `Committee.QuorumIntersection` | consensus/config/src/committee.rs:39-58 | Two quorums share an author outside any set below the validity threshold. |
| `Committee.HonestAuthorsAreQuorum` | consensus/config/src/committee.rs:98-105 | The other authors always form a quorum, the faulty ones never do. |
| `Committee.StakeAggregator.constructor` | consensus/core/src/stake_aggregator.rs:47-53 | An aggregator starts with no votes. |
| `Committee.StakeAggregator.Add` | consensus/core/src/stake_aggregator.rs:58-65 | Each author counts once; the result says whether the counted authors are a quorum. |
| `BlockVerifier.VerifyBlock` | consensus/core/src/block_verifier.rs:52-137 | No error exactly for well-formed blocks of the epoch, with each condition spelled out; every error says what is wrong, ancestor errors of which ancestor. |
| `BlockVerifier.NoErrorsMeansWellFormed` | consensus/core/src/block_verifier.rs:91-127 | The ancestor loop reports nothing exactly when every ancestor is in place and authors are distinct. |
| `Views.ParentsAreQuorum` | consensus/core/src/block_verifier.rs:123-132 | The ancestors one round below a verified block are in the view and come from a quorum. |
| `Views.HistoryIsQuorum` | consensus/core/src/block_verifier.rs:91-132 | A verified block reaches a quorum of authors in every lower round above GC. |
| `CommitRule.LeaderIsDecidedAtEndOfWave` | consensus/core/src/base_committer.rs:147-187 | Which rounds a committer leads, and that a leader is decided in the last round of its wave. |
| `CommitSafety.SupportSameInViews` | consensus/core/src/base_committer.rs:193-215 | The block a block supports does not depend on the view. |
| `CommitSafety.SupportPersists` | consensus/core/src/base_committer.rs:188-215 | Along the chain of an honest author, support for a slot never changes once given. |
| `CommitSafety.CertificateSameInViews` | consensus/core/src/base_committer.rs:231-275 | Being a certificate does not depend on the view. |
| `CommitSafety.CertifiedLeaderUnique` | consensus/core/src/base_committer.rs:305-320 | At most one block of a slot is ever certified, whatever the wave length. |
| `CommitSafety.SupportedLeaderUnique` | consensus/core/src/base_committer.rs:95-112 | At most one block of a slot is ever directly committed. |
| `CommitSafety.DirectCommitReachesEveryAnchor` | consensus/core/src/base_committer.rs:280-313 | After a direct commit, every later block in any view has a certificate for that leader in its history. |
| `CommitSafety.DirectCommitDecidesAnchors` | consensus/core/src/base_committer.rs:280-328 | After a direct commit, every anchor in any view decides that commit and nothing else. |
| `CommitSafety.DirectSkipExcludesCertificates` | consensus/core/src/base_committer.rs:331-360 | After a direct skip, no block anywhere certifies a leader of the slot (waves of three). |
| `CommitSafety.DirectSkipDecidesAnchors` | consensus/core/src/base_committer.rs:280-328 | After a direct skip, every anchor in any view decides skip and nothing else. |
| `CommitSafety.AnchorDecidesSame` | consensus/core/src/base_committer.rs:280-328 | One anchor decides a slot the same way in every view. |
| `CommitSafety.AnchorsAgree` | consensus/core/src/base_committer.rs:122-145 | Views that agree on later leaders pick the same anchor. |
| `CommitSafety.NoAnchor` | consensus/core/src/base_committer.rs:122-145 | Without an anchor, every committed leader from the required round on comes after an undecided one there. |
| `CommitSafety.DirectDecisionBinds` | consensus/core/src/base_committer.rs:86-145 | A direct decision in one view equals any decision, direct or indirect, in another. |
| `CommitSafety.DecisionsAgree` | consensus/core/src/base_committer.rs:86-145 | Decisions on a slot agree if those on later slots do. |
| `CommitSafety.Agreement` | consensus/core/src/base_committer.rs:86-145 | Two views never decide any slot differently, by any mix of the rules. |
| `WaveLength.DirectDecisionsAgreeIff` | consensus/core/src/base_committer.rs:86-117 | Direct decisions of all views agree if and only if waves have three rounds. |
| `WaveLength.LongWaveExample` | consensus/core/src/base_committer.rs:331-360 | For every longer wave, a DAG of four honest authors where one view skips and another commits. |
| `BaseCommitter.LookUpVote` | consensus/core/src/base_committer.rs:241-258 | The memo table never changes whether a block is a vote. |
| `BaseCommitter.CheckCertificate` | consensus/core/src/base_committer.rs:231-275 | The early-exit count finds a certificate exactly when votes come from a quorum. |
| `BaseCommitter.EnoughLeaderSupport` | consensus/core/src/base_committer.rs:364-395 | With the quick stake check and the shared memo, true exactly for a quorum of certifying authors. |
| `BaseCommitter.EnoughLeaderBlame` | consensus/core/src/base_committer.rs:331-360 | True exactly when a quorum of authors has a voting-round block without a link to the slot. |
| `BaseCommitter.TryDirectDecide` | consensus/core/src/base_committer.rs:86-117 | Decides by the direct rule; the panic on two supported leaders is unreachable. |
| `BaseCommitter.AncestorsAtRound` | consensus/core/src/dag_state.rs:476-510 | The descending frontier finds exactly the reachable blocks of the round, and terminates. |
| `BaseCommitter.AnyCertificate` | consensus/core/src/base_committer.rs:305-315 | Whether one of the candidates is a certificate. |
| `BaseCommitter.DecideLeaderFromAnchor` | consensus/core/src/base_committer.rs:280-328 | Decides from the anchor's history; the panic on two certified leaders is unreachable. |
| `BaseCommitter.TryIndirectDecide` | consensus/core/src/base_committer.rs:122-145 | The first committed leader from the next wave on, with only skipped ones before it there, decides the slot. It stays undecided exactly when there is no such leader. |
| `UniversalCommitter.RoundTargetsValid` | consensus/core/src/universal_committer.rs:205-225 | The stages of the pipeline lead disjoint rounds, and with a pipeline every round has a leader. |
| `UniversalCommitter.TargetRounds` | consensus/core/src/universal_committer.rs:205-225 | The rounds that have a leader slot: all of them with a pipeline, otherwise the first of each wave. |
| `UniversalCommitter.TargetsThrough` | consensus/core/src/universal_committer.rs:42-75 | Slots up to one of them are the slots of all rounds up to its round. |
| `UniversalCommitter.DecideRound` | consensus/core/src/universal_committer.rs:61-95 | Statuses of one round are prepended to those of later rounds by the rule. |
| `UniversalCommitter.TakeDecided` | consensus/core/src/universal_committer.rs:97-113 | The longest decided prefix. |
| `UniversalCommitter.TryDecide` | consensus/core/src/universal_committer.rs:42-113 | The slots tried are exactly the elected ones after the last decided round and at least two rounds below the highest, in order; each is decided by the rule, none stays undecided that a later leader anchors, and the longest decided prefix is output. |
| `CommitLiveness.SupportIsFound` | consensus/core/src/base_committer.rs:193-215 | The search for a supported block finds one exactly when the history has a block of the slot. |
| `CommitLiveness.LinkedLeaderHasSupport` | consensus/core/src/base_committer.rs:217-275 | A leader linked by a quorum of the next round, of which a quorum of the round after each links a quorum, has enough support. |
| `CommitLiveness.SupportedLeaderIsDecided` | consensus/core/src/universal_committer.rs:42-95 | Every leader with enough support after the last decided slot is among the statuses and decided: skipped if also blamed, otherwise committed. |
| `CommitLiveness.SupportedLeaderIsCommitted` | consensus/core/src/universal_committer.rs:42-95 | With waves of three rounds it is committed. |
| `CommitLiveness.UnlinkedSlotIsSkipped` | consensus/core/src/base_committer.rs:331-360 | A slot that a quorum of the next round does not link is skipped. |
| `CommitLiveness.SupportedLeadersAreOutput` | consensus/core/src/universal_committer.rs:42-113 | The output reaches to the end of every stretch of slots that all have a supported leader. |
| `UniversalCommitter.LogsAreJustified` | consensus/core/src/universal_committer.rs:42-113 | A log built over any run has one justified decision for each slot, in order. |
| `UniversalCommitter.LogsAgree` | consensus/core/src/universal_committer.rs:39-113 | The logs of two validators are prefixes of one another, over all runs. |
| `Linearizer.LinearizedSame` | consensus/core/src/linearizer.rs:156-218 | The blocks collected for a leader, and their order, are the same in every view. |
| `TotalOrder.LogLeadersRise` | consensus/core/src/universal_committer.rs:42-113 | The leaders a validator commits over any run come in strictly rising order of round. |
| `TotalOrder.SubDagsAre` | consensus/core/src/linearizer.rs:156-218 | Each commit has the uncommitted history of its leader above GC; no leader was committed before, so the assertion on leaders holds. |
| `TotalOrder.SubDagsAgree` | consensus/core/src/linearizer.rs:156-218 | The same leaders give the same blocks in the same order, whatever each validator held. |
| `TotalOrder.CommittedSubDagsAgree` | consensus/core/src/linearizer.rs:223-246 | From the rule to the output: the committed blocks of two validators, in order, extend one another. |
| `TotalOrder.CommittedOnce` | consensus/core/src/linearizer.rs:165-206 | In every output of the rule no block is committed twice, and each lies between the GC round and its leader. |
| `TotalOrder.AncestorsComeFirst` | consensus/core/src/linearizer.rs:165-206 | In every output of the rule no block is committed after one that refers to it. |
| `TotalOrder.HandleCommit` | consensus/core/src/linearizer.rs:223-246 | On a DAG that holds the history of each leader, newly committed leaders in rising order extend the validator's commits, each with its sub-DAG at the GC round the one before leads to; no lookup or assertion fails. |
| `TotalOrder.CaughtUpHolds` | consensus/core/src/core.rs:863-866 | A DAG that is closed above the GC round holds the history of all leaders about to be committed, though the GC round rises with each. |
| `BlockIndex.IndexesAreInverse` | consensus/core/src/block_manager.rs:47-57 | What suspended blocks wait for and who waits for a reference are inverse relations. |
| `BlockIndex.DagIsConnected` | consensus/core/src/block_manager.rs:278-378 | A block is in the DAG exactly when it was committed, or received with its needed ancestors in the DAG. |
| `BlockIndex.StateIsDetermined` | consensus/core/src/block_manager.rs:47-57 | What was received, what was committed and the GC round determine the whole state. |
| `BlockSteps.TryUnsuspendBlock` | consensus/core/src/block_manager.rs:432-454 | One dependency is met; the block leaves when it was the last. The lookup and the assertion on the dependency hold. |
| `BlockSteps.UnsuspendChildren` | consensus/core/src/block_manager.rs:382-428 | The worklist terminates, keeps the indexes consistent and releases blocks in causal order. |
| `BlockSteps.RecordMissing` | consensus/core/src/block_manager.rs:308-352 | Exactly the needed ancestors outside the DAG are entered as missing; only unsuspended ones are fetched. |
| `BlockSteps.TryAcceptOneBlock` | consensus/core/src/block_manager.rs:278-378 | Which blocks are processed, skipped, accepted or suspended, with the indexes after each case. |
| `BlockSteps.ReceiveCommittedBlock` | consensus/core/src/block_manager.rs:182-208 | A committed block is accepted at once and its own dependencies are withdrawn. |
| `BlockSteps.TryAcceptBlocksInternal` | consensus/core/src/block_manager.rs:108-180 | Known afterwards are the blocks known before and those of the batch above GC; accepted ones come out in causal order. Reported missing are exactly the ancestors above GC of new blocks that are still unknown, none for committed batches; the fetch list grows by these and loses what is known. |
| `BlockSteps.TryFindBlocks` | consensus/core/src/block_manager.rs:212-271 | Exactly the unknown references above GC become missing, are returned and join the fetch list. |
| `BlockSteps.TryUnsuspendForGcRound` | consensus/core/src/block_manager.rs:458-525 | The sweep terminates, leaves no dependency at or below the GC round, takes exactly these off the fetch list and releases blocks in causal order; no collected reference is suspended, as asserted. |
| `BlockManager.BlockManager.constructor` | consensus/core/src/block_manager.rs:64-72 | On a stored DAG that is closed above its GC round, empty indexes are valid. |
| `BlockManager.BlockManager.TryAcceptBlocks` | consensus/core/src/block_manager.rs:80-88 | The invariant is kept; what is known, what is reported missing and the fetch list are stated from the blocks and the state before. |
| `BlockManager.BlockManager.TryAcceptCommittedBlocks` | consensus/core/src/block_manager.rs:91-106 | The same for committed blocks, all of which are accepted; nothing is reported missing, as asserted. |
| `BlockManager.BlockManager.TryFindBlocks` | consensus/core/src/block_manager.rs:212-271 | The invariant is kept; returned and added to the fetch list are exactly the unknown references above GC. |
| `BlockManager.BlockManager.TryUnsuspendBlocksForLatestGcRound` | consensus/core/src/block_manager.rs:458-525 | The invariant is kept for the new GC round, what is released comes in causal order, and the fetch list keeps exactly what is above that round. |
| `BlockRuns.RunState` | consensus/core/src/block_manager.rs:108-180 | Every run of batches ends in a valid state with exactly the blocks received. |
| `BlockRuns.Confluence` | consensus/core/src/block_manager.rs:108-180 | Runs that received the same blocks, in any batches and order, end in the same state. |
| `BlockRuns.ConnectedMeansHistoryReceived` | consensus/core/src/block_manager.rs:278-378 | Accepted means that the whole history above GC was received, and conversely. |
| `BlockRuns.ClosedOnceCaughtUp` | consensus/core/src/block_manager.rs:80-525 | Over every run of batches, committed batches, searches and GC moves, the DAG is a closed view whenever the GC round has caught up with the committed batches. |
| `BlockRuns.RunKeepsTrusted` | consensus/core/src/block_manager.rs:80-525 | Every state of such a run is valid, and committed blocks have their ancestors above the round that is due. |
| `BlockRuns.ClosedIff` | consensus/core/src/block_manager.rs:80-525 | In every committee, for every GC round and every round the committed batches are closed above: the DAG is a closed view over all runs of verified blocks if and only if the GC round has reached that round. |
| `BlockRuns.OpenBeforeCaughtUp` | consensus/core/src/block_manager.rs:91-106 | Below it, a run that takes in one verified committed block, whose parents were collected when it was committed, leaves the view open. |
| `BlockRuns.OrphanIsWellFormed` | consensus/core/src/block_verifier.rs:52-137 | That block has a quorum of parents and passes verification. |
| `CertifiedCommits.CertifiedBatchIsClosed` | consensus/core/src/core.rs:807-818 | The blocks of fetched commits, as a batch, are closed above the GC round of the last of them, given the blocks of the commits before. |
| `CertifiedCommits.CertifiedLeadersAreHeld` | consensus/core/src/core.rs:807-866 | With the blocks of several fetched commits taken in, the history of each of their leaders above its GC round is held, so they may be committed in turn before the DAG as a whole is closed. |
| `CertifiedCommits.CaughtUpAfterCommits` | consensus/core/src/core.rs:807-871 | After taking such a batch in and moving the GC round past its commits, nothing is due. |
| `DagCache.AnswersLikeAccepted` | consensus/core/src/dag_state.rs:703-746 | Existence checks, with the shortcut past the disk, answer for the set of accepted blocks. |
| `DagCache.FindsLikeAccepted` | consensus/core/src/dag_state.rs:393-436 | Lookups find exactly the accepted blocks. |
| `DagCache.AboveGcInMemory` | consensus/core/src/dag_state.rs:1119-1135 | Every accepted block above GC is in memory. |
| `DagCache.EvictKeeps` | consensus/core/src/dag_state.rs:1119-1135 | A block leaves memory exactly when it is at or below the GC round and its author has one at least the cached rounds above it. |
| `DagCache.RestartKeeps` | consensus/core/src/dag_state.rs:106-220 | A restart loads by the same rule, applied to everything stored. |
| `DagCache.AcceptKeepsInv` | consensus/core/src/dag_state.rs:274-326 | Accepting keeps the invariant and adds exactly the block. |
| `DagCache.AddCommitKeepsInv` | consensus/core/src/dag_state.rs:828-897 | The next commit of the linearizer keeps the invariant: exactly its blocks become marked, and rounds and indices follow. |
| `DagCache.AddCheckpointKeepsInv` | consensus/core/src/dag_state.rs:911-927 | A checkpoint holds the rounds of the commits so far. |
| `DagCache.FlushKeepsInv` | consensus/core/src/dag_state.rs:1010-1071 | Writing blocks, commits and checkpoints together and evicting keep the invariant and lose nothing. |
| `DagCache.RestartKeepsInv` | consensus/core/src/dag_state.rs:106-271 | A restart rebuilds the invariant from the store. |
| `DagCache.RestartMarks` | consensus/core/src/dag_state.rs:221-260 | After a restart every committed block above the GC round is in memory, and exactly these are marked. |
| `DagCache.RunRefines` | consensus/core/src/dag_state.rs:274-1071 | Every run of accept, commit, checkpoint, flush and restart refines two plain sets, accepted and persisted. |
| `DagCache.CacheIsFaithful` | consensus/core/src/dag_state.rs:393-1135 | Over every run all answers are those of the plain set. |
| `DagForgets.FaithfulIff` | consensus/core/src/dag_state.rs:1122-1135 | Over all runs of verified blocks in all committees the cache is faithful if and only if eviction leaves each authority its last block, which is a condition on the configuration. |
| `DagForgets.ForgetVerified` | consensus/core/src/dag_state.rs:1059-1071 | Otherwise a run of well-formed blocks after which an accepted block is denied. |
| `DagSteps.ContainsBlocks` | consensus/core/src/dag_state.rs:703-746 | The two-phase check answers for genesis and all accepted blocks. |
| `DagSteps.GetBlocks` | consensus/core/src/dag_state.rs:393-436 | Genesis, then memory, then the store, position by position. |
| `DagSteps.AcceptBlock` | consensus/core/src/dag_state.rs:274-345 | Known blocks are ignored, others remembered and buffered. |
| `DagSteps.AddCommit` | consensus/core/src/dag_state.rs:755-897 | Blocks of a new commit are marked, each found in memory and not marked before; an old commit is ignored. |
| `DagSteps.EvictAuthority` | consensus/core/src/dag_state.rs:1059-1071 | Popping the lowest references removes exactly those up to the eviction round. |
| `DagSteps.FlushAll` | consensus/core/src/dag_state.rs:1010-1071 | The flush with its eviction loops computes `DagCache.Flush`; which blocks stay in memory is stated by their rounds. |
| `DagSteps.Recover` | consensus/core/src/dag_state.rs:106-260 | Committed rounds, blocks per authority, then the scan over the commits: together `DagCache.Restart`; which blocks are loaded is stated by their rounds. |
| `DagState.DagState.constructor` | consensus/core/src/dag_state.rs:106-271 | Starting on the store of an earlier run, exactly the stored blocks are accepted, with the stored commits and their marks and rounds. |
| `DagState.DagState.ContainsBlocks` | consensus/core/src/dag_state.rs:703-746 | Answers for genesis and everything accepted over the run. |
| `DagState.DagState.GetBlocks` | consensus/core/src/dag_state.rs:393-436 | Finds genesis and everything accepted over the run. |
| `DagState.DagState.AcceptBlock` | consensus/core/src/dag_state.rs:274-326 | Exactly the block is added. |
| `DagState.DagState.AddCommit` | consensus/core/src/dag_state.rs:828-897 | The commit is known, its blocks are marked, accepted blocks are unchanged and the GC round does not fall. |
| `DagState.DagState.AddCommitInfo` | consensus/core/src/dag_state.rs:911-927 | The committed rounds, with the number of commits, go with the next flush; nothing else changes. |
| `DagState.DagState.IsCommitted` | consensus/core/src/dag_state.rs:771-777 | Above the GC round, a block in memory is committed exactly when a commit has it. |
| `DagState.DagState.LastCommittedRounds` | consensus/core/src/dag_state.rs:984-986 | The highest committed round of each authority, over the whole run. |
| `DagState.DagState.Flush` | consensus/core/src/dag_state.rs:1010-1071 | Everything accepted, all commits and the last checkpoint are stored, everything above GC is still in memory, and of the rest exactly what eviction leaves. |
| `CausalHistory.LinkCausalHistory` | consensus/core/src/dag_state.rs:781-803 | Returns exactly the reachable blocks above GC not linked before, keeps linked blocks closed, terminates. |
| `Linearizer.LinearizeSubDag` | consensus/core/src/linearizer.rs:156-218 | If the history of the leader above GC is held, no lookup fails, and the sub-DAG is the uncommitted part of it, each block once, in the order of the walk and the sort; with all commits below the leader it is not committed yet. |
| `CommittedRounds.CommittedRoundsAreMaxima` | consensus/core/src/dag_state.rs:877-882 | Folding commits gives the highest committed round of each authority. |
| `CommittedRounds.RecoveredIsFold` | consensus/core/src/dag_state.rs:121-151 | A checkpoint raised by the commits after it is the fold over all stored commits. |
| `Recovery.RoundsAreMaxima` | consensus/core/src/dag_state.rs:828-927 | Over every run of the cache the rounds are maxima over the commits, in memory and after a restart. |
| `Recovery.RecoverRounds` | consensus/core/src/dag_state.rs:121-151 | The recovery loop computes the fold over all stored commits. |
| `Recovery.RecoverCommitted` | consensus/core/src/dag_state.rs:221-260 | On the store of any run, with the GC round and memory of the restart, the scan that stops early marks exactly the blocks above GC in a stored commit; no lookup or assertion fails. |
| `Recovery.MarksSurvive` | consensus/core/src/dag_state.rs:221-1071 | Over every run commits are stored with their blocks, and exactly their blocks above GC are marked, before and after a restart. |
| `CommitRecords.RecordsAreProper` | consensus/core/src/linearizer.rs:165-206 | The commits of every validator share no block and have none above their leader. |
| `CommitRecords.NextRecordFits` | consensus/core/src/linearizer.rs:223-246 | The next commit of the linearizer is always one the DAG state accepts: held, above GC, not yet marked. |
| `VoteLinks.LinkCommitLinked` | consensus/core/src/commit_finalizer.rs:302-334 | Child links stay the exact inverse of the ancestor relation on buffered blocks. |
| `VoteLinks.LinkCommitVotes` | consensus/core/src/commit_finalizer.rs:346-390 | A new block stores its own votes and those stored for its own ancestor; others keep theirs. |
| `FinalizerSteps.LinkBlocks` | consensus/core/src/commit_finalizer.rs:302-334 | Enters a commit's blocks in ascending order of round. |
| `FinalizerSteps.InheritRejectVotes` | consensus/core/src/commit_finalizer.rs:346-390 | Inherits in ascending order of round. |
| `FinalizerSteps.CountAccepts` | consensus/core/src/commit_finalizer.rs:513-579 | The early-exit walk returns exactly the transactions accepted by a quorum of authors of descendants. |
| `FinalizerSteps.DirectFinalizeCommit` | consensus/core/src/commit_finalizer.rs:256-298 | Transactions with reject votes become pending below a quorum and rejected otherwise. |
| `FinalizerSteps.DirectFinalize` | consensus/core/src/commit_finalizer.rs:170-189 | Goes through the buffer up to the first remote commit that has to wait. |
| `FinalizerSteps.PopFinalized` | consensus/core/src/commit_finalizer.rs:581-621 | Decided commits leave from the front with their blocks. |
| `FinalizerSteps.CheckPending` | consensus/core/src/commit_finalizer.rs:408-451 | Pending transactions rejected by a quorum meanwhile move over; the lookup cannot fail. |
| `FinalizerSteps.FinalizeAccepted` | consensus/core/src/commit_finalizer.rs:453-479 | Exactly the accepted transactions leave the pending ones. |
| `FinalizerSteps.IndirectFinalize` | consensus/core/src/commit_finalizer.rs:393-508 | A pending transaction is rejected by a quorum of stake, else final if accepted, else rejected once the latest leader is three rounds above, else still pending: exactly these four cases. |
| `FinalizerSteps.ProcessCommit` | consensus/core/src/commit_finalizer.rs:136-253 | The whole call computes `Finality.Processed`; no lookup can fail while the certifier has the votes on what is buffered. Afterwards commits are examined up to the first that has to wait, and nothing pending in the first commit could be decided. |
| `FinalityBuffer.AtMostThreeBuffered` | consensus/core/src/commit_finalizer.rs:481-508 | With rising leader rounds at most three commits are buffered. |
| `FinalityBuffer.NoDanglingChild` | consensus/core/src/commit_finalizer.rs:538-545 | Every child link leads to an entry. |
| `FinalityBuffer.PopLinks` | consensus/core/src/commit_finalizer.rs:601-604 | Removing the blocks of the first commit keeps the links exact for the others. |
| `FinalityBuffer.ProcessedKeepsInv` | consensus/core/src/commit_finalizer.rs:136-253 | Outputs and buffer are the old buffer and the new commit in order; what stays is recent and exactly linked. |
| `FinalityBuffer.ProcessedAvailable` | consensus/core/src/commit_finalizer.rs:408-428 | What stays buffered is pending only on votes the certifier has. |
| `FinalityRuns.RunConserves` | consensus/core/src/commit_finalizer.rs:47-66 | Over every run with rising leader rounds and votes that are only added to, outputs and buffer are the inputs, in order, each once; at most three are buffered. |
| `FinalityVotes.AcceptedStays` | consensus/core/src/commit_finalizer.rs:513-579 | An accepted transaction stays accepted as commits come in. |
| `FinalityVotes.VotesExactLink` | consensus/core/src/commit_finalizer.rs:346-390 | Stored votes of new blocks, on any block, are those of their author chains as far as these are still linked. |
| `FinalityVotes.VotesExactPop` | consensus/core/src/commit_finalizer.rs:601-604 | Forgetting output blocks changes nothing stored for the others. |
| `FinalityVotes.RejectsMore` | consensus/core/src/commit_finalizer.rs:346-390 | The more is still linked, the more votes are inherited. |
| `FinalityVotes.AcceptedByBlocks` | consensus/core/src/commit_finalizer.rs:513-579 | Counting over stored links and votes is counting over the committed blocks. |
| `FinalityFates.RunFates` | consensus/core/src/commit_finalizer.rs:47-66 | With any votes: every transaction of an output commit was rejected by a quorum or timed out, or was final directly or accepted in time, by the votes stored then; every pending one was voted on below a quorum. |
| `FinalityTiming.TurnIs` | consensus/core/src/commit_finalizer.rs:393-508 | What one turn on a commit leaves pending and what it rejects, both ways. |
| `FinalityTiming.IndirectEnds` | consensus/core/src/commit_finalizer.rs:213-235 | The loop stops only when the first commit is not examined, is the last one, or has nothing pending that a quorum accepts or rejects. |
| `FinalityProgress.ExaminedInTime` | consensus/core/src/commit_finalizer.rs:170-189 | After every call of every run, each buffered commit up to the first remote one led less than three rounds below has been examined. |
| `FinalityProgress.PendingIsUndecidable` | consensus/core/src/commit_finalizer.rs:393-508 | Over every run, what is pending in the first buffered commit has reject votes below a quorum, is by the commits so far neither accepted nor rejected by a quorum, and is before its deadline. |
| `FinalityProgress.HeldForReason` | consensus/core/src/commit_finalizer.rs:136-253 | Over every run, the first commit that is not output has to wait or has such a transaction, so each comes out in the call where the last reason goes away. |
| `FinalityAgreement.IndirectFatesAgree` | consensus/core/src/commit_finalizer.rs:393-508 | Two validators with the same commits output the same fate for an undisputed transaction contested at both. |
| `FinalityAgreement.VotesBetween` | consensus/core/src/commit_finalizer.rs:346-390 | The votes any run stores lie between those with the earlier commits gone and those with all kept as long as possible. |
| `FinalityAgreement.LateVotesAreUndisputed` | consensus/core/src/commit_finalizer.rs:346-390 | A transaction on which no earlier commit votes is undisputed. |
| `FinalityDisputes.FatesAgreeIff` | consensus/core/src/commit_finalizer.rs:136-253 | All validators with the same commits agree on a contested transaction if and only if it is undisputed. |
| `FinalityDisputes.QuietRun` | consensus/core/src/commit_finalizer.rs:581-621 | A run that outputs earlier commits at once finalizes whatever the later chains accept. |
| `FinalityDisputes.LoudRun` | consensus/core/src/commit_finalizer.rs:170-189 | A run that keeps every commit as long as possible rejects whatever some kept chain rejects. |
| `DisputedConsensus.SameCommitsDifferentFates` | consensus/core/src/commit_finalizer.rs:366-374 | One output of consensus, with honest authors voting as they should, and two validators that decide its five commits themselves and count the votes in the blocks they have seen: their outputs differ on one transaction. All that agreement asks for holds but that the transaction is undisputed. |
| `DisputedConsensus.DisputedIsValid` | consensus/core/src/linearizer.rs:223-246 | The commits of this example are an output of the commit rule and the linearizer, over verified blocks with one faulty author of four. |
| `DisputedConsensus.DirectlyCommitted` | consensus/core/src/base_committer.rs:86-117 | In a complete DAG the direct rule commits every leader two rounds later. |
| `DisputedConsensus.BlocksAreLinearized` | consensus/core/src/linearizer.rs:156-218 | The linearizer outputs exactly the blocks of the example, in their order. |
| `FinalityExample.TargetIsDisputed` | consensus/core/src/commit_finalizer.rs:366-374 | The transaction in question is disputed. |
| `FinalityExample.LinkedIsWellFormed` | consensus/core/src/block_verifier.rs:52-137 | The blocks of this example pass verification, which does not look at transaction votes. |
| `Sorting.SortedIsUnique` | consensus/core/src/commit.rs:395-401 | There is one order by round and author for blocks of different slots. |
| `CommitCertificates.AnchorIsFirstAbove` | consensus/core/src/base_committer.rs:122-145 | The anchor by which a view decides a leader is the first leader any validator commits three rounds above. |
| `CommitCertificates.DeciderHoldsCertificate` | consensus/core/src/commit_finalizer.rs:160-169 | The view that decided a leader holds a certificate of it that this first leader has in its history. |
| `FinalityWorld.NotBefore` | consensus/core/src/linearizer.rs:165-206 | What reaches a committed block is not committed before it. |
| `FinalityWorld.CertificateAccepts` | consensus/core/src/commit_finalizer.rs:155-158 | The votes of a certificate that do not reject accept every transaction of the commit by the deadline. |
| `FinalityEverywhere.DirectIsAccepted` | consensus/core/src/commit_finalizer.rs:155-158 | What one validator finalizes directly, no validator rejects for want of acceptance. |
| `FinalityEverywhere.DirectIsNotRejected` | consensus/core/src/commit_finalizer.rs:155-158 | What one validator finalizes directly, no quorum of authors rejects in any blocks. |
| `FinalityEverywhere.AcceptedIsNotRejected` | consensus/core/src/commit_finalizer.rs:338-345 | What a quorum accepts in the commits, no quorum of authors rejects in any blocks. |
| `FinalityEverywhere.AllFatesAgree` | consensus/core/src/commit_finalizer.rs:136-253 | Validators with reject stakes from their own views output the same fate for every undisputed transaction, by whatever mix of direct and indirect finalization, quorum and timeout. |
| `FinalizerInput.LinearizedCommitsAreOrdered` | consensus/core/src/linearizer.rs:156-218 | In every output of the rule commits share no block, none has an ancestor in a later commit, and leader rounds rise strictly. |
| `CommitFinalizer.CommitFinalizer.constructor` | consensus/core/src/commit_finalizer.rs:81-96 | Starts with nothing buffered. |
| `CommitFinalizer.CommitFinalizer.ProcessCommit` | consensus/core/src/commit_finalizer.rs:136-253 | Decided commits come out in order, and the rest stays within three rounds of the latest leader. The first commit held back has a reason in the inputs so far. |
| `CommitRanges.InOneRange` | consensus/core/src/commit_syncer.rs:92-108 | Every index above the synced one up to the highest scheduled one is in exactly one range, which waits, is fetched or is being fetched. |
| `CommitRanges.BatchesTile` | consensus/core/src/commit_syncer.rs:213-236 | Scheduled batches are full, adjacent and leave out less than one batch. |
| `CommitRanges.BatchesAre` | consensus/core/src/commit_syncer.rs:213-236 | They are all the full batches above the start that end at or below the limit. |
| `CommitRanges.ScheduleKeepsInv` | consensus/core/src/commit_syncer.rs:213-236 | A new range above all others keeps ranges disjoint and covering. |
| `CommitRanges.ReceivedKeepsInv` | consensus/core/src/commit_syncer.rs:280-293 | A partial result and the rest of its range cover what the range did. |
| `CommitRanges.PoppedKeepsInv` | consensus/core/src/commit_syncer.rs:295-362 | Handing over a range keeps every index above the synced one covered. |
| `CommitSyncer.Schedule` | consensus/core/src/commit_syncer.rs:188-237 | Exactly the full batches up to the quorum and handler limits are scheduled. |
| `CommitSyncer.ScheduledAre` | consensus/core/src/commit_syncer.rs:213-236 | Which ranges are then pending, and that the highest scheduled index leaves less than a batch below the limit. |
| `CommitSyncer.StartFetches` | consensus/core/src/commit_syncer.rs:376-404 | The lowest pending ranges start, until as many are fetched as the configuration, two thirds of the committee or the waiting ranges allow, but at least one. |
| `CommitSyncer.HandOver` | consensus/core/src/commit_syncer.rs:295-362 | Exactly the ranges that start without a gap and bring something new go to Core, from the lowest on, each with the commits stored for it; exactly those with a gap stay, unchanged. |
| `CommitSyncer.HandedCovers` | consensus/core/src/commit_syncer.rs:295-362 | Every index up to the new synced one is in a range handed over. |
| `CommitSyncer.HandleResult` | consensus/core/src/commit_syncer.rs:239-363 | The whole handler keeps ranges disjoint and covering and sends no gap. What is sent for a range is what was stored for it or has just been fetched; the rest stays as it is, and the part not fetched is pending. |
| `CommitSyncer.CommitSyncer.constructor` | consensus/core/src/commit_syncer.rs:111-141 | Starts synced to the local commit. |
| `CommitSyncer.CommitSyncer.TryScheduleOnce` | consensus/core/src/commit_syncer.rs:188-237 | The invariant is kept and exactly the full batches that end within the quorum index and the handler threshold are added. |
| `CommitSyncer.CommitSyncer.TryStartFetches` | consensus/core/src/commit_syncer.rs:376-404 | The invariant is kept and the lowest pending ranges are in flight, as many as the limits allow. |
| `CommitSyncer.CommitSyncer.HandleFetchResult` | consensus/core/src/commit_syncer.rs:239-363 | The invariant is kept, what is handed over extends what was synced without a gap, and Core gets for each range the commits fetched for it. |
| `CommitChain.ScannedIsChain` | consensus/core/src/commit_syncer.rs:741-774 | What is taken of a response is a chain in the range and a prefix of what was sent, and nothing after it could be taken. |
| `CommitChain.ChainPasses` | consensus/core/src/commit_syncer.rs:741-774 | A chain in the range is taken as a whole. |
| `CommitChain.ScanAdmits` | consensus/core/src/commit_syncer.rs:741-774 | The scan succeeds with a chain exactly when the response begins with it and then ends or goes on beyond the range. |
| `CommitChain.CollectVotes` | consensus/core/src/commit_syncer.rs:780-801 | The vote loop succeeds exactly for verified blocks, and counts each voting author once. |
| `CommitChain.VerifyCommits` | consensus/core/src/commit_syncer.rs:734-818 | Succeeds exactly for a response that begins with a non-empty chain in the range, ends there or goes on beyond it, and has a quorum of votes for the end commit in verified blocks; each error says what was wrong. |
| `CommitChain.ChainInSequence` | consensus/core/src/commit_syncer.rs:755-766 | Below a commit of a sequence, the whole chain is in the sequence. |
| `CommitChain.CertifiedCommitsAgree` | consensus/core/src/commit_syncer.rs:734-818 | Two certified responses agree on every index they share. |

## Left out

- Networking, asynchronous tasks, channels, timers, retries and shutdown: a fetch is a step that returns a non-empty prefix of its range, and handing commits to Core always succeeds.
- Signatures, hashing and serialization: authors are authentic, digests injective, and whether bytes parse is an input.
- Metrics, logging, clocks and timestamps, including the check that commit timestamps do not fall.
- Fixed-width integers: rounds, stakes and indices are unbounded, so saturation at the maximum and overflow do not occur.
- Leader election: the leader of a round is a function shared by all validators; schedule changes and reputation scores are not modelled.
- The lock-protected sharing of the DAG state between threads: each operation is one step on the state.
- BlockVerifier.VerifyBlock: leaves out the limits on the number and size of transactions, which concern neither the DAG nor the rule.
- UniversalCommitter.RoundTargetsValid: one leader per round, the default, and a fixed schedule.
- UniversalCommitter.TargetRounds: one leader per round.
- UniversalCommitter.TargetsThrough: one leader per round.
- UniversalCommitter.DecideRound: one leader per round.
- UniversalCommitter.TryDecide: one leader per round.
- CommitLiveness.SupportedLeaderIsDecided: one leader per round under a fixed schedule.
- UniversalCommitter.LogsAreJustified: one leader per round under a fixed schedule.
- UniversalCommitter.LogsAgree: one leader per round under a fixed schedule; a restart that decides trailing skips again is not modelled.
- DagState.AcceptBlock: does not model the assertion that an own slot is empty, the threshold clock or the highest accepted round, which no other member uses.
- DagState.AddCommit: marking the blocks of a commit, which the linearizer does while it collects them, and adding the commit are one step; pending commit votes are not modelled.
- DagState.GetBlocks: a failing store is not modelled.
- Hard links: linked blocks are a set passed to the traversal; recovery of hard links at a restart is one more call of `LinkCausalHistory` per own block.
- BlockManager.TryAcceptBlocks: the worklists run on values that are then stored in the fields; updates in place inside a call are not visible.
- CommitFinalizer.ProcessCommit: the certifier's stakes are one snapshot per call; on buffered blocks they are expected to be only added to, as the certifier collects garbage after finalized commits only.
- FinalityDisputes.FatesAgreeIff: the only-if half ranges over runs with any reject stakes; which of these stakes some blocks can produce is not characterized, `DisputedConsensus` gives one consensus where they do.
- FinalityDisputes.QuietRun: the stakes of the run are chosen, not counted from blocks.
- FinalityDisputes.LoudRun: the stakes of the run are chosen, not counted from blocks.
- FinalityEverywhere.AllFatesAgree: expects authors that are not faulty to vote on a block when they first link it, and says nothing of blocks that the GC round passes before their deadline, whose votes may be collected uncommitted.
- CommitChain.CertifiedCommitsAgree: each author outside the faulty set is expected to vote from one digest-linked sequence of its own; that the sequences agree is not needed.
- Synchronizer, broadcaster, proposal of blocks, ancestor selection, commit observer and vote monitor: not part of the safety core.
