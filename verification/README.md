# Verified model of the consensus core

This project models, in Dafny, how the DAG consensus in `consensus/` stays safe, and proves it. It follows a
block from its arrival to its place in the committed sequence.

1. **Verification** (`BlockVerifier`): what a block must look like before it is processed.
2. **Block manager** (`SuspensionIndex`, `TimestampPass`, `ManagerState`, `ManagerSteps`, `Batches`, `BlockManager`,
   `JointRelease`, `OrderIndependence`, `LostAncestors`, `RoundOrder`): blocks wait for their ancestors in three maps
   that refer to each other, are released by a worklist, checked for timestamps, stored in the DAG, and given up below
   the garbage-collection (GC) round. Proved: the index invariant under every operation; the worklist releases exactly
   what it should, for one arrival and for many; the stored DAG is exactly the causally complete part of what was
   received, whatever the order and the batches; what is reported missing is exactly what is needed and unknown.
3. **Commit rule** (`Dag`, `ForkedSupport`, `CommitRule`, `Agreement`, `DirectRule`, `BaseCommitter`,
   `UniversalCommitter`, `CommitRuns`, `TwoLeaders`): leaders are committed or skipped, directly or through an anchor.
   Proved: two authorities with different views of the DAG, while others equivocate, never decide a slot differently;
   over whole runs of calls, their sequences of decided leaders are prefixes of one another; decisions are never
   revised; the optimised loops compute the rule; and the rule itself, exactly, in terms of links between blocks.
4. **Linearizer** (`SubDags`, `Linearizer`, `CommitTimestamps`, `TotalOrder`, `RunTimes`): committed leaders are expanded
   into one sequence of blocks. Proved: over whole runs all authorities produce the same sequence, no block is committed
   twice, causal order is kept, and commit times are agreed and never decrease; a median is bounded by honest timestamps.
5. **End to end** (`EndToEnd`): what block managers accept, batch after batch, are growing views, so authorities that
   receive blocks in any order and run the committer at any time commit alike.
6. **Smaller machines over stake** (`Subscription`, `OrderStatistics`, `CommitVotes`, `AncestorStates`, `FetchBlocks`,
   `FetchCommits`): the subscription signal, the quorum commit index, the exclusion locks, and the fetch handlers.

`Committee`, `Blocks` and `Sequences` hold what all of them share; the arithmetic that everything rests on is that any
two quorums share at least the validity threshold. `HeavyAuthority` is a small committee for concrete runs.

## Assumptions

- Blocks are values. A reference names one block: all blocks that occur in a statement come from one *universe* (for
  the block manager, a *world*), so digests do not collide.
- The fault assumption of the agreement results (`Agreement.Bft`): authorities outside a set `byzantine` make at most
  one block per round, and `byzantine` holds less than the validity threshold. Nothing else is assumed about it.
- `DagState` is a map from references to blocks, with genesis in it, and a GC round that only grows. A *view* is an
  ancestor-closed part of the universe.
- The leader schedule is one function of round and offset, the same for all views. Agreement on what one call decides
  assumes nothing about committers. Agreement over whole runs assumes at most one leader slot per round
  (`CommitRuns.OneLeader`), which the pipelined committers of the node satisfy (`CommitRuns.PipelineHasOneLeader`).
- The wave length is 3, the default and stated minimum. With longer waves a quorum of blame one round above the leader
  would not exclude a certificate.
- Twice the total stake fits into 64 bits. Rounds, counters and scores are unbounded integers.
- I/O, clocks and messages to the core thread are parameters.

## Where the code differs from what is promised about it

- *"Unsuspended block has a missing ancestor"* (`block_manager.rs:334-431`). With the timestamp check on, this panic can
  be reached. A suspended block waits for `X` and `Y`; `X` arrives and is rejected for its timestamp; the suspended
  block stops waiting for `X` all the same; `Y` arrives, the block is released, and `X` is not there.
  `LostAncestors.PanicReachable` is that run with verified blocks. When it happens, in terms of the state before the
  call: a call panics only if it releases a suspended block with a *lost* ancestor, one that is neither stored, nor
  awaited, nor collected (`LostAncestors.PanicNeedsLost`); and a call that releases such a block panics, unless the
  ancestor arrives with it or the block is rejected together with another ancestor (`LostAncestors.LostPanics`). In terms
  of the blocks: if no block of the world is earlier than one of its ancestors nothing is ever rejected or lost, and no
  operation panics in either mode (`ManagerState.Calm`, `BlockManagers.BlockManager.TryAcceptBlocks`). In between, a
  state without lost ancestors stays so exactly when no block that stays suspended was waiting for one that arrived and
  was not stored (`ManagerState.GroundedAfterRelease`).
- *Several leaders per round* (`universal_committer.rs:48`). Each call starts above the round of the last decided leader.
  With one leader per round, deciding on from there gives the rest of what one call decides
  (`CommitRuns.CallsContinue`), so runs agree. With two, an authority that has decided the first leader of a round never
  decides the second, while another may commit both at once: `TwoLeaders.RunsPart` gives two runs over one universe,
  without any faulty authority, neither of whose decisions are a prefix of the other's.
- *Support by the same author* (`base_committer.rs:189-194`). The comment promises that any later block of the same
  author that includes a block supports what it supports. That holds along the chain of first ancestors
  (`Dags.SupportPersists`), and wherever the history has only one block at the slot (`Dags.SupportOfTheOnly`). Otherwise
  it may fail: `ForkedSupport.SupportNotKeptOffTheChain` gives a verified universe with one equivocating authority in
  which an author that makes one block per round supports two different blocks. Agreement does not rely on the promise.
- *Accepted blocks in round-ascending order* (`block_manager.rs:95-99`). They come in causal order. They are in ascending
  rounds if no block suspended before the call is above a block of the batch, in particular if none is suspended
  (`Batches.AscendingBatch`); otherwise they need not be (`RoundOrder.NotInRoundOrder`, in both timestamp modes). With
  the timestamp check on, what a single received block brings in is sorted by reference.
- *Quorum commit index* (`commit_vote_monitor.rs:42-46`). The comment says both highest and smallest; it is the highest.
- *Authorities that know a missing block* (`block_manager.rs:272-275`). Asking for a block again resets the set to the
  author, so these sets do not only grow.
- *Subscription signal* (`authority_service.rs:721-802`). Only changes are sent. A node that is a quorum by itself is
  announced exactly when it has ever subscribed to itself; `Subscription.Run` states all cases.
- *Accepted rounds of a peer* (`authority_service.rs:495-551`). The batched path does not check that there is one per
  authority. `FetchBlocks.FetchLive` says exactly when the index is out of bounds, and `FetchBlocks.FullListInBounds` that
  a full list is enough.

## Model

| member | source | states |
|---|---|---|
| Committees.New | consensus/config/src/committee.rs:40-62 | a committee is made exactly when there are authorities, not too many, and some stake |
| Committees.ThresholdsComplementary | consensus/config/src/committee.rs:48-51 | quorum and validity threshold exceed the total stake by exactly one |
| Committees.QuorumIntersection | consensus/config/src/committee.rs:99-106 | any two quorums share at least the validity threshold |
| Committees.HonestInBoth | consensus/config/src/committee.rs:99-106 | two quorums share an authority outside any set below the validity threshold |
| Committees.StakeInsert | consensus/core/src/stake_aggregator.rs:56-61 | counting an authority adds its stake exactly when it was not counted before |
| Committees.StakeAggregator.Add | consensus/core/src/stake_aggregator.rs:56-69 | votes are a set, and the answer is whether the voters form a quorum |
| BlockVerifier.Verify | consensus/core/src/block_verifier.rs:107-188 | accepts exactly the well-formed blocks, and otherwise reports the first fault in the order of the checks, header faults included |
| BlockVerifier.CheckAncestors | consensus/core/src/block_verifier.rs:199-243 | accepts exactly when no relevant ancestor is later than the block; otherwise reports the first late one with GC, the latest one without |
| Dags.FindSupportedExact | consensus/core/src/base_committer.rs:195-217 | something is supported exactly when the strict causal history has a block at the slot, and what is found is such a block |
| Dags.FindSupportedLocal | consensus/core/src/base_committer.rs:195-217 | every view that has a block agrees on what it supports |
| Dags.SupportPersists | consensus/core/src/base_committer.rs:189-217 | support is kept by every later block on the chain of first ancestors |
| Dags.OwnChainAuthor | consensus/core/src/block_verifier.rs:154-162 | for verified blocks that chain stays with one author |
| Dags.SupportOfTheOnly | consensus/core/src/base_committer.rs:189-217 | where the history has one block at the slot, every block in it that supports something supports the same |
| ForkedSupport.SupportNotKeptOffTheChain | consensus/core/src/base_committer.rs:189-217 | off that chain it is not kept, even by an author that never equivocates in a verified universe |
| Agreement.VoteIsDirect | consensus/core/src/base_committer.rs:221-225 | at the decision round every vote is a block of the voting round that links the leader itself |
| Agreement.OneCertified | consensus/core/src/base_committer.rs:234-288 | at most one block of a slot has a certificate anywhere in the universe |
| Agreement.SkipExcludesCertificate | consensus/core/src/base_committer.rs:348-377 | a quorum of blame in any view leaves no certificate for the slot in any view |
| Agreement.CertificateLocal | consensus/core/src/base_committer.rs:234-288 | being a certificate does not depend on the view |
| Agreement.DirectCommitInherited | consensus/core/src/base_committer.rs:293-344 | after a direct commit every later verified block has a certificate for that leader in its history at the decision round |
| Agreement.AnchorDecidesAlike | consensus/core/src/base_committer.rs:293-344 | one anchor decides a slot the same way in every view |
| Agreement.AnchorFollowsDirectCommit | consensus/core/src/base_committer.rs:293-344 | an anchor at least a wave later commits what was directly committed in any view |
| Agreement.AnchorFollowsDirectSkip | consensus/core/src/base_committer.rs:293-344 | an anchor never commits what was directly skipped in any view |
| Agreement.DirectCommitUnique | consensus/core/src/base_committer.rs:108-112 | direct commits of a slot in any two views are of the same block |
| Agreement.DirectSkipExcludesCommit | consensus/core/src/base_committer.rs:88-112 | a direct skip in one view and a direct commit in another cannot coexist |
| Agreement.DirectDecideStable | consensus/core/src/base_committer.rs:87-117 | a larger view keeps every direct decision, although blame is looked at first |
| Agreement.SlotAgreement | consensus/core/src/base_committer.rs:87-146 | if later slots are decided compatibly, so is this one, whichever rules the two views use |
| Agreement.ViewsAgree | consensus/core/src/base_committer.rs:87-146 | any two views decide any list of slots, one longer than the other perhaps, compatibly: never commit against skip, never two blocks |
| BaseCommitter.ElectLeader | consensus/core/src/base_committer.rs:148-187 | a committer has a leader in a round exactly when the round is a whole number of waves above its offset |
| BaseCommitter.UncommittedBlocksAtRound | consensus/core/src/dag_state.rs:520-537 | lists exactly the accepted blocks of the round, once each |
| BaseCommitter.UncommittedBlocksAtSlot | consensus/core/src/dag_state.rs:502-515 | lists exactly the accepted blocks of the slot, once each |
| BaseCommitter.AncestorsAtRound | consensus/core/src/dag_state.rs:540-575 | the worklist, popped from the highest reference, ends with exactly the blocks of that round in the causal history |
| BaseCommitter.TestCertificate | consensus/core/src/base_committer.rs:234-288 | with any cache of true answers and the early exit, says whether the block is a certificate, and keeps the cache true |
| BaseCommitter.EnoughLeaderBlame | consensus/core/src/base_committer.rs:348-377 | says whether the blamers of the slot form a quorum |
| BaseCommitter.SumOverestimates | consensus/core/src/base_committer.rs:387-400 | the stake sum used for the quick rejection, equivocators counted repeatedly, is never below the stake of the distinct authors |
| BaseCommitter.EnoughLeaderSupport | consensus/core/src/base_committer.rs:381-412 | quick rejection, shared cache and early return decide exactly whether distinct certifiers form a quorum |
| BaseCommitter.TryDirectDecide | consensus/core/src/base_committer.rs:87-117 | computes the direct rule; more than one supported block is impossible |
| DirectRule.DirectDecideExact | consensus/core/src/base_committer.rs:87-117 | the direct rule in links alone: skipped exactly when blocks of a quorum just above link no block of the authority; committed exactly when blocks of a quorum two rounds above link, each, a quorum of blocks that link the leader |
| BaseCommitter.AtMostOneSupported | consensus/core/src/base_committer.rs:108-112 | so the panic about several supported leaders is unreachable |
| BaseCommitter.AtMostOneCertified | consensus/core/src/base_committer.rs:332-336 | so the panic about several certified leaders is unreachable |
| BaseCommitter.DecideLeaderFromAnchor | consensus/core/src/base_committer.rs:293-344 | computes the decision by an anchor |
| DirectRule.AnchorDecideExact | consensus/core/src/base_committer.rs:293-344 | the decision by an anchor in links alone: the block confirmed below the anchor is committed, without one the slot is skipped |
| BaseCommitter.TryIndirectDecide | consensus/core/src/base_committer.rs:122-146 | decides from the first committed leader a wave above the slot before which all such leaders are skipped; without one the slot stays undecided |
| CommitRule.IndirectDecideExact | consensus/core/src/base_committer.rs:122-146 | the same by positions in the list, for the rule itself |
| UniversalCommitter.TryDecide | consensus/core/src/universal_committer.rs:42-113 | statuses of the slots, rounds from the highest down and committers in reverse; the answer is their longest start without an undecided one, skipped leaders included |
| UniversalCommitter.DecidedPrefixExact | consensus/core/src/universal_committer.rs:98-110 | the decided sequence ends only at the end of the statuses or before an undecided one |
| CommitRule.DecideAt | consensus/core/src/universal_committer.rs:63-96 | every slot is decided from the statuses of the slots after it |
| UniversalCommitter.SlotsOfCall | consensus/core/src/universal_committer.rs:48-74 | a call looks at every slot of every round above the last decision and two below the highest accepted round, once per committer that leads it, in the order of rounds and committers |
| UniversalCommitter.DecideNext | consensus/core/src/universal_committer.rs:84-96 | one slot is decided by the direct rule, else by the indirect rule over what is already decided |
| UniversalCommitter.DecidedSequencesAgree | consensus/core/src/universal_committer.rs:39-113 | what one call decides in any two views, from the same last decision, are prefixes of one another |
| UniversalCommitter.DecisionsKept | consensus/core/src/universal_committer.rs:39-113 | a larger view keeps every decision, direct or indirect |
| UniversalCommitter.DecidedSequenceGrows | consensus/core/src/universal_committer.rs:39-113 | what one call decides from a given last decision only grows at the end as the view grows |
| CommitRuns.PipelineHasOneLeader | consensus/core/src/universal_committer.rs:205-224 | the pipelined committers of the node have at most one leader per round |
| CommitRuns.CallsContinue | consensus/core/src/universal_committer.rs:42-113 | with one leader per round, deciding on from the last decision gives the rest of what one call decides |
| CommitRuns.RunIsOneCall | consensus/core/src/core.rs:868-887 | all decisions of a run of calls over growing views, each possibly cut short, are the start of what the final view decides at once |
| CommitRuns.RunsAgree | consensus/core/src/core.rs:868-887 | decisions of any two authorities over whole runs are prefixes of one another |
| TwoLeaders.LaterRounds | consensus/core/src/universal_committer.rs:48 | a run never goes back to the round of its last decision |
| TwoLeaders.RunsPart | consensus/core/src/universal_committer.rs:48-97 | with two leaders per round, and no faulty authority, two runs over one universe decide sequences neither of which is a prefix of the other |
| SubDags.WalkExact | consensus/core/src/linearizer.rs:211-244 | the walk collects exactly the uncommitted causal history of the leader above the GC round, each block once |
| SubDags.WalkLocal | consensus/core/src/linearizer.rs:211-244 | every view that has the leader walks alike, order included |
| SubDags.DownClosedPast | consensus/core/src/linearizer.rs:211-244 | the committed set holds the causal history of its blocks down to the GC round |
| SubDags.SortedKeeps | consensus/core/src/commit.rs:387-395 | sorting by round and author keeps the blocks, each as often as before, and the order of blocks of one slot |
| Linearizers.SubDagExact | consensus/core/src/linearizer.rs:191-292 | a sub-DAG holds exactly the uncommitted causal history of the leader above genesis and, with GC, less than the GC depth below the last leader; once each, by round and author |
| Linearizers.CommitStep | consensus/core/src/linearizer.rs:211-216 | after a commit, the next leaders are still uncommitted and above the GC round |
| Linearizers.CommittedOnce | consensus/core/src/linearizer.rs:82-84 | over any sequence of leaders no block is committed twice, nor again |
| Linearizers.CausalOrder | consensus/core/src/linearizer.rs:191-292 | history above genesis and, with GC, less than the GC depth below the last leader is committed in an earlier commit or earlier in the same one |
| Linearizers.CommittedLeadersExact | consensus/core/src/core.rs:889-892 | the leaders handed over are the blocks of the committed statuses, all of them, in order |
| Linearizers.CommitsAgree | consensus/core/src/linearizer.rs:308-356 | what any two views commit after one call each, from the same commit, are prefixes of one another, blocks and order included |
| Linearizers.LeadersUpcoming | consensus/core/src/universal_committer.rs:39-113 | what a view decides comes in the order the linearizer needs |
| Linearizers.ReadyInLarger | consensus/core/src/linearizer.rs:191-292 | blocks accepted between commits disturb nothing |
| Linearizers.VerifiedDistinct | consensus/core/src/block_verifier.rs:172-177 | verified DAGs satisfy what the linearizer assumes about ancestors |
| Linearizers.Linearizer.LinearizeSubDag | consensus/core/src/linearizer.rs:191-292 | panics exactly for a leader committed before or, with GC, at genesis or the GC depth below the last leader; otherwise gives its sub-DAG, contents and order, and marks it |
| Linearizers.Linearizer.HandleCommit | consensus/core/src/linearizer.rs:312-356 | leaders in slot order never panic and give the sub-DAGs of the specification |
| Linearizers.Linearizer.Grow | consensus/core/src/linearizer.rs:191-292 | blocks accepted between commits leave the linearizer ready |
| TotalOrder.CommitsOfDecisions | consensus/core/src/core.rs:868-930 | what a run commits call by call is what its decisions commit at once |
| TotalOrder.RunsCommitAlike | consensus/core/src/core.rs:868-930 | total order: sub-DAGs that any two authorities commit over whole runs are prefixes of one another, blocks and order included |
| TotalOrder.RunCommitsOnce | consensus/core/src/linearizer.rs:82-84 | over a whole run no block is committed twice |
| TotalOrder.RunCausalOrder | consensus/core/src/linearizer.rs:191-292 | over a whole run, when a block is committed, its causal history above genesis and, with GC, less than the GC depth below the last leader is committed before it |
| TotalOrder.TryCommit | consensus/core/src/core.rs:868-930 | one call decides, takes what it may and linearizes it, without panic, and leaves the next call what it needs |
| TotalOrder.Follow | consensus/core/src/core.rs:868-930 | a whole run as executed: no panic, and the sub-DAGs of the specification |
| CommitTimestamps.MedianTimestampByStake | consensus/core/src/linearizer.rs:413-459 | fails exactly below a quorum of stake; otherwise the smallest timestamp up to which more than half of the stake lies |
| CommitTimestamps.MedianExact | consensus/core/src/linearizer.rs:443-459 | the median is the timestamp up to which blocks hold more than half of the stake behind all of them, and before which they do not |
| CommitTimestamps.MedianBetweenHonest | consensus/core/src/linearizer.rs:443-459 | faulty authorities below validity cannot move the median outside the range of honest timestamps |
| CommitTimestamps.CommitTimeBetweenHonest | consensus/core/src/linearizer.rs:149-186 | so a leader's median lies between timestamps of honest parents |
| CommitTimestamps.ParentsDistinct | consensus/core/src/block_verifier.rs:144-188 | parents of a verified leader are by different authors, the ones that form a quorum |
| CommitTimestamps.ParentBlocksExact | consensus/core/src/linearizer.rs:149-186 | the blocks whose timestamps count are exactly the linked ones of the round just below |
| CommitTimestamps.CalculateCommitTimestamp | consensus/core/src/linearizer.rs:149-186 | never panics for a verified leader; the time is the later of its own (the parents' median or the leader's timestamp) and the previous one |
| CommitTimestamps.CommitTimesAgree | consensus/core/src/linearizer.rs:149-186 | two views give one commit the same time, if they gave the previous one the same |
| RunTimes.CommitTimes | consensus/core/src/linearizer.rs:149-186 | leaders handled one after the other each get the time that the rule gives after the one before, without panic |
| RunTimes.TimesAscend | consensus/core/src/linearizer.rs:149-186 | the times of a sequence of leaders never decrease |
| RunTimes.TimesPrefix | consensus/core/src/linearizer.rs:149-186 | if one sequence of leaders continues another, so do their times |
| RunTimes.GiveTimes | consensus/core/src/core.rs:868-930 | an authority that decides and computes times call by call always gets times for its run |
| RunTimes.RunTimesInUniverse | consensus/core/src/core.rs:868-930 | times computed call by call in growing views are those of all leaders in the universe |
| RunTimes.RunTimesAgree | consensus/core/src/core.rs:868-930 | over whole runs the commit times of two authorities are prefixes of one another and never decrease |
| SuspensionIndex.SuspendKeepsLinks | consensus/core/src/block_manager.rs:484-544 | a new suspended block keeps the two-way links between missing sets and children |
| SuspensionIndex.ReleaseUnique | consensus/core/src/block_manager.rs:563-610 | only one set of blocks can be what a release releases |
| SuspensionIndex.ReleaseKeepsLinks | consensus/core/src/block_manager.rs:563-638 | releasing keeps the links |
| SuspensionIndex.ReleaseKeepsShape | consensus/core/src/block_manager.rs:563-638 | what stays suspended still misses something |
| SuspensionIndex.RemoveKeepsLinks | consensus/core/src/block_manager.rs:212-226 | taking a committed block out of the index keeps the links |
| SuspensionIndex.ReleasedExactly | consensus/core/src/block_manager.rs:563-610 | when the stack is empty exactly the releasable blocks have been released |
| ManagerState.SuspendInv | consensus/core/src/block_manager.rs:484-554 | suspending keeps the invariant |
| ManagerState.ReleaseInv | consensus/core/src/block_manager.rs:563-638 | releasing keeps the invariant |
| ManagerState.GroundedAfterRelease | consensus/core/src/block_manager.rs:306-431 | groundedness survives a release exactly when nothing awaited was dropped |
| ManagerState.CompleteAfterAccept | consensus/core/src/block_manager.rs:306-330 | storing blocks after their ancestors keeps the DAG causally complete |
| ManagerSteps.OrdinaryStepSteady | consensus/core/src/block_manager.rs:135-202 | every received block keeps the invariant |
| ManagerSteps.OrdinaryStepHolders | consensus/core/src/block_manager.rs:176-183 | only the received block stops being one to fetch, and what is returned as missing is one to fetch |
| ManagerSteps.GroundedNeverPanics | consensus/core/src/block_manager.rs:334-431 | from a grounded state the timestamp pass does not panic |
| ManagerSteps.SuppliedAllAccepted | consensus/core/src/block_manager.rs:334-431 | well-timed blocks with their ancestors supplied all pass the timestamp check |
| ManagerSteps.CalmAcceptsAll | consensus/core/src/block_manager.rs:306-330 | when nothing can be rejected a release accepts everything listed |
| ManagerSteps.StepOrder | consensus/core/src/block_manager.rs:306-330 | accepted blocks are listed after their ancestors |
| ManagerSteps.CommittedStepSteady | consensus/core/src/block_manager.rs:204-232 | the committed bypass keeps the invariant |
| ManagerSteps.CommittedStepComplete | consensus/core/src/block_manager.rs:204-232 | only the committed block itself may enter without its history |
| ManagerSteps.AskForSteady | consensus/core/src/block_manager.rs:236-302 | asking for blocks keeps the invariant |
| ManagerSteps.LeastNotSuspended | consensus/core/src/block_manager.rs:644-722 | the least awaited reference is never suspended, so the assertion in the sweep holds |
| ManagerSteps.CollectStepSteady | consensus/core/src/block_manager.rs:644-722 | giving up an awaited block keeps the invariant |
| ManagerSteps.AboveGc | consensus/core/src/block_manager.rs:644-722 | when all awaited references are above the GC round, so are the suspended ones |
| Batches.NothingReleased | consensus/core/src/block_manager.rs:563-610 | a block that no suspended block is above releases nothing |
| Batches.AscendingBatch | consensus/core/src/block_manager.rs:95-99 | a batch accepts blocks in ascending rounds if no block suspended before is above it |
| Batches.BatchReports | consensus/core/src/block_manager.rs:176-201 | when nothing can be rejected, a batch reports exactly what its new blocks need and nobody knows when it ends |
| JointRelease.CutUnique | consensus/core/src/block_manager.rs:563-610 | blocks served one after the other release together exactly the blocks that wait only for them and for each other |
| JointRelease.SweptExactly | consensus/core/src/block_manager.rs:644-722 | what a sweep leaves, stores and drops |
| JointRelease.CommittedExactly | consensus/core/src/block_manager.rs:204-232 | what a list of committed blocks leaves, stores and drops |
| JointRelease.StepDrops | consensus/core/src/block_manager.rs:334-431 | a released block that is not stored has an ancestor that is later or not stored either; never when nothing can be rejected |
| RoundOrder.NotInRoundOrder | consensus/core/src/block_manager.rs:95-99 | otherwise it may not, in both timestamp modes |
| TimestampPass.PassPartitions | consensus/core/src/block_manager.rs:334-431 | every block of the pass is accepted or rejected, never both |
| TimestampPass.PassAcceptsWell | consensus/core/src/block_manager.rs:334-431 | accepted blocks have their ancestors stored, accepted or collected, and none relevant is later |
| TimestampPass.RejectionSpreads | consensus/core/src/block_manager.rs:363-367 | a block after a rejected ancestor is rejected |
| TimestampPass.PassRejectsWhy | consensus/core/src/block_manager.rs:334-431 | a rejection comes from a rejected ancestor, or all ancestors were there and one is too late |
| TimestampPass.SuppliedNeverPanics | consensus/core/src/block_manager.rs:334-431 | with every ancestor stored, earlier in the list or collected, the pass does not panic |
| TimestampPass.PanicExactly | consensus/core/src/block_manager.rs:334-431 | the pass panics exactly when it gets to a block with an ancestor nobody accounts for |
| LostAncestors.PanicNeedsLost | consensus/core/src/block_manager.rs:334-431 | a call panics only if it releases a block with a lost ancestor |
| LostAncestors.LostPanics | consensus/core/src/block_manager.rs:334-431 | a call that releases a block with a lost ancestor panics, unless that ancestor is listed with it or another unstored ancestor is rejected in the same pass |
| LostAncestors.PanicReachable | consensus/core/src/block_manager.rs:334-431 | a run of three verified blocks in which the first two calls end well and the third panics |
| LostAncestors.AllAreWellFormed | consensus/core/src/block_verifier.rs:107-188 | the blocks of that run, stored or received, pass verification |
| BlockManagers.BlockManager.TryUnsuspendBlock | consensus/core/src/block_manager.rs:616-638 | drops one dependency and releases the block when it was the last |
| BlockManagers.BlockManager.UnsuspendChildren | consensus/core/src/block_manager.rs:563-610 | terminates and releases exactly the blocks that miss nothing but the given one and released ones, each once, after what it missed |
| BlockManagers.BlockManager.VerifyTimestamps | consensus/core/src/block_manager.rs:334-431 | the accepted blocks of the pass, or a panic exactly when the pass panics |
| BlockManagers.BlockManager.VerifyAndAccept | consensus/core/src/block_manager.rs:306-330 | stores what the pass accepts and nothing else |
| BlockManagers.BlockManager.NoteMissing | consensus/core/src/block_manager.rs:484-530 | records exactly the needed ancestors that are not stored, in both maps |
| BlockManagers.BlockManager.TryAcceptOneBlock | consensus/core/src/block_manager.rs:437-558 | a known or obsolete block changes nothing, one that misses ancestors is suspended, any other is ready |
| BlockManagers.BlockManager.AcceptStep | consensus/core/src/block_manager.rs:148-195 | one received block: the exact new state; panics only without median timestamps, and never from a grounded state |
| BlockManagers.BlockManager.TryAcceptBlocks | consensus/core/src/block_manager.rs:101-202 | a batch is a step per block, lowest rounds first: invariant, causal completeness, what the DAG gained in causal order; reported missing is exactly what its steps report and, when nothing can be rejected, what new blocks need and nobody knows; ascending rounds unless a block was suspended above; a panic only where a step panics, and none when nothing can be rejected |
| BlockManagers.BlockManager.AcceptCommittedStep | consensus/core/src/block_manager.rs:204-232 | one committed block is stored at once, then its children are released; never panics from a grounded state |
| BlockManagers.BlockManager.TryAcceptCommittedBlocks | consensus/core/src/block_manager.rs:112-130 | all given blocks are stored and only they may lack history; a suspended block leaves exactly when it is given or waits only for given or leaving ones, and is stored unless an ancestor is later or leaves too; all else stays; what is returned is new, once each; a panic only where a release panics; without GC nothing happens |
| BlockManagers.BlockManager.TryFindBlocks | consensus/core/src/block_manager.rs:236-302 | returns exactly the unknown references above the GC round, records them as awaited, and names their authors as the only holders |
| BlockManagers.BlockManager.AdvanceGcRound | consensus/core/src/dag_state.rs:1005-1019 | a higher GC round keeps the invariant |
| BlockManagers.BlockManager.SweepForGcRound | consensus/core/src/block_manager.rs:644-722 | a suspended block leaves exactly when all it misses is at or below the GC round or leaves too; when nothing can be rejected every leaving block is stored, otherwise one that is not has an ancestor that is later or not stored either; all else stays, with its holders; afterwards everything is above the GC round; a panic only where a release panics |
| OrderIndependence.StoredIsAcceptable | consensus/core/src/block_manager.rs:135-202 | the DAG is exactly the causally complete part of what is known |
| OrderIndependence.SameKnownSameState | consensus/core/src/block_manager.rs:135-202 | states that know the same blocks are equal in every map |
| OrderIndependence.Replay | consensus/core/src/block_manager.rs:135-202 | after any sequence of batches, with the timestamp check off or no block failing it, exactly the starting DAG and the received blocks above GC are known |
| OrderIndependence.ReplaysAgree | consensus/core/src/block_manager.rs:135-202 | any two orders and batchings of the same blocks end in the same state, the DAG being their causally complete part, in both timestamp modes |
| OrderIndependence.TimestampsNeverDecrease | consensus/core/src/block_verifier.rs:221-240 | with the timestamp check and without GC, timestamps never decrease along a causal path |
| EndToEnd.AcceptedIsView | consensus/core/src/block_manager.rs:135-202 | without GC, a causally complete DAG of a block manager is a view of the universe |
| EndToEnd.StartedClosed | consensus/core/src/block_manager.rs:135-202 | the DAG of a block manager that started from a view is a view, whatever was received since |
| EndToEnd.Receiving | consensus/core/src/block_manager.rs:101-202 | a block manager fed with batches in any order goes through growing views; if nothing can be rejected it takes all batches and each adds exactly its blocks to those known |
| EndToEnd.AuthoritiesCommitAlike | consensus/core/src/core.rs:868-930 | authorities that receive blocks in any order and run the committer at any time commit sub-DAGs that are prefixes of one another |
| Subscription.SubscriptionCounter.Increment | consensus/core/src/authority_service.rs:721-760 | a new stream; what was last sent stays equal to the level unless the message was lost |
| Subscription.SubscriptionCounter.Decrement | consensus/core/src/authority_service.rs:762-804 | a dropped stream; the same |
| Subscription.SubscriptionCounter.SubscribedStake | consensus/core/src/authority_service.rs:726-733 | the stake of this node and the peers with a live stream |
| Subscription.Run | consensus/core/src/authority_service.rs:686-804 | over any run the last value sent is the quorum of live subscribers; if this node alone is a quorum, it is true exactly when it has ever subscribed to itself |
| OrderStatistics.RunningTotal | consensus/core/src/commit_vote_monitor.rs:56-62 | in a sorted list the first running total to reach the threshold gives the extreme value that does |
| OrderStatistics.FindQuorumPoint | consensus/core/src/ancestor.rs:288-306 | the smallest (or largest) value that a threshold of stake does not exceed (or fall below), or none |
| OrderStatistics.QuorumPoint | consensus/core/src/ancestor.rs:288-306 | for a committee it always exists |
| CommitVotes.CommitVoteMonitor.ObserveBlock | consensus/core/src/commit_vote_monitor.rs:33-40 | each entry is the highest vote observed from that authority |
| CommitVotes.CommitVoteMonitor.QuorumCommitIndex | consensus/core/src/commit_vote_monitor.rs:42-64 | the largest index that a quorum voted for, over all observed blocks |
| CommitVotes.QuorumIndexNeverDrops | consensus/core/src/commit_vote_monitor.rs:33-64 | observing more blocks never lowers it |
| AncestorStates.LockHysteresis | consensus/core/src/ancestor.rs:35-82 | along every run each return costs ten quorum-round updates, each further exclusion two score updates, and moves alternate |
| AncestorStates.LockWindow | consensus/core/src/ancestor.rs:35-48 | a lock lasts exactly until ten quorum-round updates have followed the exclusion, or two score updates the return |
| AncestorStates.AncestorStateManager.NetworkHighQuorumRound | consensus/core/src/ancestor.rs:244-306 | the smallest round such that authorities up to it form a quorum |
| AncestorStates.AncestorStateManager.UpdateState | consensus/core/src/ancestor.rs:169-238 | locked authorities stay; others are excluded exactly at a tenth of the best score or less, and return exactly above it or when caught up |
| AncestorStates.AncestorStateManager.UpdateAllAncestorsState | consensus/core/src/ancestor.rs:121-165 | the same for all scored authorities at once; a best non-zero score is never excluded |
| AncestorStates.AncestorStateManager.Hysteresis | consensus/core/src/ancestor.rs:35-113 | the bounds hold for every manager, whatever calls it has seen |
| FetchBlocks.Validate | consensus/core/src/authority_service.rs:387-398 | an error exactly when some reference is unacceptable, decided by the first |
| FetchBlocks.FetchForCommitSync | consensus/core/src/authority_service.rs:447-494 | split, two reads and scatter equal one lookup per truncated reference, in request order |
| FetchBlocks.PresentExact | consensus/core/src/authority_service.rs:494-505 | all blocks found are sent, in the order of the references looked up |
| FetchBlocks.CachedBlocksInRange | consensus/core/src/dag_state.rs:618-648 | the first cached blocks in the range, up to the limit |
| FetchBlocks.InRangeExact | consensus/core/src/dag_state.rs:618-648 | all cached blocks of the range, in the order of the cache |
| FetchBlocks.DedupAscends | consensus/core/src/authority_service.rs:497-498 | removing neighbouring duplicates after sorting leaves strictly ascending references |
| FetchBlocks.FoundMembers | consensus/core/src/authority_service.rs:495-505 | what is found is exactly the known ones among the truncated request, without duplicates, in the order of references |
| FetchBlocks.FetchLive | consensus/core/src/authority_service.rs:495-551 | out of bounds exactly when it gets, before the answer is cut off, to an author without an accepted round; otherwise the requested blocks that are known, then the cached blocks in the gaps of found authors, own ones first and the others by author, up to the limit |
| FetchBlocks.FullListInBounds | consensus/core/src/authority_service.rs:524-533 | one accepted round per authority is enough |
| FetchCommits.HandleFetchCommits | consensus/core/src/authority_service.rs:561-610 | the longest run of stored commits that ends with a certified one, and its certifying blocks |

## Left out

- Signatures, digests, serialization and transaction checks: a verified block is a value with a unique reference.
- Garbage collection inside the commit rule: views are ancestor-closed and votes are never missing.
- Causal completeness of blocks that enter as committed: it depends on the commit syncer; `TryAcceptCommittedBlocks`
  names those blocks as the only exceptions.
- The older linearizer rule that stops at the last committed round of each authority; only the rule that marks
  committed blocks is modelled.
- Leader schedule changes, reputation scores and their calculation: one schedule for all statements.
- Storage, caches and eviction; `DagState` is one map, and its checks on clock drift and on
  own slots in `accept_block` are not modelled.
- The unbatched form of the block fetch, streams, channels, timeouts and metrics, including `received_block_rounds`.
- Wrap-around of 32- and 64-bit counters, rounds and scores.
- Liveness.
- Recovery after a restart, where the last decided leader is set back to the last committed one.
- Commits received from other nodes through the commit syncer: decisions are those of the commit rule.
- BaseCommitter.UncommittedBlocksAtRound: leaves out the panic for rounds at or below the last commit; the committer
  starts above the last decided leader, so it never asks for such a round.
- BaseCommitter.TestCertificate: leaves out the branch for ancestors that garbage collection has removed, because views
  are ancestor-closed.
- Dags.SupportPersists: one way only, like `Dags.SupportOfTheOnly`; in the remaining case support may or may not be the
  same, and no condition short of comparing the two decides which.
- LostAncestors.LostPanics: leaves open the call in which the lost ancestor itself arrives, or another ancestor of the
  released block is rejected; which of the blocks listed in a pass is looked at first decides those.
- Batches.AscendingBatch: one way only; whether a suspended block above the batch is released depends on what arrives.
