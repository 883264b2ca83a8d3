# A verified model of an EPaxos replica

The repository implements a deterministic EPaxos replica. Every command is an *instance* owned by one
replica; voters agree on its value, sequence number and dependencies through a fast path or through
Accept rounds, and every replica then executes committed instances in an order derived from the
dependency graph. This project models the parts of that replica whose correctness is not visible in
any one function, and proves what they are for.

The main theorems:

- **Agreement** (`ClusterRuns.SlowPathAgreement`): over every run of the handlers, with loss,
  repetition, reordering and crashes anywhere, once a slow quorum durably accepted a tuple, every later
  vote, every chosen tuple and every Accept-quorum commit carries it. What is committed was proposed by the
  owner or supplied where a whole survey was empty: a no-op, or at a reference that a voter plan reserves a
  membership command (`ClusterRuns.OnlyProposedCommitted`). The replica object keeps every cluster it is
  part of safe (`RawNode.Instance.Handle`).
- **What is brought about**: each message and timer has its effect stated on the record, the round and the
  messages (`Effects`), each survey its decision (`Decisions`), and no run is a dead end
  (`Recoverable.CanStillDecide`).
- **Fast path** (`ClusterRuns.FastCommitFound`, `ClusterRuns.CommitsAgree`): a proposal committed fast as
  it was is found again by every inconclusive survey, and all commits, fast or slow, agree as long as
  fast commits take the proposal unchanged and accepts after a Try round take the tried tuple unchanged.
- **Where agreement of all commits holds and fails** (`Divergence.AgreementExact`): every run of a group
  sends commits of one tuple only if and only if the group has two voters. For three or more,
  `Divergence.CoveringCommitLost` gives, for every reply that strictly covers the proposal and every local
  knowledge of a recovering voter, a run with two commits, which agree if and only if the reply covers that
  knowledge. `Interrupted.TriedCommitLost` does the same for a proposal that was committed fast unchanged
  and recovered through an interrupted Try round.
- **Execution** (`ExecutionRuns.SameRelativeOrder`, `ExecutionRuns.DependenciesSettled`,
  `Executor.ExecutionComponents`): replicas with the same decisions execute dependent instances in the
  same order, however the commits arrived, lower Seq first (`ExecutionRuns.LowerSeqFirst`); committed
  instances that wait for nothing outside themselves are executed (`Replica.ExecutionState.TryExecute`);
  the iterative Tarjan traversal terminates and decomposes the pruned graph.
- **Indexes**: the interval tree, the radix tree, the posting sets and the retired summary each equal, or
  safely over-approximate, a plain list or map (`IntervalTree.UpdatesKeep`, `IntervalTree.OverlapExact`,
  `RadixQueries.PrefixMaxExact`, `Retired.Summary.Add`). Together, after any applies, removes and folds, they
  answer what a scan of the records would (`Engine.Engine.Apply`, `ResourceIndex.Index.FootprintMax`), which
  is the records of conflicting commands (`Conflicts.HitsAreConflicts`). Folding above the watermark changes
  no answer; below it, it changes none if and only if what remains covers the record
  (`Folding.LaneIndex.FoldRecord`, `Conflicts.DroppedExact`, `Folding.UnlikeRefoldLoses`).
- **Durable state**: Ready queues conserve their streams, and a durable configuration is never ahead of the
  record that installed it (`ReadyQueue.Queues.Advance`); a batch is accepted exactly when it takes
  nothing back, and leaves exactly what it asked for (`Batches.AcceptedExactly`, `Batches.AcceptedLeaves`);
  storage never takes anything back over any run (`Durability.RunMonotone`); configurations succeed each other one voter
  at a time (`Configuration.History.ApplyChange`, `Configuration.AdjacentQuorumsMeet`); the fence union is
  the least frontier above its fences (`Fence.UnionIsLeast`); the wire format round-trips
  (`Codec.RoundTrip`, `Parser.Transmit`).

## Layout

Protocol: `Ballots`, `Attributes`, `Quorum`, `FastPath`, `VoteSet`, `Protocol` (what a record log may do and
what a message vouches for), `Agreement`, `Witness`, `Nontriviality` (consequences of those facts alone),
`Recovery`, `Handlers` (the handlers as functions), `Effects`, `Decisions` (what they bring about),
`Voting`, `RawNode` (the handlers and their loops as the replica runs them), `LedgerSteps`, `Cluster`, `ClusterSteps`, `ClusterRecovery`, `ClusterRuns` (all replicas over
a network), `Reaching`, `Recoverable` (runs that decide), `Divergence`, `Interrupted` (runs that disagree).

Execution: `Graph`, `Tarjan`, `Execution`, `ExecutionRuns`, `Executor`, `Progress`, `Replica`.
Indexes: `ByteOrder`, `Footprint`, `IntervalTree`, `IntervalIndex`, `Radix`, `RadixQueries`, `Lane`, `Retired`,
`Conflicts` (what the index is asked, over plain maps), `Folding`, `ResourceIndex`, `Engine`.
Durable and administrative state: `ReadyQueue`, `Storage`, `Durability`, `Batches`, `Store`, `Configuration`, `Fence`, `Wire`,
`Codec`, `Parser`.

`dafny verify dfyconfig.toml` checks the whole project.

## Model

| member | source | states |
|---|---|---|
| Ballots.Ballot.Next | epaxos/types.go:140-148 | the next ballot is above the old one, belongs to the replica, is a recovery ballot, and no ballot of that replica with another epoch or number lies between; none exists exactly when both fields are exhausted |
| Ballots.LessByRank | epaxos/types.go:115-123 | ballots compare as the numbers made of epoch, number and replica, and the higher of two is the one of higher rank |
| Ballots.InitialIsLowest | epaxos/types.go:125-135 | the initial ballot is the lowest of its owner and every other one of that owner is a recovery ballot |
| Attributes.MergeIsLeast | epaxos/node.go:5252-5331 | merging attributes gives the least attributes, with a sequence number, that cover both |
| Attributes.MergeIdempotent | epaxos/node.go:5312-5331 | merging attributes that carry a sequence number with themselves changes nothing |
| Quorum.SizesOrdered | epaxos/quorum.go:32-50 | for one to seven voters the quorum sizes fit, two slow quorums overlap and the witness size is positive |
| Quorum.QuorumLaws | epaxos/quorum.go:32-50 | for one to seven voters a slow quorum is the least majority; a fast quorum is the least that leaves half of every slow quorum as witnesses when the number is odd, the least above three quarters when it is even: 1, 2, 2, 4, 3, 5, 5 |
| Quorum.SlowQuorumsMeet | epaxos/quorum.go:32-32 | any two slow quorums share a voter |
| VoteSet.Len | epaxos/vote_set.go:28-35 | the bit-clearing loop counts the set bits |
| VoteSet.BitsAreSenders | epaxos/vote_set.go:11-35 | over distinct voters there are as many senders as set bits |
| VoteSet.Tally.Add | epaxos/vote_set.go:131-142 | a voter's first vote is added, a second or a stranger's refused, and nothing else changes |
| VoteSet.Tally.Get | epaxos/vote_set.go:144-153 | exactly the vote a sender gave is found |
| VoteSet.Tally.Size | epaxos/vote_set.go:155-160 | the length is the number of distinct voters that voted |
| FastPath.FastCommitAttrs | epaxos/node.go:5203-5229 | what is committed fast meets the fast quorum and has every dependency seen committed |
| FastPath.FastCommitExact | epaxos/node.go:5203-5250 | counted by hand: the owner's attributes if it makes a fast quorum with eligible voters for exactly them and every dependency was seen committed, else those of the first voter in slot order with such a quorum, else nothing |
| FastPath.LookaheadSound | epaxos/node.go:2857-2895 | when the owner gives the fast path up, no replies of the remaining voters, whatever they carry, complete it |
| FastPath.LookaheadExact | epaxos/node.go:2857-2895 | while a voter has yet to answer, the owner waits if and only if some replies would complete the fast path |
| FastPath.CommitWasReachable | epaxos/node.go:5231-5250 | what more replies commit fast was still counted as reachable before them |
| Voting.MergeAttrs | epaxos/node.go:5312-5331 | the growing and raising loop computes the merge |
| Voting.CountMatching | epaxos/node.go:5242-5248 | the loop over the voters counts the matching eligible voters once each and collects what they saw committed |
| Voting.CanFastCommit | epaxos/node.go:5231-5250 | the loop decides the fast-commit condition exactly |
| Voting.FastCommitAttrs | epaxos/node.go:5203-5229 | the owner's attributes first, then the first covering reply in slot order |
| Voting.CanStill | epaxos/node.go:2857-2895 | the nested loops decide the lookahead condition exactly |
| Voting.AttrsFromVotes | epaxos/node.go:5303-5310 | the loop merges the attributes of all counted votes |
| Voting.HighestAccepted | epaxos/node.go:3336-3357 | the loop finds the accepted answer of the highest record ballot, merging equals |
| Voting.AddCandidate | epaxos/node.go:5291-5301 | the voter joins the group of its tuple, or opens one at the end |
| Voting.PickCandidate | epaxos/node.go:3384-3412 | the first group with enough witnesses is that of the first voter whose tuple enough eligible answers share, with exactly those answers |
| Voting.Choose | epaxos/node.go:3314-3445 | the loops over the answers make the same decision as the declarative recovery rule |
| Recovery.BestIsHighest | epaxos/node.go:3336-3357 | with one tuple per ballot, merging changes nothing: the result is an accepted answer that outranks all others |
| Recovery.TopIsHighest | epaxos/node.go:3371-3383 | the top ballot is that of a pre-accepted answer and none is higher |
| Agreement.LogForward | epaxos/node.go:2953-3204 | between any two entries of a replica's log promises never fall and final records stay |
| Agreement.VoteOrigin | epaxos/node.go:2953-3001 | every accepted record at a ballot repeats one of the ballot's owner, durable by then |
| Agreement.OneTuplePerBallot | epaxos/node.go:3515-3550 | all accepted records of one ballot, at all replicas, carry one tuple |
| Agreement.RecoveryFollows | epaxos/node.go:3274-3368 | a recovery that surveys a slow quorum above a chosen ballot meets an accepted record of that ballot or later |
| Agreement.ChosenBinds | epaxos/node.go:3274-3368 | once a tuple is chosen at a ballot, every accepted record at a higher ballot carries it |
| Agreement.ChosenAgree | epaxos/node.go:3003-3040 | any two chosen tuples are equal |
| Witness.EligibleTuple | epaxos/node.go:2706-2731 | the only eligible tuple that ever exists for an instance is the owner's proposal |
| Witness.FastCommitWitness | epaxos/node.go:3370-3412 | beside an exact fast commit, any slow quorum of inconclusive answers holds at least the witness number of eligible records of that tuple |
| Witness.PlainSurveyTries | epaxos/node.go:3370-3412 | such a survey always finds a tuple to try |
| Witness.TryTuple | epaxos/node.go:3552-3595 | every try record carries the owner's proposal |
| Witness.FastCommitBinds | epaxos/node.go:3370-3445 | beside an exact fast commit every accepted record carries its tuple, as long as accepts after a Try round keep the tried tuple |
| Witness.OneFastCommit | epaxos/node.go:2826-2855 | the owner commits fast at most once |
| Witness.FinalsAgree | epaxos/node.go:4523-4548 | any two final records carry the same tuple when fast commits and Try rounds add nothing |
| Witness.OwnerNeverVotes | epaxos/node.go:2826-2855 | the owner never accepts, at any ballot, an instance it commits fast |
| Witness.PairFinalsAgree | epaxos/node.go:4523-4548 | with two voters any two final records carry the same tuple, with no condition |
| Nontriviality.StoredValue | epaxos/node.go:3314-3445 | every pre-accepted or accepted value is the owner's proposal, or a fallback a coordinator supplied after a survey that was empty |
| Nontriviality.FinalValue | epaxos/node.go:3042-3116 | so is every final value |
| LedgerSteps.AcceptedChosen | epaxos/node.go:3003-3040 | committing on a slow quorum of acknowledgements means the tuple is chosen |
| LedgerSteps.LearnedDecided | epaxos/node.go:3042-3116 | a learned commit was decided where it was learned from |
| LedgerSteps.AppendSound | epaxos/node.go:4800-4813 | queueing a justified record keeps every log justified and every final record decided |
| LedgerSteps.SendSound | epaxos/node.go:4834-4843 | a message that leaves after its record is durable keeps that true |
| LedgerSteps.CrashSound | epaxos/node.go:657-1129 | losing what was not persisted keeps that true |
| Handlers.Handle | epaxos/node.go:2132-2234 | no handler drops a queued record or message, or touches what is durable |
| Effects.ProposalMade | epaxos/node.go:2023-2107 | the owner of a new instance stores and sends its proposal and counts its own vote with exactly the dependencies it saw committed |
| Effects.PreAcceptStored | epaxos/node.go:2733-2792 | a new PreAccept is stored with the least cover of the proposal and local knowledge, eligible exactly when that is the proposal at the initial ballot, and answered with exactly the dependencies the replica saw committed |
| Effects.PreAcceptAnswered | epaxos/node.go:2733-2792 | a repeated, overtaken, outranked or decided PreAccept is answered with what is held, rejected, or ignored |
| Effects.ReplyCounted | epaxos/node.go:2794-2855 | a counted reply commits what a fast quorum agrees on, or starts an Accept round with the least cover of all replies once there is no hope, or waits; any other reply changes nothing |
| Effects.FastGivenUp | epaxos/node.go:4552-4565 | with a slow quorum of replies the timer starts an Accept round with attributes that cover every counted vote and no more |
| Effects.PrepareAnswered | epaxos/node.go:3118-3204 | a Prepare at or above the promise is promised and answered with the record held, below it rejected with the promise |
| Effects.AcceptAnswered | epaxos/node.go:2953-3001 | an Accept at or above the promise that contradicts nothing is stored and acknowledged; otherwise it is rejected, ignored or answered with the decision |
| Effects.AckCounted | epaxos/node.go:3003-3040 | the acknowledgement that completes a slow quorum commits the accepted tuple, one before it is counted, any other ignored |
| Effects.CommitLearned | epaxos/node.go:3042-3116 | a Commit is stored as final with its record ballot and tuple, unless a decision is known or it contradicts the record at its ballot |
| Effects.TryAnswered | epaxos/node.go:3597-3708 | a Try request is confirmed and stored, refused for an accepted record, reported as a conflict, rejected, or answered with the decision |
| Effects.ConfirmationCounted | epaxos/node.go:3710-3785 | the confirmation that completes a slow quorum puts the tried tuple to an Accept round |
| Effects.ConflictJoined | epaxos/node.go:3787-3799 | a conflict met by a Try is joined to the tried attributes and accepted |
| Effects.RejectionHeeded | epaxos/node.go:3279-3284 | a rejection of the round in progress with a higher promise starts an own ballot above it, or the ballots are spent |
| Effects.RecoveryStarted | epaxos/node.go:4584-4604 | the recovery timer prepares an undecided instance at an own ballot above its promise |
| Effects.RequestRepeated | epaxos/node.go:4548-4604 | a retry timer repeats exactly the request of the round in progress |
| Effects.RestartResumes | epaxos/node.go:1203-1241 | a restart resumes the round its last durable record calls for, with no more than its own vote |
| Decisions.AnswerCounted | epaxos/node.go:3274-3314 | answers to the own Prepare are counted once, and the one that completes a slow quorum has the decision on all of them carried out |
| Decisions.FinalAdopted | epaxos/node.go:3314-3335 | the first final answer in slot order is committed |
| Decisions.AcceptedFollowed | epaxos/node.go:3336-3368 | else the first accepted answer of the highest record ballot is accepted again, with the least cover of those like it |
| Decisions.SharedTried | epaxos/node.go:3370-3412 | else the first tuple that enough eligible answers at the highest ballot share is tried, with exactly those answers as witnesses |
| Decisions.TopAccepted | epaxos/node.go:3413-3424 | else the value of the first pre-accepted answer at the highest ballot is accepted, with the least cover of all of them and of local knowledge |
| Decisions.FallbackTaken | epaxos/node.go:3425-3445 | else the fallback is accepted without dependencies, and without one nothing is done |
| RawNode.Instance.Propose | epaxos/node.go:2023-2107 | in every cluster the replica is part of, the in-place proposal keeps the invariant of all runs, and its record only moves forward |
| RawNode.Instance.FinalizePreAccept | epaxos/node.go:2826-2855 | fast commit, wait or Accept round, decided by the loops, as specified |
| RawNode.Instance.HandlePreAcceptResp | epaxos/node.go:2794-2824 | a reply is counted once, from a voter, at the current ballot, as specified |
| RawNode.Instance.HandlePrepareResp | epaxos/node.go:3274-3445 | counts an answer once and carries out the recovery decision at a slow quorum, as specified |
| RawNode.StepSafe | epaxos/node.go:2132-2234 | whatever a handler or timer does to a replica keeps the invariant of every cluster the replica is part of, lowers no promise, undoes no status and changes no decided tuple |
| RawNode.Instance.Handle | epaxos/node.go:2132-2234 | the in-place handling of any message another replica sent keeps that invariant, moves the record forward, does what the handler functions specify, and makes the record final on a Commit that contradicts nothing |
| RawNode.Instance.Recover | epaxos/node.go:4584-4604 | the recovery timer keeps that invariant and moves the record forward |
| RawNode.Instance.GiveUpFast | epaxos/node.go:4552-4565 | so does the pre-accept timer, which merges the votes in a loop |
| RawNode.Instance.Restart | epaxos/node.go:1203-1241 | a crash and restart keep exactly the durable records and the invariant of every cluster the replica is part of |
| ClusterSteps.ProposeKeeps | epaxos/node.go:2023-2107 | proposing keeps the cluster invariant |
| ClusterSteps.PreAcceptKeeps | epaxos/node.go:2733-2792 | handling PreAccept keeps it |
| ClusterSteps.PreAcceptRespKeeps | epaxos/node.go:2794-2855 | handling the reply keeps it, fast commit included |
| ClusterSteps.StartAcceptKeeps | epaxos/node.go:3515-3550 | starting an Accept round keeps it |
| ClusterSteps.AcceptKeeps | epaxos/node.go:2953-3001 | handling Accept keeps it |
| ClusterSteps.AcceptRespKeeps | epaxos/node.go:3003-3040 | handling the acknowledgement keeps it |
| ClusterSteps.CommitKeeps | epaxos/node.go:3042-3116 | handling Commit keeps it |
| ClusterSteps.PrepareKeeps | epaxos/node.go:3118-3204 | handling Prepare keeps it |
| ClusterSteps.StartPrepareKeeps | epaxos/node.go:4287-4339 | taking the next own ballot keeps it |
| ClusterSteps.RecoverKeeps | epaxos/node.go:4584-4604 | the recovery timer keeps it |
| ClusterSteps.RejectKeeps | epaxos/node.go:3279-3284 | a rejection that restarts the round keeps it |
| ClusterRecovery.PrepareRespKeeps | epaxos/node.go:3274-3445 | counting an answer and deciding at a slow quorum keeps it |
| ClusterRecovery.StartTryKeeps | epaxos/node.go:3552-3595 | starting a Try round keeps it |
| ClusterRecovery.TryKeeps | epaxos/node.go:3597-3708 | handling a Try request keeps it |
| ClusterRecovery.TryRespKeeps | epaxos/node.go:3710-3785 | handling a Try answer keeps it |
| ClusterRecovery.TryConflictKeeps | epaxos/node.go:3787-3799 | accepting with the dependencies a conflict adds keeps it |
| ClusterRuns.CrashKeeps | epaxos/node.go:1203-1241 | crash and restart keep it |
| ClusterRuns.RunInv | epaxos/node.go:2132-2234 | every state of every run satisfies the invariant |
| ClusterRuns.RunDurable | epaxos/node.go:2305-2400 | what is durable or sent stays so for the rest of the run |
| ClusterRuns.RunChosen | epaxos/node.go:3003-3040 | a chosen tuple stays chosen |
| ClusterRuns.SlowPathAgreement | epaxos/node.go:2953-3040 | over every run, after a tuple is chosen every vote at a higher ballot, every chosen tuple and every Accept-quorum commit carries it |
| ClusterRuns.CommitsAgree | epaxos/node.go:4523-4548 | over every run in which fast commits and Try rounds add nothing, any two Commit messages and any two final records carry the same tuple |
| ClusterRuns.PairCommitsAgree | epaxos/node.go:4523-4548 | over every run of two voters, any two Commit messages and any two final records carry the same tuple |
| ClusterRuns.OnlyProposedCommitted | epaxos/node.go:3425-3445 | over every run, what is committed was proposed by the owner or supplied after an empty survey; outside references a voter plan reserves it is the proposal or a no-op |
| ClusterRuns.FastCommitFound | epaxos/node.go:3370-3412 | over every run, after an exact fast commit an inconclusive survey finds enough eligible records, all of that proposal |
| Recoverable.CanStillDecide | epaxos/node.go:3274-3550 | no run is a dead end: from every state of every run whose ballots are not nearly spent, some continuation decides the instance |
| Divergence.OwnerCommits | epaxos/node.go:5209-5229 | from three voters on, a run reaches a state in which the owner has committed a strictly covering reply fast, every other voter holding it ineligible |
| Divergence.SurveyDecides | epaxos/node.go:3370-3428 | a survey of equal ineligible records, of whatever size, accepts their tuple merged with what the coordinator knows |
| Divergence.CoveringCommitLost | epaxos/node.go:5209-5229 | for three to seven voters, any owner, every covering reply and every local knowledge a run reaches two commits; they agree if and only if the reply covers that knowledge |
| Divergence.AgreementExact | epaxos/node.go:5209-5229 | all commits of all runs of a group agree if and only if the group has two voters |
| Interrupted.SurveyAdds | epaxos/node.go:3370-3428 | a try record outranks the eligible record and hides it from the survey |
| Interrupted.TriedCommitLost | epaxos/node.go:3370-3428 | for every proposal committed fast unchanged and every local knowledge of the last coordinator a run reaches two commits; they agree if and only if the proposal covers that knowledge |
| Execution.AfterIsCover | epaxos/node.go:5791-5809 | the chain test holds exactly when the other instance has the higher sequence number and covers this one |
| Execution.SomeEdgeRetained | epaxos/node.go:5791-5809 | pruning never removes both directions between two dependent instances |
| Tarjan.EnterInvariant | epaxos/sparse_progress.go:336-344 | numbering a vertex keeps the traversal invariant |
| Tarjan.RelaxInvariant | epaxos/sparse_progress.go:354-382 | reading an edge to a numbered vertex keeps it |
| Tarjan.DescendInvariant | epaxos/sparse_progress.go:354-382 | descending to an unseen vertex keeps it |
| Tarjan.ReturnInvariant | epaxos/sparse_progress.go:387-403 | returning to the parent keeps it |
| Tarjan.EmitConnected | epaxos/sparse_progress.go:387-403 | what is popped is strongly connected |
| Tarjan.EmitLeadsEarlier | epaxos/sparse_progress.go:387-403 | every edge out of what is popped stays inside or leads to an earlier component |
| Tarjan.EmitInvariant | epaxos/sparse_progress.go:387-403 | popping a component keeps the invariant |
| Executor.NewExecutionView | epaxos/sparse_progress.go:273-299 | the view lists every instance of every lane in order |
| Executor.DependencyRefs | epaxos/sparse_progress.go:127-164 | the iterator yields exactly the materialized instances the dependency prefixes cover |
| Executor.PopComponent | epaxos/sparse_progress.go:387-401 | the pop loop takes everything above the finished vertex, each once |
| Executor.Visit | epaxos/sparse_progress.go:333-404 | one round keeps the invariant and numbers a new vertex or shortens the remaining work |
| Executor.ExecutionComponents | epaxos/sparse_progress.go:301-408 | the traversal ends, and its components partition the committed unexecuted instances, each strongly connected, edges leading only to earlier ones |
| Replica.FirstPrefixBlocker | epaxos/sparse_progress.go:410-441 | the first instance of the prefix that is neither executed, in the component, nor ordered after |
| Replica.ComponentReady | epaxos/sparse_progress.go:443-491 | a component is ready exactly when every dependency prefix of every member is discharged |
| Replica.SortComponent | epaxos/sparse_progress.go:702-712 | the members in execution order, each once |
| ExecutionRuns.BlockOrder | epaxos/sparse_progress.go:702-712 | over every run, inside a block: lower Seq first, then the cycle key that is lower at the first differing byte, then configuration, replica and instance |
| ExecutionRuns.LowerSeqFirst | epaxos/sparse_progress.go:673-761 | over every run, when the decided b covers a and has the higher Seq, a executes before b |
| ExecutionRuns.ConflictsSettled | epaxos/sparse_progress.go:443-491 | over every run, when an instance executes, every known undecided instance that shares a key with it or is of global kind was executed, is in its block, or has a higher Seq and depends back |
| Progress.SomeReady | epaxos/sparse_progress.go:410-491 | a nonempty set of committed instances that wait for nothing outside it always holds a whole component that is ready |
| Replica.ExecutionState.AddExecuted | epaxos/sparse_progress.go:77-101 | the executed prefix of a lane denotes exactly a fully executed prefix and reaches as far as it can |
| Replica.ExecutionState.NoteCommitted | epaxos/sparse_progress.go:242-271 | the committed prefix of every lane denotes a fully committed prefix again and reaches as far as it can |
| Replica.ExecutionState.Install | epaxos/sparse_progress.go:217-240 | learning or overwriting a record keeps the committed and executed prefixes exact, and is a step of the execution relation |
| Replica.ExecutionState.ExecutePass | epaxos/sparse_progress.go:673-761 | a pass executes only ready components, in order, as steps of the execution relation |
| Replica.ExecutionState.TryExecute | epaxos/sparse_progress.go:673-761 | the whole loop is a run of the execution relation; unless a checkpoint it executed pauses it, nothing ready is left and every set of committed instances that waited for nothing outside itself is executed |
| ExecutionRuns.RunHistory | epaxos/sparse_progress.go:673-761 | every run emits blocks that are ready, ordered and closed |
| ExecutionRuns.SameBlockIffMutual | epaxos/sparse_progress.go:301-408 | two instances run in one block exactly when each reaches the other in the decided graph |
| ExecutionRuns.EdgeOrder | epaxos/sparse_progress.go:673-761 | where an edge is retained the order of its ends follows from the decided records alone |
| ExecutionRuns.SameRelativeOrder | epaxos/sparse_progress.go:673-761 | two replicas with the same decisions execute any two dependent instances in the same relative order |
| ExecutionRuns.DependenciesSettled | epaxos/sparse_progress.go:410-491 | when an instance executes, everything in its dependency prefixes is executed, in its block, or committed with a higher sequence number and depending back |
| ExecutionRuns.EmittedOnce | epaxos/sparse_progress.go:77-101 | no instance is emitted twice |
| ByteOrder.NoKeyBelowSuccessor | epaxos/footprint.go:212-243 | no key lies between a key and the key with a zero byte appended |
| ByteOrder.LessMeaning | epaxos/footprint.go:212-243 | the byte order is decided at the first difference, a proper prefix first |
| Footprint.ConflictMeaning | epaxos/footprint.go:212-243 | the pairwise comparison holds exactly when some key is in both footprints |
| Footprint.FootprintsConflict | epaxos/footprint.go:212-243 | the loops decide that comparison |
| Footprint.Canonicalize | epaxos/footprint.go:59-144 | succeeds exactly on admissible input; the result is canonical, denotes the same keys, and canonical input is unchanged |
| Footprint.FootprintCanonical | epaxos/footprint.go:146-177 | the adjacent comparisons and the joint pass decide canonical form exactly |
| Footprint.MergeSpans | epaxos/footprint.go:118-128 | merging sorted spans separates them and keeps their keys |
| Footprint.FilterPoints | epaxos/footprint.go:130-142 | exactly the points outside every span remain |
| Footprint.ConflictOfSources | epaxos/footprint.go:59-144 | after canonicalizing both, the comparison decides whether the original key sets meet |
| IntervalTree.BalanceBalanced | epaxos/interval_index.go:77-93 | one rotation step restores balance after a height change of one |
| IntervalTree.BalanceList | epaxos/interval_index.go:59-93 | rotations keep the in-order list |
| IntervalTree.InsertList | epaxos/interval_index.go:110-120 | inserting into the tree is inserting into the sorted list |
| IntervalTree.DeleteList | epaxos/interval_index.go:129-149 | deleting from the tree is removing from the list |
| IntervalTree.BoundIsGreatest | epaxos/interval_index.go:47-57 | a node's bound is the greatest upper bound below it |
| IntervalTree.OverlapExact | epaxos/interval_index.go:151-180 | the overlap query yields exactly what a linear filter selects, in order, each once |
| IntervalTree.ContainingExact | epaxos/interval_index.go:182-199 | the containing query yields exactly the spans around the point, in order, each once |
| IntervalTree.UpdatesKeep | epaxos/interval_index.go:110-149 | any sequence of inserts and deletes keeps order, balance and augmentation and lists exactly the resources in it |
| IntervalTree.HeightFits | epaxos/interval_index.go:33-38 | with at most 2^64 resources every height fits a signed byte |
| IntervalIndex.RotateLeft | epaxos/interval_index.go:59-66 | the pointer rotation builds the rotated tree |
| IntervalIndex.Balance | epaxos/interval_index.go:77-93 | the pointer rebalancing builds the balanced tree |
| IntervalIndex.Insert | epaxos/interval_index.go:110-120 | the heap insert builds the tree of the functional insert |
| IntervalIndex.Delete | epaxos/interval_index.go:129-149 | the heap delete builds the tree of the functional delete |
| IntervalIndex.QueryOverlap | epaxos/interval_index.go:159-180 | the callback is handed the filtered list up to the first refusal, and the answer says whether it took all |
| IntervalIndex.QueryContaining | epaxos/interval_index.go:182-199 | the same for the spans around a point |
| Radix.SetGet | epaxos/conflict_engine.go:108-124 | the slot written is read back and every other slot unchanged |
| Radix.RemoveGet | epaxos/conflict_engine.go:144-167 | the slot removed is gone, every other unchanged, and the answer says whether it was there |
| Radix.AggBounds | epaxos/conflict_engine.go:169-203 | no slot below a node exceeds its aggregates |
| Radix.AggAttained | epaxos/conflict_engine.go:169-203 | every aggregate is attained by a slot below |
| Radix.RecomputeInner | epaxos/conflict_engine.go:169-203 | the loop over the children computes the aggregate |
| RadixQueries.Counted | epaxos/conflict_engine.go:169-203 | the count is the number of instances below |
| RadixQueries.PrefixMaxExact | epaxos/conflict_engine.go:212-239 | the largest eligible sequence number at or below the bound |
| RadixQueries.WalkExact | epaxos/conflict_engine.go:248-279 | exactly the slots at or below the bound, largest first, each once |
| RadixQueries.GlobalWalkExact | epaxos/conflict_engine.go:283-331 | skipping subtrees loses nothing: the full walk, filtered |
| Lane.RadixLevel | epaxos/conflict_engine.go:75-82 | the least level whose nodes hold the value |
| Lane.LaneTree.Set | epaxos/conflict_engine.go:94-124 | a map update, root growth included |
| Lane.LaneTree.Remove | epaxos/conflict_engine.go:126-167 | a map removal, root collapse included |
| Lane.LaneTree.Find | epaxos/conflict_engine.go:333-350 | the map lookup |
| Lane.LaneTree.PrefixMaxSeq | epaxos/conflict_engine.go:205-239 | the maximum over the map up to the bound |
| Lane.LaneTree.WalkDesc | epaxos/conflict_engine.go:241-279 | the map's entries up to the bound, descending |
| Lane.LaneTree.WalkGlobalDesc | epaxos/conflict_engine.go:283-331 | the eligible global entries up to the bound, descending |
| Lane.LaneTree.Aggregates | epaxos/conflict_engine.go:813-833 | greatest eligible and greatest global instance, and the count, of the map |
| Lane.PostingSet.Insert | epaxos/conflict_engine.go:380-407 | a set insertion |
| Lane.PostingSet.Remove | epaxos/conflict_engine.go:423-445 | a set removal |
| Lane.PostingSet.Predecessor | epaxos/conflict_engine.go:474-485 | the greatest member at or below the bound |
| Lane.PostingSet.Maximum | epaxos/conflict_engine.go:467-472 | the greatest member, zero when empty |
| Retired.RisingPrefixMax | epaxos/conflict_engine.go:677-697 | in a rising list the last entry at or below the bound is the prefix maximum |
| Retired.Summary.Query | epaxos/conflict_engine.go:677-697 | never below the true prefix maximum, exact while nothing was dropped |
| Retired.Summary.Add | epaxos/conflict_engine.go:862-892 | keeps both fields strictly rising, at most 64 entries, and the summary faithful to everything added |
| Retired.DroppedFaithful | epaxos/conflict_engine.go:862-892 | dropping the lowest entries only raises answers |
| Folding.LaneIndex.Apply | epaxos/conflict_engine.go:563-583 | an applied record replaces the resident one, and everything folded stays covered |
| Folding.LaneIndex.FoldRecord | epaxos/conflict_engine.go:835-860 | above the watermark no footprint, scope or global query tells that a resident record was folded and no prefix falls; at or below it the record is dropped, and no query tells if and only if what remains covers it, and never when it was folded before as it is |
| Conflicts.IndexFindsConflicts | epaxos/conflict_engine.go:714-739 | a footprint query visits a resource of a command if and only if the two footprints conflict |
| Conflicts.HitsAreConflicts | epaxos/conflict_engine.go:714-750 | the records a footprint query finds are those of conflicting commands |
| Conflicts.FoldKeepsFootprint | epaxos/conflict_engine.go:741-750 | when the floors take over what a resident record held, the greatest hit of every footprint query is unchanged |
| Conflicts.FoldKeepsScopes | epaxos/conflict_engine.go:813-833 | so are the greatest instance of any scope and of global scope |
| Conflicts.FoldKeepsSeq | epaxos/conflict_engine.go:677-697 | prefix sequence numbers never fall when the summary takes an eligible record over |
| Conflicts.DroppedExact | epaxos/conflict_engine.go:835-842 | dropping a record without raising anything changes no query if and only if what remains reaches as high in its scope and at each of its keys |
| Conflicts.DroppedSeqExact | epaxos/conflict_engine.go:835-842 | and no prefix sequence number falls if and only if the one up to the record itself does not fall below it |
| Conflicts.RefoldKeeps | epaxos/node.go:5053-5068 | a record covered by what was folded can be folded again unnoticed |
| Folding.UnlikeRefoldLoses | epaxos/node.go:5053-5068 | a record applied below the watermark unlike it was folded is lost by folding it again: at every key, a reachable index whose answer falls from 1 to 0 |
| Folding.LaneIndex.Advance | epaxos/conflict_engine.go:909-934 | the watermark covers a contiguous folded prefix |
| Folding.LaneIndex.Retire | epaxos/retire.go:24-63 | no query tells; every given record up to the target is folded, nothing else leaves, and the watermark advances to the first gap or the target |
| ResourceIndex.Index.Ensure | epaxos/conflict_engine.go:597-621 | the resource is in the tree and the point table and the lane has an entry, and no posting or floor changes |
| ResourceIndex.Index.Post | epaxos/conflict_engine.go:576-582 | a record is listed under one more resource, and the tree, the table and the posting sets still agree with all records |
| ResourceIndex.Index.Unpost | epaxos/conflict_engine.go:641-667 | a record is listed under one resource less, and a resource stays indexed exactly while a lane has something under it |
| ResourceIndex.Index.EachResource | epaxos/conflict_engine.go:714-739 | exactly the indexed resources the footprint touches, each once |
| ResourceIndex.Index.FootprintMax | epaxos/conflict_engine.go:741-750 | the greatest resident record of the lane that meets the footprint and the greatest floor it meets, as a scan of the records and floors would find them |
| ResourceIndex.EmptyAgain | epaxos/conflict_engine.go:641-667 | an index without records and floors has an empty tree and table: nothing is kept that stands for nothing |
| Engine.Engine.Apply | epaxos/conflict_engine.go:563-583 | the slots and postings become those of the record map with the record put in, whatever it replaces |
| Engine.Engine.Remove | epaxos/conflict_engine.go:623-639 | the slots and postings become those of the record map without the record |
| Engine.Engine.Fold | epaxos/conflict_engine.go:835-860 | the record leaves, above the watermark the floors of its resources rise, and then no footprint query of any lane tells |
| Engine.Engine.Scopes | epaxos/conflict_engine.go:813-833 | the greatest eligible and the greatest global instance among the lane's records |
| Engine.Engine.PrefixMaxSeq | epaxos/conflict_engine.go:669-675 | the largest sequence number among the lane's eligible records up to the bound |
| ReadyQueue.Queues.EnqueueRecord | epaxos/node.go:4800-4813 | the record joins its stream behind everything queued before, and the configuration it installs becomes current |
| ReadyQueue.Queues.Ready | epaxos/node.go:2290-2319 | a batch is out exactly when one was, work is pending or the hard state changed; a new one holds all pending records and applies, the changed hard state, and all messages or the first of them up to the limit; nothing is lost |
| ReadyQueue.AcknowledgedExactly | epaxos/node.go:2431-2548 | accepted are exactly: the hard state first, prefixes of the three streams, all records before any message or apply, and the records the configuration needs |
| ReadyQueue.Queues.Drain | epaxos/node.go:2236-2239 | handing out and acknowledging until nothing is ready ends, with everything queued acknowledged and the hard state durable |
| ReadyQueue.RequiredRecords | epaxos/node.go:2467-2479 | the loop finds the shortest prefix of the frozen records that holds all that install a configuration up to the acknowledged one |
| ReadyQueue.Queues.Advance | epaxos/node.go:2341-2548 | acknowledged, frozen, pending and next work concatenate to what was enqueued; no entry is acknowledged before an earlier record; every queued record that installs the durable configuration or an earlier one is acknowledged; a refusal changes nothing |
| ReadyQueue.Queues.MergeNext | epaxos/node.go:4770-4798 | the next queue joins the pending one, in order |
| Store.RememberEntries | epaxos/storage.go:175-216 | the loop over the listed configurations is the specified fold |
| Store.IndexRecords | epaxos/storage.go:231-240 | refuses any write below the compacted frontier and finds the last write to each reference |
| Store.SettleRecords | epaxos/storage.go:242-268 | checks exactly the last writes and remembers the configurations they made |
| Store.UpdateFrontiers | epaxos/storage.go:302-353 | the loop over frontier updates is the specified fold |
| Batches.AcceptedExactly | epaxos/storage.go:163-441 | a batch is accepted if and only if no tick, configuration, floor, frontier, promise or status falls along it, its claims about configurations contradict nothing, its writes are above compaction, and its checkpoint and compaction are allowed |
| Batches.AcceptedLeaves | epaxos/storage.go:163-441 | an accepted batch leaves its hard state, exactly the configurations known or claimed, the last frontier of each configuration, the highest floor asked for, the last write of each reference unless compacted, and everything else as it was |
| Store.MemoryStorage.ApplyReady | epaxos/storage.go:126-138 | the batch is accepted exactly so and leaves exactly that, or the storage stays as it was; nothing durable goes back |
| Store.MemoryStorage.LoadInstance | epaxos/storage.go:117-123 | a record is readable unless compaction covers it |
| Durability.ApplyMonotone | epaxos/storage.go:163-441 | an accepted batch lowers no status, promise, tick, configuration, floor or frontier and changes no known voters |
| Durability.ReadBack | epaxos/storage.go:425-440 | the last write of an accepted batch is readable, or compacted at once |
| Durability.OthersUntouched | epaxos/storage.go:425-440 | a reference the batch does not write reads as before, or is compacted |
| Durability.RunMonotone | epaxos/storage.go:126-138 | the same from any point of any run to any later one |
| Durability.ExecutedForever | epaxos/storage.go:443-463 | an executed record keeps its sequence number, dependencies and command until compaction |
| Configuration.NewQuorum | epaxos/quorum.go:14-30 | accepts exactly one to seven distinct nonzero voters and returns them in rising order |
| Configuration.ChangeVoters | epaxos/node.go:1991-2021 | accepts exactly the allowed changes and returns the changed voters |
| Configuration.History.ApplyChange | epaxos/node.go:5811-5854 | each base gets at most one successor, one voter apart, and recorded voters never change |
| Configuration.History.Activate | epaxos/bootstrap.go:2901-3009 | activation installs the planned successor under the same rules |
| Configuration.AdjacentQuorumsMeet | epaxos/quorum.go:32-32 | any slow quorums of configurations one voter apart share a voter |
| Configuration.NoGap | epaxos/node.go:5811-5854 | below the newest configuration every known one has its successor |
| Configuration.ValidatePlan | epaxos/bootstrap.go:1195-1232 | a plan passes exactly when it adds the target to the base |
| Fence.Validate | epaxos/bootstrap.go:114-146 | accepts exactly the sound frontiers within the size bounds |
| Fence.Regresses | epaxos/storage.go:631-652 | the joint pass decides whether the next frontier covers the current one |
| Fence.Union | epaxos/bootstrap.go:933-970 | the loop computes the lane-wise union |
| Fence.UnionSound | epaxos/bootstrap.go:933-970 | the union of valid fences is valid but for its size |
| Fence.UnionCovers | epaxos/bootstrap.go:933-970 | no fence regresses from the union |
| Fence.UnionIsLeast | epaxos/bootstrap.go:933-970 | whatever covers every fence covers the union |
| Fence.UnionUnordered | epaxos/bootstrap.go:973-1004 | the order of the fences does not matter |
| Wire.UvarintRoundTrip | epaxos/codec.go:490-501 | a variable-length integer is read back and nothing behind it touched |
| Wire.BlobsRoundTrip | epaxos/codec.go:522-534 | a list of byte strings is read back exactly when all are within the limit |
| Codec.CommandRoundTrip | epaxos/codec.go:457-482 | a command is read back exactly when its footprint is within the decoder's limits |
| Codec.RoundTrip | epaxos/codec.go:103-186 | what the encoder accepts decodes to the same message if and only if its footprint is within the decoder's limits |
| Codec.DecodedEncodes | epaxos/codec.go:216-321 | on every byte string, what decodes has every field within its width and every list within its limit, and encoding it again decodes to the same message |
| Codec.ArenaExact | epaxos/codec.go:323-341 | the evidence arena is exactly as large as what is read into it |
| Codec.ScanExact | epaxos/codec.go:342-447 | on every byte string the pre-scan succeeds exactly when decoding the body does |
| Codec.ScratchChangesNothing | epaxos/codec.go:202-214 | with or without the scratch the same inputs are accepted, with equal results |
| Parser.Reader.Uvarint | epaxos/codec.go:490-501 | the loop under the sticky error flag reads what the specification reads, or fails for good |
| Parser.Reader.Command | epaxos/codec.go:539-585 | the command read in place is the specified one, or the flag is set |
| Parser.Reader.Body | epaxos/codec.go:223-312 | the message body read in place is the specified one, or the flag is set |
| Parser.DecodeMessage | epaxos/codec.go:216-321 | decoding in place is the specified decoding |
| Parser.Writer.EncodeMessage | epaxos/codec.go:103-186 | appends exactly the encoding of an accepted message; a refused one leaves the buffer as it was |
| Parser.Transmit | epaxos/codec.go:103-321 | an accepted message encoded into a buffer and decoded again is the same message, within the footprint limits |

## Left out

- Timing-optimized ordering, logical clocks and the timing domains of records: the protocol is modelled in untimed mode.
- Tick counting, retry periods and recovery scheduling: timers are steps that may happen at any time, so eventual decision is not claimed.
- Recoverable.CanStillDecide: a continuation exists, not every continuation decides; states with a promise in the last two epochs of the ballot space are left out.
- Replica.ExecutionState.TryExecute: sets with a checkpoint entry are left out of the progress claim, because the extra test they pass is arbitrary.
- The conflict search behind local attributes and Try conflicts: what a replica computes locally is an arbitrary input of each step, so the theorems hold for every index content, but nothing relates the attributes of different instances.
- Accepted-target Try evidence and the evidence requests: a refused Try restarts Prepare. The code rebuilds such evidence without the entry kind (epaxos/node.go:3725-3738).
- Groups of one voter, which take a branch of their own (epaxos/node.go:4316-4335): agreement is proved for two to seven voters.
- Record checksums, digests, payload loading and message validation before dispatch: hashes are abstract or absent.
- ClusterRuns.CommitsAgree: a run property, not a condition checked before the run; what can be checked beforehand is the group size, for which `Divergence.AgreementExact` is exact.
- Divergence.OwnerCommits: for replies of all other voters and full knowledge of what is committed, because it is a step of the counterexample.
- Interrupted.TriedCommitLost: for five voters; for the other sizes only the family of covering replies is given.
- Voting.Choose: answers of replicas that only contribute evidence are not counted, because evidence is left out.
- Checkpoint barriers: the extra test a component with a checkpoint entry must pass is an arbitrary predicate; the checkpoint it starts, and checkpoint installs, are not modelled.
- The recovery candidates an execution pass schedules are reported but their timing is not modelled.
- Footprint index queries are modelled for callbacks that do not query the index again; the shared scratch map is not modelled.
- Lane.LaneTree.Set: radix and posting nodes are values that the tree object replaces, not objects updated in place; node reuse and pools are not modelled.
- Lane.LaneTree.WalkDesc: for a callback that takes everything; early stops are modelled for the interval queries only.
- Lane.LaneTree.WalkGlobalDesc: for lanes without an instance zero, which names no instance.
- Lane.PostingSet.Predecessor: a posting set is the same tree with a constant slot, so the bitmap words of a posting leaf are not modelled.
- Folding.LaneIndex.FoldRecord: the given record is the resident one, as the callers pass it; what a mismatched record would leave behind is not modelled.
- ResourceIndex.Index.Post: for one configuration; a posting set is taken out of its entry, changed and put back, so sharing of entries is not modelled.
- Engine.Engine.Apply: the previous record is the one the index holds, as the caller passes it.
- Folding.LaneIndex.Retire: for one lane and given executed records; dropping payloads in the retention tail is not modelled.
- ReadyQueue.Queues.Advance: record loads, bootstrap messages, configuration history and frontier updates are not among the conserved streams; the code's merge does not move record loads either.
- ReadyQueue.Queues.EnqueueRecord: a record that installs a configuration installs a later one than the current, as applying a configuration change ensures.
- Store.MemoryStorage.ApplyReady: bootstrap records, local voter state, checksums and the rest of checkpoint validation only refuse more batches and are left out; execution frontiers are maps, not nested lists, and the separate list of configurations is derived.
- VoteSet.Tally.Add: the width test of attribute votes is made by the caller; the pools that recycle vote sets and the clearing of unused array entries are not modelled.
- RawNode.Instance.Restart: derives the phase from the last durable record; deferred payload loads are not modelled.
- Snapshot installation, checkpoint certification and the JSON membership payloads: they rest on digests and embedder state.
- Fence.Union: digests and signatures of fences are not modelled; a fence is its frontier.
- Codec.RoundTrip: the checksum is any function to 32 bytes; memory aliasing of decoded slices is not modelled, and the pre-scan is modelled on values.
- The key-value example, the simulator and the visualizer.
