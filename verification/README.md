# Agent Control Plane: verified model

Agent Control Plane keeps AI workflows as hash-linked state transitions.  FARD programs (`src/acp`)
define what a transition is; a Go server (`acpd`) stores the results, hands out tasks, and commits
transitions for many clients at once.  This project models both halves in Dafny and proves what they
promise together.  `dafny verify dfyconfig.toml` checks all of it.

The modules follow the repository:

| module | models |
|---|---|
| `Records`, `WorkflowState`, `Policy`, `Receipts`, `Runs`, `Runtime`, `Replays` | states and patches, policy rules, receipts and chain roots, the three ways a state advances, replay |
| `DeltaLog`, `Lineage`, `Gates` | delta logs and their verification, forks and counterfactuals, human approval gates |
| `Tables`, `Store`, `CommitProtocol`, `History`, `Creations`, `Handlers` | the SQL tables, the transactions over them, clients that read, compute and commit in any interleaving, and what that leaves in the store |
| `TaskQueue`, `QueueRuns` | the task table's operations, and their interleaving with the reaper |
| `Anchors`, `Schedules`, `Plans`, `Merging`, `Autonomy`, `RateLimit` | anchor proofs and the two gap finders, plan scheduling in its two implementations, merge and split, autonomy scoring, the token bucket |
| `Lists`, `Numbers` | stable sorting, pigeonhole, integer facts |

How things are represented:

- A digest is a free constructor over the value it hashes, so two digests are equal exactly when the
  hashed values are; collision freedom is built in, not assumed as an axiom.
- FARD code is pure and becomes functions and lemmas.  The Go store, queue, limiter, handlers and
  plan scan update things in place and become classes and methods with loops; each is proved against
  a function of the old state, and the lemmas are about that function.
- Concurrency is a state machine: a schedule says which client takes which step next, and theorems
  hold for every schedule.  A transaction is one step; reading a snapshot, computing from it and
  committing are separate steps, as are the reaper's scan and its work on each row, and the read and
  the write of a failing task.
- SQL uniqueness comes from the primary and unique keys of `acpd/migrations/001_initial.sql`.
- Time is an integer: nanoseconds in the limiter, seconds in the queue.  FARD's `/` is integer
  division.  The limiter's float64 product is a parameter, known up to a relative error.

Where the code and its own descriptions differ, the model follows the code:

- `docs/ARCHITECTURE.md:32` says a refused patch is never applied.  A denied `human_state_edit`
  returns the patched state (`src/acp/runtime.fard:45-53`): `DeniedEditMovesStage` shows it under the
  default policy, and `DenialKeepsLogicalExactlyWhen` says when a denial changes nothing.
  Transitions and artifact commits do keep the promise: `DenialAppliesNoPatch`.
- `verify_delta_chain` is said to prove that no transition was inserted, removed or reordered
  (`src/acp/delta.fard:85-87`).  Reordering does not matter, as it sorts first; of the removals it
  misses a dropped tail and nothing else (`VerifyAcceptsExactlyPrefixes`,
  `RemovalIsCaughtExceptAtTail`); and it misses insertions that claim to start and end at the state
  where they stand (`AdditionPassesExactlyWhen`), whose patches `reconstruct_at` then applies
  (`ForgedDeltaPasses`).
- `extend_tool_allowlist` is said to permit additional tools; as every rule must pass, it narrows:
  `ExtendingAllowlistNarrows`.
- Autonomy counts receipts of the kind "policy_violation"; the kind of a transition is its caller's to
  choose, so an accepted one of that name counts as well: `DeniedStepsAreCounted`.
- Autonomy counts receipts of the kind "policy_violation"; the kind of a transition is its caller's to
  choose, so an accepted one of that name counts as well: `DeniedStepsAreCounted`.
- A violation can raise the autonomy level: `ViolationPromotesExactlyWhen` says when,
  `ViolationPromotes` that it does.
- An override's cap is called a bound; a floor above it wins, and a negative cap is cut to zero:
  `OverrideClampsExactlyWhen`, `OverridesIgnoreBounds`.
- An approved `gate.resume` records the approval before it takes the before-hash of the receipt.  So
  the receipt links to the gated state exactly when the answer was "rejected"
  (`ResumeLinksExactlyWhenRejected`), a delta of an approved resume lacks that approval
  (`ResumeDeltaLacksApproval`), and a log with it fails its check right there
  (`LogBreaksAtApprovedResume`).  The pure `resume` can be repeated, and `ResumesTwiceExactlyWhen`
  says when; what makes it one-shot is the gate row.
- The FARD and Go gap finders differ on some empty ranges and on some ranges far past `max_seq`, and
  the API stores both unchecked (`acpd/internal/api/anchor.go:44-49`):
  `SweepAgreesWithScanExactlyWhen` gives the condition for all ranges, `EmptyRangeBreaksSweep` an
  input.
- `acpd/migrations/001_initial.sql:47` says that a stored hash is the digest of the stored state.  A
  workflow created with a plan stores the hash of the state without it
  (`acpd/internal/api/workflows.go:87-96`): `StoredHashMatchesExactlyWhen` says for which rows the
  promise holds, `PlannedCreationMismatches` reaches one for which it does not.
- A creation that breaks off between its two writes leaves an id that nobody can ever use
  (`OrphanStays`, `CrashedRunOrphans`); nothing else does (`StepOrphansExactlyWhen`), and every other id
  can be used (`UsableExactlyWhen`).
- Completing, failing and dead-lettering a task check no status
  (`acpd/internal/store/tasks.go:138-164`, `281-284`): `CompletedIsUndoneExactlyWhen` says when a
  completed task fails after all, `CompletedTaskFails` that it does.
- Attempts left are used after an expired claim only; a task whose failure is reported is not tried
  again (`acpd/internal/store/tasks.go:148-164`): `ReportedFailureFails`, `SettledStaysSettled`.
- Comparing branches is said to cover the plan (`src/acp/lineage.fard:62-63`); it does not, and of
  artifacts and approvals it compares the number only: `BranchesConvergeExactlyWhen`.
- Attempts left are used after an expired claim only; a task whose failure is reported is not tried
  again (`acpd/internal/store/tasks.go:148-164`): `ReportedFailureFails`, `SettledStaysSettled`.
- A negative attempt limit is stored as it is; such a task is never handed out
  (`FreshTaskIsClaimableExactlyWhen`, `HandoutsAreNumberedAttempts`).
- `acpd/internal/queue/queue.go:22-38` runs one reaper per server, so several servers on one database
  run several.  The queue's other guarantees hold for any number of them; but two can strand a task,
  pending with no attempts left: `OneReaperStrandsNone`, `StrandedExactlyWhen`,
  `TwoReapersStrandATask`.
- The limiter drops the fraction of a token at each request (`acpd/cmd/acpd/main.go:270-275`), so a
  client that keeps a steady pace above its rate is soon admitted no more at all, rather than at its
  rate: `SteadyClientSpends`, `NewClientSpends`; against `SpacedClientThrives`.
- The fork handler hands over the latest snapshot rather than the one at the branch point
  (`acpd/internal/api/branches.go:43`), takes a point of 0 for the current seq, and reads the parent
  outside the transaction, in two queries; the protocol models all this,
  `ReachableForkSucceedsExactlyWhen` says when the branch row and the forked state agree;
  `PlannedForkDisagrees` and `EarlierForkDisagrees` reach forks where they do not.  What is computed
  from the snapshot is modelled as `lineage.fork`.

## Model

| member | source | states |
|---|---|---|
| `History.ReachableStoresAreSound` | acpd/internal/store/commit.go:51-164 | In every store reachable by any interleaving of creating, editing, artifact-committing, forking and crashing clients, each workflow with a first snapshot has receipts and deltas at exactly 1..current_seq and snapshots at 0..current_seq, each row is the outcome of an accepted step from the snapshot before it and names the previous row's digest, and the summary row agrees with the last snapshot; a workflow whose creation is unfinished has its summary row at seq 0 and nothing else |
| `History.NoUpdateIsLost` | acpd/internal/api/workflows.go:173-225 | In every reachable system finishing commits a client's accepted step exactly when the snapshot it started from is still the latest; then the new rows and the summary row record that step at the next seq, otherwise the tables are untouched |
| `History.CommitSummarizes` | acpd/internal/store/commit.go:141-157 | The summary row after a commit: stage, hash and seqs of the new state, the stage empty when that is no text; goal and owner kept |
| `History.HistoryIsLinear` | acpd/internal/store/commit.go:45-273 | The rows of a workflow are those of one sequential run from its first snapshot: of the very operations whose commits succeeded in the schedule, in the order of their commits |
| `History.HistoryIsPermanent` | acpd/internal/store/workflows.go:110-126 | GetSnapshotAtSeq(k) returns the state committed at k, now and after any further steps of any clients |
| `History.StepTouchesOneWorkflow` | acpd/internal/store/commit.go:51-164 | A step changes the rows of at most one workflow, and of an intact one only by adding rows |
| `History.StoredDeltasAreRunDeltas` | acpd/internal/store/commit.go:92-128 | The stored delta rows are the deltas the FARD code would build for that run |
| `History.StoredDeltasReconstruct` | acpd/internal/store/commit.go:92-128 | The stored deltas, in any order, verify as a chain from the first snapshot and rebuild every later snapshot but for the timeline |
| `CommitProtocol.CommitSucceedsExactlyWhenLatest` | acpd/internal/store/commit.go:79-90 | With no comparison of seqs anywhere, the receipts key alone makes a commit succeed exactly when its base is the latest snapshot |
| `CommitProtocol.StepKeepsInv` | acpd/internal/store/commit.go:45-273 | Every step of every client keeps the store invariant |
| `CommitProtocol.ExecuteKeepsInv` | acpd/internal/store/commit.go:45-273 | So does every schedule |
| `CommitProtocol.ForkTouches` | acpd/internal/store/branches.go:125-162 | A fork either fails or adds one fresh intact workflow at seq 0 and leaves every other as it was |
| `CommitProtocol.ForkPointReadsExactlyWhen` | acpd/internal/store/branches.go:109-116 | Reading a fork point of an intact workflow succeeds exactly when it is not negative, and gives the snapshot at the point or the last one before it |
| `CommitProtocol.ForkSucceedsExactlyWhen` | acpd/internal/store/branches.go:125-162 | A fork whose point has been read is committed exactly when the new id is free, from the logical state that was read, with workflow and branch rows as given; its branch row agrees with the lineage in the state exactly when the point's snapshot is the one that was read and its stored hash is the digest of its state |
| `Creations.ReachableForkSucceedsExactlyWhen` | acpd/internal/store/branches.go:108-172 | In every reachable system: success exactly when the new id is free, and agreement of branch row and lineage exactly when the point is the snapshot that was read and is not the first one of a workflow created with a plan |
| `Creations.PlannedForkDisagrees` | acpd/internal/store/branches.go:108-172 | Disagreement is reached: a workflow created with a plan and forked before its first edit |
| `Creations.EarlierForkDisagrees` | acpd/internal/api/branches.go:43-75 | And after every fork, in any reachable system, at a point after the first snapshot and before the latest |
| `Creations.ForkBegins` | acpd/internal/api/branches.go:43-59 | A fork begins from the latest snapshot, a point of 0 meaning that snapshot's seq |
| `Creations.CreationStartsWith` | acpd/internal/api/workflows.go:75-115 | A creation begins with the summary row of its goal and owner at stage "created", and a new state but for its plan |
| `Creations.CreationHashMatchesExactlyWhen` | acpd/internal/api/workflows.go:75-96 | The hash computed for a new workflow is the digest of the state stored for it exactly when the request gave no plan or the empty one |
| `Creations.StoredHashMatchesExactlyWhen` | acpd/migrations/001_initial.sql:45-58 | In every reachable store a snapshot row's state_hash is the digest of its state exactly when its seq is above 0, or the workflow is a fork, or its state has the empty plan |
| `Creations.PlannedCreationMismatches` | acpd/internal/api/workflows.go:87-115 | Such rows are reached: two steps create one for every id and every plan but the empty one |
| `Creations.CrashedCreationIsOrphaned` | acpd/internal/api/workflows.go:98-115 | A creator that crashes between the summary row and the first snapshot leaves an id with the one and without the other, which nobody is about to complete |
| `Creations.CrashedRunOrphans` | acpd/internal/api/workflows.go:98-115 | Such ids are reached by two steps, for every id |
| `Creations.StepOrphansExactlyWhen` | acpd/internal/api/workflows.go:98-115 | A step orphans an id exactly by crashing the client that is creating it |
| `Creations.OrphanStays` | acpd/internal/api/workflows.go:98-115 | Such an id stays unusable whatever any clients do: it has no snapshot to read, edit or fork, and can be neither created anew nor forked to |
| `Creations.UsableExactlyWhen` | acpd/internal/api/workflows.go:98-115 | From any reachable system some run leaves an id with a snapshot exactly when it is not orphaned |
| `History.StepRecordsArtifacts` | acpd/internal/store/commit.go:177-185 | A step adds an artifact row exactly when it commits that artifact for the first time, under the committing workflow, and changes no other |
| `History.ArtifactKeepsItsWorkflow` | acpd/internal/store/commit.go:177-185 | An artifact belongs for good to the workflow that committed it first, over every run |
| `CommitProtocol.LatestIsHeld` | acpd/internal/store/workflows.go:92-108 | The latest snapshot of a workflow is the one at current_seq |
| `Tables.LatestOfRange` | acpd/internal/store/workflows.go:92-126 | Over contiguous rows, ORDER BY seq DESC LIMIT 1 finds the last row, and the bounded form the row at the bound |
| `Store.DB.CreateWorkflow` | acpd/internal/store/workflows.go:29-40 | Inserts the summary row, or fails on a used id and changes nothing |
| `Store.DB.SaveSnapshot` | acpd/internal/store/workflows.go:85-90 | Inserts or replaces one snapshot row of an existing workflow |
| `Store.DB.CommitTransition` | acpd/internal/store/commit.go:51-164 | Receipt, delta, snapshot and summary row in one transaction: all of them, or an error and the tables as before |
| `Store.DB.CommitArtifactRow` | acpd/internal/store/commit.go:177-273 | The same with the artifact row, which is insert-or-ignore |
| `Store.DB.CommitFork` | acpd/internal/store/branches.go:108-172 | The parent is read first; then new workflow, snapshot and branch rows, or an error and the tables as before |
| `Store.DB.InsertFork` | acpd/internal/store/branches.go:118-162 | The transaction of CommitFork, given what was read: all three rows or none |
| `Handlers.EditState` | acpd/internal/api/workflows.go:158-234 | Read, compute, commit: the reply and the tables are those of the protocol step on the latest snapshot; a denial commits nothing |
| `Handlers.CommitArtifact` | acpd/internal/api/workflows.go:331-390 | The same for an artifact |
| `Handlers.UninterruptedHandlersDo` | acpd/internal/api/workflows.go:158-234 | In any reachable store an undisturbed handler finds nothing exactly without a snapshot, changes nothing when the policy denies the step from the latest state, and otherwise commits that very step |
| `Handlers.UninterruptedHandlersCommit` | acpd/internal/api/workflows.go:173-225 | A handler that nobody interferes with never sees a failed commit, in any reachable store |
| `QueueRuns.ReachableQueuesAreSound` | acpd/internal/store/tasks.go:45-302 | In every queue that any interleaving reaches, with any number of reapers: dead_lettered holds exactly for tasks in the dead-letter table, those are never pending or claimed, and attempts stay within the limit exactly when that is not negative |
| `QueueRuns.OneReaperStrandsNone` | acpd/internal/queue/queue.go:19-38 | With one reaper, in any interleaving, a pending task has an attempt left and can be claimed exactly when its limit is not negative |
| `QueueRuns.HandoutsAreNumberedAttempts` | acpd/internal/store/tasks.go:95-118 | Over every run, with any number of reapers, a task is handed out under attempt numbers 1, 2, ..., attempt_count, once each, so at most max_attempts times |
| `QueueRuns.DeadStaysDead` | acpd/internal/store/tasks.go:266-300 | In any run, with any number of reapers, a dead-lettered task is never pending, claimed or handed out again |
| `QueueRuns.RetryLowersMeasure` | acpd/internal/store/tasks.go:95-118 | A claim or requeue, by any reaper, strictly lowers twice the attempts left plus one if claimed; no step raises it |
| `QueueRuns.RetryingTerminates` | acpd/internal/store/tasks.go:266-300 | No run claims and requeues a task more often than that measure |
| `QueueRuns.StepKeepsInv` | acpd/internal/store/tasks.go:226-302 | Every step of workers and any number of reapers keeps the queue invariant |
| `QueueRuns.StepMoves` | acpd/internal/store/tasks.go:70-197 | How one step may change one task: attempts rise only with a claim of a pending task, a task becomes pending only from claimed, dead-lettering is not undone |
| `QueueRuns.StepKeepsDescription` | acpd/internal/store/tasks.go:45-302 | No step of anyone changes whose a task is, its lane, priority, limits or creation time |
| `QueueRuns.SettledStaysSettled` | acpd/internal/store/tasks.go:138-164 | In any run a completed or failed task is never pending, claimed or handed out again, even with attempts left |
| `QueueRuns.ReportedFailureFails` | acpd/internal/store/tasks.go:148-164 | Writing a failure read with attempts left fails the task, whatever its status by then, with the reason, and leaves the dead-letter table and all other tasks alone |
| `QueueRuns.CompletedIsUndoneExactlyWhen` | acpd/internal/store/tasks.go:138-197 | A completed task leaves that status exactly by a failure read before (unless it is out of attempts and already dead-lettered) or by reaping a row that found it out of attempts; and then it is failed |
| `QueueRuns.CompletedTaskFails` | acpd/internal/store/tasks.go:148-164 | Such runs exist for every task: claim, read for failure, complete, write the failure |
| `QueueRuns.StrandedExactlyWhen` | acpd/internal/store/tasks.go:266-300 | With any number of reapers, a step strands a task exactly when it reaps a row that still counts an attempt left, of a task claimed meanwhile for the last time |
| `QueueRuns.TwoReapersStrandATask` | acpd/internal/queue/queue.go:19-38 | From the empty queue: two reapers scan the same expired claim, one requeues it, it is claimed for the last time, the other requeues it again; it is pending with no attempts left and no agent can claim it |
| `TaskQueue.RepeatedClaimsDrainInOrder` | acpd/internal/store/tasks.go:70-125 | Repeated claims by one agent return its eligible tasks, each once, and nothing more exactly when all were returned; of any two, the earlier is in the better lane (critical, then any other, then background), or in the same and of higher priority, or of the same and no younger |
| `TaskQueue.TaskStore.EnqueueTask` | acpd/internal/store/tasks.go:45-64 | Inserts a pending task with its defaults, or fails on a used id |
| `TaskQueue.TaskStore.ClaimNextTask` | acpd/internal/store/tasks.go:70-125 | Hands out an eligible task than which none waits in a better lane, or in the same lane with a higher priority, or with the same and longer; counts the attempt and sets claimant and times; none exactly when none is eligible |
| `TaskQueue.UrgencyDecides` | acpd/internal/store/tasks.go:79-87 | The ORDER BY of a claim is that order of lane, priority and age, and nothing else |
| `TaskQueue.TaskStore.HeartbeatTask` | acpd/internal/store/tasks.go:129-136 | Only the claimant's heartbeat on a claimed task changes anything |
| `TaskQueue.HeartbeatPostponesExpiry` | acpd/internal/store/tasks.go:127-136 | After the claimant's heartbeat the task expires exactly one full timeout later; anyone else's heartbeat changes nothing |
| `TaskQueue.ClaimExpiresExactlyWhen` | acpd/internal/store/tasks.go:227-236 | A claim that no heartbeat followed expires exactly one timeout after it was made |
| `TaskQueue.TaskStore.CompleteTask` | acpd/internal/store/tasks.go:138-146 | Completes the task whatever its status |
| `TaskQueue.TaskStore.FailTask` | acpd/internal/store/tasks.go:148-164 | Fails the task, or dead-letters it when its attempts are used up |
| `TaskQueue.TaskStore.DeadLetterTask` | acpd/internal/store/tasks.go:166-197 | Copies the task to the dead-letter table and marks it, or fails and changes nothing when it is missing or already there |
| `TaskQueue.TaskStore.ScanExpired` | acpd/internal/store/tasks.go:227-264 | The reaper's scan lists each expired claim once, with its counts as they are |
| `TaskQueue.TaskStore.ReapTask` | acpd/internal/store/tasks.go:266-300 | One scanned row: dead-letter without looking again, or requeue if still claimed |
| `TaskQueue.TaskStore.RequeueExpiredTasksWithDeadLetter` | acpd/internal/store/tasks.go:226-302 | An undisturbed pass requeues or dead-letters exactly the expired claims, touches nothing else, keeps older dead-letter rows, and counts right |
| `TaskQueue.ReapingIsOnePass` | acpd/internal/store/tasks.go:266-300 | The reaper's rows one by one, in any order, amount to that one pass |
| `TaskQueue.FreshTaskIsClaimableExactlyWhen` | acpd/internal/store/tasks.go:50-63 | A new task can be claimed exactly when its attempt limit is not negative |
| `DeltaLog.VerifyAcceptsExactlyPrefixes` | src/acp/delta.fard:88-102 | Any list drawn from a run's deltas, in any order, verifies exactly when it is an arrangement of the run's first k |
| `DeltaLog.RemovalIsCaughtExceptAtTail` | src/acp/delta.fard:85-102 | Removing one delta is caught exactly when it is not the last |
| `DeltaLog.AdditionPassesExactlyWhen` | src/acp/delta.fard:85-102 | A delta added anywhere in any arrangement of a run's deltas goes unnoticed exactly when its before-hash is that of the state where its seq sorts and its after-hash is the same, or it comes last |
| `DeltaLog.ForgedDeltaPasses` | src/acp/delta.fard:81-102 | At every point of every run a delta with any patches passes, if it claims the state there as both its ends; where the run was accepted so far, reconstruct_at then gives that state with those patches applied |
| `DeltaLog.ReconstructionMatchesLiveExactlyWhen` | src/acp/delta.fard:81-83 | From any arrangement of a run's deltas, reconstruct_at gives the live state after k steps, timeline aside, exactly when the first k steps were accepted |
| `DeltaLog.DeltaFoldMatchesLiveExactlyWhen` | src/acp/delta.fard:64-78 | apply_deltas over all of a run's deltas, in any arrangement, gives its final seq, and its final state, timeline aside, exactly when every step was accepted |
| `DeltaLog.LiveReplayAndDeltasAgree` | src/acp/runtime.fard:12-59 | The live edit run, its replay through transition and its delta fold agree on everything but the timeline |
| `DeltaLog.EditMirrorsTransition` | src/acp/runtime.fard:43-59 | human_state_edit and transition give the same verdict on states that differ in timeline only, and on acceptance the same state but for it |
| `DeltaLog.DeltaMirrorsStep` | src/acp/delta.fard:30-54 | The delta of an accepted transition, edit or artifact commit does what the step did, timeline aside |
| `DeltaLog.DeltaNamesStep` | src/acp/delta.fard:30-54 | The delta of a step names its actor, its kind whatever the verdict, the patches asked for or the artifact, and the receipt |
| `DeltaLog.DeltaDoes` | src/acp/delta.fard:64-78 | Applying a delta: its patches field by field if it has any, otherwise its first artifact if it has one; and one more seq |
| `DeltaLog.SortingRestoresChain` | src/acp/delta.fard:56-58 | Sorting by seq brings any arrangement of a chain's first deltas back into order |
| `DeltaLog.AddedSortsAt` | src/acp/delta.fard:56-58 | Where a delta added to a chain's log sorts: before those of later seqs, after those of earlier ones, and in log order with one of the same seq |
| `DeltaLog.NextLinkDecides` | src/acp/delta.fard:85-102 | After a chain, the check passes the next delta exactly when it starts from the chain's last state; otherwise it stops right there, whatever the order of the log and whatever comes later |
| `Replays.ReplayIsLongestAcceptedPrefix` | src/acp/replay.fard:6-15 | A replay's receipts, step, failed_at and error are exactly those of the longest accepted prefix; its state is the run of that prefix, plus the denial record if it was broken off |
| `Replays.ReplayNamesEvents` | src/acp/replay.fard:6-15 | Each receipt of a replay names its event's kind and input, the replay's actor, policy and tool; and a replay broken off reports the policy's refusals of the next event, the first of which its state records |
| `Replays.ReplayComposes` | src/acp/replay.fard:6-15 | Replaying e1 ++ e2 is replaying e2 from where e1 ended, receipts concatenated, the chain root folded on, a failure in e1 final |
| `Replays.ReceiptVerifies` | src/acp/receipt.fard:38-61 | Every receipt of a replay verifies against the states the run passes through |
| `Replays.ReceiptsLink` | src/acp/receipt.fard:19-36 | Each receipt starts from the state hash the previous one ended in, from the initial state to the final one |
| `Replays.CompareReplayIsExact` | src/acp/replay.fard:21-37 | Two replays compare equal exactly when both finish in the same state with the same receipt digests; each of the three flags is exact by itself |
| `Runtime.StepIsReceipted` | src/acp/runtime.fard:12-59 | Accepted or denied, a step follows the policy's verdict on its own input, adds one to seq and one event to the timeline, and its receipt verifies against the states before and after; what else the receipt says is in the next row |
| `Runtime.ReceiptNamesStep` | src/acp/receipt.fard:19-36 | Accepted or denied, a receipt names the actor, the kind ("policy_violation" when denied), the input, the versions and their digests, and the artifact exactly for an accepted artifact commit |
| `Runtime.AcceptedStepLeaves` | src/acp/runtime.fard:12-59 | The whole state after an accepted step: patched field by field, or with the artifact appended; one more seq; and the event logged, with its contents |
| `Runtime.DeniedStepLeaves` | src/acp/runtime.fard:12-59 | The whole state after a denied step: the first refusal among the violations and in the timeline, one more seq, and after an edit the patched fields all the same |
| `Runtime.DenialAppliesNoPatch` | docs/ARCHITECTURE.md:30-32 | A denied transition or artifact commit changes the log only |
| `Runtime.DeniedEditIsStillPatched` | src/acp/runtime.fard:45-53 | A denied edit has the logical content of the patched state |
| `Runtime.DenialKeepsLogicalExactlyWhen` | src/acp/runtime.fard:12-59 | A denied step leaves the logical state alone exactly when it is no edit, or its patches add no approval and give each field last the value it has |
| `Runtime.EditNeedsOperator` | src/acp/policy.fard:93-103 | Under the default policy an edit is accepted exactly from operators |
| `Runtime.AnyoneCommitsArtifacts` | src/acp/runtime.fard:27-41 | Under the default policy anyone commits artifacts |
| `Runtime.DeniedEditMovesStage` | src/acp/runtime.fard:45-53 | Under the default policy anyone who is not an operator sets the stage to any value by an edit that is denied |
| `Policy.OkMeansAllPass` | src/acp/policy.fard:62-67 | A policy accepts exactly when every rule passes; the next rows say when each kind of rule does |
| `Policy.ToolRulePassesExactlyWhen` | src/acp/policy.fard:23-28 | A tool rule passes exactly the listed tools, no tool counting as the empty name; a refusal has its code, rule, severity and data |
| `Policy.SpendRulePassesExactlyWhen` | src/acp/policy.fard:17-35 | A spend rule passes exactly an amount up to its limit, or any with an approved approval of its kind; no amount counts as zero |
| `Policy.RoleRulePassesExactlyWhen` | src/acp/policy.fard:37-44 | A role rule passes exactly actors in the role, and tools outside the list it applies to |
| `Policy.BoundaryRulePassesExactlyWhen` | src/acp/policy.fard:46-52 | A boundary rule passes exactly what sends no blocked classification to a destination blocked for it; defaults are public and internal |
| `Policy.UnknownRulePassesNothing` | src/acp/policy.fard:54-60 | A rule of another kind refuses everything |
| `Policy.DefaultPolicyAcceptsExactlyWhen` | src/acp/policy.fard:93-103 | The default policy accepts exactly: one of seven tools; the tool "none" from operators only; over 5000 with a manager's approval only; and neither personal data nor customer secrets to a public model |
| `Policy.OnlyApprovalsMatter` | src/acp/policy.fard:17-60 | Of the whole state, a verdict depends on the approvals only |
| `Policy.MergeIsConjunction` | src/acp/policy.fard:69-78 | A merged policy accepts exactly what both accept |
| `Policy.MergeListsBoth` | src/acp/policy.fard:69-78 | A merged policy lists the base's refusals, then the overlay's, under both versions |
| `Policy.ExtendingAllowlistNarrows` | src/acp/policy.fard:86-91 | An extended allowlist accepts exactly what the base accepts among the extra tools |
| `Receipts.ChainRootIsInjective` | src/acp/receipt.fard:69-76 | Two receipt lists of any lengths have equal chain roots exactly when their digest lists are equal |
| `Receipts.ChainRootLinks` | src/acp/receipt.fard:63-76 | The root starts at the digest of "genesis" and each receipt's digest is linked onto it |
| `Receipts.FoldChainSplits` | src/acp/receipt.fard:63-76 | The chain over two parts is the second folded onto the first |
| `WorkflowState.NewWorkflowIs` | src/acp/state.fard:6-22 | A new workflow has the id, goal and owner given, stage "created", seq 0, the empty plan, and nothing else |
| `WorkflowState.ApplyPatchesConcat` | src/acp/state.fard:47-49 | Patching with two lists in turn is patching with their concatenation |
| `WorkflowState.PatchesActByField` | src/acp/state.fard:33-49 | Patching in sequence is patching field by field: the last value wins, approvals add up, variables are set key by key, paths do not interfere |
| `WorkflowState.InertExactlyWhenLogicalStays` | src/acp/state.fard:33-49 | Patches leave the logical state as it is exactly when they add no approval and the last value they give each field is the one it has |
| `WorkflowState.PatchesKeepIdentity` | src/acp/state.fard:33-49 | No patch list reaches id, seq, artifacts, violations, timeline or lineage, and approvals only grow |
| `Lineage.CounterfactualConverges` | src/acp/lineage.fard:24-96 | Replaying the same events on a fork and its parent halts at the same step with the same logical outcome; under different ids the chain roots differ exactly when at least one event committed |
| `Lineage.ForkThenRestConverges` | src/acp/lineage.fard:39-46 | Forking a numbered log at any point and replaying the rest reaches the outcome of the whole log; a denial before the point refuses the fork |
| `Lineage.ForkIs` | src/acp/lineage.fard:9-35 | A fork is the parent under the new id at seq 0, timeline and violations emptied, with a branch record of parent, point, reason and the digest of the parent's state |
| `Lineage.EventsUpToSplits` | src/acp/lineage.fard:39-46 | Of any log the fork replays, in order, exactly the events that carry a seq up to the point |
| `Lineage.BranchesConvergeExactlyWhen` | src/acp/lineage.fard:66-96 | Branches are reported converged exactly when stages, variables and final decisions are equal and artifacts and approvals are as many; and independent exactly when their receipt digests differ |
| `Lineage.ReplayRespectsLogical` | src/acp/lineage.fard:49-60 | Replays from logically equal states halt at the same step for the same violations |
| `Lineage.ChainsDifferAcrossWorkflows` | src/acp/lineage.fard:76-96 | Replays with equally many receipts in workflows of different ids have different chain roots exactly when there is a receipt |
| `Gates.ApprovedGateEqualsDirectPatching` | src/acp/gate.fard:30-87 | Opening a gate and resuming it approved leaves the state that the gated patches give directly, but for one approval, the stage "gated" when no patch sets one, and the two gate variables; seq grows by two |
| `Gates.ResumeAnswers` | src/acp/gate.fard:55-87 | Which answer a resume gets, each exactly when: no gate, not a gate, expired, wrong token, rejected, blocked, resumed |
| `Gates.RejectionLeaves` | src/acp/gate.fard:64-70 | A rejected gate applies none of its patches: the state is the gated one with stage "gated_rejected", the rejection on record, one more seq and event, and the violation if the policy denies the one who rejects |
| `Gates.ApprovalLeaves` | src/acp/gate.fard:72-86 | An approved resume records who approved, and adds one approval, with the kind of the gate, status "approved", the approver and the digest of the gate |
| `Gates.AnswerIsReceipted` | src/acp/gate.fard:64-86 | The receipt of an answer names the one who answers, the policy's version and the verdict, and ends in the state left |
| `Gates.ResumeLinksExactlyWhenRejected` | src/acp/gate.fard:64-86 | The receipt of an answered gate starts from the gated state exactly when the answer was "rejected"; `RejectionLeaves` and `ApprovalLeaves` say what is left |
| `Gates.ResumeDeltaLacksApproval` | src/acp/gate.fard:72-86 | The delta of an approved resume, applied to the gated state, rebuilds the resumed state less exactly the one approval |
| `Gates.LogBreaksAtApprovedResume` | src/acp/delta.fard:85-102 | A delta log that chains up to the gated state passes the check at the answer's delta when that was "rejected" and fails right there when it was not, in any order and with anything later |
| `Gates.ResumeSucceedsExactlyWhen` | src/acp/gate.fard:55-87 | Under the default policy a fresh gate resumes exactly when the deadline allows a step, the token matches, the answer is not "rejected", the approver is an operator and the gated input passes with the approval added |
| `Gates.OpeningNeedsOperator` | src/acp/gate.fard:39-45 | Under the default policy a gate opens exactly for operators; the state then holds the gate when the variables were a record, and a fault otherwise |
| `Gates.OpenedGateCarries` | src/acp/gate.fard:9-46 | A gate carries what was asked for, by whom, its deadline and its token |
| `Gates.OpeningIsReceipted` | src/acp/gate.fard:39-46 | The receipt of an opened gate names the one who opens it and ends in the state left; a refusal is under the policy's version |
| `Gates.ApprovalsOnlyHelp` | src/acp/policy.fard:17-35 | More approvals never turn an accepted input into a refused one |
| `Gates.ResumesTwiceExactlyWhen` | src/acp/gate.fard:55-87 | A gate that resumed once resumes again with the same token exactly when the deadline allows two steps and no gated patch touches the gate variable |
| `Gates.OperatorResumesTwice` | src/acp/gate.fard:55-87 | Such gates exist: under the default policy operators make any passing input with a deadline of two or more, and no patch on the gate variable, resume twice |
| `Anchors.FreshProofPinsReceipts` | src/acp/anchor.fard:26-102 | A fresh proof verifies against exactly the lists with the anchored digests |
| `Anchors.AnchorStopsAtGrowth` | src/acp/anchor.fard:58-102 | It stops verifying as soon as the list has grown |
| `Anchors.PayloadIsTamperEvident` | src/acp/anchor.fard:20-52 | A payload names what it was made for, and with any field changed and the digest kept it no longer verifies |
| `Anchors.ProofIsTamperEvident` | src/acp/anchor.fard:58-102 | So does a proof its payload, reference and maker |
| `Anchors.FreshProofAnchorsItsRange` | src/acp/anchor.fard:133-138 | A fresh proof anchors exactly the seqs of its range |
| `Anchors.GetAnchorGaps` | acpd/internal/store/anchors.go:63-96 | The bitmap scan returns the maximal uncovered runs of 1..max_seq in order |
| `Anchors.SweepIsGapListExactlyWhen` | src/acp/anchor.fard:142-155 | For all ranges, overlapping, unsorted, empty or out of bounds: the cursor sweep returns the maximal uncovered runs of 1..max_seq exactly when (1) at each start, the first range listed there ends no earlier than it starts, or starts at 1 or less or right after a covered number, or ends right before its start where that is covered or max_seq + 1; and (2) nothing above max_seq and below the last covered number is uncovered |
| `Anchors.GapListIsUnique` | src/acp/anchor.fard:140-155 | There is only one such list |
| `Anchors.SweepAgreesWithScanExactlyWhen` | src/acp/anchor.fard:142-155 | The two implementations return the same list exactly under that condition, for all ranges |
| `Anchors.SweepAgreesWithScan` | acpd/internal/store/anchors.go:63-96 | So they agree whenever no range ends before it starts and every range starts at max_seq + 1 or earlier |
| `Anchors.ReportNamesUnanchoredExactlyWhen` | src/acp/anchor.fard:133-155 | gap_report lists the maximal runs of seqs in 1..max_seq that are not anchored exactly under that condition on the log; then it names exactly those seqs and is empty exactly when all are anchored |
| `Anchors.EmptyRangeBreaksSweep` | src/acp/anchor.fard:145-150 | A range with from > to makes the sweep report overlapping gaps |
| `Plans.StoreReadyNodes` | acpd/internal/store/plan.go:183-213 | The done set, blocker map and scan return, in order, the pending nodes each of whose blockers names some done node |
| `Plans.DoneSet` | acpd/internal/store/plan.go:184-190 | The done set holds exactly the ids of done nodes |
| `Plans.BlockerMap` | acpd/internal/store/plan.go:191-195 | The blocker map lists the sources of each node's edges in order |
| `Plans.ReadySetsAgree` | src/acp/plan.fard:19-26 | With unique ids ready_nodes and readyNodes are equal; without, the FARD set is contained in the Go one |
| `Plans.MarkCompletes` | src/acp/plan.fard:28-31 | Marking a pending node done completes it and nothing else |
| `Plans.MarkingSetsStatus` | src/acp/plan.fard:28-31 | Marking sets the status of the nodes of one id, to any status, and changes nothing else |
| `Plans.MarkingTerminates` | src/acp/plan.fard:19-31 | Each marking of a ready node takes another off the pending ones, so no run outlasts them |
| `Plans.NoNodeBeforeItsPredecessors` | src/acp/plan.fard:19-31 | No node is completed before all its predecessors |
| `Plans.FinishedPlanIsCompleteExactlyWhen` | src/acp/plan.fard:19-31 | A run with nothing ready left has completed every node exactly when every blocker exists, pending or done, and the pending part has no cycle |
| `Plans.MarkingCanFinish` | src/acp/plan.fard:19-31 | Every run extends to one with nothing ready left |
| `RateLimit.RateLimiter.Allow` | acpd/cmd/acpd/main.go:261-279 | Admits exactly when the refilled and capped bucket has a token, takes exactly one for it, and touches no other bucket, for whichever float64 product of elapsed time and rate |
| `RateLimit.RateLimiter.Cleanup` | acpd/cmd/acpd/main.go:243-254 | Drops exactly the buckets untouched for over a minute |
| `RateLimit.EarnedBounds` | acpd/cmd/acpd/main.go:270-271 | A product within a relative error of 2^-50, truncated, earns at most the exact tokens and that error, and a full bucket after a minute |
| `RateLimit.ExactIsAccurate` | acpd/cmd/acpd/main.go:270-271 | The exact product meets the accuracy asked of the float64 one |
| `RateLimit.AdmissionsAreBounded` | acpd/cmd/acpd/main.go:268-279 | In every run one address is admitted between t1 and t2 at most rps + rps * (t2 - t1) times, up to the relative error of the float64 product, and without it while rps times the window in nanoseconds is below 2^50 |
| `RateLimit.EvictionNeverMatters` | acpd/cmd/acpd/main.go:242-254 | Evicting idle buckets, whenever it happens, never changes a verdict, rounding included |
| `RateLimit.SteadyClientSpends` | acpd/cmd/acpd/main.go:263-279 | While an address's requests come so soon that each earns no whole token, in any run exactly its first n are admitted, n being the tokens it had |
| `RateLimit.NewClientSpends` | acpd/cmd/acpd/main.go:263-279 | So of the requests of a new client that keeps doing so exactly the first rps are admitted |
| `RateLimit.SteadyClientStarves` | acpd/cmd/acpd/main.go:268-279 | So however long such a run is, it is admitted at most as often as it had tokens |
| `RateLimit.NewSteadyClientStarves` | acpd/cmd/acpd/main.go:263-279 | And a new such client at most rps times |
| `RateLimit.ShortGapEarnsNothing` | acpd/cmd/acpd/main.go:270-271 | A gap below 1/rps, less the relative error, earns nothing |
| `RateLimit.SpacedClientThrives` | acpd/cmd/acpd/main.go:268-279 | While an address leaves gaps of 1/rps and the relative error, in any run every one of its requests is admitted |
| `RateLimit.BudgetPays` | acpd/cmd/acpd/main.go:268-279 | No step adds to what a client could still draw, and an admission takes a whole token from it |
| `Autonomy.GoodReceiptsNeverDemote` | src/acp/autonomy.fard:58-106 | Further non-violation receipts of the actor never lower its level, for any artifacts and edit count |
| `Autonomy.GoodReceiptsNeverRevoke` | src/acp/autonomy.fard:138-163 | So they never turn an accepted input into a refused one |
| `Autonomy.HigherLevelAcceptsMore` | src/acp/autonomy.fard:29-51 | Whatever a level accepts, every higher level accepts |
| `Autonomy.LevelReachedExactlyWhen` | src/acp/autonomy.fard:73-91 | What it takes to reach each of the five levels, exactly, in violations, receipts and rates |
| `Autonomy.LevelsGrant` | src/acp/autonomy.fard:29-51 | The tools and the spend limit of each level |
| `Autonomy.ScoreMeasures` | src/acp/autonomy.fard:58-106 | A score counts the actor's own receipts and the violations among them, takes pass rate, mean confidence and intervention rate rounded down, and grants what the level gives |
| `Autonomy.DeniedStepsAreCounted` | src/acp/autonomy.fard:58-106 | Over any run, what counts against an actor is exactly its denied steps, and its accepted transitions whose caller names their kind "policy_violation" |
| `Autonomy.AutonomyAcceptsExactlyWhen` | src/acp/autonomy.fard:138-163 | Accepted exactly when the policy's other rules pass, the tool is one of the record's, and the amount is within the record's limit or has a manager's approval |
| `Autonomy.AutonomyVersionNames` | src/acp/autonomy.fard:138-163 | The evaluated version names policy, actor and level |
| `Autonomy.ViolationPromotesExactlyWhen` | src/acp/autonomy.fard:73-91 | One more violation raises the level exactly for a clean record one short of a band and held back by its evidence |
| `Autonomy.ViolationPromotes` | src/acp/autonomy.fard:73-91 | Such records exist: with no artifacts a violation promotes an actor after 9, 24 or 49 clean receipts |
| `Autonomy.OverrideGives` | src/acp/autonomy.fard:113-133 | The level an override gives: lowered to the cap, raised to the floor, brought among the five; nothing else in the record but its grants changes |
| `Autonomy.OverrideClampsExactlyWhen` | src/acp/autonomy.fard:108-133 | An override stays within the five levels; exactly when its cap and its floor are respected |
| `Autonomy.OverridesIgnoreBounds` | src/acp/autonomy.fard:108-133 | Such overrides exist for every scored record: a floor above the cap, a cap below the lowest level, a floor above the top level |
| `Merging.SplitUndoesMergeExactlyWhen` | src/acp/merge.fard:193-202 | Under distinct dot-free names and with any cross edges, merging and splitting out gives every plan back in order exactly when each edge leaves a node of its own plan and no cross edge leaves a node of any plan |
| `Merging.SplitOfClosed` | src/acp/merge.fard:193-202 | Split out of closed plans, a plan comes back in order, followed by the cross edges that leave its nodes |
| `Merging.ConflictsExactlyWhenIdsRepeat` | src/acp/merge.fard:37-60 | Conflicts are found exactly when some id occurs twice |
| `Merging.ConflictsName` | src/acp/merge.fard:37-60 | Each conflict is reported once, with exactly the frameworks whose plans have a node of its id, two nodes at least |
| `Merging.MergedIdsAreUnique` | src/acp/merge.fard:81-107 | Merged node ids are unique whenever each plan's own are |
| `Merging.MergingTags` | src/acp/merge.fard:81-107 | Merging tags each node and edge with its framework, and with a conflict anywhere prefixes ids by it, the node keeping its own |
| `Merging.MergedTimelineIsNumbered` | src/acp/merge.fard:110-119 | The merged timeline holds every event in input order, numbered 1..n |
| `Merging.MergedArtifactsAreFirsts` | src/acp/merge.fard:121-129 | The merged artifacts are the first occurrences by digest, in order |
| `Merging.DanglingEdgeIsLost` | src/acp/merge.fard:193-202 | An edge that leaves no node of its plan is lost by the split |

## Left out

- HTTP routing, authentication, JSON encoding, the subprocess bridge to FARD, telemetry, CLI, demo: plumbing around what is modelled.
- SHA-256, canonical JSON and HMAC: digests are symbolic.
- SQL dialects and placeholder rebinding: the SQLite meaning is modelled; ties in an ORDER BY are the database's free choice.
- Concurrent transactions inside the database: each transaction is one step, as serializable isolation gives.
- Row timestamps (`created_at`, `updated_at`, `completed_at`) that no modelled query reads, and task input and output texts.
- `CommitGateResolution`: both of its paths break the commit invariant.  The approved one stores a delta with no patches and no before-hash (`acpd/internal/store/commit.go:316-324`), from which neither chain nor state can be rebuilt; the not-OK one moves the summary row with no receipt or snapshot (`acpd/internal/store/commit.go:288-296`).
- `MarkPlanNodeDone`: its snapshot row at seq + 1 holds a state whose own seq is unchanged (`acpd/internal/store/plan.go:157-164`), which also breaks it; marking itself is modelled on the plan.
- Gate-open persistence in the demo, which stores no receipt.
- CommitProtocol.ForkSucceedsExactlyWhen: is about `lineage.fork`, not about the bridge program of the endpoint, which wipes plan, variables and approvals and drops the final decision (`acpd/fard/bridge/fork.fard:11-24`).
- Creations.ReachableForkSucceedsExactlyWhen: is about `lineage.fork` likewise; with the bridge program the branch row and the forked state never agree, as the state it forks from lacks the key `final_decision` and so has the digest of no stored state.
- The HTTP complete and fail handlers, which do not persist a task's status: the store methods are modelled.
- `RequeueExpiredTasks`: an older form of the reaper, with no dead-lettering.
- `EnqueuePlanTasks` and `riskToLane`: a loop of enqueues and a table.
- QueueRuns.OneReaperStrandsNone: requires a single reaper, because with two it is false.
- RateLimit.RateLimiter.Allow: does not model the float64 format itself, only that elapsed seconds times the rate come out within a relative error of 2^-50; the health and readiness paths, which skip the limiter, are not part of it.
- Faults of the FARD interpreter, which is not part of this model: setting a key of a non-record gives the value `Fault`, and a `var.gate` that is not a gate gives `NotAGate`.
- Gates.ResumesTwiceExactlyWhen: rests on digests being symbolic, by which no input can hold a gate made over itself; for SHA-256 that is not impossible, only infeasible.
- FARD's `list.sort_by` is taken to be stable, and its integer division to round as Dafny's does; the two can only differ on negative numerators.
- The `results` list of a policy evaluation, actors without a roles field, and rules with missing fields.
- `ReplayEvent` carries only the fields replay and fork read; `replay_from_checkpoint` is another name for `replay`.
- Runs are of well-formed events: an artifact is known by its digest, a client by its number.
- The merged chain root and provenance summary of a merge.
- Anchor backends, `AnchorSummary` counts, the append-only anchor log.
- Interop adapters, compliance reports, control-plane wrappers, artifact shelves, dashboards: field mapping and aggregation.
