# Protocols and kernels of the distributed package

A Dafny model of the stateful protocols behind the distributed package, and proofs of what they promise.

* **RPC agent** (`FutureTable`, `AgentObject`, `RpcSystem`, `Termination`, `TerminationLimits`, `TimeoutPoller`, `RpcDeadlines`).
  The agent's two maps are a class whose methods are its critical sections. All agents of a job, with their pools,
  listeners and watchdogs, are a step relation over one record per request: where the request, its answer and its
  future are. The counters of the termination detector are proved equal to what they stand for in every reachable
  state; soundness of the detector follows for an inconsistent cut of snapshots.
* **Gradient reducer** (`Flat`, `Buckets`, `ReducerState`, `ReducerSteps`, `ReducerObject`, `ReducerLayout`, `RepeatedMarks`, `Averaging`,
  `BackwardPass`, `SearchedPass`, `BucketAssignment`, `BucketSizes`, `BucketSync`, `Rebuild`, `UnusedSearch`). The reducer is a class with flat buffers, pending counters and a launch
  cursor. Greedy bucketing, the agreement on rank 0's buckets and the graph search are loops proved against
  specifications; the end result is a whole iteration, under any order of hooks, that averages every parameter.
* **File store** (`Codec`, `FileLog`, `FileSteps`, `FileStoreObject`, `FileStoreRuns`, `FileStoreAnswers`). A shared file of bytes with its log of records as
  abstraction, one object per process, and any interleaving of any number of processes.
* **TCP store daemon** (`TCPStoreSpec`, `TCPStoreObject`, `TCPStoreWaits`, `TCPStoreAnswers`, `TCPWire`). The handlers as methods tied to functions
  on the daemon's tables, `size_t` wrap-around included; what a waiting client may rely on; what every query is answered, as a function of the run before it; the wire format.
* **Gloo queue** (`GlooQueue`, `GlooRuns`). Workers, queue, barriers, weak pointers and destructor as steps.
* **Group creation** (`StoreKeys`, `GroupBarrier`, `BarrierReuse`, `GroupRanks`) and **all-to-all** (`AllToAll`, `Exchange`).

Results that are not what a reader of the code might expect:

* `sync` waits for the pool and then reads the counters. A message can arrive and be handled in between, so idleness at the
  wait does not make the detector sound; idleness at the receive snapshot is what is needed, and it is exact.
* A request that times out in the send queue and then fails to serialize is booked as received and never as sent, and so is a
  request to oneself whose answer fails to serialize after it timed out. At rest the counters then differ, in these cases only; and
  a later message can make them agree while it is still on its way, so with timeouts the detector can be fooled.
* A key already present when a WAIT must wait has to be written again before the client is released.
* A client that gives up on a WAIT and sends another unbalances the daemon's books: it is released too early, and a
  counter wraps.
* The reducer's counters detect too many marks of a bucket replica, not a repeated mark of one variable.
* `new_group` accepts repeated ranks; backend rank and rank map then disagree.
* Initializing again over the same store starts from the same barrier keys. If all had checked in with the first of them, nobody
  ever passes it again; if only some had, the barrier lets somebody through too early and can hold the rest.
* The sum of split sizes is kept in 32 bits and lengths are multiplied in 64, so oversized splits can be accepted and laid out wrongly.

Arithmetic on gradients is over the reals. Deadlines and clock readings are natural numbers and the clock is monotone. Where the source
computes in fixed width and it matters, the width is written out.

## Model

| member | source | states |
|---|---|---|
| `FutureTable.InsertKeepsSync` | csrc/c10d/distributed/rpc/process_group_agent.cpp:340-357 | registering a request under a fresh id keeps `futures_` and `futureTimeouts_` mutually inverse, with no empty deadline |
| `FutureTable.NotifyMeaning` | csrc/c10d/distributed/rpc/process_group_agent.cpp:350-357 | "first deadline and alone in its set" holds exactly when the new deadline precedes every deadline on record |
| `FutureTable.RemoveKeepsSync` | csrc/c10d/distributed/rpc/process_group_agent.cpp:578-593 | forgetting a request, together with a deadline it leaves empty, keeps the maps mutually inverse |
| `FutureTable.ExpireKeepsSync` | csrc/c10d/distributed/rpc/process_group_agent.cpp:825-850 | forgetting everything due keeps the maps mutually inverse |
| `FutureTable.EmptyTogether` | csrc/c10d/distributed/rpc/process_group_agent.cpp:167-170 | one map is empty exactly when the other is, so `join` waits for both |
| `AgentObject.ProcessGroupAgent.Register` | csrc/c10d/distributed/rpc/process_group_agent.cpp:322-362 | `send` enters a fresh id in both maps, with no deadline for a zero timeout, and says to notify exactly when the new deadline precedes all others |
| `AgentObject.ProcessGroupAgent.TakeFuture` | csrc/c10d/distributed/rpc/process_group_agent.cpp:566-594 | a response or a local error takes its future out of both maps once, or finds it gone; the internal assertion holds |
| `AgentObject.ProcessGroupAgent.ProcessTimedOutFutures` | csrc/c10d/distributed/rpc/process_group_agent.cpp:825-850 | what remains is the table without all that was due at the last clock reading; every removed entry is handed over exactly once; the internal assertion holds |
| `AgentObject.ProcessGroupAgent.DrainDeadline` | csrc/c10d/distributed/rpc/process_group_agent.cpp:836-846 | one deadline goes with all its requests and no others |
| `AgentObject.ProcessGroupAgent.DrainIds` | csrc/c10d/distributed/rpc/process_group_agent.cpp:837-845 | every id listed under the deadline is found, removed and handed over once |
| `AgentObject.ProcessGroupAgent.CountTimedOut` | csrc/c10d/distributed/rpc/process_group_agent.cpp:806-821 | each timed-out future without an error gets one, and its destination's receive counter one more; a future that has an error is skipped |
| `RpcSystem.InitInv` | csrc/c10d/distributed/rpc/process_group_agent.cpp:241-246 | the starting state of the agents satisfies the invariant |
| `RpcSystem.EffectsSensible` | csrc/c10d/distributed/rpc/process_group_agent.cpp:390-683 | each step on one message, failures to serialize included, moves exactly the counters its stage calls for, takes the future exactly when it stops being pending and completes it exactly when it gets an outcome |
| `RpcSystem.NextInv` | csrc/c10d/distributed/rpc/process_group_agent.cpp:290-850 | every step of every thread on every rank keeps: maps in sync and holding exactly the pending futures, each future completed at most once, every counter equal to the messages it stands for |
| `Termination.FuturesCompletedAtMostOnce` | csrc/c10d/distributed/rpc/process_group_agent.cpp:565-683 | in every state of every run the maps of every agent are in sync and no future has been completed twice |
| `Termination.CountersMean` | csrc/c10d/distributed/rpc/process_group_agent.cpp:611-641 | in every reachable state a send counter is the number of requests and answers this rank has begun to send the other, and a receive counter the number of requests handled to the end and of answers handled to the end or written off for a timeout |
| `Termination.CountGap` | csrc/c10d/distributed/rpc/process_group_agent.cpp:611-620 | in every reachable state, per channel: sent plus receives booked for answers not yet sent equals received plus requests sent but unhandled plus answers sent but neither handled nor written off |
| `Termination.MatchingCountsExactly` | csrc/c10d/distributed/rpc/process_group_agent.cpp:806-820 | with timeouts, equal counters leave exactly as many messages outstanding as answers were written off before being sent |
| `Termination.CountsAgreeAtRest` | csrc/c10d/distributed/rpc/process_group_agent.cpp:571-577 | once everything has arrived the counters of a channel agree if and only if no request timed out and failed to serialize, itself or (to oneself) in its answer |
| `Termination.IdleRanksOnlyReceive` | csrc/c10d/distributed/rpc/process_group_agent.h:187-208 | without timeouts an idle rank can act only by taking a message off the wire |
| `Termination.ArrivingMeansGap` | csrc/c10d/distributed/rpc/process_group_agent.h:187-208 | a message on its way shows as a strict excess of sent over received |
| `Termination.SnapshottedRankCannotAct` | csrc/c10d/distributed/rpc/process_group_agent.cpp:174-239 | with matching counts, a rank past its receive snapshot cannot act again |
| `Termination.TerminationDetectionIsSound` | csrc/c10d/distributed/rpc/process_group_agent.cpp:174-239 | in every timeout-free run whose pools are idle at their receive snapshots, matching pairwise counts mean that once all ranks have snapshotted nothing is in flight, nobody is active and no step is ever taken again; snapshots at different times, channels in any order |
| `Termination.QuiescentIsFinal` | csrc/c10d/distributed/rpc/process_group_agent.h:187-208 | from a quiescent state no step is possible |
| `Termination.ActiveCanAct` | csrc/c10d/distributed/rpc/process_group_agent.cpp:611-641 | a rank whose pool holds a task can take a step of its own |
| `Termination.NobodyCanActIffIdleAtSnapshot` | csrc/c10d/distributed/rpc/process_group_agent.cpp:232-238 | with matching counts, no rank can take a step at its receive snapshot or at any later time if and only if every pool was idle at its snapshot |
| `Termination.HasPendingMessage` | csrc/c10d/distributed/rpc/process_group_agent.cpp:206-226 | answers false exactly when the gathered counters agree for every ordered pair of ranks |
| `Termination.GatheredMatch` | csrc/c10d/distributed/rpc/process_group_agent.cpp:189-208 | the gathered snapshots agree for every pair exactly if the counters they were taken from do |
| `Termination.SyncRound` | csrc/c10d/distributed/rpc/process_group_agent.cpp:228-239 | a round of `sync` that finds nothing pending, with pools idle at the snapshots, means the job is quiescent once all have snapshotted |
| `TerminationLimits.RaceIsQuietRun` | csrc/c10d/distributed/rpc/process_group_agent.cpp:228-239 | the two-rank run used by the next two rows is a timeout-free run from a reachable state |
| `TerminationLimits.IdleBeforeSnapshotIsNotEnough` | csrc/c10d/distributed/rpc/process_group_agent.cpp:232-238 | a run in which the pools are idle when waited for, yet the counters read afterwards all match while an answer is still to be sent: the wait and the snapshot are two moments |
| `TerminationLimits.SendCountersFirstIsUnsound` | csrc/c10d/distributed/rpc/process_group_agent.cpp:178-179 | read in the other order, the counters can match with idle pools and a message on the wire |
| `TerminationLimits.GhostReceiveMasksAMessage` | csrc/c10d/distributed/rpc/process_group_agent.cpp:485-507 | a run from the start in which a request times out, is booked and then fails to serialize; at rest the counters differ, and with the next message the other way on the wire they all match |
| `TerminationLimits.UnsentAnswerIsAGhostToo` | csrc/c10d/distributed/rpc/process_group_agent.cpp:452-467 | a run of one rank whose request to itself times out before its answer fails to serialize: two receives for one message |
| `TimeoutPoller.NextKeeps` | csrc/c10d/distributed/rpc/process_group_agent.cpp:758-800 | every step keeps: a sleeping watchdog has a target no later than the first deadline, or a notification is pending or owed by a sender |
| `TimeoutPoller.RunKeeps` | csrc/c10d/distributed/rpc/process_group_agent.cpp:758-800 | so does every run |
| `TimeoutPoller.NoDeadlineSleptPast` | csrc/c10d/distributed/rpc/process_group_agent.cpp:339-362 | in any run an overdue request has been removed, or the watchdog is awake, due to wake by the clock, or about to be notified |
| `TimeoutPoller.ElapseTimesOutExactlyTheDue` | csrc/c10d/distributed/rpc/process_group_agent.cpp:791-804 | in any run, when the sleep ends at its target with the watchdog enabled and no deadline before that target, afterwards no request is due and every other one is there with its old entry; otherwise no request is touched |
| `TimeoutPoller.OtherStepsOnRequests` | csrc/c10d/distributed/rpc/process_group_agent.cpp:339-362 | in any run every other step: a registration adds its request, a removal drops one, nothing else touches them; a notification is owed exactly for a request due before all others and for a shut-down |
| `TimeoutPoller.SleepsToTheFirstDeadline` | csrc/c10d/distributed/rpc/process_group_agent.cpp:758-800 | the watchdog sleeps to the least pending deadline, for ever without one, leaves when disabled, and when woken looks again exactly if it is disabled or a request is due earlier |
| `TimeoutPoller.OverdueGetsTimedOut` | csrc/c10d/distributed/rpc/process_group_agent.cpp:758-804 | from every reachable state with the watchdog enabled, an overdue request is at most four steps of the watchdog from being timed out |
| `RpcDeadlines.IssueRecords` | csrc/c10d/distributed/rpc/process_group_agent.cpp:322-362 | in any run a request gets a name of its own, is queued, and is recorded with the deadline, destination and timeout it was given |
| `RpcDeadlines.TimesOutExactlyWhenDue` | csrc/c10d/distributed/rpc/process_group_agent.cpp:825-850 | in any run a pending request is failed by the first timeout sweep of its own agent not before its deadline; earlier sweeps and those of others leave it as it was, and no other step makes the watchdog take it |
| `Flat.PiecesDisjoint` | csrc/c10d/distributed/c10d/reducer.cpp:930-942 | the views of one flat buffer lie inside it and do not overlap |
| `Buckets.ReadyIff` | csrc/c10d/distributed/c10d/reducer.cpp:675-681 | the pending counter of a bucket is zero exactly when every replica has marked every variable of it |
| `Buckets.MarkCounts` | csrc/c10d/distributed/c10d/reducer.cpp:675-681 | a first mark counts down exactly, never below zero |
| `Buckets.CopyHolds` | csrc/c10d/distributed/c10d/reducer.cpp:404-468 | copying one gradient in sets that view and disturbs no other |
| `ReducerState.MarkedSound` | csrc/c10d/distributed/c10d/reducer.cpp:601-681 | a first mark keeps locators, layout, counters and recorded contents in agreement across all buckets |
| `ReducerObject.Reducer.constructor` | csrc/c10d/distributed/c10d/reducer.cpp:58-250 | a reducer over a partition starts with locators inverse to its bucket lists, no division factor, and clear used maps that are not yet reduced |
| `ReducerObject.Reducer.PrepareForBackward` | csrc/c10d/distributed/c10d/reducer.cpp:996-1016 | a pass starts with every counter full, nothing launched and nothing recorded |
| `ReducerObject.Reducer.MarkBucketReady` | csrc/c10d/distributed/c10d/reducer.cpp:714-759 | launches the maximal run of ready buckets from the next one on, in order, each once |
| `ReducerObject.Reducer.Book` | csrc/c10d/distributed/c10d/reducer.cpp:669-711 | counts the mark and keeps the launched buckets equal to the maximal ready prefix, with the finalizer queued exactly when nothing is left to launch |
| `ReducerObject.Reducer.LaunchReady` | csrc/c10d/distributed/c10d/reducer.cpp:675-710 | launches if the bucket became ready, and queues the finalizer exactly if that was the last |
| `ReducerObject.Reducer.QueueFinalizer` | csrc/c10d/distributed/c10d/reducer.cpp:683-710 | queues the finalizer once more and, when unused parameters are searched for, hands a copy of the used maps to their allreduce |
| `ReducerObject.Reducer.MarkVariableReady` | csrc/c10d/distributed/c10d/reducer.cpp:601-711 | a first mark records, element by element, the gradient over the division factor (zeros without one); a mark on a complete bucket replica is rejected, as is a missing sparse gradient, with no bucket, record or gradient changed (a pass then still has to be finalized, and in the second case the division factor is settled) |
| `ReducerObject.Reducer.MarkFresh` | csrc/c10d/distributed/c10d/reducer.cpp:601-711 | a first mark fails exactly for a sparse variable without a gradient; otherwise the variable goes on record with its gradient over the division factor and nothing else moves |
| `ReducerObject.Reducer.MarkUnused` | csrc/c10d/distributed/c10d/reducer.cpp:585-595 | the first hook of a pass marks exactly the unused variables, each recorded with the gradient it has over the division factor |
| `ReducerObject.Reducer.AutogradHook` | csrc/c10d/distributed/c10d/reducer.cpp:555-599 | in or out of a pass it notes local use; out of one it does nothing else; in one it records its variable, after the unused ones on the first call, with their gradients over the division factor |
| `ReducerObject.Reducer.GloballyUnused` | csrc/c10d/distributed/c10d/reducer.cpp:1104-1140 | whoever triggers the wait first, the answer is whether no process used the variable |
| `ReducerObject.Reducer.FinalizeBucketDense` | csrc/c10d/distributed/c10d/reducer.cpp:1093-1190 | every variable of the bucket gets its piece of the reduced buffer unless no process used it; other gradients are untouched |
| `ReducerObject.Reducer.FinalizeReplica` | csrc/c10d/distributed/c10d/reducer.cpp:1096-1188 | the same for one replica |
| `ReducerObject.Reducer.FinalizeBucket` | csrc/c10d/distributed/c10d/reducer.cpp:1209-1244 | the same for one bucket, dense or sparse |
| `ReducerObject.Reducer.FinalizeBuckets` | csrc/c10d/distributed/c10d/reducer.cpp:1208-1244 | all buckets in turn, each with its work present |
| `ReducerObject.Reducer.ResetUsed` | csrc/c10d/distributed/c10d/reducer.cpp:1246-1262 | the used maps are zeroed and their reduction has been waited for |
| `ReducerObject.Reducer.FinalizeBackward` | csrc/c10d/distributed/c10d/reducer.cpp:1192-1263 | the internal assertions hold, every gradient is settled, the used maps end zeroed with their reduction waited for, and the reducer is prepared for another pass |
| `ReducerSteps.LaunchesDependOnMarksOnly` | csrc/c10d/distributed/c10d/reducer.cpp:714-759 | two passes that marked the same variables in any two orders have launched the same buckets: the maximal fully marked prefix |
| `ReducerSteps.FinalizerWhenAllMarked` | csrc/c10d/distributed/c10d/reducer.cpp:683-710 | everything is launched, and so the finalizer queued, exactly when every replica has marked every variable |
| `RepeatedMarks.CountersCountMarks` | csrc/c10d/distributed/c10d/reducer.cpp:621-681 | marks are accepted exactly as long as there have been no more than the bucket has variables |
| `RepeatedMarks.CompleteIffNoRepeats` | csrc/c10d/distributed/c10d/reducer.cpp:621-652 | a bucket replica that counts as complete really is exactly if no variable was marked twice; from then on every mark is rejected |
| `RepeatedMarks.RepeatedMarkPassesUnnoticed` | csrc/c10d/distributed/c10d/reducer.cpp:621-652 | two marks of one of two variables complete the bucket without the other |
| `ReducerLayout.FillLocators` | csrc/c10d/distributed/c10d/reducer.cpp:913-922 | every index in the lists is sent to a place where it occurs |
| `ReducerLayout.LocatorsInvert` | csrc/c10d/distributed/c10d/reducer.cpp:913-922 | on a partition the locators are the inverse of the bucket lists |
| `ReducerLayout.CheckBucket` | csrc/c10d/distributed/c10d/reducer.cpp:795-856 | accepts a bucket exactly if it is non-empty, in range, of one dtype and device, and alone if sparse |
| `ReducerLayout.LayOut` | csrc/c10d/distributed/c10d/reducer.cpp:813-866 | offsets tile the flat buffer |
| `ReducerLayout.InitializeBuckets` | csrc/c10d/distributed/c10d/reducer.cpp:785-926 | succeeds exactly if every bucket is acceptable; on a partition the tables locate every variable |
| `ReducerLayout.ResetAccounting` | csrc/c10d/distributed/c10d/reducer.cpp:1000-1005 | every counter of every bucket is full again; layout, contents and work stay as they were |
| `Averaging.TotalOfSlices` | csrc/c10d/distributed/c10d/reducer.cpp:404-415 | a slice of the element-wise sum is the sum of the slices |
| `Averaging.ReducedPieceIsPerParameterSum` | csrc/c10d/distributed/c10d/reducer.cpp:1065-1090 | in the reduced flat buffer the view of each variable is the sum over contributors of the gradient each marked it with over its division factor |
| `Averaging.UsedByMeaning` | csrc/c10d/distributed/c10d/reducer.cpp:559-565 | the reduced used map is zero exactly where no rank used the variable |
| `Averaging.TotalIsSum` | csrc/c10d/distributed/c10d/reducer.cpp:404-415 | the reduced view of a variable has its size, and each element is that plain sum over contributors |
| `Averaging.FinalGradientIsTheAverage` | csrc/c10d/distributed/c10d/reducer.cpp:1192-1244 | after finalizing, every element of a globally used dense gradient is the real sum, over the contributors, of the element of the gradient each had over its division factor, and of 0 where one had none; a globally unused gradient is what it was; the hypotheses are what `Backward` and `FinalizeBackward` promise |
| `BackwardPass.HookStep` | csrc/c10d/distributed/c10d/reducer.cpp:555-599 | one arriving gradient and its hook: everything marked so far is on record with its share, whatever the order |
| `BackwardPass.Backward` | csrc/c10d/distributed/c10d/reducer.cpp:555-759 | a pass under any order of hooks: fails exactly if an unused sparse variable has no gradient; otherwise every bucket is launched with every variable's gradient over the division factor in its place and the finalizer is queued |
| `BackwardPass.Iteration` | csrc/c10d/distributed/c10d/reducer.cpp:990-1263 | pass, allreduces and finalize among all contributors: every element of every dense gradient is the sum over contributors of the element over the division factor, or the gradient is the one of before if nobody used the variable; this process contributes the gradients that arrived, else those it had, over the factor already set, else the joined count, else the world size; it counts as having used what it was called for; the next iteration can begin, with clear used maps |
| `BackwardPass.HookedIsAveraged` | csrc/c10d/distributed/c10d/reducer.cpp:1104-1144 | a dense variable whose hook came in this process always ends, element by element, with the sum over all contributors |
| `BackwardPass.UsedNowhereIffNoHook` | csrc/c10d/distributed/c10d/reducer.cpp:559-565 | with used maps clear before the pass, a variable counts as unused exactly if nowhere a hook came for it |
| `SearchedPass.SearchCompletesPass` | csrc/c10d/distributed/c10d/reducer.cpp:1018-1050 | hooks exactly for the variables whose accumulators the graph reaches, with what the search found unused, make the complete pass that `Backward` needs |
| `BucketAssignment.FillAllIsGreedyCut` | csrc/c10d/distributed/c10d/reducer.cpp:1578-1600 | per key: the k-th bucket closed reaches the k-th (or last) limit with its last tensor and not before, order is kept, the rest stays below its limit |
| `BucketAssignment.GreedyCutIsUnique` | csrc/c10d/distributed/c10d/reducer.cpp:1578-1600 | and no other cut does |
| `BucketAssignment.SparseAlone` | csrc/c10d/distributed/c10d/reducer.cpp:1570-1576 | tensors expecting sparse gradients get a bucket each, in order |
| `BucketAssignment.AssignedMeaning` | csrc/c10d/distributed/c10d/reducer.cpp:1560-1608 | the buckets of a key are the greedy cut of its tensors, and the sparse ones singletons |
| `BucketAssignment.AssignedIsPartition` | csrc/c10d/distributed/c10d/reducer.cpp:1560-1608 | every tensor is in exactly one bucket, as often as it was given |
| `BucketAssignment.SortKeepsClass` | csrc/c10d/distributed/c10d/reducer.cpp:1617-1626 | any sort by least index keeps the order of the buckets within a key |
| `BucketAssignment.SortedStaysAssigned` | csrc/c10d/distributed/c10d/reducer.cpp:1617-1626 | so the sorted list is still the greedy assignment |
| `BucketAssignment.Accumulate` | csrc/c10d/distributed/c10d/reducer.cpp:1560-1608 | the loop with its per-key tables, and the leftover loop in any order, give within every key exactly the greedy buckets, all uniform and non-empty, those closed while filling first and in the order of closing |
| `BucketSizes.ComputeBucketAssignmentBySize` | csrc/c10d/distributed/c10d/reducer.cpp:1527-1629 | refused exactly for no tensors, a sparse tensor or a wrong number of flags. Otherwise every tensor is in exactly one returned list; a flagged tensor is alone; a list holds tensors of one key, in order; the k-th list of a key holds at least the k-th (or last) limit in bytes of its tensors and less without its last tensor, unless it is the last of its key, when it may stay below. Lists come by first index, or, if an order was given, those filled by their last tensor and then what was left over |
| `BucketSizes.MadeIsBySize` | csrc/c10d/distributed/c10d/reducer.cpp:1560-1629 | any list of buckets that is within every key the greedy one has these properties, read off the arguments |
| `BucketSync.PackIndices` | csrc/c10d/distributed/c10d/reducer.cpp:1307-1318 | the first tensor holds the flat indices and the bucket count, with the cursor on the count |
| `BucketSync.PackSizes` | csrc/c10d/distributed/c10d/reducer.cpp:1328-1339 | the second tensor has the received count; a rank without buckets throws exactly if that count is not zero |
| `BucketSync.Unpack` | csrc/c10d/distributed/c10d/reducer.cpp:1348-1361 | unflattening gives back the nested lists, each index as the `int` tensor carried it |
| `BucketSync.SyncBucketIndices` | csrc/c10d/distributed/c10d/reducer.cpp:1291-1362 | with equal totals, every rank ends with one and the same nested lists, cut as rank 0 cut them, however many buckets it had itself; a rank without buckets throws |
| `BucketSync.SyncedIsRootsIff` | csrc/c10d/distributed/c10d/reducer.cpp:1312-1361 | those are exactly rank 0's lists if and only if every index is below 2^31 or is the image of a negative `int` |
| `BucketSync.CarriedExactly` | csrc/c10d/distributed/c10d/reducer.cpp:1312-1361 | what becomes of an index is the one size_t with its low 32 bits that an int can stand for |
| `BucketSync.AssignmentIsPartition` | csrc/c10d/distributed/c10d/reducer.cpp:1380-1411 | an assignment computed for parameters 0 to n-1, in any order, is a partition of them |
| `Rebuild.ComputedIsAccepted` | csrc/c10d/distributed/c10d/reducer.cpp:1383-1410 | every bucket of a computed assignment is one `initialize_buckets` accepts |
| `Rebuild.RebuildBuckets` | csrc/c10d/distributed/c10d/reducer.cpp:1364-1411 | assign, agree and lay out on any rank, whatever order its gradients came in: the buckets are rank 0's, a partition of the parameters, with locators inverse to them |
| `Rebuild.SameListsSameLayout` | csrc/c10d/distributed/c10d/reducer.cpp:813-866 | ranks with the same lists have the same offsets and lengths |
| `UnusedSearch.Expand` | csrc/c10d/distributed/c10d/reducer.cpp:1028-1037 | after expanding a node everything met is still accounted for |
| `UnusedSearch.Traverse` | csrc/c10d/distributed/c10d/reducer.cpp:1026-1038 | ends on every graph, cyclic or shared, and has seen exactly what a walk of at least one edge from a seed reaches |
| `UnusedSearch.FindUnused` | csrc/c10d/distributed/c10d/reducer.cpp:1018-1050 | the unused parameters are those of the unreached accumulators, each accumulator taken once |
| `UnusedSearch.UnusedIffUnreached` | csrc/c10d/distributed/c10d/reducer.cpp:1040-1050 | a parameter is in that list exactly if its accumulator is reached by no walk of at least one edge |
| `Codec.LERoundTrip` | csrc/c10d/distributed/c10d/FileStore.cpp:212-239 | a length written as fixed-width bytes reads back |
| `Codec.ChunkRoundTrip` | csrc/c10d/distributed/c10d/FileStore.cpp:212-239 | wherever a length-prefixed string or vector was written, reading there gives it back and stops right behind it |
| `Codec.DecimalRoundTrip` | csrc/c10d/distributed/c10d/FileStore.cpp:338-348 | printing and parsing an `int64_t` is the identity |
| `Codec.DigitsMeaning` | csrc/c10d/distributed/c10d/FileStore.cpp:346-353 | a printed number has the value of its decimal digits and no leading zero |
| `Codec.ParsedExamples` | csrc/c10d/distributed/c10d/FileStore.cpp:338-343 | leading space, a sign and trailing text are accepted as `stoll` does |
| `Codec.NoDigitNoNumber` | csrc/c10d/distributed/c10d/FileStore.cpp:338-343 | text without a digit where the number should begin is refused |
| `FileLog.RecordRoundTrip` | csrc/c10d/distributed/c10d/FileStore.cpp:212-239 | a written key and value read back wherever the record stands |
| `FileLog.ReplayDomain` | csrc/c10d/distributed/c10d/FileStore.cpp:245-263 | a key is in the replay exactly if some record wrote it |
| `FileLog.CoherentAtEnd` | csrc/c10d/distributed/c10d/FileStore.cpp:245-263 | a coherent cache that has read everything is the replay of the log |
| `FileLog.CoherentRead` | csrc/c10d/distributed/c10d/FileStore.cpp:245-263 | reading one more record keeps a cache coherent, whatever it held at that key |
| `FileLog.CoherentAppend` | csrc/c10d/distributed/c10d/FileStore.cpp:336-348 | a record appended by anybody keeps every cache coherent, even with anything planted at its key |
| `FileStoreObject.SharedFile.Append` | csrc/c10d/distributed/c10d/FileStore.cpp:296-298 | the file is the encoding of the log with one more record |
| `FileStoreObject.FileStore.Refresh` | csrc/c10d/distributed/c10d/FileStore.cpp:245-263 | never reads past the end; the position becomes the end of the file and the cache the replay of the log |
| `FileStoreObject.FileStore.Set` | csrc/c10d/distributed/c10d/FileStore.cpp:291-299 | appends one record; the process's position and cache stay coherent |
| `FileStoreObject.FileStore.Get` | csrc/c10d/distributed/c10d/FileStore.cpp:301-328 | one round of the loop answers what a full replay gives the key, also where it skips the refresh |
| `FileStoreObject.FileStore.AddHelper` | csrc/c10d/distributed/c10d/FileStore.cpp:330-350 | returns and appends the replayed value plus the argument, whoever wrote it; throws with nothing written exactly where the value is not a number; position and cache afterwards are given |
| `FileStoreObject.FileStore.Check` | csrc/c10d/distributed/c10d/FileStore.cpp:369-383 | true exactly if every key has been written |
| `FileStoreObject.FileStore.GetNumKeys` | csrc/c10d/distributed/c10d/FileStore.cpp:357-363 | the number of keys in the replay, whatever was planted in the cache |
| `FileStoreObject.FileStore.Destroy` | csrc/c10d/distributed/c10d/FileStore.cpp:280-289 | removes the file exactly if the cleanup count has reached the number of workers |
| `FileStoreRuns.EveryCacheIsCoherent` | csrc/c10d/distributed/c10d/FileStore.cpp:291-383 | in every interleaving the log holds only records that read back, and every process stands on a record boundary with a cache that agrees with its prefix at every key the unread records do not write |
| `FileStoreRuns.StoredIsSum` | csrc/c10d/distributed/c10d/FileStore.cpp:330-355 | a key nobody sets holds the sum of everything added to it |
| `FileStoreRuns.AddReturnsRunningSum` | csrc/c10d/distributed/c10d/FileStore.cpp:330-355 | each add on such a key returns the running sum in log order, whichever processes add |
| `FileStoreRuns.CleanupIsPrivate` | csrc/c10d/distributed/c10d/FileStore.cpp:272-283 | no set or add of a user key can touch the cleanup count |
| `FileStoreRuns.ExactlyOneRemovesTheFile` | csrc/c10d/distributed/c10d/FileStore.cpp:280-289 | once all n workers have run their destructors exactly one has seen n, and it was the last |
| `FileStoreAnswers.UserKeysApart` | csrc/c10d/distributed/c10d/FileStore.cpp:272-283 | different keys of users are different keys in the file, and none is the cleanup key |
| `FileStoreAnswers.WrittenIffTouched` | csrc/c10d/distributed/c10d/FileStore.cpp:371-383 | in every interleaving a key is found exactly if somebody has set it or added to it |
| `FileStoreAnswers.GetAnswersTheLastSet` | csrc/c10d/distributed/c10d/FileStore.cpp:300-328 | `get` finds the value last set under the key, whatever was done to other keys since |
| `FileStoreAnswers.AddAnswersTheRunningSum` | csrc/c10d/distributed/c10d/FileStore.cpp:330-355 | an add to a key nobody sets returns the sum of everything added to that key, this add included |
| `FileStoreAnswers.AddGoesOnFromASet` | csrc/c10d/distributed/c10d/FileStore.cpp:336-343 | after a set an add goes on from the number set, from 0 for an empty value, and fails without writing exactly where the value is no number |
| `FileStoreAnswers.NumberOfKeys` | csrc/c10d/distributed/c10d/FileStore.cpp:357-363 | `getNumKeys` counts the keys users set or added to, and one more once a destructor has run |
| `TCPStoreObject.TCPStoreDaemon.WakeupWaitingClients` | csrc/c10d/distributed/c10d/TCPStore.cpp:142-153 | the loop does to counters, lists and output what the specification says, wrapping included |
| `TCPStoreObject.TCPStoreDaemon.SetHandler` | csrc/c10d/distributed/c10d/TCPStore.cpp:155-160 | stores, then wakes |
| `TCPStoreObject.TCPStoreDaemon.AddHandler` | csrc/c10d/distributed/c10d/TCPStore.cpp:162-177 | stores the sum, answers, then wakes, as the tables of `TCPStoreAnswers` do; throws before any change exactly where a stored value is not a number |
| `TCPStoreObject.TCPStoreDaemon.CheckKeys` | csrc/c10d/distributed/c10d/TCPStore.cpp:228-232 | true exactly if all keys are present |
| `TCPStoreObject.TCPStoreDaemon.WaitHandler` | csrc/c10d/distributed/c10d/TCPStore.cpp:210-226 | answers at once if all keys are present, and otherwise enlists the socket under every key, present ones too |
| `TCPStoreObject.TCPStoreDaemon.ServeQuery` | csrc/c10d/distributed/c10d/TCPStore.cpp:112-208 | dispatches each query to its effect; fails, changing nothing, exactly where a handler throws |
| `TCPStoreObject.TCPStoreDaemon.ForgetSocket` | csrc/c10d/distributed/c10d/TCPStore.cpp:77-98 | erases the socket from every list and counter and leaves no empty list |
| `TCPStoreObject.EraseAll` | csrc/c10d/distributed/c10d/TCPStore.cpp:79-85 | erasing while iterating removes exactly the closed socket |
| `TCPStoreObject.TCPStoreDaemon.QueryFds` | csrc/c10d/distributed/c10d/TCPStore.cpp:55-105 | every ready descriptor is queried once and in order, failed ones are dropped, and the socket list stays aligned with the poll set |
| `TCPStoreWaits.WakeMeaning` | csrc/c10d/distributed/c10d/TCPStore.cpp:142-153 | one key's list takes from a socket's counter as often as it stands there and answers it once, if that brings it to zero |
| `TCPStoreWaits.OwedAfterServe` | csrc/c10d/distributed/c10d/TCPStore.cpp:112-226 | one query of anybody's changes what a socket is owed as a write, a WAIT or a closed connection should, and releases it exactly then |
| `TCPStoreWaits.OwedWhileSilent` | csrc/c10d/distributed/c10d/TCPStore.cpp:142-226 | a silent socket stays owed exactly the keys not written since |
| `TCPStoreWaits.ReleasedExactlyWhenWritten` | csrc/c10d/distributed/c10d/TCPStore.cpp:142-226 | a client that waits while owed nothing and keeps quiet gets one STOP_WAITING if all keys were present or every one has been written since, and none otherwise, whatever all others send |
| `TCPStoreWaits.StartBalanced` | csrc/c10d/distributed/c10d/TCPStore.cpp:29-34 | the empty tables are balanced |
| `TCPStoreWaits.BalancedIff` | csrc/c10d/distributed/c10d/TCPStore.cpp:210-226 | every counter equals the socket's number of list entries after a query if and only if the query is not a blocking WAIT from a socket that still waits |
| `TCPStoreWaits.CountersNeverWrap` | csrc/c10d/distributed/c10d/TCPStore.cpp:142-153 | in balanced tables no counter is decremented at zero |
| `TCPStoreWaits.SecondWaitIsReleasedEarly` | csrc/c10d/distributed/c10d/TCPStore.cpp:508-538 | a client that gives up on one WAIT and sends another is released by the first one's key, and its counter then wraps |
| `TCPStoreWaits.SweepIsARun` | csrc/c10d/distributed/c10d/TCPStore.cpp:55-105 | erasing from the poll set while walking it skips nobody and serves nobody twice |
| `TCPStoreAnswers.LiveMeaning` | csrc/c10d/distributed/c10d/TCPStore.cpp:155-193 | a key counts as live exactly if some SET or ADD of the run wrote it and no later DELETE removed it |
| `TCPStoreAnswers.StoreHoldsTheLive` | csrc/c10d/distributed/c10d/TCPStore.cpp:155-193 | after every run from the empty store the keys stored are exactly the live ones |
| `TCPStoreAnswers.AddAnswersTheRunningSum` | csrc/c10d/distributed/c10d/TCPStore.cpp:162-177 | on a key that a run neither SETs nor DELETEs every ADD answers its sender, before any release, the sum of all ADDs so far, whoever sent them |
| `TCPStoreAnswers.AddGoesOnFromASet` | csrc/c10d/distributed/c10d/TCPStore.cpp:166-174 | after a SET of a number the count goes on from it |
| `TCPStoreAnswers.AddToTextIsDropped` | csrc/c10d/distributed/c10d/TCPStore.cpp:166-170 | after a SET of anything else an ADD is not answered, its connection is dropped and the value stays |
| `TCPStoreAnswers.GetAnswersTheLastSet` | csrc/c10d/distributed/c10d/TCPStore.cpp:179-183 | a GET is answered with exactly the value last SET, whatever was asked of other keys since |
| `TCPStoreAnswers.GetAnswersTheSum` | csrc/c10d/distributed/c10d/TCPStore.cpp:162-183 | on a key that is only added to a GET is answered with the printed sum |
| `TCPStoreAnswers.GetOfMissingIsDropped` | csrc/c10d/distributed/c10d/TCPStore.cpp:179-183 | a GET of a key that is not live is not answered: the connection is dropped and forgotten, and nothing else changes |
| `TCPStoreAnswers.AnswersAboutKeys` | csrc/c10d/distributed/c10d/TCPStore.cpp:185-226 | CHECK answers READY exactly if every key is live, DELETE answers 1 for a live key and 0 otherwise, GETNUMKEYS the number of live keys, each to its sender alone; WAIT is answered at once exactly if all its keys are live |
| `TCPStoreAnswers.SetIsNotAnswered` | csrc/c10d/distributed/c10d/TCPStore.cpp:155-160 | a SET sends nothing but releases; an unknown query is dropped unanswered |
| `TCPStoreAnswers.DroppedIff` | csrc/c10d/distributed/c10d/TCPStore.cpp:112-177 | a query drops its connection exactly if it is unknown, GETs a key that is not live, or ADDs to a value that is no number |
| `TCPStoreAnswers.SweepDropsExactly` | csrc/c10d/distributed/c10d/TCPStore.cpp:55-105 | in one sweep a descriptor is dropped exactly if it was ready and its query, served after those of the ready ones before it, drops the connection |
| `TCPWire.QueryRoundTrip` | csrc/c10d/distributed/c10d/TCPStore.cpp:431-538 | the daemon reads back the query the client wrote and stops right behind it |
| `TCPWire.StreamRoundTrip` | csrc/c10d/distributed/c10d/Utils.hpp:604-652 | a stream of queries is read back as sent: the frame is never lost |
| `TCPWire.WireFormat` | csrc/c10d/distributed/c10d/TCPStore.cpp:19-27 | the codes are those of the declared order, with eight-byte lengths before keys and values and eight bytes for the number of ADD |
| `TCPWire.WireLists` | csrc/c10d/distributed/c10d/TCPStore.cpp:107-111 | CHECK and WAIT send the number of keys first |
| `GlooQueue.NextInv` | csrc/c10d/distributed/c10d/ProcessGroupGloo.cpp:611-669 | every step of every worker, caller and the destructor keeps the invariant of queue, slots and snapshots |
| `GlooQueue.UnfinishedIsReferenced` | csrc/c10d/distributed/c10d/ProcessGroupGloo.cpp:645-657 | the pool holds every unfinished work in the queue or in a slot, so a weak pointer that yields nothing belonged to a finished one |
| `GlooQueue.SnapshotCovers` | csrc/c10d/distributed/c10d/ProcessGroupGloo.cpp:2614-2622 | what is in the slots and in the queue names only earlier works and misses only finished ones |
| `GlooQueue.FirstInFirstOut` | csrc/c10d/distributed/c10d/ProcessGroupGloo.cpp:637-669 | in every run works are dequeued in the order of enqueueing, each at most once |
| `GlooRuns.BarrierWaitsForEverythingBefore` | csrc/c10d/distributed/c10d/ProcessGroupGloo.cpp:2593-2630 | in every possible run, if a barrier succeeds, every work that had been enqueued when the barrier took its snapshot is done; whatever ran before, between the snapshot and the enqueueing of the barrier, and since |
| `GlooQueue.BarrierSeesAllPriorWork` | csrc/c10d/distributed/c10d/ProcessGroupGloo.cpp:2593-2605 | in every run a successful barrier has seen the works before its cut finish |
| `GlooRuns.FailureIsPassedOn` | csrc/c10d/distributed/c10d/ProcessGroupGloo.cpp:2593-2599 | a barrier that waits for a failed work whose pointer still yields it fails for good; waiting for anything else leaves it running |
| `GlooRuns.OutcomeIsReported` | csrc/c10d/distributed/c10d/ProcessGroupGloo.cpp:637-659 | what an operation reported when it finished is its outcome in every later state |
| `GlooRuns.OneWorkPerCall` | csrc/c10d/distributed/c10d/ProcessGroupGloo.cpp:661-669 | in every run as many works exist as calls enqueued one |
| `GlooQueue.WaitsAreAcyclic` | csrc/c10d/distributed/c10d/ProcessGroupGloo.cpp:2610-2630 | works wait only for works enqueued before them |
| `GlooQueue.PoolNeverDeadlocks` | csrc/c10d/distributed/c10d/ProcessGroupGloo.cpp:637-659 | while any work is unfinished, a pool of any positive size can take a step of its own |
| `GlooQueue.InternalStepsEnd` | csrc/c10d/distributed/c10d/ProcessGroupGloo.cpp:637-659 | every such step brings the pool nearer to rest |
| `GlooQueue.PoolComesToRest` | csrc/c10d/distributed/c10d/ProcessGroupGloo.cpp:637-659 | left to itself the pool stops within a computed number of steps, and then all work is done |
| `GlooQueue.DestructorDropsNothing` | csrc/c10d/distributed/c10d/ProcessGroupGloo.cpp:611-627 | when the destructor has joined every worker, every work ever enqueued has finished |
| `GlooRuns.DestructorGetsThrough` | csrc/c10d/distributed/c10d/ProcessGroupGloo.cpp:611-627 | over an idle pool with nothing queued the destructor can be completed, every worker leaving and no work touched |
| `StoreKeys.JoinKeys` | csrc/c10d/distributed/c10d/PrefixStore.cpp:14-22 | joins each key, in order |
| `StoreKeys.PrefixesCollideIff` | csrc/c10d/distributed/c10d/PrefixStore.cpp:10-12 | two prefixes can produce one key exactly if one, closed with a slash, begins the other |
| `StoreKeys.JoinIsInjective` | csrc/c10d/distributed/c10d/PrefixStore.cpp:10-12 | from slash-free prefixes a joined key gives back both parts |
| `StoreKeys.BarrierKeysApart` | distributed/distributed_c10d.py:212-213 | no barrier key equals a key joined with any prefix |
| `StoreKeys.BarrierKeyInjective` | distributed/distributed_c10d.py:212-212 | different counts give different barrier keys |
| `StoreKeys.GroupNamesApart` | distributed/distributed_c10d.py:559-561 | prefix stores of counted group names never share a key |
| `GroupBarrier.NextInv` | distributed/distributed_c10d.py:206-241 | every step of every process, over any store, keeps: the counter of a creation is what was there plus the number of processes checked in, and whoever left has seen that reach the world size |
| `GroupBarrier.NobodyLeavesEarly` | distributed/distributed_c10d.py:206-241 | over a key that held nothing, in every reachable state no process has left a creation for which some process, member or not, has not checked in |
| `GroupBarrier.OneKeyPerCreation` | distributed/distributed_c10d.py:559-594 | members and non-members use one key per creation, and never for another |
| `GroupBarrier.MembershipIsTested` | distributed/distributed_c10d.py:559-594 | in every run whoever is in a creation knows whether it is a member |
| `GroupBarrier.CounterNeverPassesWorldSize` | distributed/distributed_c10d.py:226-230 | a key not in the store is untouched until the first check-in, its counter never passes the world size and equals it exactly when all have checked in |
| `GroupBarrier.CounterLaw` | distributed/distributed_c10d.py:206-230 | in every reachable state, over any store, the counter is what the store held at first plus the number of processes checked in |
| `BarrierReuse.SomebodyLeavesIff` | distributed/distributed_c10d.py:223-230 | with nothing carried over before it, a creation can be left at all if and only if its key held at least 0 and less than the world size |
| `BarrierReuse.NobodyLeavesEarlyIff` | distributed/distributed_c10d.py:223-230 | in no run does anybody leave a creation before all have checked in, if and only if the first creation whose key was used was not partly used |
| `BarrierReuse.WaiterCanLeaveIff` | distributed/distributed_c10d.py:223-230 | once all have checked in, a waiting process can leave if and only if the key held nothing at first; otherwise no continuation lets it |
| `BarrierReuse.AnyCountIsLeft` | distributed/distributed_c10d.py:655-663 | an initialization can leave any count up to the world size under its first key |
| `BarrierReuse.SecondInitialization` | distributed/distributed_c10d.py:655-663 | initializing again over the store any run has left: nobody ever passes if all had checked in, and somebody can pass early if and only if some but not all had |
| `BarrierReuse.AloneThroughTheBarrier` | distributed/distributed_c10d.py:206-230 | a concrete run of two: rank 0 gives up, initializes again and passes the barrier alone |
| `GroupRanks.NewGroupRanks` | distributed/distributed_c10d.py:1791-1825 | rejects too many ranks, then ranks out of range, exactly; otherwise sorted ranks, the first index as backend rank, and the rank map |
| `GroupRanks.GivenOrderIsIrrelevant` | distributed/distributed_c10d.py:1793-1793 | the order of the given ranks makes no difference |
| `GroupRanks.RankMapIsLast` | distributed/distributed_c10d.py:1821-1825 | the map sends a rank to its last place in the list |
| `GroupRanks.BackendRankAgreesIff` | distributed/distributed_c10d.py:1804-1825 | backend rank and map agree for all members if and only if no rank is listed twice |
| `GroupRanks.EveryGroupRankIffDistinct` | distributed/distributed_c10d.py:270-282 | every group rank has a global rank if and only if no rank is listed twice |
| `GroupRanks.RankMapsInverse` | distributed/distributed_c10d.py:253-282 | for distinct ranks the two look-ups undo each other |
| `GroupRanks.GetGlobalRank` | distributed/distributed_c10d.py:270-282 | finds the global rank at that place of the list, or nothing exactly where none maps to it |
| `AllToAll.CheckSplitSizes` | csrc/c10d/distributed/c10d/Utils.hpp:396-412 | accepts exactly if the dimension divides evenly, or the splits are as many as the ranks and the low 32 bits of their sum are the dimension |
| `AllToAll.ComputeLengthsAndOffsets` | csrc/c10d/distributed/c10d/Utils.hpp:416-443 | each length is row size times split modulo 2^64; the offsets tile the sum of the lengths and the result is that sum; refused exactly where a length or offset is more than an int |
| `AllToAll.ComputeListLengthsAndOffsets` | csrc/c10d/distributed/c10d/Utils.hpp:446-463 | the same for a list of tensors |
| `AllToAll.UnevenLayoutRightIff` | csrc/c10d/distributed/c10d/Utils.hpp:416-443 | lengths are rows times row size and tile the whole tensor if and only if the row is empty, or no split is negative and they add up to the dimension in full |
| `AllToAll.AcceptedMeansSum` | csrc/c10d/distributed/c10d/Utils.hpp:404-411 | where the sum is not negative and fits an int, acceptance means exactly that it is the dimension |
| `AllToAll.AcceptedExactly` | csrc/c10d/distributed/c10d/Utils.hpp:396-412 | in general acceptance means as many splits as ranks, a dimension an int holds, and a sum that equals it modulo 2^32; for even splits, that the dimension divides |
| `AllToAll.EvenLayoutRight` | csrc/c10d/distributed/c10d/Utils.hpp:428-442 | accepted even splits always tile the whole tensor |
| `AllToAll.WrappedSplitIsAccepted` | csrc/c10d/distributed/c10d/Utils.hpp:404-442 | an input that passes both functions with 2 of 4294967298 elements laid out |
| `Exchange.EachPieceArrives` | csrc/c10d/distributed/c10d/ProcessGroupGloo.cpp:2355-2371 | each rank finds, where its receive layout sets a place aside for a sender, exactly what that rank sent it |
| `Exchange.ExchangeUndoesItself` | csrc/c10d/distributed/c10d/ProcessGroupGloo.cpp:2355-2371 | exchanging back by the transposed lengths restores every buffer: nothing is lost or duplicated |
| `Exchange.ReceiversExpectWhatIsSent` | csrc/c10d/distributed/c10d/Utils.hpp:416-443 | where rows and splits agree pairwise, the receivers' computed lengths are the senders' transposed |
| `Exchange.ComputedExchangeDelivers` | csrc/c10d/distributed/c10d/ProcessGroupGloo.cpp:2355-2371 | with right splits that agree, an exchange by the layouts each rank computes for itself puts every piece where its receiver looks for it, and loses and duplicates nothing |

## Left out

- Sockets, poll, file locks, real clocks and thread scheduling: byte streams, a shared log, a monotone time input and step relations stand for them.
- Failed sends and receives of the transport, failed deserialization, a full disk: the accounting claims are about runs without them. Requests and answers that fail to serialize are modelled; the error message sent in place of an answer to another rank is taken to serialize.
- Overflow of `int64_t` in `add`, which the source leaves undefined: it is modelled as two's complement wrap-around, and the running sums of `FileStoreRuns`, `FileStoreAnswers` and `TCPStoreAnswers` are about sums in range.
- ReducerObject.Reducer.MarkVariableReady: a repeated mark on a bucket replica that is not yet complete is excluded here, because the source does not notice it; `RepeatedMarks` says what its counters then mean.
- ReducerObject.Reducer.AutogradHook: in a pass each variable is marked at most once, which is autograd's promise and not the reducer's.
- BackwardPass.Backward: that each variable either gets its hook once or was found unused is autograd's promise; gradients arrive between the hooks.
- ReducerObject.Reducer.FinalizeBackward: the outcome of the allreduces is a parameter rather than written into the bucket buffers; `BackwardPass.Iteration` says what it is, except for sparse buckets.
- Communication hooks, `gradient_as_bucket_view`, timing statistics, device streams and format casts of the reducer.
- Floating-point rounding and half-precision compression.
- FileStoreObject.FileStore.Get: one round of the polling loop; the sleep and the timeout around it are not modelled. `wait` is the same loop around `check`.
- GroupBarrier.NextInv: groups are created in one order on all processes within one initialization, and only the first can be named; logging and sleeping are left out and the timeout is a step that may happen at any poll.
- GroupRanks.NewGroupRanks: choice of backend, and what a backend does with an empty rank list, are left out.
- GlooQueue.NextInv: an operation's own communication is a step that may succeed or fail; condition variables are represented by the loops that recheck under the lock.
- TCPStoreObject.TCPStoreDaemon.QueryFds: the query waiting on each ready socket is a parameter, and sending an answer succeeds.
- BucketSizes.ComputeBucketAssignmentBySize: sums of sizes do not overflow `size_t`; buckets are lists of tensors carrying their index until the result is handed out.
- BucketSync.SyncBucketIndices: the numbers of buckets and of their members are below 2^31, and a broadcast delivers rank 0's tensor to tensors of the same size.
- Rebuild.RebuildBuckets: fewer than 2^31 parameters; whether and when to rebuild is not modelled.
- NCCL communicator caching and id exchange, the watchdog, MPI and HCCL process groups, round-robin groups, the hash store, coalesced broadcast, RRef and autograd contexts, Python bindings.
