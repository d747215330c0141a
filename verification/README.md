# Verified models of yg-go's protocols

yg-go is a Go utility library. This project models the parts of it that are protocols or
allocators and proves what they promise, over every run and every input:

- the **task scheduler** (`task/manager`, `task/model`): a table of tasks that workers claim,
  results are saved into, and sweeps time out;
- the **leader lease** (`mutex/cluster.go`), the **leased resource pool** (`pool/redis.go`), the
  **concurrent work queue** (`concqueue/queue.go`) and the **heartbeat checker** (`task/health`);
- smaller cores: snowflake ids, merging of streamed tool calls, the in-memory message stream and
  the port pool.

Run `dafny verify dfyconfig.toml` with Dafny 4.11.

## How it is modelled

A protocol is a state, a type of events and a total function `Step`; an interleaving of any
number of participants is a sequence of events, so a theorem over all event sequences is a theorem
over all interleavings. An event whose guard does not hold leaves the state unchanged. Where the
source updates an object in place there is a class with those fields whose methods are proved to
make the steps of that state machine. Clocks, replies of Redis, rows locked by other transactions
and the results of callbacks are parameters.

| file | models |
|---|---|
| `Options.dfy`, `Clocks.dfy` | optional values, clock readings along a run |
| `TaskModel.dfy`, `TaskTable.dfy`, `Repository.dfy` | task rows, the table as a state machine, the calls that step it |
| `ClaimBound.dfy`, `ClaimOrder.dfy`, `StepOrder.dfy`, `Settling.dfy`, `NextStep.dfy` | the scheduler's theorems, and the next-step scan |
| `SplitSave.dfy` | the scheduler with result and cancel calls split into their read and their write |
| `ClusterMutex.dfy` | leader election |
| `LeasePool.dfy`, `LeaseFencing.dfy`, `LeaseOperations.dfy`, `Decimal.dfy` | the pool, late releases, the pool with undivided releases, and decimal numerals |
| `WorkQueue.dfy` | the work queue |
| `Heartbeat.dfy`, `SplitPass.dfy`, `SplitDetection.dfy` | the checker with undivided passes, with passes split into their reads and writes, and its latency then |
| `Snowflake.dfy`, `StreamMerge.dfy`, `SseStream.dfy`, `PortPool.dfy` | the smaller cores |

What is taken as one step: each SQL statement or transaction with locks on the task table, each single
Redis command in `ClusterMutex` and `LeasePool`, and each channel, flag and counter operation in
`WorkQueue`. `SaveTaskResult` and `CancelTask` read without a lock and write later: `ClaimBound`,
`StepOrder` and `Settling` take them as one step, `SplitSave` takes them apart and says exactly when
the claim bound and the step order survive. A health check pass reads twice and then writes worker by
worker: `Heartbeat` takes a pass as one step, `SplitPass` takes it apart and says exactly when no
worker is reported too early. A pool release compares and resets in two commands: `LeasePool` and
`LeaseFencing` say exactly when that is safe, `LeaseOperations` takes it as one and needs no such
condition. The `MarkAs` methods only refine these steps and have no rows below.

Where the code and its comments differ the model follows the code:

- `HandleDeadWorkerTasks` says it returns the task types to requeue; it always returns none, because
  it asks the rows it read before the update.
- The checker's comment puts death at 60 s; the code needs more than 90 s.
- `flushToolCallCache` says it empties the cache; it does not.
- A result is meant to trigger the next step, but the trigger reads outside the transaction that saves
  it and does not see it; the last success of a step therefore wakes nobody for the next.
- A pool release watches its key, but its pipeline is no transaction, so the watch guards nothing.
- The in-memory stream keeps stop signals in one map and looks for them in another.
- The next-step scan treats a canceled task as unfinished and the claim query treats it as done.
- `NewRedisPool` says it empties an existing pool; it only resets the members of its own configuration.

## Model

| member | source | states |
|---|---|---|
| Repository.TaskRepository.CreateTasks | task/manager/manager.go:83-108 | inserts a batch, blank statuses pending, exactly if every row is valid, otherwise nothing; sends one message for each task of its lowest step until the queue refuses one, and then fails with the rows inserted |
| Repository.TaskRepository.GetOnePendingTask | task/manager/repository.go:31-75 | claims an unlocked claimable row of the type such that none of those has a higher priority, or the same and an older update time, and makes it running with worker and times; claims nothing only if every claimable row is locked |
| Repository.TaskRepository.GetPendingTaskCount | task/manager/repository.go:168-186 | counts exactly the claimable rows of the type |
| Repository.TaskRepository.SaveTaskResult | task/manager/manager.go:254-365 | makes one result step whatever the status is and sends a message for each type a retry, the next step as committed, or a waiting task calls for; refused, with the table unchanged, exactly for missing or deleted rows or when the queue refuses a message |
| Repository.TaskRepository.CancelTask | task/manager/repository.go:147-160 | a live pending or failed row becomes canceled with an end time, retries and all other rows untouched; any other row is refused |
| Repository.TaskRepository.DeleteTask | task/manager/repository.go:163-165 | marks a row deleted and changes nothing else |
| Repository.TaskRepository.InitTaskDBStatus | task/manager/repository.go:269-281 | every live running row becomes failed with one more retry spent, and nothing else changes |
| Repository.TaskRepository.CheckAndTimeoutTasks | task/manager/repository.go:190-265 | times out exactly the running rows more than 60 s past their deadline and requeues exactly those with a retry left |
| Repository.TaskRepository.HandleDeadWorkerTasks | task/manager/repository.go:285-334 | times out exactly the rows the worker holds and returns no type, which is what is due exactly when no held row has a retry left after the sweep |
| Repository.NothingDueExactly | task/manager/repository.go:305-333 | the types whose swept rows can be retried are none exactly when every held row has spent all retries but one |
| Repository.DeadWorkerTaskIsForgotten | task/manager/repository.go:321-333 | for a worker holding one row with two retries left the returned list is empty and the due one is not |
| ClaimOrder.SparedStaysClaimable | task/manager/repository.go:36-49 | a claimable row stays claimable and as it is until it is claimed or a call concerns it or opens a row below it |
| ClaimOrder.HigherPriorityFirst | task/manager/repository.go:50 | over a run whose claims follow the query, as long as a claimable row is neither claimed nor concerned, no row of its type with a lower priority is claimed |
| ClaimOrder.OlderFirst | task/manager/repository.go:50 | the same for a row of the same priority that has changed later |
| ClaimBound.StepSpendsBudget | task/manager/repository.go:36-66 | no call, late or duplicate results included, increases claims made plus claims still possible |
| ClaimBound.ClaimsNeverExceedRetries | task/manager/repository.go:36-66 | in every run from every table a row is claimed at most maxRedo - redo times |
| ClaimBound.BoundIsReached | task/manager/repository.go:36-66 | the bound is attained by claiming and failing |
| SplitSave.UndividedIsAtomic | task/manager/manager.go:258-279 | a read followed at once by its save, or by its cancel, is the one step the other scheduler theorems take it for |
| SplitSave.UndisturbedRunIsAtomic | task/manager/manager.go:258-279 | a run whose writes find their rows as they were read is the run of the undivided calls it completes |
| SplitSave.MoveSpendsExactly | task/manager/manager.go:258-279 | with results and cancels split from their reads, a move raises claims made plus claims left exactly when it writes back an older retry count that leaves more claims than the row found had |
| SplitSave.NeverRisesExactly | task/manager/manager.go:258-279 | over a run that sum never rises exactly when no write is of that kind |
| SplitSave.ClaimsNeverExceedRetries | task/manager/manager.go:258-279 | in every run with split calls and no such write a row is claimed at most maxRedo - redo times |
| SplitSave.MoveKeepsOrderExactly | task/manager/repository.go:147-160 | a move keeps the step order exactly when it is not a disturbing call or a split failure saved below a claimed row; a split cancel always keeps it |
| SplitSave.OrderHoldsExactly | task/manager/manager.go:258-279 | over a run with split calls the step order holds throughout exactly when no move is of that kind |
| SplitSave.SplitSaveBreaksBound | task/manager/manager.go:258-279 | a result saved over a sweep that came after its read lets a row with two retries be claimed three times |
| StepOrder.UndisturbedStaysOrdered | task/manager/repository.go:40-49 | any call other than a late failure or creation below a claimed row keeps all lower steps of claimed rows settled |
| StepOrder.DisturbedLosesOrder | task/manager/manager.go:261-274 | such a late failure or creation always breaks that order |
| StepOrder.OrderHoldsExactlyWhenUndisturbed | task/manager/repository.go:40-66 | the order holds throughout a run exactly when no call of the run is of that kind |
| StepOrder.StepOrderOverRuns | task/manager/repository.go:31-75 | with results only while running and groups created whole and pending, every state of the run is ordered |
| StepOrder.NeverTwoStepsRunning | task/manager/repository.go:31-75 | from the empty table, two live tasks of different steps of one group are never running together |
| StepOrder.LateFailureRunsTwoSteps | task/manager/manager.go:261-274 | one failure saved after success makes two steps of a flow run together |
| Settling.ChangeLowersTotal | task/manager/repository.go:190-281 | each changing call lowers the total of remaining changes and keeps redo within maxRedo |
| Settling.RunsSettle | task/manager/repository.go:147-160 | changes made plus changes remaining never exceed the initial total |
| Settling.FreshTableSettles | task/model/entity.go:137-193 | from pending rows, redo never exceeds maxRedo and a run changes the table at most sum of 2(maxRedo - redo) + 1 times, deletions not counted |
| Settling.BlockedByExhausted | task/manager/repository.go:36-49 | in a stuck table an unfinished row with retries left is above an exhausted row of its group |
| Settling.QuiescentExactly | task/manager/repository.go:36-49 | nothing is running or claimable exactly when every live row is done, exhausted, or open above an exhausted row |
| Settling.UnsettledCanMove | task/manager/repository.go:36-66 | otherwise a claim or a timely result still changes the table |
| NextStep.GetNextStepTasks | task/manager/repository.go:348-398 | returns exactly the pending, failed and running tasks of the first step that is not all success |
| NextStep.GetNextStepPendingTaskTypes | task/manager/manager.go:210-233 | returns exactly the types of the pending ones among them |
| NextStep.ScanPassesGate | task/manager/repository.go:376-394 | everything the scan lists passes the NOT EXISTS gate of the claim query |
| NextStep.TriggeredTypesExactly | task/manager/manager.go:217-232 | the triggered types are those of the pending tasks passing the gate exactly when no canceled task sits on an earlier step than such a task |
| NextStep.StaleTriggerRightExactly | task/manager/manager.go:281-349 | read before the success is committed, the trigger wakes what the success makes due, except exactly when the success completes its step and a pending task is on the first step still unfinished |
| NextStep.TwoStepFlowStalls | task/manager/manager.go:281-349 | in a flow of two tasks the success of the first wakes nobody for the second |
| NextStep.CancelStallsFlow | task/manager/repository.go:376-394 | after canceling the last unfinished task of a step the claim gate is open for the pending tasks above it, and the scan triggers nothing |
| ClusterMutex.LeaseKeptExactlyInTime | mutex/cluster.go:90-159 | a step keeps "live masters own the unexpired key" exactly when it does not pass the expiry of a live master's key |
| ClusterMutex.LeaseOverRuns | mutex/cluster.go:90-159 | over a run that invariant holds throughout exactly when no renewal is missed |
| ClusterMutex.SingleMaster | mutex/cluster.go:55-57 | then at most one live node is master, and it owns the unexpired key, restarts included |
| ClusterMutex.TickingKeepsLease | mutex/cluster.go:70-139 | nodes that start and finish a served tick in every interval of their life renew in time at every step of a run, if none comes back under the name the key still holds with less than an interval to go |
| ClusterMutex.TickingKeepsSingleMaster | mutex/cluster.go:55-139 | so with intervals up to 13 s at most one live node is master, and it owns the unexpired key, with no assumption about renewals |
| ClusterMutex.LateReturnMakesTwoMasters | mutex/cluster.go:107-130 | every such comeback can make two masters before the node's first tick is due |
| ClusterMutex.MissedRenewalMakesTwoMasters | mutex/cluster.go:55-57 | one missed renewal suffices for two live masters |
| ClusterMutex.MasterlessKeyIsFrozen | mutex/cluster.go:107-149 | while no live node is master the key changes only by the SETNX that makes one |
| ClusterMutex.TickAfterExpiryFindsMaster | mutex/cluster.go:90-104 | a tick begun after the expiry of an orphaned key finds or makes a live master |
| ClusterMutex.Failover | mutex/cluster.go:70-130 | a node ticking at its interval makes some live node master less than 43 s after the last renewal of a master that is gone |
| ClusterMutex.CrashFailover | mutex/cluster.go:70-130 | after a crash of the master there is none, the key stays, and a ticking node yields a new one less than 43 s after the last renewal |
| ClusterMutex.FailedCommandChangesNothing | mutex/cluster.go:90-159 | a command that Redis fails changes neither the key nor the cached name |
| ClusterMutex.KeyChangesHands | mutex/cluster.go:107-149 | a present key is changed only by a renewal or a release, an expired one only by SETNX or a release |
| ClusterMutex.MutexNode.GetCurrentMaster | mutex/cluster.go:152-159 | caches the owner of a present key and keeps the cached name otherwise |
| ClusterMutex.MutexNode.TryPreempt | mutex/cluster.go:107-130 | is the run of its commands: takes an absent key for 30 s and becomes master, leaves a present one, and at start caches its owner |
| ClusterMutex.MutexNode.Tick | mutex/cluster.go:90-104 | is the run of its commands: afterwards the key is this node's for 30 s from now, unless another owns it, whom it then caches |
| ClusterMutex.MutexNode.Release | mutex/cluster.go:142-149 | deletes the key exactly if the node believes itself master |
| LeasePool.MemberNamesAreUnique | pool/redis.go:137-148 | a member string determines slot and name and splits back to the name |
| LeasePool.MembersOfService | pool/redis.go:213-222 | a name owns exactly the slots one to its largest capacity |
| LeasePool.OnePlaceKept | pool/redis.go:48-85 | a safe step keeps every member in one place at most, the set or the hands of one acquire |
| LeasePool.FencedKept | pool/redis.go:48-134 | a safe step keeps the score of every active lease on its member wherever that is, and active leases apart |
| LeasePool.LeaseExclusion | pool/redis.go:48-134 | in every interleaving of safe acquires, split releases, crashes and refreshes, whatever expiry each acquire uses, a name has at most its largest capacity of unexpired, unreleased leases |
| LeaseOperations.OperationsAreSafe | pool/redis.go:48-210 | acquires interleaved command by command with undivided releases, crashes and configurations that never bring a dropped slot back make only safe steps |
| LeaseOperations.OperationsExclude | pool/redis.go:48-210 | so in every such run, under a fixed configuration in particular, a name has at most its largest capacity of active leases, with no condition on the states |
| LeaseOperations.ReleaseDoes | pool/redis.go:88-134 | a release operation resets its member and closes its lease exactly if the handle's score is still there, and else changes nothing |
| LeaseOperations.CrashLosesSlot | pool/redis.go:54-79 | a slot whose client crashes between pop and put is leased to nobody in any run until a configuration adds it anew |
| LeasePool.SafeExactly | pool/redis.go:91-210 | a step keeps the invariants exactly when no member it sets to zero, by a refresh or by the late half of a release, is in flight or actively leased by another |
| LeasePool.KeptExactly | pool/redis.go:48-210 | over a run the invariants hold throughout exactly when every step is safe |
| LeasePool.UndividedReleaseIsSafe | pool/redis.go:88-134 | a release nobody interrupts is safe, resets its member exactly if the score matches, and leaves every other active lease active with its score |
| LeasePool.RefreshIsTwoCommands | pool/redis.go:186-205 | the ZADD and the ZREM of a refresh are two refreshes of the protocol, so others may act in between |
| LeasePool.ReaddedSlotIsLeasedTwice | pool/redis.go:186-195 | a slot dropped and added again while leased gets a second active lease |
| LeasePool.LateResetLeasesTwice | pool/redis.go:91-120 | a release that compares before and resets after its lease ran out gives the slot of its successor to a third |
| LeaseFencing.GrantKeepsFenceExactly | pool/redis.go:66-84 | an acquire keeps all lost leases fenced off exactly when it does not repeat the expiry of an open lease of its member |
| LeaseFencing.FencingExactly | pool/redis.go:48-116 | over a run of safe steps with positive expiries lost leases are fenced off throughout exactly when no acquire does so |
| LeaseOperations.OperationsAreFenced | pool/redis.go:48-134 | in every run of such operations whose acquires put their members back before the lease they grant would have run out, releasing a lease whose member was leased again changes nothing |
| LeaseFencing.LostLeaseIsFencedOff | pool/redis.go:48-116 | the same in every run of safe steps with split releases |
| LeaseFencing.LatePutUnfencesLostLease | pool/redis.go:48-116 | one late put suffices for the release of a lease lost long ago to reset the slot of another |
| LeasePool.UninterruptedAcquire | pool/redis.go:48-85 | the three steps of an acquire in a row lease the lowest member until now plus expire, or change nothing |
| LeasePool.PopTakesLeast | pool/redis.go:54-64 | the member taken has the least score of the set |
| LeasePool.RefreshExactly | pool/redis.go:168-210 | a refresh leaves exactly the new members exactly when the set held the shared ones and nothing foreign; shared members keep their scores, added ones get zero |
| LeasePool.RedisPool.Acquire | pool/redis.go:48-85 | leases a member of least score not after now; refuses, unchanged, only if every score is later |
| LeasePool.RedisPool.ReleaseMember | pool/redis.go:88-134 | resets the score, and that of the handle, exactly if the two match; fails exactly for missing members |
| LeasePool.RedisPool.AcquireString | pool/redis.go:137-148 | leases as Acquire does and returns the part after the first underscore, or an error with the member still leased |
| LeasePool.RedisPool.RefreshConfig | pool/redis.go:168-210 | moves set and configuration together; a taken lock or a failing ZADD changes nothing, a failing ZREM leaves the new members added under the old configuration |
| LeasePool.GenerateMembers | pool/redis.go:213-222 | builds exactly the slots of all services |
| WorkQueue.InvOverRuns | concqueue/queue.go:50-134 | in every run the wait counter equals the live workers, tasks start in acceptance order, and each started task is running or finished once |
| WorkQueue.PoolGrowsWithPanics | concqueue/queue.go:94-115 | before the close the counter is workerCount plus completed panic recoveries and no worker has returned |
| WorkQueue.DrainedExactly | concqueue/queue.go:118-134 | when the counter is zero every accepted task ran exactly once, exactly if there is a worker or nothing was accepted; the result is the int32 count of failed and panicked tasks |
| WorkQueue.SubmissionsOverRuns | concqueue/queue.go:62-76 | told from the events of a run, the tasks submitted before the flag are those accepted, between check and send, or sent on the closed channel |
| WorkQueue.SendGoesThroughExactly | concqueue/queue.go:69-75 | on an open channel a send goes through exactly if there is room, a hand-off exactly if a worker waits at an empty buffer |
| WorkQueue.SubmittedRunOnce | concqueue/queue.go:62-134 | with nobody in flight at the close and at least one worker, once the wait is over the executions of the run are the tasks submitted before the flag, each once |
| WorkQueue.CounterWraps | concqueue/queue.go:98-112 | the error counter is exact up to the largest int32 and wraps around beyond |
| WorkQueue.ClosingPanicsExactly | concqueue/queue.go:62-76 | up to the close of any run nothing is sent on the closed channel, and some continuation does so exactly when a submitter is between its check and its send at the close |
| WorkQueue.WorkersFinish | concqueue/queue.go:79-92 | after the close the workers take boundedly many steps in any run |
| WorkQueue.NoWorkerIsStuck | concqueue/queue.go:79-115 | after the close no worker can move exactly when all have returned |
| WorkQueue.EveryScheduleDrains | concqueue/queue.go:62-134 | after the close, however workers and late submitters interleave, worker steps are bounded, and where no worker can move any more every accepted task has run exactly once and the counter is the number of failing outcomes |
| WorkQueue.StopAndWait | concqueue/queue.go:118-134 | under any schedule that ends with no worker able to move, returns with every accepted task finished once and the int32 count of tasks whose outcome was an error or a panic |
| Heartbeat.Checker.SetHeartbeat | task/health/checker.go:91-105 | stores the beat and drops the grace entry of that worker only |
| Heartbeat.Checker.DeleteHeartbeat | task/health/checker.go:107-117 | drops both entries of that worker only |
| Heartbeat.Checker.CheckTaskTypeWorkers | task/health/checker.go:293-408 | checks every worker once, with the clock read again for each, calls back for exactly the dead ones with their last heartbeat and task, and buries them unless the callback fails; a failing read of the heartbeats skips the pass, one of the grace entries counts as none, a failing write leaves that record |
| Heartbeat.StagesInSeconds | task/health/checker.go:326-408 | healthy up to 30 s, then a grace entry, dead more than 60 s after it; what each stage writes |
| Heartbeat.FailedGraceReadRestartsGrace | task/health/checker.go:302-306 | a failed read of the grace entries restarts a grace period that has begun |
| Heartbeat.NoPrematureDeath | task/health/checker.go:293-408 | in every run of undivided passes a callback comes more than 90 s after the last heartbeat, which it reports, and succeeds at most once before the next |
| Heartbeat.RemovedIsNeverReported | task/health/checker.go:107-117 | a worker that has signed off is not reported until it beats again |
| Heartbeat.DeathIsDetected | task/health/checker.go:235-251 | with passes at most P apart, one within 30 s of the last heartbeat, a silent worker's callback comes within 90 + 2P seconds of it |
| SplitPass.WriteKeepsExactly | task/health/checker.go:297-375 | a pass's late write keeps a worker's record and callbacks justified exactly when a death was decided on the last heartbeat, was not reported with success before and erases the beat it buries, and a grace entry is more than 30 s younger than the last beat |
| SplitPass.JustifiedExactly | task/health/checker.go:293-408 | over a run with any number of split passes in flight the invariants hold throughout exactly when every write is of that kind |
| SplitPass.NoPrematureDeath | task/health/checker.go:293-408 | in every such run a callback comes more than 90 s after the last heartbeat and succeeds at most once before the next |
| SplitPass.UndisturbedWriteIsSafe | task/health/checker.go:297-375 | a served write is of that kind whenever no heartbeat has come and no death been reported since the read |
| SplitPass.StaleDeathKillsAtOnce | task/health/checker.go:353-371 | a death decided on an old heartbeat is reported in the second of a new one, and erases it |
| SplitPass.StaleGraceKillsEarly | task/health/checker.go:340-350 | a grace entry decided on an old heartbeat leads to death 61 s after a new one |
| SplitPass.OverlappingPassesBuryTwice | task/health/checker.go:353-371 | two passes that have read the same dead worker both report it with success |
| SplitPass.WorkersAsBefore | task/health/checker.go:91-117 | time, heartbeats and removals act as with undivided passes, and of a pass only its writes touch a worker |
| SplitPass.UndividedPassDecides | task/health/checker.go:293-375 | the commands of a pass over a worker with nothing in between are an undivided pass over it |
| SplitDetection.PassDecides | task/health/checker.go:293-375 | a whole split pass over a silent worker decides on the worker as it is |
| SplitDetection.DeathIsDetected | task/health/checker.go:235-375 | with split passes beginning at most P apart and done within D, one within 30 s of the last heartbeat, a silent worker's callback comes within 90 + 2P + D seconds of it |
| Snowflake.PackIsSum | encryptor/snowflake/snowflake.go:8-18 | in range, or-ing the shifted fields is their positional sum and fits 63 bits |
| Snowflake.FieldsDecode | encryptor/snowflake/snowflake.go:52-54 | time, node and sequence can be read back from an id |
| Snowflake.PackIsMonotone | encryptor/snowflake/snowflake.go:52-54 | ids of one node are ordered exactly as time and then sequence |
| Snowflake.IdIsAWord | encryptor/snowflake/snowflake.go:52-56 | whatever the clock and the node, an id is a 64-bit word |
| Snowflake.NextRisesExactly | encryptor/snowflake/snowflake.go:33-57 | a call yields a larger id than the one before exactly when the clock has not gone back |
| Snowflake.IdsRiseExactly | encryptor/snowflake/snowflake.go:33-57 | the ids of a run rise exactly when its clock never goes back |
| Snowflake.IdsDistinctExactly | encryptor/snowflake/snowflake.go:33-57 | the ids of a fresh generator are distinct exactly when its clock never leaves a millisecond and returns to it |
| Snowflake.NodesNeverCollide | encryptor/snowflake/snowflake.go:33-57 | generators with different nodes never yield the same id, whatever their clocks do within range |
| Snowflake.BackwardClockRepeats | encryptor/snowflake/snowflake.go:39-48 | a clock that steps back repeats an id |
| Snowflake.Generator.Next | encryptor/snowflake/snowflake.go:33-57 | makes one generator step for any clock, before the epoch included; a used-up sequence waits for the first reading past the last time |
| StreamMerge.CacheIsFold | llm/provider/openai/stream.go:51-88 | each index holds its fragments' names and arguments in arrival order, the last non-empty id and the first type, and no other index is present |
| StreamMerge.LastIdIsLast | llm/provider/openai/stream.go:74-76 | the id of a call is that of its last fragment that has one |
| StreamMerge.PiecesJoin | llm/provider/openai/stream.go:77-82 | names and arguments are joined piece by piece, whatever the pieces |
| StreamMerge.ThreePieces | llm/provider/openai/stream.go:51-88 | a call that comes in three pieces is put together |
| StreamMerge.MergeInTwoParts | llm/provider/openai/stream.go:51-88 | merging in two parts is merging the whole |
| StreamMerge.ToolCallCache.Merge | llm/provider/openai/stream.go:51-88 | the loop computes that fold and returns every cached call once |
| StreamMerge.ToolCallCache.Flush | llm/provider/openai/stream.go:91-97 | returns every cached call once and keeps the cache |
| StreamMerge.HandleStream | llm/provider/openai/stream.go:9-48 | hands every response and then the end or the error to the handler until it refuses; each chunk with deltas, and the finishing one, carries all calls assembled so far |
| StreamMerge.ChunkContents | llm/provider/openai/stream.go:33-42 | a chunk without deltas carries no calls unless it finishes, others all calls of the deltas so far |
| StreamMerge.ChunkingIsIrrelevant | llm/provider/openai/stream.go:9-97 | two chunkings of the same deltas finish with the same multiset of calls, the per-index fold |
| SseStream.MemoryCache.WriteMessage | apis/sseclient/memory.go:33-43 | the stream's list grows by the message and its expiry is renewed; the other streams stay |
| SseStream.MemoryCache.ReadMessages | apis/sseclient/memory.go:45-62 | returns exactly the list of a present, unexpired stream with the id of its last message, else nothing; an expired stream is dropped |
| SseStream.MemoryCache.ReadAfterID | apis/sseclient/memory.go:64-85 | returns the message after the id in the list of a present, unexpired stream, with its own id, or nothing, or the index panic of a negative position |
| SseStream.WriteThenRead | apis/sseclient/memory.go:33-62 | messages written one by one to a new stream are read back before it expires, all of them and in order |
| SseStream.AtoiReadsBack | apis/sseclient/memory.go:80 | numerals are read back with or without a sign and clamped when out of range |
| SseStream.PanicsExactly | apis/sseclient/memory.go:79-84 | reading after an id panics exactly for ids below -1 and for the largest integer |
| SseStream.BlockRead | apis/sseclient/client.go:151-192 | over the cache while writers append, every poll that finds a message sends it and moves on by one; what is sent, and a message that fails, stood at the positions right after the given id; gives up only after maxRetry polls in a row without a message; panics exactly on a negative position |
| SseStream.SentIsAPiece | apis/sseclient/client.go:158-191 | from a growing log what is sent is a contiguous piece of what the last poll finds |
| SseStream.StopIsNeverSeen | apis/sseclient/memory.go:87-99 | the key of a stop signal is never among the streams, where Exist looks for it |
| SseStream.MemoryCache.Exist | apis/sseclient/memory.go:94-99 | tells whether a stream is there, and is false for every stop signal as long as only streams are written |
| SseStream.TailStartsAfterSnapshot | apis/sseclient/memory.go:56-62 | the returned id leads right after the snapshot exactly if the snapshot is not empty |
| SseStream.SnapshotPlusTail | apis/sseclient/client.go:145-192 | a client that reads a stream's snapshot from the cache and follows it while writers append gets a prefix of what was written, nothing missing and nothing twice, as long as the stream does not expire, and all of it if it gives up |
| SseStream.EmptySnapshotSkipsFirst | apis/sseclient/memory.go:79-84 | after an empty snapshot the first message is skipped |
| PortPool.RunConserves | pool/portspool/ports.go:42-79 | no run loses, invents or duplicates a port |
| PortPool.PortsQueueInOrder | pool/portspool/ports.go:42-79 | ports handed out followed by ports left are the ports available followed by the ports given back, in order |
| PortPool.RunStaysExact | pool/portspool/ports.go:42-79 | every port of the range is always in exactly one of the two lists, once |
| PortPool.PortPool.constructor | pool/portspool/ports.go:18-40 | makes exactly the ports of the settled range available, ascending |
| PortPool.PortPool.GetPort | pool/portspool/ports.go:43-56 | hands out the first available port, or fails on an empty pool |
| PortPool.PortPool.ReturnPort | pool/portspool/ports.go:59-79 | moves a handed-out port to the end of the queue; fails exactly for ports not handed out |

## Left out

- Result text, error text and cost of a task, which no scheduling decision reads; cost is computed in floating point.
- Repository.TaskRepository.SaveTaskResult: does not model the callback, whose error is only logged.
- Repository.TaskRepository.CreateTasks: does not model the order the batch is sorted into, which decides only the order of ids and of messages.
- Settling.RunsSettle: is stated for undivided calls; runs whose split writes find their rows unchanged are such runs (`SplitSave.UndisturbedRunIsAtomic`), other split saves can hand a retry back and allow more changes.
- SseStream.BlockRead: does not model a storage error, which the in-memory storage never returns.
- `Manager.SaveTask`, which writes an arbitrary row.
- Overflow of the database's 32-bit retry columns.
- The stream queue in `task/manager/queue.go`: its messages are only wake-up hints.
- `RedisPool.ReleaseString`, which parses a member as JSON, and `float64` rounding of scores, which is monotone.
- Redis commands whose reply is lost although they took effect.
- The Redis variant of the message stream.
- Storage drivers, database and HTTP clients, notification, encryption, money, logging, metrics and configuration: wrappers of libraries or single-function checks.
