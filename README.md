# Thread pool: bounded task queue and pool lifecycle

A Dafny model of the sequential core of a C++ thread pool: the bounded FIFO
`TaskQueue` that holds submitted tasks, and the `ThreadPool` that owns worker
threads and that queue. The pool tracks the initialized, paused and terminating
flags, the per-task results and per-worker finished counts, the rejection
counter, and the shortest and longest time the queue stayed full.

Every block the source runs under a lock is one atomic step. A worker thread is
its id: spawning workers appends ids 1..n, and joining them clears the list. The
worker loop `routine` is split at the point where the task is run. The first
half (`RoutineAcquire`) waits for unpause, pops a task, closes an open
queue-full period, marks the task -1 and holds it. A worker that finds the
queue empty sleeps in the wait for a task, and the pool's `waiting` set
records it. When woken, such a worker pops again at once: it does not go
back to the pause check (`TakeTask`). The second half
(`RoutineFinish`) runs the held task, records its value and counts it for the
worker. The pool's `running` map records which worker holds which task between
the two halves: in the source that is `routine`'s local `task`. A join is
modelled in three parts. First, every worker that holds a task finishes it
(`FinishHeld`). Then the workers take the queued tasks one by one
(`Drain`), with a `schedule` parameter naming the worker that takes each task.
Last, each worker finds the queue empty and leaves its loop (`LeaveLoops`, the
end of `Drain`).

Files: `tasks.dfy` (module `Tasks`, the `Task` struct), `queue.dfy` (module
`Queue`, class `TaskQueue`), `bookkeeping.dfy` (module `Bookkeeping`: the results
map, the finished counts, `get_status`'s classification and `compare_full_time`
as functions with lemmas), `pool.dfy` (module `Pool`, class `ThreadPool`),
`scenarios.dfy` (module `Scenarios`: client runs of the operations).

In five places the code behaves differently from what its names and messages
suggest. The model follows the code:

- The queue's capacity check is `size() <= capacity` (TaskQueue.cpp:34). So a
  queue of capacity C holds up to C + 1 tasks (`TaskQueue.Valid`,
  `TaskQueue.Emplace`). With `QUEUE_SIZE` = 20, the 21st submission is accepted
  and the 22nd is rejected (`Scenarios.TwentyTwoSubmissions`).
- A graceful `terminate` does not abandon queued tasks. A worker leaves its loop
  only when `pop` fails while the pool is terminating (ThreadPool.cpp:93-117), so
  the workers finish the tasks they hold and run every queued task before the
  join returns (`ThreadPool.Terminate`, `ThreadPool.Join`). Only
  `urgent_terminate` discards queued tasks, and even it waits for the tasks the
  workers already hold (`Scenarios.HeldTaskFinishes`).
- `get_status` reads the result itself: 0 means "not started", a positive value
  "completed" and a negative value "executing". A task that returns 0 therefore
  reads as not started, and one that returns a negative value reads as executing
  forever (`Bookkeeping.StatusOfRecordedResults`).
- `pause` does not stop a worker that is already waiting for a task. That
  wait re-runs only the pop when woken (ThreadPool.cpp:93-107), so the next
  submission is taken even while paused (`Scenarios.PausedPoolHandsOutTask`,
  under "## Findings"). For the same reason a paused pool whose workers all
  wait on an empty queue still terminates (`Scenarios.PausedIdlePoolTerminates`).
- `get_result` and `get_status` use `operator[]`, which stores a 0 for an unknown
  id (`Bookkeeping.Touch`). No later read can see that insertion.

## Model

| member | source | states |
|---|---|---|
| `Tasks.DefaultTask` | TaskQueue.h:17 | the default task has id 0 and an empty callable |
| `Tasks.FromId` | TaskQueue.h:18-24 | `Task(id)` stores the id and its work returns that id |
| `Queue.FindFirst` | TaskQueue.cpp:45 | the `find_if` result: the index of the first task with the id, no earlier task has it, and it equals the length (end) exactly when no task has the id |
| `Queue.EraseAsWritten` | TaskQueue.cpp:43-46 | erasing the `find_if` result as written is undefined exactly when the id is absent, and otherwise removes one task |
| `Queue.RemoveFirst` | TaskQueue.cpp:43-46 | the intended removal: an absent id leaves the queue unchanged; a present id removes exactly one task, and no task is gained |
| `Queue.RemoveFirstKeepsOrder` | TaskQueue.cpp:43-46 | removal takes out exactly the first task with the id; tasks before it keep their positions, and later tasks move up by one in order |
| `Queue.RemoveFirstAgreesWhenPresent` | TaskQueue.cpp:45 | the code as written and the intended removal agree exactly when the id is present |
| `Queue.RemoveAbsentIdIsUndefined` | TaskQueue.cpp:45 | removing id 7 from the queue [task 1] is undefined as written and a no-op as intended |
| `Queue.TaskQueue.constructor` | TaskQueue.h:31 | a new queue has the given capacity (default 0) and no tasks |
| `Queue.TaskQueue.Dispose` | TaskQueue.h:32 | destroying the queue clears it |
| `Queue.TaskQueue.Empty` | TaskQueue.cpp:3-6 | true exactly when no task is queued |
| `Queue.TaskQueue.GetSize` | TaskQueue.cpp:8-11 | the number of queued tasks, which is at most capacity + 1; the queue is not changed |
| `Queue.TaskQueue.Clear` | TaskQueue.cpp:13-18 | erasing the front task until none is left empties the queue and keeps the capacity |
| `Queue.TaskQueue.Pop` | TaskQueue.cpp:20-30 | an empty queue gives false and stays unchanged, and the caller's task is untouched; otherwise gives true and the oldest task, and the remaining tasks keep their order |
| `Queue.TaskQueue.Emplace` | TaskQueue.cpp:32-41 | appends at the back and returns true exactly when the queue held at most `capacity` tasks; otherwise returns false and changes nothing; the length never exceeds capacity + 1 |
| `Queue.TaskQueue.Remove` | TaskQueue.cpp:43-46 | the queue becomes `RemoveFirst` of what it was: an absent id is a no-op |
| `Bookkeeping.Lookup` | ThreadPool.cpp:161 | reading `results[id]` (or a finished count) gives the stored value, and 0 for a key never stored |
| `Bookkeeping.Touch` | ThreadPool.cpp:159-162 | `operator[]` on a missing key adds that key, and every later read gives the same values as before |
| `Bookkeeping.Bump` | ThreadPool.cpp:130 | `finished_tasks_statistics[id]++` adds one for that worker, starting from 0, and leaves every other worker's count alone |
| `Bookkeeping.StatusOf` | ThreadPool.cpp:164-174 | the status is total: exactly one of 1 (result 0), 2 (result positive) or 3 (result negative) |
| `Bookkeeping.StatusOfRecordedResults` | ThreadPool.cpp:120-131 | a task marked -1 reads as executing; after it runs, its status follows the sign of its value; an id never recorded reads as not started |
| `Bookkeeping.StatusOfTaskFromId` | ThreadPool.cpp:164-174 | a completed `Task(id)` is reported as completed exactly when its id is positive |
| `Bookkeeping.CompareFullTime` | ThreadPool.cpp:187-196 | the first measurement (min still 0) sets the min; afterwards the max never decreases and a set min never increases; each ends up at its old value or the new period; min ≤ max is preserved |
| `Bookkeeping.ObserveAllIsMinMax` | ThreadPool.cpp:187-196 | starting from the pool's initial (0, 0) and measuring positive periods, the pair is exactly the least and the greatest period measured. The periods must be positive because a minimum of 0 is the "not yet measured" mark (ThreadPool.cpp:190): after a 0 ns period the next period overwrites the minimum |
| `Bookkeeping.ObserveAllFrom` | ThreadPool.cpp:190-195 | once a positive min is set, later positive periods keep 0 < min ≤ max; the min only shrinks and the max only grows, and each is its old value or a measured period |
| `Bookkeeping.RunAll` | ThreadPool.cpp:120-131 | the results map after the given tasks ran to completion in order, each first marked -1 and then given its value. It is the specification function that `RunAllRecords` and `RunAllAppend` state properties of |
| `Bookkeeping.RunAllAppend` | ThreadPool.cpp:120-131 | running one list of tasks and then another gives the same results as running the two lists joined together |
| `Bookkeeping.RunAllRecords` | ThreadPool.cpp:120-131 | after tasks with distinct ids have run, each task's result is its work's value, and every other id reads as before |
| `Bookkeeping.Credit` | ThreadPool.cpp:130 | the finished counts after worker schedule[k] ran the k-th task, for each k in order. `CreditTotal` and `CreditAppend` state its properties |
| `Bookkeeping.CreditAppend` | ThreadPool.cpp:130 | crediting one schedule and then another gives the same counts as crediting the two joined together |
| `Bookkeeping.TotalBump` | ThreadPool.cpp:130 | bumping a worker adds exactly one to the total over a list of distinct workers that contains it, and nothing otherwise |
| `Bookkeeping.CreditTotal` | ThreadPool.cpp:127-131 | each task run by one of the pool's workers adds exactly one to the sum of their finished counts |
| `Pool.QueueSize` | ThreadPool.h:10 | the pool's queue capacity, 20 |
| `Pool.HeldBy` | ThreadPool.cpp:90-131 | the workers that hold a task, in worker order: each one really does hold a task, and there are no more of them than workers |
| `Pool.HeldByComplete` | ThreadPool.cpp:90-131 | conversely, every worker that holds a task is listed by `HeldBy`, so a join finishes every held task |
| `Pool.HeldTasks` | ThreadPool.cpp:90-131 | the tasks those workers hold, one for each of them |
| `Pool.JoinResults` | ThreadPool.cpp:33-37 | the results a join leaves: `RunAll` of the held tasks, then of the queued tasks |
| `Pool.JoinCounts` | ThreadPool.cpp:33-37 | the finished counts a join leaves: `Credit` of the holders, then of the schedule |
| `Pool.JoinIsOneRun` | ThreadPool.cpp:33-37 | a join is a single run of the held tasks followed by the queued ones, and a single crediting of the holders followed by the schedule |
| `Pool.FinishStep` | ThreadPool.cpp:125-131 | finishing the first holder (its value recorded, it is credited once) and then the rest gives the same results and counts as finishing all of them |
| `Pool.ThreadPool.constructor` | ThreadPool.h:60-75 | a new pool has no workers and an empty queue of capacity 20; it has no results, 0 rejections, no open full period, min = max = 0, and all three flags false, so it is not working |
| `Pool.ThreadPool.Dispose` | ThreadPool.h:20 | destroying the pool runs terminate and leaves it not working, with no workers |
| `Pool.ThreadPool.Initialize` | ThreadPool.cpp:3-15 | a no-op when initialized or terminating, so a second call adds no workers; otherwise creates workers 1..n in order and sets initialized exactly when n > 0 |
| `Pool.ThreadPool.Terminate` | ThreadPool.cpp:17-43 | on a non-working pool, clears the workers and both flags (so a second call is safe). On a working pool (paused only if the queue is empty, no task is held and every worker waits for a task), the workers first finish the tasks they hold and then run every queued task in order. Each result is recorded and each worker credited, so results become `JoinResults` (the held tasks, then the queue) and counts become `JoinCounts` (the holders, then the schedule). The queue ends empty, no task is held, an open full period is closed, and workers and flags end cleared |
| `Pool.ThreadPool.UrgentTerminate` | ThreadPool.cpp:45-70 | as terminate, but a working pool's queue is emptied first (so a paused pool needs only that no task is held and every worker waits for a task). Only the tasks the workers already hold are finished: results become `RunAll` of those tasks, counts become `Credit` of their holders, and the rejection count is unchanged |
| `Pool.ThreadPool.AlreadyTerminated` | ThreadPool.cpp:24-29 | on a pool that is not working, clearing the workers and both flags leaves it valid, with results, counts, held and waiting workers and the full-period fields unchanged |
| `Pool.ThreadPool.JoinAndRelease` | ThreadPool.cpp:33-41 | with the terminating flag up: results become `JoinResults` and counts `JoinCounts`, the queue ends empty, an open full period is closed, and the workers and both flags are cleared |
| `Pool.ThreadPool.Join` | ThreadPool.cpp:33-37 | with the terminating flag up, the workers finish their held tasks and then drain the queue in order. Results become `JoinResults` and finished counts `JoinCounts` of the old state. Nothing is left held or queued, and workers and flags are unchanged |
| `Pool.ThreadPool.FinishHeld` | ThreadPool.cpp:125-131 | every worker holding a task runs it to completion, in worker order. Results become `RunAll` of the held tasks and counts `Credit` of their holders; afterwards no worker holds a task, and the full-period fields are untouched |
| `Pool.ThreadPool.FinishAt` | ThreadPool.cpp:125-131 | one step of `FinishHeld`: worker w finishes the task it holds, if any, and the progress of the finishing advances by one worker |
| `Pool.ThreadPool.Drain` | ThreadPool.cpp:79-132 | worker schedule[k] runs the k-th queued task, for each k in order, until the queue is empty; then every worker leaves its loop. Results become `RunAll` of the old queue and counts `Credit` of the schedule, and an open full period is closed |
| `Pool.ThreadPool.LeaveLoops` | ThreadPool.cpp:93-117 | with the queue empty and the terminating flag up (and, when paused, every worker waiting for a task), each worker pops nothing and leaves its loop, so none is left waiting. Only an open full period changes (it is closed); results, counts and held tasks stay as they were |
| `Pool.ThreadPool.Release` | ThreadPool.cpp:39-41 | after the join, the workers are gone and both flags are down; nothing else changes |
| `Pool.ThreadPool.RoutinePass` | ThreadPool.cpp:79-132 | one pass of a worker's loop on a non-empty queue of runnable tasks: the oldest task leaves the queue, an open full period is closed, the task's result becomes its value, the worker's count rises by one, and workers and flags are unchanged |
| `Scenarios.TwoWorkersFiveTasks` | ThreadPool.cpp:3-15 | initialize(2) then initialize(3) gives workers 1, 2 (the second call adds none), and five submissions through `add_task` (ThreadPool.cpp:212-230) fill the queue with tasks 1 to 5 in order |
| `Pool.ThreadPool.RoutineAcquire` | ThreadPool.cpp:79-123 | a worker not yet waiting for a task, on a paused pool, waits for unpause and changes nothing. Otherwise, and on a paused pool too for a worker already waiting, it pops the oldest task and closes an open full period. With no task it exits if the pool is terminating and otherwise waits for a task (it joins `waiting`); with a task it marks the task's result -1, holds it and stops waiting. Only a worker holding nothing can get here |
| `Pool.ThreadPool.TakeTask` | ThreadPool.cpp:90-107 | the wait for a task: the oldest task is popped and an open full period closed; with no task the worker exits when terminating and waits otherwise; with a task it is marked -1 and held |
| `Pool.ThreadPool.PopAndMeasure` | ThreadPool.cpp:93-101 | the wait's predicate: pops exactly when the queue is not empty, giving the oldest task and keeping the rest in order, and closes an open full period at `now` |
| `Pool.ThreadPool.RoutineAcquireRechecked` | ThreadPool.cpp:79-123 | the step with the pause check also made on every wake-up: a paused pool hands out no task, and a woken waiting worker goes back to wait for unpause; unpaused, it behaves as `RoutineAcquire` |
| `Pool.ThreadPool.RoutineFinish` | ThreadPool.cpp:125-131 | for the task the worker holds: a callable task's result becomes its value, the worker's finished count rises by exactly one, and the worker holds nothing. An empty callable records nothing more |
| `Pool.ThreadPool.Pause` | ThreadPool.cpp:135-138 | sets paused and changes no other field |
| `Pool.ThreadPool.Unpause` | ThreadPool.cpp:140-144 | clears paused and changes no other field |
| `Pool.ThreadPool.Working` | ThreadPool.cpp:146-153 | working is initialized and not terminating, which between operations is the same as having workers |
| `Pool.ThreadPool.GetResult` | ThreadPool.cpp:159-162 | returns the recorded result, or 0 for an id never recorded, which is then stored |
| `Pool.ThreadPool.GetStatus` | ThreadPool.cpp:164-174 | returns `StatusOf` of the recorded result; an id never recorded gives 1 |
| `Pool.ThreadPool.CompareFullTime` | ThreadPool.cpp:187-196 | the min/max pair becomes `CompareFullTime` of the period fullEnd - fullBegin, and min ≤ max holds |
| `Pool.ThreadPool.AddTask` | ThreadPool.cpp:212-230 | changes nothing on a non-working pool. Otherwise queues the task when the queue held at most 20 tasks and raises `rejectedNum` by exactly 1 when not. It opens a full period (`queueFull`, begin = now) only when the queue now holds exactly 20 tasks and no period was open |
| `Pool.ThreadPool.DeleteTask` | ThreadPool.cpp:232-238 | changes nothing on a non-working pool; otherwise removes the first queued task with the id |
| `Scenarios.CapacityThreeAdmitsFour` | TaskQueue.cpp:32-41 | a capacity-3 queue accepts tasks 1 to 4, rejects task 5 and gives back 1, 2, 3, 4 in order |
| `Scenarios.RemoveMiddle` | TaskQueue.cpp:43-46 | removing 2 from the queue 1, 2, 3 leaves 1, 3, handed out in that order |
| `Scenarios.FiveTasksOnTwoWorkers` | ThreadPool.cpp:17-43 | two workers run five submitted tasks during terminate; their finished counts sum to 5, and task 3 reads as completed |
| `Scenarios.TerminateFiveTasks` | ThreadPool.cpp:17-43 | a graceful terminate of the pool holding tasks 1 to 5 with workers taking turns 1, 2, 1, 2, 1: results become `RunAll` of the five tasks and counts `Credit` of those turns |
| `Scenarios.WorkerHoldsSeven` | ThreadPool.cpp:79-123 | after one submission, worker 1 takes task 7: the queue is empty, task 7 reads -1, and worker 1 holds it |
| `Scenarios.HeldTaskFinishes` | ThreadPool.cpp:17-70 | a task worker 1 has taken before terminate or urgent_terminate still completes: it reads as completed and counts 1 for worker 1 |
| `Scenarios.UrgentTerminateDiscards` | ThreadPool.cpp:45-70 | after an urgent terminate the queue is empty and a discarded task reads as not started |
| `Scenarios.PauseHoldsWorkers` | ThreadPool.cpp:79-123 | a worker whose pass starts after pause takes nothing; after unpause it takes the oldest task, which then reads as executing |
| `Scenarios.PausedPoolHandsOutTask` | ThreadPool.cpp:79-107 | a worker that waits for a task on an empty queue before pause is given task 7, submitted after pause, while the pool is still paused |
| `Scenarios.PausedSubmissionWaitsWhenRechecked` | ThreadPool.cpp:79-107 | with the pause check made on every wake-up, the same run leaves task 7 queued while paused, and the worker takes it after unpause |
| `Scenarios.PausedIdlePoolTerminates` | ThreadPool.cpp:17-43 | a paused pool whose only worker waits for a task on an empty queue terminates and is then not working, still paused |
| `Scenarios.TwentyTwoSubmissions` | ThreadPool.cpp:212-230 | of 22 submissions the queue keeps 21, exactly one is rejected, and a full period is open |

## Findings

| source | as written | input that shows it | evidently intended | confidence | as-written member | corrected member |
|---|---|---|---|---|---|---|
| ThreadPool.cpp:93-107 | the pause check (ThreadPool.cpp:82-88) is made once per loop pass, before the wait for a task; the wait's predicate pops on every wake-up without looking at `paused` | `initialize(1)`; the worker finds the queue empty and waits; `pause()`; `add_task(Task(7))`: its `notify_one` wakes the worker, which pops task 7 and runs it while the pool is paused | `pause()` keeps workers from taking new tasks until `unpause()` | medium; not executed | `Scenarios.PausedPoolHandsOutTask` | `Pool.ThreadPool.RoutineAcquireRechecked` |
| TaskQueue.cpp:45 | `tasks.erase(find_if(...))` erases the `find_if` result even when that result is `end()` | `remove(7)` on a queue holding only task 1: `find_if` returns `end()`, and erasing it is undefined behaviour | an id that is not queued leaves the queue unchanged | high; not executed | `Queue.RemoveAbsentIdIsUndefined` | `Queue.TaskQueue.Remove` |

The pool's `delete_task` calls the corrected `Remove`. For pause, the rest of
the model keeps the step as written (`RoutineAcquire`), because what a paused
pool's termination does depends on it. `Scenarios.PausedSubmissionWaitsWhenRechecked`
runs the corrected step.

## Left out

- Threads, the shared mutexes and the two condition variables are not modelled. Each locked block is one atomic step, and the interleavings of submitters, workers and the controller are not explored. That includes a `pause` or a submission that arrives while a termination is in progress.
- The clock is not modelled. Each `high_resolution_clock::now()` reading is a `now` parameter, in nanoseconds.
- Per-worker wait times (`wait_time_statistics`, the mean wait at ThreadPool.cpp:115-116) are left out: they are floating-point values measured around blocking waits.
- Console output is left out: `print`, `print_queue`, `explain_status`, `show_statistics`, the rejection message and the "Already terminated" message.
- The body of `Task(int)` is reduced to the value it returns. The `rand`, `sleep_for` and `printf` in it are left out.
- main.cpp is not part of this model. It is a demo driver that sleeps and calls the pool from threads; the scenarios play its role.
- Integer widths are not modelled: task ids, results, finished counts and `rejected_num` are `int` in the source and unbounded here, and sizes are `size_t` there and `nat` here. No overflow is modelled.
- Pool.ThreadPool.Terminate: a paused working pool must have an empty queue, no held task and every worker waiting for a task (`JoinEnds`). Otherwise some worker reaches the pause check after the wake-up and waits for an unpause that never comes, so `join` never returns. Such a hang is not modelled.
- Pool.ThreadPool.Terminate: requires every queued task and every held task to be callable. Calling an empty `std::function` throws, and an exception that escapes a thread ends the whole process.
- Pool.ThreadPool.UrgentTerminate: a paused working pool must have no held task and every worker waiting for a task, for the same reason as terminate, and every held task must be callable.
- Pool.ThreadPool.Join: the held tasks are finished first, in worker order, and only then is the queue drained. In the source they run concurrently with the drain. The order of completion matters only when two of these tasks share an id, and then the later one's value is the one kept.
- Bookkeeping.ObserveAllIsMinMax: covers positive periods only. A period of 0 ns leaves the minimum at the "not yet measured" mark 0, so the next period replaces it: `ObserveAll(FullTimes(0, 0), [5, 0, 7])` is `FullTimes(7, 7)`, not the least and greatest period.
- Pool.ThreadPool.Dispose: states only that the pool ends up not working and without workers. The full effect is `Terminate`'s contract.
- Pool.ThreadPool.RoutineFinish: an empty callable stops the model's step with the result left at -1. In the source it throws and the process terminates.
