/** Clients of the queue and the pool: short runs of the operations whose
    outcome follows from the contracts alone. */
module Scenarios {
  import opened Tasks
  import opened Queue
  import opened Bookkeeping
  import opened Pool

  /** A queue of capacity 3 accepts tasks 1 to 4 (the check admits one task
      beyond the capacity), rejects task 5, and hands out 1, 2, 3, 4 in that
      order. */
  method CapacityThreeAdmitsFour() returns (accepted: seq<bool>, popped: seq<int>)
    ensures accepted == [true, true, true, true, false]
    ensures popped == [1, 2, 3, 4]
  {
    var q := new TaskQueue(3);
    var a1 := q.Emplace(FromId(1));
    var a2 := q.Emplace(FromId(2));
    var a3 := q.Emplace(FromId(3));
    var a4 := q.Emplace(FromId(4));
    var a5 := q.Emplace(FromId(5));
    accepted := [a1, a2, a3, a4, a5];
    popped := [];
    var ok, t := q.Pop(DefaultTask());
    while ok
      invariant q.Valid()
      invariant ok ==> popped + [t.id] + Ids(q.tasks) == [1, 2, 3, 4]
      invariant !ok ==> popped == [1, 2, 3, 4]
      decreases |q.tasks| + (if ok then 1 else 0)
      modifies q
    {
      popped := popped + [t.id];
      ok, t := q.Pop(t);
    }
  }

  /** The ids of a sequence of tasks, in order. */
  function Ids(s: seq<Task>): (r: seq<int>)
    ensures |r| == |s| && forall i :: 0 <= i < |s| ==> r[i] == s[i].id
  {
    if s == [] then [] else [s[0].id] + Ids(s[1..])
  }

  /** Removing task 2 from the queue 1, 2, 3 leaves 1, 3 to be run. */
  method RemoveMiddle() returns (popped: seq<int>)
    ensures popped == [1, 3]
  {
    var q := new TaskQueue(5);
    var _ := q.Emplace(FromId(1));
    var _ := q.Emplace(FromId(2));
    var _ := q.Emplace(FromId(3));
    assert q.tasks == [FromId(1), FromId(2), FromId(3)];
    assert FindFirst(q.tasks, 2) == 1;
    q.Remove(2);
    assert q.tasks == [FromId(1), FromId(3)];
    var ok1, t1 := q.Pop(DefaultTask());
    var ok2, t2 := q.Pop(DefaultTask());
    popped := [t1.id, t2.id];
  }

  /** The tasks of ids 1 to n, in that order. */
  function FirstTasks(n: nat): (r: seq<Task>)
    ensures |r| == n
    ensures forall i :: 0 <= i < n ==> r[i] == FromId(i + 1)
  {
    if n == 0 then [] else FirstTasks(n - 1) + [FromId(n)]
  }

  /** A new pool, initialized with two workers and then once more with three
      (which adds none), holding the submitted tasks 1 to 5. */
  method TwoWorkersFiveTasks() returns (pool: ThreadPool)
    ensures fresh(pool) && fresh(pool.tasks)
    ensures pool.Valid() && pool.WorkingUnsafe() && !pool.paused
    ensures pool.workers == [1, 2]
    ensures pool.results == map[] && pool.finished == map[] && pool.running == map[]
    ensures |pool.tasks.tasks| == 5
    ensures forall i :: 0 <= i < 5 ==> pool.tasks.tasks[i] == FromId(i + 1)
  {
    pool := new ThreadPool();
    pool.Initialize(2);
    pool.Initialize(3);
    assert pool.workers == [1, 2];
    var id := 1;
    while id <= 5
      invariant 1 <= id <= 6
      invariant pool.Valid() && pool.WorkingUnsafe() && !pool.paused
      invariant pool.workers == [1, 2]
      invariant pool.results == map[] && pool.finished == map[] && pool.running == map[]
      invariant pool.tasks.tasks == FirstTasks(id - 1)
      modifies pool, pool.tasks
    {
      pool.AddTask(FromId(id), 0);
      id := id + 1;
    }
  }

  /** Those five tasks on those two workers, then a graceful terminate in
      which the workers take the tasks in turn: every task ran and each turn
      was credited. */
  method TerminateFiveTasks() returns (pool: ThreadPool, ghost queued: seq<Task>)
    ensures fresh(pool) && pool.Valid() && !pool.WorkingUnsafe()
    ensures |queued| == 5 && forall i :: 0 <= i < 5 ==> queued[i] == FromId(i + 1)
    ensures AllCallable(queued)
    ensures pool.results == RunAll(map[], queued)
    ensures pool.finished == Credit(map[], [1, 2, 1, 2, 1])
  {
    pool := TwoWorkersFiveTasks();
    var schedule := [1, 2, 1, 2, 1];
    queued := pool.tasks.tasks;
    assert HeldTasks(map[], [1, 2]) == [] && HeldBy(map[], [1, 2]) == [];
    assert pool.CanJoin(schedule);
    pool.Terminate(schedule, 0);
  }

  /** Five tasks of ids 1 to 5 on two workers and a graceful terminate:
      every task has its id as result, task 3 is reported completed, and the
      two workers finished five tasks between them. */
  method FiveTasksOnTwoWorkers() returns (total: int, status: int)
    ensures total == 5
    ensures status == Completed
  {
    var pool, queued := TerminateFiveTasks();
    assert DistinctIds(queued);
    CreditTotal(map[], [1, 2], [1, 2, 1, 2, 1]);
    total := Total(pool.finished, [1, 2]);
    RunAllRecords(map[], queued);
    assert queued[2].id == 3;
    status := pool.GetStatus(3);
  }

  /** An urgent terminate discards the queued tasks: none of them ever gets a
      result, so each still reads as not started. */
  method UrgentTerminateDiscards() returns (status: int, queued: nat)
    ensures status == NotStarted
    ensures queued == 0
  {
    var pool := new ThreadPool();
    pool.Initialize(2);
    pool.AddTask(FromId(1), 0);
    pool.AddTask(FromId(2), 0);
    pool.UrgentTerminate(10);
    status := pool.GetStatus(1);
    queued := pool.tasks.GetSize();
  }

  /** A pool with one worker that has taken task 7 and not yet run it. */
  method WorkerHoldsSeven() returns (pool: ThreadPool)
    ensures fresh(pool) && fresh(pool.tasks)
    ensures pool.Valid() && pool.WorkingUnsafe() && !pool.paused
    ensures pool.workers == [1] && pool.tasks.tasks == []
    ensures pool.running == map[1 := FromId(7)]
    ensures pool.results == map[7 := -1] && pool.finished == map[]
  {
    pool := new ThreadPool();
    pool.Initialize(1);
    assert pool.workers[0] == 1;
    pool.AddTask(FromId(7), 0);
    var a := pool.RoutineAcquire(1, 1);
  }

  /** A task a worker has already taken is not lost to a termination: the
      join waits for it, so it reads as completed and counts for its worker,
      under terminate and urgent_terminate alike. */
  method HeldTaskFinishes(urgent: bool) returns (status: int, count: int)
    ensures status == Completed
    ensures count == 1
  {
    var pool := WorkerHoldsSeven();
    ghost var r0 := pool.results;
    assert HeldBy(pool.running, [1]) == [1];
    assert HeldTasks(pool.running, [1]) == [FromId(7)];
    if urgent {
      pool.UrgentTerminate(2);
    } else {
      pool.Terminate([], 2);
      assert pool.results == RunAll(RunAll(r0, [FromId(7)]), []);
    }
    assert pool.results == RunAll(r0, [FromId(7)]) == map[7 := 7];
    status := pool.GetStatus(7);
    count := Lookup(pool.finished, 1);
  }

  /** A worker whose pass starts after pause takes nothing; after unpause it
      takes the oldest task and its status reads "executing" until it is
      run. */
  method PauseHoldsWorkers() returns (held: Acquisition, taken: Acquisition, status: int)
    ensures held == Blocked
    ensures taken == Acquired(FromId(7))
    ensures status == Executing
  {
    var pool := new ThreadPool();
    pool.Initialize(1);
    assert pool.workers[0] == 1;
    pool.Pause();
    pool.AddTask(FromId(7), 0);
    pool.AddTask(FromId(8), 0);
    held := pool.RoutineAcquire(1, 5);
    pool.Unpause();
    taken := pool.RoutineAcquire(1, 6);
    status := pool.GetStatus(7);
  }

  /** A worker that went to wait for a task before the pool was paused is
      woken by the next submission and takes it, although the pool is
      paused: the wake-up does not look at the pause flag. */
  method PausedPoolHandsOutTask() returns (first: Acquisition, second: Acquisition, paused: bool)
    ensures first == Idle
    ensures second == Acquired(FromId(7))
    ensures paused
  {
    var pool := new ThreadPool();
    pool.Initialize(1);
    assert pool.workers[0] == 1;
    first := pool.RoutineAcquire(1, 0);
    pool.Pause();
    pool.AddTask(FromId(7), 1);
    second := pool.RoutineAcquire(1, 2);
    paused := pool.paused;
  }

  /** The same run with the pause flag looked at on every wake-up: the
      submission stays queued while paused and is taken after unpause. */
  method PausedSubmissionWaitsWhenRechecked() returns (first: Acquisition, held: Acquisition, taken: Acquisition)
    ensures first == Idle
    ensures held == Blocked
    ensures taken == Acquired(FromId(7))
  {
    var pool := new ThreadPool();
    pool.Initialize(1);
    assert pool.workers[0] == 1;
    first := pool.RoutineAcquireRechecked(1, 0);
    pool.Pause();
    pool.AddTask(FromId(7), 1);
    held := pool.RoutineAcquireRechecked(1, 2);
    pool.Unpause();
    taken := pool.RoutineAcquireRechecked(1, 3);
  }

  /** A paused pool whose only worker waits for a task on an empty queue
      still terminates: the wake-up finds nothing and the worker leaves. */
  method PausedIdlePoolTerminates() returns (working: bool, paused: bool)
    ensures !working
    ensures paused
  {
    var pool := new ThreadPool();
    pool.Initialize(1);
    assert pool.workers[0] == 1;
    var a := pool.RoutineAcquire(1, 0);
    pool.Pause();
    assert pool.AllWaiting();
    pool.Terminate([], 1);
    working := pool.Working();
    paused := pool.paused;
  }

  /** Twenty-two submissions to a working pool: the twentieth opens a full
      period, the twenty-first is still accepted, and only the twenty-second
      is rejected and counted. */
  method TwentyTwoSubmissions() returns (queued: nat, rejected: int, full: bool)
    ensures queued == QueueSize + 1
    ensures rejected == 1
    ensures full
  {
    var pool := new ThreadPool();
    pool.Initialize(4);
    var id := 1;
    while id <= 22
      invariant 1 <= id <= 23
      invariant pool.Valid() && pool.WorkingUnsafe()
      invariant |pool.tasks.tasks| == if id <= 22 then id - 1 else 21
      invariant pool.rejectedNum == if id <= 22 then 0 else 1
      invariant pool.queueFull <==> id > 20
      modifies pool, pool.tasks
    {
      pool.AddTask(FromId(id), id);
      id := id + 1;
    }
    queued := pool.tasks.GetSize();
    rejected := pool.rejectedNum;
    full := pool.queueFull;
  }
}
