/** The worker pool: class ThreadPool of ThreadPool.h and ThreadPool.cpp.
    Every block the source runs under a lock is one atomic step here; a
    worker is its id, and spawning or joining threads sets or clears the list
    of ids. */
module Pool {
  import opened Tasks
  import opened Queue
  import opened Bookkeeping

  /** QUEUE_SIZE, the capacity the pool gives its task queue. */
  const QueueSize: nat := 20

  /** What one pass of a worker's loop up to taking a task ends in: waiting
      for unpause, waiting for a task, leaving the loop, or holding a task. */
  datatype Acquisition = Blocked | Idle | Exit | Acquired(task: Task)

  /** The workers of `ws` that hold a task they took but have not finished,
      in the order of `ws`. */
  function HeldBy(running: map<int, Task>, ws: seq<int>): (r: seq<int>)
    ensures |r| <= |ws|
    ensures forall i :: 0 <= i < |r| ==> r[i] in running && r[i] in ws
    decreases |ws|
  {
    if ws == [] then []
    else (if ws[0] in running then [ws[0]] else []) + HeldBy(running, ws[1..])
  }

  /** Conversely, every worker of `ws` that holds a task is listed. */
  lemma {:induction false} HeldByComplete(running: map<int, Task>, ws: seq<int>)
    ensures forall w :: w in ws && w in running ==> w in HeldBy(running, ws)
    decreases |ws|
  {
    if ws != [] {
      HeldByComplete(running, ws[1..]);
      forall w | w in ws && w in running
        ensures w in HeldBy(running, ws)
      {
        if w != ws[0] {
          assert w in ws[1..] by {
            var i :| 0 <= i < |ws| && ws[i] == w;
            assert ws[1..][i - 1] == w;
          }
        }
      }
    }
  }

  /** The tasks those workers hold, in the same order. */
  function HeldTasks(running: map<int, Task>, ws: seq<int>): (r: seq<Task>)
    ensures |r| == |HeldBy(running, ws)|
    ensures forall i :: 0 <= i < |r| ==> r[i] == running[HeldBy(running, ws)[i]]
    decreases |ws|
  {
    if ws == [] then []
    else (if ws[0] in running then [running[ws[0]]] else []) + HeldTasks(running, ws[1..])
  }

  /** The results a join leaves: the held tasks finish first, in worker
      order, and then the queued tasks run in order. */
  function JoinResults(results: map<int, int>, running: map<int, Task>, ws: seq<int>, queue: seq<Task>): map<int, int>
    requires AllCallable(HeldTasks(running, ws)) && AllCallable(queue)
  {
    RunAll(RunAll(results, HeldTasks(running, ws)), queue)
  }

  /** The finished counts a join leaves: each holder is credited once, then
      each worker of the schedule once per task it took. */
  function JoinCounts(finished: map<int, int>, running: map<int, Task>, ws: seq<int>, schedule: seq<int>): map<int, int>
  {
    Credit(Credit(finished, HeldBy(running, ws)), schedule)
  }

  /** A join is one run of the held tasks followed by the queued ones, and
      one crediting of their holders followed by the schedule. */
  lemma JoinIsOneRun(results: map<int, int>, finished: map<int, int>, running: map<int, Task>,
                     ws: seq<int>, queue: seq<Task>, schedule: seq<int>)
    requires AllCallable(HeldTasks(running, ws)) && AllCallable(queue)
    ensures AllCallable(HeldTasks(running, ws) + queue)
    ensures JoinResults(results, running, ws, queue) == RunAll(results, HeldTasks(running, ws) + queue)
    ensures JoinCounts(finished, running, ws, schedule) == Credit(finished, HeldBy(running, ws) + schedule)
  {
    RunAllAppend(results, HeldTasks(running, ws), queue);
    CreditAppend(finished, HeldBy(running, ws), schedule);
  }

  /** One step of both: the first worker of `ws` contributes its task when
      it holds one. */
  lemma HeldStep(running: map<int, Task>, ws: seq<int>)
    requires ws != []
    ensures ws[0] in running ==>
      HeldBy(running, ws) == [ws[0]] + HeldBy(running, ws[1..]) &&
      HeldTasks(running, ws) == [running[ws[0]]] + HeldTasks(running, ws[1..])
    ensures ws[0] !in running ==>
      HeldBy(running, ws) == HeldBy(running, ws[1..]) &&
      HeldTasks(running, ws) == HeldTasks(running, ws[1..])
  {
  }

  /** The tasks the rest of `ws` holds can be run when all can, and so can
      the first worker's. */
  lemma HeldCallableStep(held: map<int, Task>, ws: seq<int>)
    requires ws != [] && AllCallable(HeldTasks(held, ws))
    ensures AllCallable(HeldTasks(held, ws[1..]))
    ensures ws[0] in held ==> Callable(held[ws[0]])
  {
    HeldStep(held, ws);
    if ws[0] in held {
      AllCallableSplit([held[ws[0]]], HeldTasks(held, ws[1..]));
    }
  }

  /** Finishing the first holder of `ws` and then the rest is finishing all
      of them: its task's value is recorded and it is credited once. */
  lemma FinishStep(held: map<int, Task>, ws: seq<int>, results: map<int, int>, finished: map<int, int>)
    requires ws != [] && AllCallable(HeldTasks(held, ws))
    ensures AllCallable(HeldTasks(held, ws[1..]))
    ensures ws[0] in held ==>
      var t := held[ws[0]];
      Callable(t) &&
      RunAll(results[t.id := t.work.value], HeldTasks(held, ws[1..])) == RunAll(results, HeldTasks(held, ws)) &&
      Credit(Bump(finished, ws[0]), HeldBy(held, ws[1..])) == Credit(finished, HeldBy(held, ws))
    ensures ws[0] !in held ==>
      RunAll(results, HeldTasks(held, ws[1..])) == RunAll(results, HeldTasks(held, ws)) &&
      Credit(finished, HeldBy(held, ws[1..])) == Credit(finished, HeldBy(held, ws))
  {
    HeldStep(held, ws);
    HeldCallableStep(held, ws);
    if ws[0] in held {
      var t := held[ws[0]];
      var all, allBy := HeldTasks(held, ws), HeldBy(held, ws);
      assert all[0] == t && all[1..] == HeldTasks(held, ws[1..]);
      assert allBy[0] == ws[0] && allBy[1..] == HeldBy(held, ws[1..]);
      assert results[t.id := -1][t.id := t.work.value] == results[t.id := t.work.value];
    }
  }

  /** A join of `workers` can end: `schedule` names the worker that takes
      each queued task, and every queued task and every held task can be
      run. When paused, no worker may ever reach the pause check again: the
      queue is empty, no task is held and every worker is waiting for a task,
      so the wake-up of terminate lets each of them leave. */
  ghost predicate JoinEnds(paused: bool, queue: seq<Task>, running: map<int, Task>, waiting: set<int>,
                           workers: seq<int>, schedule: seq<int>)
  {
    (paused ==> queue == [] && running == map[] && forall v :: 1 <= v <= |workers| ==> v in waiting) &&
    |schedule| == |queue| &&
    (forall k :: 0 <= k < |schedule| ==> schedule[k] in workers) &&
    AllCallable(queue) &&
    AllCallable(HeldTasks(running, workers))
  }

  class ThreadPool {
    /** The worker threads, each known by the id its routine was given. */
    var workers: seq<int>
    /** The task queue, constructed with capacity QueueSize. */
    const tasks: TaskQueue
    /** Task id to its last recorded result (-1 while it runs). */
    var results: map<int, int>
    /** Worker id to the number of tasks it finished. */
    var finished: map<int, int>
    /** Worker id to the task it has popped and is running: routine's local
        `task` between taking it and recording its result. */
    var running: map<int, Task>
    /** The workers that passed the pause check, found the queue empty and
        sleep in the wait for a task. When woken they pop again without
        looking at the pause flag. */
    var waiting: set<int>
    var rejectedNum: int
    /** Whether the queue has been seen full and no worker has looked at it
        since; fullBegin is when it was seen full, fullEnd when a worker next
        looked (time points in nanoseconds). */
    var queueFull: bool
    var fullBegin: int
    var fullEnd: int
    var maxFullTime: int
    var minFullTime: int
    var initialized: bool
    var paused: bool
    var terminated: bool

    /** The invariant of every state the pool can be in, also inside a
        termination: the queue keeps its capacity, workers exist exactly when
        the pool is initialized and carry the ids 1..n, only workers hold
        tasks, a waiting worker holds none, the terminating flag is
        only raised on an initialized pool, and the shortest full period never
        exceeds the longest. */
    ghost predicate Consistent()
      reads this, tasks
    {
      tasks.Valid() && tasks.size == QueueSize &&
      (initialized <==> workers != []) &&
      (forall i :: 0 <= i < |workers| ==> workers[i] == i + 1) &&
      (forall w :: w in running ==> 1 <= w <= |workers|) &&
      (forall w :: w in waiting ==> 1 <= w <= |workers| && w !in running) &&
      (terminated ==> initialized) &&
      minFullTime <= maxFullTime
    }

    /** Between operations a termination is never half done. */
    ghost predicate Valid()
      reads this, tasks
    {
      Consistent() && !terminated
    }

    /** working_unsafe(): the pool is initialized and not terminating. */
    predicate WorkingUnsafe()
      reads this
    {
      initialized && !terminated
    }

    function FullTimesOf(): FullTimes
      reads this
    {
      FullTimes(minFullTime, maxFullTime)
    }

    /** Every worker sleeps in the wait for a task. */
    ghost predicate AllWaiting()
      reads this
    {
      forall v :: 1 <= v <= |workers| ==> v in waiting
    }

    /** The join can end, as JoinEnds says of the pool's fields. */
    ghost predicate CanJoin(schedule: seq<int>)
      reads this, tasks
    {
      JoinEnds(paused, tasks.tasks, running, waiting, workers, schedule)
    }

    twostate predicate LifecycleUnchanged()
      reads this
    {
      workers == old(workers) && initialized == old(initialized) &&
      paused == old(paused) && terminated == old(terminated)
    }

    /** Results, finished counts, rejections, held tasks and waiting workers
        are as before. */
    twostate predicate StatsUnchanged()
      reads this
    {
      results == old(results) && finished == old(finished) && rejectedNum == old(rejectedNum) &&
      running == old(running) && waiting == old(waiting)
    }

    twostate predicate FullTimeUnchanged()
      reads this
    {
      queueFull == old(queueFull) && fullBegin == old(fullBegin) && fullEnd == old(fullEnd) &&
      minFullTime == old(minFullTime) && maxFullTime == old(maxFullTime)
    }

    /** The effect of a worker looking at the queue at time `now`: a full
        period that was open is closed and measured by compare_full_time. */
    twostate predicate FullPeriodClosed(now: int)
      reads this
    {
      if old(queueFull) then
        !queueFull && fullEnd == now && fullBegin == old(fullBegin) &&
        FullTimesOf() == Bookkeeping.CompareFullTime(old(FullTimesOf()), now - old(fullBegin))
      else
        FullTimeUnchanged()
    }

    /** ThreadPool(): no workers, an empty queue of capacity QueueSize, no
        results, no rejections, no full period measured, all flags false. */
    constructor ()
      ensures Valid() && fresh(tasks)
      ensures !WorkingUnsafe()
      ensures workers == [] && tasks.tasks == [] && tasks.size == QueueSize
      ensures results == map[] && finished == map[] && rejectedNum == 0 && running == map[] && waiting == {}
      ensures !queueFull && minFullTime == 0 && maxFullTime == 0
      ensures !initialized && !paused && !terminated
    {
      workers := [];
      tasks := new TaskQueue(QueueSize);
      results, finished, running := map[], map[], map[];
      waiting := {};
      rejectedNum := 0;
      queueFull := false;
      fullBegin, fullEnd := 0, 0;
      maxFullTime, minFullTime := 0, 0;
      initialized, paused, terminated := false, false, false;
    }

    /** ~ThreadPool(): runs terminate. */
    method Dispose(schedule: seq<int>, now: int)
      requires Valid()
      requires WorkingUnsafe() ==> CanJoin(schedule)
      modifies this, tasks
      ensures Valid() && !WorkingUnsafe() && workers == []
    {
      Terminate(schedule, now);
    }

    /** initialize(n): a no-op on an initialized or terminating pool;
        otherwise spawns workers 1..n in order and marks the pool initialized
        exactly when n > 0. */
    method Initialize(workerCount: nat)
      requires Valid()
      modifies this
      ensures Valid()
      ensures old(initialized || terminated) ==> workers == old(workers) && initialized == old(initialized)
      ensures !old(initialized || terminated) ==>
        |workers| == workerCount &&
        (forall i :: 0 <= i < workerCount ==> workers[i] == i + 1) &&
        (initialized <==> workerCount > 0)
      ensures paused == old(paused) && terminated == old(terminated)
      ensures StatsUnchanged() && FullTimeUnchanged()
    {
      if initialized || terminated {
        return;
      }
      var id := 1;
      while id <= workerCount
        invariant 1 <= id <= workerCount + 1
        invariant |workers| == id - 1
        invariant forall i :: 0 <= i < |workers| ==> workers[i] == i + 1
        invariant initialized == old(initialized) && paused == old(paused) && terminated == old(terminated)
        invariant StatsUnchanged() && FullTimeUnchanged()
      {
        workers := workers + [id];
        id := id + 1;
      }
      initialized := workers != [];
    }

    /** terminate(): on a pool that is not working, clears the workers and
        both flags and returns, so a second call is harmless. On a working
        pool, raises the terminating flag and joins the workers, which finish
        the tasks they hold and run every queued task (each worker leaves its
        loop only when it finds the queue empty); then clears the workers and
        both flags. The join ends only in the states JoinEnds describes. */
    method Terminate(schedule: seq<int>, now: int)
      requires Valid()
      requires WorkingUnsafe() ==> CanJoin(schedule)
      modifies this, tasks
      ensures Valid()
      ensures workers == [] && !initialized && !terminated && paused == old(paused)
      ensures rejectedNum == old(rejectedNum)
      ensures !old(WorkingUnsafe()) ==>
        results == old(results) && finished == old(finished) &&
        FullTimeUnchanged() && tasks.tasks == old(tasks.tasks)
      ensures old(WorkingUnsafe()) ==>
        tasks.tasks == [] &&
        results == JoinResults(old(results), old(running), old(workers), old(tasks.tasks)) &&
        finished == JoinCounts(old(finished), old(running), old(workers), schedule) &&
        FullPeriodClosed(now)
    {
      if !WorkingUnsafe() {
        AlreadyTerminated();
        return;
      }
      terminated := true;
      JoinAndRelease(schedule, now);
    }

    /** urgent_terminate(): as terminate, but on a working pool it also
        empties the queue before waking the workers, so no queued task runs:
        only the tasks workers already hold are finished, recorded and
        counted. */
    method UrgentTerminate(now: int)
      requires Valid()
      requires WorkingUnsafe() ==> JoinEnds(paused, [], running, waiting, workers, [])
      modifies this, tasks
      ensures Valid()
      ensures workers == [] && !initialized && !terminated && paused == old(paused)
      ensures rejectedNum == old(rejectedNum)
      ensures !old(WorkingUnsafe()) ==>
        results == old(results) && finished == old(finished) &&
        FullTimeUnchanged() && tasks.tasks == old(tasks.tasks)
      ensures old(WorkingUnsafe()) ==>
        tasks.tasks == [] &&
        results == RunAll(old(results), HeldTasks(old(running), old(workers))) &&
        finished == Credit(old(finished), HeldBy(old(running), old(workers))) &&
        FullPeriodClosed(now)
    {
      if !WorkingUnsafe() {
        AlreadyTerminated();
        return;
      }
      ghost var held, holders := HeldTasks(running, workers), HeldBy(running, workers);
      terminated := true;
      tasks.Clear();
      JoinAndRelease([], now);
      assert RunAll(RunAll(old(results), held), []) == RunAll(old(results), held);
      assert Credit(Credit(old(finished), holders), []) == Credit(old(finished), holders);
    }

    /** Both terminations on a pool that is not working: clear the workers
        and both flags, which leaves the pool as it was. */
    method AlreadyTerminated()
      requires Valid() && !WorkingUnsafe()
      modifies this
      ensures Valid() && workers == [] && !initialized && !terminated && paused == old(paused)
      ensures StatsUnchanged() && FullTimeUnchanged()
    {
      workers := [];
      terminated := false;
      initialized := false;
    }

    /** What both terminations do once the terminating flag is up: wake and
        join the workers, then clear the workers and both flags. */
    method JoinAndRelease(schedule: seq<int>, now: int)
      requires Consistent() && terminated && CanJoin(schedule)
      modifies this, tasks
      ensures Valid() && workers == [] && !initialized && !terminated && paused == old(paused)
      ensures rejectedNum == old(rejectedNum) && tasks.tasks == []
      ensures results == JoinResults(old(results), old(running), old(workers), old(tasks.tasks))
      ensures finished == JoinCounts(old(finished), old(running), old(workers), schedule)
      ensures FullPeriodClosed(now)
    {
      Join(schedule, now);
      Release();
    }

    /** The end of a termination: the joined workers are gone and both flags
        are down. */
    method Release()
      requires Consistent() && running == map[] && waiting == {}
      modifies this
      ensures Valid() && workers == [] && !initialized && !terminated && paused == old(paused)
      ensures StatsUnchanged() && FullTimeUnchanged()
    {
      workers := [];
      terminated := false;
      initialized := false;
    }

    /** The joins of terminate and urgent_terminate, with the terminating
        flag raised: the workers finish the tasks they hold, take the queued
        tasks in order (worker schedule[k] the k-th) and run them, then each
        finds the queue empty and leaves its loop. */
    method Join(schedule: seq<int>, now: int)
      requires Consistent() && terminated && CanJoin(schedule)
      modifies this, tasks
      ensures Consistent() && LifecycleUnchanged() && rejectedNum == old(rejectedNum)
      ensures tasks.tasks == [] && running == map[] && waiting == {}
      ensures results == JoinResults(old(results), old(running), workers, old(tasks.tasks))
      ensures finished == JoinCounts(old(finished), old(running), workers, schedule)
      ensures FullPeriodClosed(now)
    {
      FinishHeld();
      Drain(schedule, now);
    }

    /** The rest of a join: worker schedule[k] takes the k-th queued task and
        runs it, for each k in order, until the queue is empty; then every
        worker finds it empty and leaves its loop. */
    method Drain(schedule: seq<int>, now: int)
      requires Consistent() && terminated && CanJoin(schedule) && running == map[]
      modifies this, tasks
      ensures Consistent() && LifecycleUnchanged() && rejectedNum == old(rejectedNum)
      ensures running == map[] && waiting == {} && tasks.tasks == []
      ensures results == RunAll(old(results), old(tasks.tasks))
      ensures finished == Credit(old(finished), schedule)
      ensures FullPeriodClosed(now)
    {
      ghost var q0 := tasks.tasks;
      var k := 0;
      while k < |schedule|
        invariant 0 <= k <= |schedule|
        invariant Consistent() && LifecycleUnchanged() && rejectedNum == old(rejectedNum)
        invariant running == map[]
        invariant paused ==> |schedule| == 0
        invariant k == 0 ==> waiting == old(waiting)
        invariant tasks.tasks == q0[k..]
        invariant RunAll(results, q0[k..]) == RunAll(old(results), q0)
        invariant Credit(finished, schedule[k..]) == Credit(old(finished), schedule)
        invariant k == 0 ==> FullTimeUnchanged()
        invariant k > 0 ==> FullPeriodClosed(now)
      {
        assert q0[k..][0] == q0[k];
        RoutinePass(schedule[k], now);
        assert q0[k..] == [q0[k]] + q0[k + 1..];
        assert schedule[k..] == [schedule[k]] + schedule[k + 1..];
        k := k + 1;
      }
      LeaveLoops(now);
    }

    /** The first part of a join: every worker holding a task runs it to
        completion, recording its value and counting it, in worker order. */
    method FinishHeld()
      requires Consistent() && AllCallable(HeldTasks(running, workers))
      modifies this
      ensures Consistent() && LifecycleUnchanged() && FullTimeUnchanged() && rejectedNum == old(rejectedNum)
      ensures running == map[] && waiting == old(waiting)
      ensures results == RunAll(old(results), HeldTasks(old(running), workers))
      ensures finished == Credit(old(finished), HeldBy(old(running), workers))
    {
      ghost var held := running;
      var w := 0;
      while w < |workers|
        invariant 0 <= w <= |workers|
        invariant Consistent() && LifecycleUnchanged() && FullTimeUnchanged() && rejectedNum == old(rejectedNum)
        invariant HeldProgress(held, old(results), old(finished), w)
        invariant waiting == old(waiting)
        invariant forall v :: v in held ==> v <= |workers|
      {
        FinishAt(w, held, old(results), old(finished));
        w := w + 1;
      }
      assert forall v :: v !in running;
      assert running.Keys == {};
    }

    /** How far FinishHeld got: the workers before index w hold nothing any
        more, those from w on still hold what they held (`held`), and finishing
        the rest gives the results and counts of finishing all of them from
        `r0` and `f0`. */
    ghost predicate HeldProgress(held: map<int, Task>, r0: map<int, int>, f0: map<int, int>, w: int)
      reads this
      requires 0 <= w <= |workers|
    {
      (forall v :: v in running <==> v in held && v > w) &&
      (forall v :: v in running ==> running[v] == held[v]) &&
      AllCallable(HeldTasks(held, workers)) &&
      AllCallable(HeldTasks(held, workers[w..])) &&
      RunAll(results, HeldTasks(held, workers[w..])) == RunAll(r0, HeldTasks(held, workers)) &&
      Credit(finished, HeldBy(held, workers[w..])) == Credit(f0, HeldBy(held, workers))
    }

    /** One step of FinishHeld: worker workers[w] finishes the task it holds,
        if any. */
    method FinishAt(w: nat, ghost held: map<int, Task>, ghost r0: map<int, int>, ghost f0: map<int, int>)
      requires Consistent() && w < |workers| && HeldProgress(held, r0, f0, w)
      modifies this
      ensures Consistent() && LifecycleUnchanged() && FullTimeUnchanged() && rejectedNum == old(rejectedNum)
      ensures HeldProgress(held, r0, f0, w + 1)
      ensures waiting == old(waiting)
    {
      var v := workers[w];
      assert v == w + 1;
      ghost var ws := workers[w..];
      assert ws[0] == v && ws[1..] == workers[w + 1..];
      FinishStep(held, ws, results, finished);
      if v in running {
        var done := RoutineFinish(v);
      }
    }

    /** One whole pass of routine(worker) while the queue holds a task that
        can be run: the worker takes the oldest task, closes an open full
        period, marks the task -1, runs it, records its value and counts it. */
    method RoutinePass(worker: int, now: int)
      requires Consistent() && !paused && worker in workers && worker !in running
      requires tasks.tasks != [] && Callable(tasks.tasks[0])
      modifies this, tasks
      ensures Consistent() && LifecycleUnchanged() && rejectedNum == old(rejectedNum)
      ensures running == old(running) && waiting == old(waiting) - {worker}
      ensures tasks.tasks == old(tasks.tasks)[1..]
      ensures var t := old(tasks.tasks)[0];
        results == old(results)[t.id := -1][t.id := t.work.value]
      ensures finished == Bump(old(finished), worker)
      ensures FullPeriodClosed(now)
    {
      var a := RoutineAcquire(worker, now);
      var done := RoutineFinish(worker);
    }

    /** The end of a join: with the queue empty and the terminating flag up,
        each worker finds nothing to pop and leaves its loop; the first of
        them closes an open full period. A paused pool gets here only with
        every worker waiting for a task, which does not look at the pause
        flag again. */
    method LeaveLoops(now: int)
      requires Consistent() && terminated && tasks.tasks == [] && running == map[]
      requires paused ==> AllWaiting()
      modifies this, tasks
      ensures Consistent() && LifecycleUnchanged()
      ensures results == old(results) && finished == old(finished) && rejectedNum == old(rejectedNum)
      ensures running == map[] && waiting == {} && tasks.tasks == []
      ensures FullPeriodClosed(now)
    {
      var w := 0;
      while w < |workers|
        invariant 0 <= w <= |workers|
        invariant Consistent() && LifecycleUnchanged() && running == map[] && tasks.tasks == []
        invariant results == old(results) && finished == old(finished) && rejectedNum == old(rejectedNum)
        invariant forall v :: v in waiting ==> v > w
        invariant paused ==> forall v :: w < v <= |workers| ==> v in waiting
        invariant w == 0 ==> FullTimeUnchanged()
        invariant w > 0 ==> FullPeriodClosed(now)
      {
        var a := RoutineAcquire(workers[w], now);
        assert a == Exit;
        w := w + 1;
      }
      assert forall v :: v !in waiting;
    }

    /** One pass of routine(worker) up to holding a task, at time `now`.
        A worker that is not yet waiting for a task first checks the pause
        flag and, while paused, waits for unpause. A waiting worker that is
        woken skips that check, so it takes a task even on a paused pool.
        Then, as in TakeTask, it pops the oldest task. A worker holding a
        task is running it, so it cannot be at this point. */
    method RoutineAcquire(worker: int, now: int) returns (a: Acquisition)
      requires Consistent() && worker in workers && worker !in running
      modifies this, tasks
      ensures Consistent() && LifecycleUnchanged()
      ensures finished == old(finished) && rejectedNum == old(rejectedNum)
      ensures old(paused) && worker !in old(waiting) ==>
        a == Blocked && results == old(results) && running == old(running) && waiting == old(waiting) &&
        tasks.tasks == old(tasks.tasks) && FullTimeUnchanged()
      ensures (!old(paused) || worker in old(waiting)) && old(tasks.tasks) == [] ==>
        a == (if terminated then Exit else Idle) && tasks.tasks == [] &&
        results == old(results) && running == old(running) &&
        waiting == (if terminated then old(waiting) - {worker} else old(waiting) + {worker}) &&
        FullPeriodClosed(now)
      ensures (!old(paused) || worker in old(waiting)) && old(tasks.tasks) != [] ==>
        a == Acquired(old(tasks.tasks)[0]) && tasks.tasks == old(tasks.tasks)[1..] &&
        results == old(results)[a.task.id := -1] && running == old(running)[worker := a.task] &&
        waiting == old(waiting) - {worker} && FullPeriodClosed(now)
    {
      if paused && worker !in waiting {
        return Blocked;
      }
      a := TakeTask(worker, now);
    }

    /** The pass as pause() is documented to work: the pause flag is looked
        at on every wake-up too, so a paused pool hands out no task. A waiting
        worker that is woken while paused goes back to wait for unpause. */
    method RoutineAcquireRechecked(worker: int, now: int) returns (a: Acquisition)
      requires Consistent() && worker in workers && worker !in running
      modifies this, tasks
      ensures Consistent() && LifecycleUnchanged()
      ensures finished == old(finished) && rejectedNum == old(rejectedNum)
      ensures old(paused) ==>
        a == Blocked && results == old(results) && running == old(running) &&
        waiting == old(waiting) - {worker} && tasks.tasks == old(tasks.tasks) && FullTimeUnchanged()
      ensures !old(paused) && old(tasks.tasks) == [] ==>
        a == (if terminated then Exit else Idle) && tasks.tasks == [] &&
        results == old(results) && running == old(running) &&
        waiting == (if terminated then old(waiting) - {worker} else old(waiting) + {worker}) &&
        FullPeriodClosed(now)
      ensures !old(paused) && old(tasks.tasks) != [] ==>
        a == Acquired(old(tasks.tasks)[0]) && tasks.tasks == old(tasks.tasks)[1..] &&
        results == old(results)[a.task.id := -1] && running == old(running)[worker := a.task] &&
        waiting == old(waiting) - {worker} && FullPeriodClosed(now)
    {
      if paused {
        waiting := waiting - {worker};
        return Blocked;
      }
      a := TakeTask(worker, now);
    }

    /** The wait for a task, once entered: the worker pops the oldest task
        and closes an open full period. With no task it leaves the loop if
        the pool is terminating and otherwise sleeps until woken; with a task
        it marks that task's result -1 ("executing") and holds it. */
    method TakeTask(worker: int, now: int) returns (a: Acquisition)
      requires Consistent() && worker in workers && worker !in running
      modifies this, tasks
      ensures Consistent() && LifecycleUnchanged()
      ensures finished == old(finished) && rejectedNum == old(rejectedNum)
      ensures old(tasks.tasks) == [] ==>
        a == (if terminated then Exit else Idle) && tasks.tasks == [] &&
        results == old(results) && running == old(running) &&
        waiting == (if terminated then old(waiting) - {worker} else old(waiting) + {worker}) &&
        FullPeriodClosed(now)
      ensures old(tasks.tasks) != [] ==>
        a == Acquired(old(tasks.tasks)[0]) && tasks.tasks == old(tasks.tasks)[1..] &&
        results == old(results)[a.task.id := -1] && running == old(running)[worker := a.task] &&
        waiting == old(waiting) - {worker} && FullPeriodClosed(now)
    {
      var acquired, task := PopAndMeasure(now);
      if !acquired {
        if terminated {
          waiting := waiting - {worker};
          a := Exit;
        } else {
          waiting := waiting + {worker};
          a := Idle;
        }
        return;
      }
      results := results[task.id := -1];
      running := running[worker := task];
      waiting := waiting - {worker};
      a := Acquired(task);
    }

    /** The body of the wait predicate: pop the oldest task and close an
        open full period. */
    method PopAndMeasure(now: int) returns (acquired: bool, task: Task)
      requires Consistent()
      modifies this, tasks
      ensures Consistent() && LifecycleUnchanged() && StatsUnchanged()
      ensures acquired <==> old(tasks.tasks) != []
      ensures acquired ==> task == old(tasks.tasks)[0] && tasks.tasks == old(tasks.tasks)[1..]
      ensures !acquired ==> tasks.tasks == []
      ensures FullPeriodClosed(now)
    {
      acquired, task := tasks.Pop(DefaultTask());
      if queueFull {
        fullEnd := now;
        queueFull := false;
        CompareFullTime();
      }
    }

    /** The rest of that pass: run the task the worker holds, record its
        result, count it for the worker and hold nothing. An empty callable
        throws instead, which ends the process with the result left at -1. */
    method RoutineFinish(worker: int) returns (completed: bool)
      requires Consistent() && worker in running
      modifies this
      ensures Consistent() && LifecycleUnchanged() && FullTimeUnchanged()
      ensures rejectedNum == old(rejectedNum) && waiting == old(waiting)
      ensures var task := old(running)[worker];
        (completed <==> Callable(task)) &&
        (completed ==>
          results == old(results)[task.id := task.work.value] && finished == Bump(old(finished), worker) &&
          running == old(running) - {worker}) &&
        (!completed ==> StatsUnchanged())
    {
      var task := running[worker];
      if task.work.None? {
        return false;
      }
      var result := task.work.value;
      results := results[task.id := result];
      finished := Bump(finished, worker);
      running := running - {worker};
      completed := true;
    }

    /** pause(): raises the pause flag and touches nothing else. */
    method Pause()
      requires Valid()
      modifies this
      ensures Valid() && paused
      ensures workers == old(workers) && initialized == old(initialized) && terminated == old(terminated)
      ensures StatsUnchanged() && FullTimeUnchanged()
    {
      paused := true;
    }

    /** unpause(): lowers the pause flag and touches nothing else. */
    method Unpause()
      requires Valid()
      modifies this
      ensures Valid() && !paused
      ensures workers == old(workers) && initialized == old(initialized) && terminated == old(terminated)
      ensures StatsUnchanged() && FullTimeUnchanged()
    {
      paused := false;
    }

    /** working(): initialized and not terminating; between operations this
        is the same as having workers. */
    method Working() returns (w: bool)
      requires Valid()
      ensures w <==> initialized && !terminated
      ensures w <==> workers != []
    {
      w := WorkingUnsafe();
    }

    /** get_result(id): the recorded result, 0 for an id never recorded (and
        operator[] stores that 0). */
    method GetResult(id: int) returns (r: int)
      requires Valid()
      modifies this
      ensures Valid() && LifecycleUnchanged() && FullTimeUnchanged()
      ensures r == Lookup(old(results), id)
      ensures results == Touch(old(results), id)
      ensures finished == old(finished) && rejectedNum == old(rejectedNum)
      ensures running == old(running) && waiting == old(waiting)
    {
      if id !in results {
        results := results[id := 0];
      }
      r := results[id];
    }

    /** get_status(id): 1 for a result of 0 (also an id never recorded), 2
        for a positive result, 3 for a negative one. */
    method GetStatus(id: int) returns (s: int)
      requires Valid()
      modifies this
      ensures Valid() && LifecycleUnchanged() && FullTimeUnchanged()
      ensures s == StatusOf(Lookup(old(results), id))
      ensures id !in old(results) ==> s == NotStarted
      ensures results == Touch(old(results), id)
      ensures finished == old(finished) && rejectedNum == old(rejectedNum)
      ensures running == old(running) && waiting == old(waiting)
    {
      if id !in results {
        results := results[id := 0];
      }
      s := StatusOf(results[id]);
    }

    /** compare_full_time(): measures the full period from fullBegin to
        fullEnd into the min/max pair. */
    method CompareFullTime()
      requires minFullTime <= maxFullTime
      modifies this
      ensures minFullTime <= maxFullTime
      ensures FullTimesOf() == Bookkeeping.CompareFullTime(old(FullTimesOf()), fullEnd - fullBegin)
      ensures fullEnd == old(fullEnd) && fullBegin == old(fullBegin) && queueFull == old(queueFull)
      ensures LifecycleUnchanged() && StatsUnchanged()
    {
      var r := Bookkeeping.CompareFullTime(FullTimesOf(), fullEnd - fullBegin);
      minFullTime, maxFullTime := r.minNs, r.maxNs;
    }

    /** add_task(task) at time `now`: nothing on a pool that is not working.
        Otherwise the task is queued when the queue holds at most QueueSize
        tasks and counted as rejected when not; a queue left holding exactly
        QueueSize tasks opens a full period unless one is open already. */
    method AddTask(task: Task, now: int)
      requires Valid()
      modifies this, tasks
      ensures Valid() && LifecycleUnchanged()
      ensures results == old(results) && finished == old(finished)
      ensures running == old(running) && waiting == old(waiting)
      ensures fullEnd == old(fullEnd) && minFullTime == old(minFullTime) && maxFullTime == old(maxFullTime)
      ensures !old(WorkingUnsafe()) ==>
        tasks.tasks == old(tasks.tasks) && rejectedNum == old(rejectedNum) && FullTimeUnchanged()
      ensures old(WorkingUnsafe()) ==>
        var accepted := |old(tasks.tasks)| <= QueueSize;
        tasks.tasks == (if accepted then old(tasks.tasks) + [task] else old(tasks.tasks)) &&
        rejectedNum == old(rejectedNum) + (if accepted then 0 else 1) &&
        if |tasks.tasks| == QueueSize && !old(queueFull) then
          queueFull && fullBegin == now
        else
          queueFull == old(queueFull) && fullBegin == old(fullBegin)
    {
      var working := Working();
      if !working {
        return;
      }
      var ok := tasks.Emplace(task);
      if !ok {
        rejectedNum := rejectedNum + 1;
      }
      var n := tasks.GetSize();
      if n == QueueSize && !queueFull {
        fullBegin := now;
        queueFull := true;
      }
    }

    /** delete_task(id): nothing on a pool that is not working; otherwise
        removes the first queued task with that id. */
    method DeleteTask(id: int)
      requires Valid()
      modifies tasks
      ensures Valid()
      ensures tasks.tasks == if old(WorkingUnsafe()) then RemoveFirst(old(tasks.tasks), id) else old(tasks.tasks)
    {
      var working := Working();
      if !working {
        return;
      }
      tasks.Remove(id);
    }
  }
}
