/** The pool's results and statistics, as values: the `results` and
    `finished_tasks_statistics` maps, get_status's classification and
    compare_full_time's min/max update (ThreadPool.cpp). */
module Bookkeeping {
  import opened Tasks

  /** Reading `m[k]` of a std::unordered_map<int, int>: a key never stored
      reads as 0. */
  function Lookup(m: map<int, int>, k: int): (r: int)
    ensures k in m ==> r == m[k]
    ensures k !in m ==> r == 0
  {
    if k in m then m[k] else 0
  }

  /** The side effect of that read: operator[] inserts a 0 for a missing key.
      The insertion is invisible to every later read. */
  function Touch(m: map<int, int>, k: int): (r: map<int, int>)
    ensures r.Keys == m.Keys + {k}
    ensures forall j :: Lookup(r, j) == Lookup(m, j)
  {
    if k in m then m else m[k := 0]
  }

  /** `m[k]++`: one more for key k, starting from 0 for a missing key. */
  function Bump(m: map<int, int>, k: int): (r: map<int, int>)
    ensures r.Keys == m.Keys + {k}
    ensures Lookup(r, k) == Lookup(m, k) + 1
    ensures forall j :: j != k ==> Lookup(r, j) == Lookup(m, j)
  {
    m[k := Lookup(m, k) + 1]
  }

  /** get_status's codes: 1 "not started", 2 "completed", 3 "executing". */
  const NotStarted := 1
  const Completed := 2
  const Executing := 3

  /** get_status: classifies a stored result by its sign. The classification
      is total and its three cases do not overlap. */
  function StatusOf(result: int): (s: int)
    ensures s == NotStarted || s == Completed || s == Executing
    ensures s == NotStarted <==> result == 0
    ensures s == Completed <==> result > 0
    ensures s == Executing <==> result < 0
  {
    if result == 0 then NotStarted
    else if result > 0 then Completed
    else Executing
  }

  /** What get_status reports for a task while it runs, after it completed,
      and before it was ever recorded. Because the status is read off the
      result, a task whose work returns 0 looks "not started" once done, and
      one returning a negative value looks "executing" forever. */
  lemma StatusOfRecordedResults(results: map<int, int>, t: Task)
    requires Callable(t)
    ensures StatusOf(Lookup(results[t.id := -1], t.id)) == Executing
    ensures t.work.value > 0 ==> StatusOf(Lookup(results[t.id := t.work.value], t.id)) == Completed
    ensures t.work.value == 0 ==> StatusOf(Lookup(results[t.id := t.work.value], t.id)) == NotStarted
    ensures t.work.value < 0 ==> StatusOf(Lookup(results[t.id := t.work.value], t.id)) == Executing
    ensures t.id !in results ==> StatusOf(Lookup(results, t.id)) == NotStarted
  {
  }

  /** A task built by Task(id) returns its id, so its completion is reported
      as such only for a positive id. */
  lemma StatusOfTaskFromId(results: map<int, int>, id: int)
    ensures StatusOf(Lookup(results[id := FromId(id).work.value], id)) == Completed <==> id > 0
  {
  }

  /** min_full_time and max_full_time, in nanoseconds. A minimum of 0 means
      that no full period has been measured yet. */
  datatype FullTimes = FullTimes(minNs: int, maxNs: int)

  function Min(a: int, b: int): int { if a <= b then a else b }
  function Max(a: int, b: int): int { if a >= b then a else b }

  /** compare_full_time with `elapsed` = full_end - full_begin: the first
      measurement (minimum still 0) sets the minimum; afterwards the maximum
      never decreases, a set minimum never increases, and each ends up either
      where it was or at `elapsed`. A minimum at most the maximum stays so. */
  function CompareFullTime(t: FullTimes, elapsed: int): (r: FullTimes)
    ensures t.minNs == 0 ==> r.minNs == elapsed
    ensures t.minNs != 0 ==> r.minNs <= t.minNs && r.minNs <= elapsed
    ensures r.minNs == t.minNs || r.minNs == elapsed
    ensures r.maxNs >= t.maxNs && r.maxNs >= elapsed
    ensures r.maxNs == t.maxNs || r.maxNs == elapsed
    ensures t.minNs <= t.maxNs ==> r.minNs <= r.maxNs
  {
    var m := if t.minNs == 0 then elapsed else t.minNs;
    FullTimes(Min(m, elapsed), Max(t.maxNs, elapsed))
  }

  /** compare_full_time applied to each measured full period in turn. */
  function ObserveAll(t: FullTimes, es: seq<int>): FullTimes
    decreases |es|
  {
    if es == [] then t else ObserveAll(CompareFullTime(t, es[0]), es[1..])
  }

  /** Starting from the pool's initial (0, 0) and measuring only positive
      periods, the pair is the least and the greatest period measured. */
  lemma {:induction false} ObserveAllIsMinMax(es: seq<int>)
    requires es != []
    requires forall i :: 0 <= i < |es| ==> es[i] > 0
    ensures var r := ObserveAll(FullTimes(0, 0), es);
      r.minNs in es && r.maxNs in es &&
      forall i :: 0 <= i < |es| ==> r.minNs <= es[i] <= r.maxNs
  {
    var t := CompareFullTime(FullTimes(0, 0), es[0]);
    assert t == FullTimes(es[0], es[0]);
    ObserveAllFrom(t, es[1..]);
    assert es == [es[0]] + es[1..];
  }

  /** Once a positive minimum is set, further positive periods keep the pair
      ordered, and each bound is either its old value or a measured period. */
  lemma {:induction false} ObserveAllFrom(t: FullTimes, es: seq<int>)
    requires 0 < t.minNs <= t.maxNs
    requires forall i :: 0 <= i < |es| ==> es[i] > 0
    ensures var r := ObserveAll(t, es);
      0 < r.minNs <= r.maxNs &&
      r.minNs <= t.minNs && r.maxNs >= t.maxNs &&
      (r.minNs == t.minNs || r.minNs in es) &&
      (r.maxNs == t.maxNs || r.maxNs in es) &&
      forall i :: 0 <= i < |es| ==> r.minNs <= es[i] <= r.maxNs
    decreases |es|
  {
    if es != [] {
      var t' := CompareFullTime(t, es[0]);
      ObserveAllFrom(t', es[1..]);
      assert es == [es[0]] + es[1..];
      var r := ObserveAll(t, es);
      assert r == ObserveAll(t', es[1..]);
      forall i | 0 <= i < |es|
        ensures r.minNs <= es[i] <= r.maxNs
      {
        if i > 0 {
          assert es[i] == es[1..][i - 1];
        }
      }
    }
  }

  /** The results map after the given tasks all ran to completion in order:
      each first marked -1, then given its work's value, the later task
      winning for a repeated id. */
  function RunAll(results: map<int, int>, q: seq<Task>): map<int, int>
    requires AllCallable(q)
    decreases |q|
  {
    if q == [] then results
    else RunAll(results[q[0].id := -1][q[0].id := q[0].work.value], q[1..])
  }

  /** Running one list of tasks and then another is running the two in
      order. */
  lemma {:induction false} RunAllAppend(results: map<int, int>, a: seq<Task>, b: seq<Task>)
    requires AllCallable(a) && AllCallable(b)
    ensures AllCallable(a + b)
    ensures RunAll(RunAll(results, a), b) == RunAll(results, a + b)
    decreases |a|
  {
    if a != [] {
      var t := a[0];
      RunAllAppend(results[t.id := -1][t.id := t.work.value], a[1..], b);
      assert (a + b)[0] == t && (a + b)[1..] == a[1..] + b;
    } else {
      assert a + b == b;
    }
  }

  /** With distinct ids, every task that ran has its own value recorded, and
      every other id reads as before. */
  lemma {:induction false} RunAllRecords(results: map<int, int>, q: seq<Task>)
    requires AllCallable(q) && DistinctIds(q)
    ensures forall i :: 0 <= i < |q| ==> Lookup(RunAll(results, q), q[i].id) == q[i].work.value
    ensures forall id :: !HasId(q, id) ==> Lookup(RunAll(results, q), id) == Lookup(results, id)
    decreases |q|
  {
    if q != [] {
      var t := q[0];
      var r1 := results[t.id := -1][t.id := t.work.value];
      assert DistinctIds(q[1..]) by {
        assert Ids(q[1..]) == Ids(q)[1..];
      }
      RunAllRecords(r1, q[1..]);
      var r := RunAll(results, q);
      assert r == RunAll(r1, q[1..]);
      forall id
        ensures HasId(q, id) <==> t.id == id || HasId(q[1..], id)
      {
        HasIdSplit(q, id);
      }
      forall i | 0 <= i < |q|
        ensures Lookup(r, q[i].id) == q[i].work.value
      {
        if i > 0 {
          assert q[i] == q[1..][i - 1];
        } else {
          assert !HasId(q[1..], t.id) by {
            forall k | 0 <= k < |q[1..]|
              ensures q[1..][k].id != t.id
            {
              assert Ids(q)[0] != Ids(q)[k + 1];
            }
          }
        }
      }
    }
  }

  /** An id occurs in a non-empty sequence iff it is the head's or occurs in
      the tail. */
  lemma HasIdSplit(q: seq<Task>, id: int)
    requires q != []
    ensures HasId(q, id) <==> q[0].id == id || HasId(q[1..], id)
  {
    if HasId(q[1..], id) {
      var k :| 0 <= k < |q[1..]| && q[1..][k].id == id;
      assert q[k + 1].id == id;
    }
  }

  /** finished_tasks_statistics after worker schedule[k] ran the k-th task,
      for each k in order. */
  function Credit(finished: map<int, int>, schedule: seq<int>): map<int, int>
    decreases |schedule|
  {
    if schedule == [] then finished else Credit(Bump(finished, schedule[0]), schedule[1..])
  }

  /** Crediting one schedule and then another is crediting the two in order. */
  lemma {:induction false} CreditAppend(finished: map<int, int>, a: seq<int>, b: seq<int>)
    ensures Credit(Credit(finished, a), b) == Credit(finished, a + b)
    decreases |a|
  {
    if a != [] {
      CreditAppend(Bump(finished, a[0]), a[1..], b);
      assert (a + b)[0] == a[0] && (a + b)[1..] == a[1..] + b;
    } else {
      assert a + b == b;
    }
  }

  /** The sum of the finished counts of the given workers. */
  function Total(finished: map<int, int>, workers: seq<int>): int
    decreases |workers|
  {
    if workers == [] then 0 else Lookup(finished, workers[0]) + Total(finished, workers[1..])
  }

  /** One bump of a worker adds one to the total over a list of distinct
      workers that contains it, and nothing over one that does not. */
  lemma {:induction false} TotalBump(finished: map<int, int>, workers: seq<int>, w: int)
    requires Distinct(workers)
    ensures Total(Bump(finished, w), workers) == Total(finished, workers) + (if w in workers then 1 else 0)
    decreases |workers|
  {
    if workers != [] {
      assert Distinct(workers[1..]) by {
        forall i, j | 0 <= i < j < |workers[1..]|
          ensures workers[1..][i] != workers[1..][j]
        {
          assert workers[1..][i] == workers[i + 1] && workers[1..][j] == workers[j + 1];
        }
      }
      TotalBump(finished, workers[1..], w);
      if w == workers[0] {
        assert w !in workers[1..];
      } else {
        assert w in workers <==> w in workers[1..] by {
          assert workers == [workers[0]] + workers[1..];
        }
      }
    }
  }

  /** Every task run by one of the pool's (distinct) workers adds exactly one
      to the sum of their finished counts. */
  lemma {:induction false} CreditTotal(finished: map<int, int>, workers: seq<int>, schedule: seq<int>)
    requires Distinct(workers)
    requires forall k :: 0 <= k < |schedule| ==> schedule[k] in workers
    ensures Total(Credit(finished, schedule), workers) == Total(finished, workers) + |schedule|
    decreases |schedule|
  {
    if schedule != [] {
      TotalBump(finished, workers, schedule[0]);
      CreditTotal(Bump(finished, schedule[0]), workers, schedule[1..]);
    }
  }
}
