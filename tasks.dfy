/** The unit of work the pool executes: struct Task of TaskQueue.h. */
module Tasks {

  datatype Option<T> = None | Some(value: T)

  /** A task is its id and its work. The work is an opaque callable returning
      an int; it is modelled by the value it returns. None stands for an empty
      std::function (the default-constructed task), which throws when called. */
  datatype Task = Task(id: int, work: Option<int>)

  /** Task(): id 0 and an empty callable. */
  function DefaultTask(): (t: Task)
    ensures t.id == 0 && !Callable(t)
  {
    Task(0, None)
  }

  /** Task(id): the task that, when run, returns its own id (the printing
      and the random sleep of its body are not part of this model). */
  function FromId(id: int): (t: Task)
    ensures t.id == id && Callable(t) && t.work.value == id
  {
    Task(id, Some(id))
  }

  /** Whether calling the task's work returns a value rather than throwing. */
  predicate Callable(t: Task)
  {
    t.work.Some?
  }

  /** Some task of `s` carries the id. */
  predicate HasId(s: seq<Task>, id: int)
  {
    exists i :: 0 <= i < |s| && s[i].id == id
  }

  /** Every task of `s` can be run. */
  predicate AllCallable(s: seq<Task>)
  {
    forall i :: 0 <= i < |s| ==> Callable(s[i])
  }

  /** The parts of a sequence of runnable tasks are runnable. */
  lemma AllCallableSplit(a: seq<Task>, b: seq<Task>)
    requires AllCallable(a + b)
    ensures AllCallable(a) && AllCallable(b)
  {
    forall i | 0 <= i < |a|
      ensures Callable(a[i])
    {
      assert a[i] == (a + b)[i];
    }
    forall i | 0 <= i < |b|
      ensures Callable(b[i])
    {
      assert b[i] == (a + b)[|a| + i];
    }
  }

  /** No two elements of `s` are equal. */
  predicate Distinct<T(==)>(s: seq<T>)
  {
    forall i, j :: 0 <= i < j < |s| ==> s[i] != s[j]
  }

  /** The ids of the tasks of `s`, in order. */
  function Ids(s: seq<Task>): seq<int>
  {
    seq(|s|, i requires 0 <= i < |s| => s[i].id)
  }

  /** No two tasks of `s` share an id. */
  predicate DistinctIds(s: seq<Task>)
  {
    Distinct(Ids(s))
  }
}
