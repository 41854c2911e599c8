/** The bounded FIFO of tasks: class TaskQueue of TaskQueue.h and
    TaskQueue.cpp. Each method runs under the queue's own lock, so each is one
    atomic step here. */
module Queue {
  import opened Tasks

  /** std::find_if over the ids: the index of the first task carrying `id`,
      or |s| (the end iterator) when there is none. */
  function FindFirst(s: seq<Task>, id: int): (i: nat)
    ensures i <= |s|
    ensures i < |s| ==> s[i].id == id
    ensures forall j :: 0 <= j < i ==> s[j].id != id
    ensures i == |s| <==> !HasId(s, id)
  {
    if s == [] then 0
    else if s[0].id == id then 0
    else 1 + FindFirst(s[1..], id)
  }

  /** `tasks.erase(find_if(...))` exactly as written: when no task carries the
      id, find_if yields end() and erasing end() is undefined behaviour, which
      is None here. */
  function EraseAsWritten(s: seq<Task>, id: int): (r: Option<seq<Task>>)
    ensures r.None? <==> !HasId(s, id)
    ensures r.Some? ==> |r.value| == |s| - 1
  {
    var i := FindFirst(s, id);
    if i == |s| then None else Some(s[..i] + s[i + 1..])
  }

  /** The removal the queue evidently intends: the first task carrying the id
      goes, and an absent id leaves the queue as it is. */
  function RemoveFirst(s: seq<Task>, id: int): (r: seq<Task>)
    ensures !HasId(s, id) ==> r == s
    ensures HasId(s, id) ==> |r| == |s| - 1
    ensures multiset(r) <= multiset(s)
  {
    var i := FindFirst(s, id);
    if i == |s| then s
    else
      assert s == s[..i] + [s[i]] + s[i + 1..];
      s[..i] + s[i + 1..]
  }

  /** Removal keeps every other task in its order: the tasks before the first
      match stay where they are, those after it move up by one, and what was
      taken out is exactly that first match. */
  lemma RemoveFirstKeepsOrder(s: seq<Task>, id: int, i: nat, r: seq<Task>)
    requires HasId(s, id) && i == FindFirst(s, id) && r == RemoveFirst(s, id)
    ensures i < |s| && s[i].id == id && |r| == |s| - 1
    ensures forall j :: 0 <= j < i ==> r[j] == s[j] && r[j].id != id
    ensures forall j :: i <= j < |r| ==> r[j] == s[j + 1]
    ensures multiset(r) + multiset{s[i]} == multiset(s)
  {
    EraseAt(s, i, r);
  }

  /** Erasing position i of a sequence. */
  lemma EraseAt(s: seq<Task>, i: nat, r: seq<Task>)
    requires i < |s| && r == s[..i] + s[i + 1..]
    ensures forall j :: 0 <= j < i ==> r[j] == s[j]
    ensures forall j :: i <= j < |r| ==> r[j] == s[j + 1]
    ensures multiset(r) + multiset{s[i]} == multiset(s)
  {
    assert s == s[..i] + [s[i]] + s[i + 1..];
  }

  /** When the id is present the code as written and the intended removal
      agree; they differ only on an absent id. */
  lemma RemoveFirstAgreesWhenPresent(s: seq<Task>, id: int)
    ensures HasId(s, id) <==> EraseAsWritten(s, id) == Some(RemoveFirst(s, id))
  {
  }

  /** remove(7) on a queue holding only task 1 erases end(): the code's
      behaviour there is undefined, while the intended removal is a no-op. */
  lemma RemoveAbsentIdIsUndefined()
    ensures EraseAsWritten([FromId(1)], 7) == None
    ensures RemoveFirst([FromId(1)], 7) == [FromId(1)]
  {
    assert !HasId([FromId(1)], 7);
  }

  class TaskQueue {
    /** The queued tasks, oldest first (the std::vector `tasks`). */
    var tasks: seq<Task>
    /** The capacity, `size` in the source. */
    var size: nat

    /** Because emplace admits a task while |tasks| <= size, the queue can
        hold one task more than its capacity, and never more than that. */
    ghost predicate Valid()
      reads this
    {
      |tasks| <= size + 1
    }

    /** TaskQueue(size = 0): the given capacity and no tasks. */
    constructor (size: nat := 0)
      ensures Valid()
      ensures this.size == size && tasks == []
    {
      this.size := size;
      tasks := [];
    }

    /** ~TaskQueue(): clears the queue. */
    method Dispose()
      requires Valid()
      modifies this
      ensures Valid()
      ensures tasks == [] && size == old(size)
    {
      Clear();
    }

    method Empty() returns (r: bool)
      ensures r <==> |tasks| == 0
    {
      r := |tasks| == 0;
    }

    /** get_size(): the number of queued tasks, at most one above capacity. */
    method GetSize() returns (n: nat)
      requires Valid()
      ensures n == |tasks| && n <= size + 1
    {
      n := |tasks|;
    }

    /** clear(): erases the front task until none is left. */
    method Clear()
      requires Valid()
      modifies this
      ensures Valid()
      ensures tasks == [] && size == old(size)
    {
      while tasks != []
        invariant size == old(size)
        invariant Valid()
        decreases |tasks|
      {
        tasks := tasks[1..];
      }
    }

    /** pop(task): on an empty queue returns false and leaves `current` (the
        caller's Task) as it was; otherwise hands out the oldest task and keeps
        the rest in order. */
    method Pop(current: Task) returns (ok: bool, task: Task)
      requires Valid()
      modifies this
      ensures Valid()
      ensures size == old(size)
      ensures ok <==> old(tasks) != []
      ensures !ok ==> task == current && tasks == old(tasks)
      ensures ok ==> task == old(tasks)[0] && tasks == old(tasks)[1..]
    {
      if tasks == [] {
        ok, task := false, current;
      } else {
        task := tasks[0];
        tasks := tasks[1..];
        ok := true;
      }
    }

    /** emplace(task): appends at the back while the queue holds at most
        `size` tasks (so up to size + 1 in all); otherwise rejects and leaves
        the queue as it was. */
    method Emplace(task: Task) returns (ok: bool)
      requires Valid()
      modifies this
      ensures Valid()
      ensures size == old(size)
      ensures ok <==> |old(tasks)| <= size
      ensures tasks == if ok then old(tasks) + [task] else old(tasks)
    {
      if |tasks| <= size {
        tasks := tasks + [task];
        ok := true;
      } else {
        ok := false;
      }
    }

    /** remove(id): erases the first task carrying the id. For an absent id
        the source's behaviour is undefined; this model takes it as a no-op. */
    method Remove(id: int)
      requires Valid()
      modifies this
      ensures Valid()
      ensures size == old(size)
      ensures tasks == RemoveFirst(old(tasks), id)
    {
      var i := FindFirst(tasks, id);
      if i < |tasks| {
        tasks := tasks[..i] + tasks[i + 1..];
      }
    }
  }
}
