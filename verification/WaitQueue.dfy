/**
  The wait queue under mutexes, semaphores and condition variables: a FIFO of
  task ids in a fixed array, shifted down on removal.
 */
module WaitQueueModel {

  type Task = nat

  /** `q` without its first occurrence of `id`. */
  function Without(q: seq<Task>, id: Task): seq<Task> {
    if q == [] then []
    else if q[0] == id then q[1..]
    else [q[0]] + Without(q[1..], id)
  }

  lemma {:induction false} WithoutAt(q: seq<Task>, id: Task, i: nat)
    requires i < |q| && q[i] == id && id !in q[..i]
    ensures Without(q, id) == q[..i] + q[i + 1..]
    decreases i
  {
    if i > 0 {
      assert q[0] in q[..i];
      assert q[1..][..i - 1] == q[..i][1..];
      WithoutAt(q[1..], id, i - 1);
    }
  }

  lemma {:induction false} WithoutAbsent(q: seq<Task>, id: Task)
    requires id !in q
    ensures Without(q, id) == q
    decreases |q|
  {
    if q != [] { WithoutAbsent(q[1..], id); }
  }

  class WaitQueue {
    const waiters: array<Task>
    var count: nat

    ghost predicate Valid()
      reads this
    {
      count <= waiters.Length
    }

    ghost function Contents(): seq<Task>
      requires Valid()
      reads this, waiters
    {
      waiters[..count]
    }

    constructor (capacity: nat)
      ensures Valid() && fresh(waiters) && waiters.Length == capacity && Contents() == []
    {
      waiters := new Task[capacity];
      count := 0;
    }

    /** Appends `id`; refuses when the array is full. */
    method Enqueue(id: Task) returns (ok: bool)
      requires Valid()
      modifies this`count, waiters
      ensures Valid() && (ok <==> |old(Contents())| < waiters.Length)
      ensures Contents() == if ok then old(Contents()) + [id] else old(Contents())
    {
      if count >= waiters.Length { return false; }
      waiters[count] := id;
      count := count + 1;
      return true;
    }

    /** Closes the gap at index `from` by moving every later entry one down. */
    method ShiftDown(from: nat)
      requires Valid() && from < count
      modifies this`count, waiters
      ensures Valid() && Contents() == old(Contents())[..from] + old(Contents())[from + 1..]
    {
      var i := from + 1;
      while i < count
        invariant from < i <= count == old(count)
        invariant forall k :: 0 <= k < from ==> waiters[k] == old(waiters[k])
        invariant forall k :: from <= k < i - 1 ==> waiters[k] == old(waiters[k + 1])
        invariant forall k :: i <= k < count ==> waiters[k] == old(waiters[k])
      {
        waiters[i - 1] := waiters[i];
        i := i + 1;
      }
      count := count - 1;
      ghost var left := old(Contents())[..from] + old(Contents())[from + 1..];
      assert |left| == count;
      forall k | 0 <= k < count ensures waiters[k] == left[k] {
        if k >= from { assert left[k] == old(Contents())[k + 1]; }
      }
      assert Contents() == left;
    }

    /** Takes the oldest waiter; false when there is none. */
    method Dequeue() returns (found: bool, id: Task)
      requires Valid()
      modifies this`count, waiters
      ensures Valid() && (found <==> old(Contents()) != [])
      ensures found ==> id == old(Contents())[0] && Contents() == old(Contents())[1..]
      ensures !found ==> Contents() == old(Contents())
    {
      if count == 0 { return false, 0; }
      id := waiters[0];
      ShiftDown(0);
      return true, id;
    }

    /** Takes `id` out wherever it waits. */
    method Remove(id: Task) returns (found: bool)
      requires Valid()
      modifies this`count, waiters
      ensures Valid() && (found <==> id in old(Contents()))
      ensures Contents() == Without(old(Contents()), id)
    {
      var i := 0;
      while i < count
        invariant 0 <= i <= count && unchanged(this) && unchanged(waiters)
        invariant id !in waiters[..i]
      {
        if waiters[i] == id {
          assert Contents()[..i] == waiters[..i];
          WithoutAt(Contents(), id, i);
          ShiftDown(i);
          return true;
        }
        i := i + 1;
      }
      WithoutAbsent(Contents(), id);
      return false;
    }
  }

  // ------------------------------------------------------------------ counting

  ghost predicate NoDuplicates(q: seq<Task>) {
    forall i, j :: 0 <= i < j < |q| ==> q[i] != q[j]
  }

  /** Distinct waiters drawn from a set of tasks are no more than its members. */
  lemma {:induction false} QueueFits(q: seq<Task>, tasks: set<Task>)
    requires NoDuplicates(q) && forall t :: t in q ==> t in tasks
    ensures |q| <= |tasks|
    decreases |q|
  {
    if q != [] {
      var last := |q| - 1;
      var rest := q[..last];
      assert forall t :: t in rest ==> t in q && t != q[last];
      QueueFits(rest, tasks - {q[last]});
    }
  }

  lemma {:induction false} WithoutKeepsDistinct(q: seq<Task>, t: Task)
    requires NoDuplicates(q)
    ensures NoDuplicates(Without(q, t))
    ensures forall u :: u in Without(q, t) <==> u in q && u != t
    decreases |q|
  {
    if q != [] {
      assert forall u :: u in q <==> u == q[0] || u in q[1..];
      if q[0] == t {
        assert forall j :: 0 <= j < |q[1..]| ==> q[1..][j] == q[j + 1];
      } else {
        WithoutKeepsDistinct(q[1..], t);
        assert forall j :: 0 <= j < |q[1..]| ==> q[1..][j] == q[j + 1];
        assert q[0] !in q[1..];
      }
    }
  }
}
