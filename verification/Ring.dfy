/** The round-robin task queue of `src/task.c`. */
module Ring {
  import opened Arithmetic

  datatype Status = SCHEDULE | RUNNING | YIELDING | DONE | INIT | DEINIT | READY

  // `proc_t`, without its hooks and its context.
  class Proc {
    const name: string
    var status: Status
    var prev: Proc?
    var next: Proc?

    // `init_task`: nothing links to the task yet.
    constructor (name: string)
      ensures this.name == name && status == READY && prev == null && next == null
    {
      this.name := name;
      status := READY;
      prev := null;
      next := null;
    }
  }

  // The position after `i` in a ring of `n`.
  function After(i: nat, k: nat, n: nat): (j: nat)
    requires 0 < n
    ensures j < n
  {
    Remainder(i + k, n)
  }

  // `task_que_t`.
  class Queue {
    var tasks: nat
    var head: Proc?
    var tail: Proc?

    // The live tasks in the order in which they were scheduled.
    ghost var ring: seq<Proc>

    // Following `next` from the head visits the live tasks in order and comes back to the
    // head, `prev` is exact for all but the head, and both ends of the queue are right. The
    // head's `prev` still is what it was when the head was alone: the head itself.
    ghost predicate Links(r: seq<Proc>)
      reads this, r
    {
      (forall i, j :: 0 <= i < j < |r| ==> r[i] != r[j]) &&
      if r == [] then head == null && tail == null
      else
        head == r[0] && tail == r[|r| - 1] && r[0].prev == r[0] && r[|r| - 1].next == r[0] &&
        (forall i :: 0 <= i < |r| - 1 ==> r[i].next == r[i + 1]) &&
        (forall i :: 1 <= i < |r| ==> r[i].prev == r[i - 1])
    }

    ghost predicate Valid()
      reads this, ring
    {
      Links(ring)
    }

    lemma Neighbours(i: nat)
      requires Valid() && i < |ring|
      ensures ring[i].next == ring[if i + 1 == |ring| then 0 else i + 1]
      ensures ring[i].prev == ring[if i == 0 then 0 else i - 1]
    {
    }

    // `init_tasker`, before its test tasks.
    constructor ()
      ensures Valid() && ring == [] && tasks == 0
    {
      tasks := 0;
      head := null;
      tail := null;
      ring := [];
    }

    // `task_schedule` of a task that is not in the queue.
    method Schedule(proc: Proc)
      requires Valid() && proc !in ring
      modifies this, proc, tail
      ensures Valid() && ring == old(ring) + [proc] && tasks == old(tasks) + 1
      ensures proc.status == SCHEDULE
      ensures forall p :: p in old(ring) ==> p.status == old(p.status)
    {
      proc.status := SCHEDULE;
      if head == null && tail == null {
        head := proc;
        tail := proc;
        proc.prev := proc;
        proc.next := proc;
      } else {
        proc.next := head;
        proc.prev := tail;
        tail.next := proc;
        tail := proc;
      }
      ring := ring + [proc];
      tasks := tasks + 1;
    }

    // What the pointer updates of `task_kill` do to the queue, in whatever order they are made.
    twostate lemma KillEffect(k: nat)
      requires old(Valid()) && k < |old(ring)| && ring == old(ring)[..k] + old(ring)[k + 1..]
      requires head == old(head) && tail == old(tail)
      requires var r := old(ring);
               var before, behind := if k == 0 then 0 else k - 1, if k + 1 == |r| then 0 else k + 1;
               forall i :: 0 <= i < |r| && i != k ==>
                 r[i].next == (if i == before then r[behind] else old(r[i].next)) &&
                 r[i].prev == (if i == behind then r[before] else old(r[i].prev))
      ensures Valid() <==> 0 < k < |old(ring)| - 1
    {
      var r := old(ring);
      if k == 0 {
        assert ring != [] ==> ring[0] == r[1];
      } else if k == |r| - 1 {
        assert ring[|ring| - 1] == r[k - 1];
      } else {
        assert forall i :: 0 <= i < k ==> ring[i] == r[i];
        assert forall i :: k <= i < |ring| ==> ring[i] == r[i + 1];
      }
    }

    // `task_kill` of any live task: what it leaves is the queue of the others exactly when the
    // task was at neither end. The counter of tasks is never lowered.
    method Kill(proc: Proc, ghost k: nat)
      requires Valid() && k < |ring| && ring[k] == proc
      modifies this`ring, proc, proc.prev, proc.next
      ensures ring == old(ring)[..k] + old(ring)[k + 1..]
      ensures Valid() <==> proc != head && proc != tail
      ensures proc.status == DONE && proc.next == null && proc.prev == null
      ensures head == old(head) && tail == old(tail) && tasks == old(tasks)
    {
      Neighbours(k);
      if proc.status != DONE {
        Deinit(proc);
      }
      var prev := proc.prev;
      var next := proc.next;
      prev.next := next;
      next.prev := prev;
      proc.next := null;
      proc.prev := null;
      ring := ring[..k] + ring[k + 1..];
      KillEffect(k);
    }

    // `task_deinit`, without giving the context back.
    method Deinit(proc: Proc)
      modifies proc`status
      ensures proc.status == DONE
    {
      proc.status := DEINIT;
      proc.status := DONE;
    }

    // The first half of `task_yield`: the task that runs next.
    method Yield(proc: Proc, ghost i: nat) returns (next: Proc)
      requires Valid() && i < |ring| && ring[i] == proc
      modifies proc`status
      ensures Valid() && proc.status == YIELDING
      ensures next == ring[After(i, 1, |ring|)]
      ensures next == ring[if i + 1 == |ring| then 0 else i + 1]
    {
      Neighbours(i);
      Wraps(i, |ring|);
      proc.status := YIELDING;
      next := proc.next;
    }

    // The second half, when the task is switched to again.
    method Resume(proc: Proc)
      modifies proc`status
      ensures proc.status == READY
    {
      proc.status := READY;
    }

    // A task yields, and the task switched to goes on where it yielded itself, if it has.
    method Turn(proc: Proc, ghost i: nat) returns (next: Proc)
      requires Valid() && i < |ring| && ring[i] == proc
      modifies ring`status
      ensures Valid() && next == ring[After(i, 1, |ring|)]
      ensures proc.status == if next == proc then READY else YIELDING
      ensures next != proc ==>
                var was := old(ring[After(i, 1, |ring|)].status);
                next.status == if was == YIELDING then READY else was
      ensures forall p :: p in ring && p != proc && p != next ==> p.status == old(p.status)
    {
      next := Yield(proc, i);
      if next.status == YIELDING {
        Resume(next);
      }
    }

    // `k` tasks run one after the other, each yielding to the next.
    method RunTurns(start: Proc, ghost i: nat, k: nat) returns (p: Proc, ghost trace: seq<Proc>)
      requires Valid() && i < |ring| && ring[i] == start
      modifies ring`status
      ensures Valid() && p == ring[After(i, k, |ring|)]
      ensures |trace| == k && forall j :: 0 <= j < k ==> trace[j] == ring[After(i, j, |ring|)]
    {
      hide After;
      p, trace := start, [];
      var j := 0;
      AfterStep(i, 0, |ring|);
      while j < k
        invariant 0 <= j <= k
        invariant Valid() && ring == old(ring) && p == ring[After(i, j, |ring|)]
        invariant |trace| == j && forall l :: 0 <= l < j ==> trace[l] == ring[After(i, l, |ring|)]
      {
        AfterStep(i, j, |ring|);
        trace := trace + [p];
        p := Turn(p, After(i, j, |ring|));
        j := j + 1;
      }
    }
  }

  lemma Wraps(i: nat, n: nat)
    requires i < n
    ensures After(i, 1, n) == if i + 1 == n then 0 else i + 1
  {
    hide Remainder;
    DivModOf(i, 0, i, n);
    NextDivision(i, n);
  }

  lemma AfterStep(i: nat, k: nat, n: nat)
    requires i < n
    ensures After(i, 0, n) == i
    ensures After(i, k + 1, n) == After(After(i, k, n), 1, n)
  {
    hide Remainder;
    DivModOf(i, 0, i, n);
    NextDivision(i + k, n);
    Wraps(After(i, k, n), n);
  }

  // The tasks that run in `n` consecutive turns are all `n` tasks of the ring, once each and
  // in ring order from wherever the turns begin.
  lemma Fair<T>(ring: seq<T>, i: nat, trace: seq<T>)
    requires i < |ring| == |trace|
    requires forall j :: 0 <= j < |trace| ==> trace[j] == ring[After(i, j, |ring|)]
    ensures trace == ring[i..] + ring[..i]
    ensures multiset(trace) == multiset(ring)
  {
    hide Remainder;
    var n := |ring|;
    forall j | 0 <= j < n
      ensures trace[j] == (ring[i..] + ring[..i])[j]
    {
      if i + j < n {
        DivModOf(i + j, 0, i + j, n);
      } else {
        DivModOf(i + j, 1, i + j - n, n);
      }
    }
    assert ring == ring[..i] + ring[i..];
  }
}
