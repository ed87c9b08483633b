/**
 The queue of queue.h as an object, each call run without interference: the bodies
 on an array, against the same buffer invariant as the transition system.
 */
module BoundedQueue {
  import opened Common
  import opened Circular
  import opened MpmcQueue
  import opened MpmcQueueSafety

  lemma FirstAndRest(q: seq<nat>)
    requires q != []
    ensures q == [q[0]] + q[1..]
  {
  }

  class BlockingQueue {
    var size: nat
    var ptr: array<nat>
    var head: nat
    var tail: nat
    var pending: nat
    var pushSem: nat
    var popSem: nat

    ghost var pushed: seq<nat>
    ghost var popped: seq<nat>

    ghost function View(): Buffer
      reads this, ptr
    {
      Buffer(size, ptr[..], head, tail, pending)
    }

    ghost predicate Valid()
      reads this, ptr
    {
      Consistent(View(), pushed, popped) && popSem == pending && pushSem + pending == size
    }

    ghost function Contents(): seq<nat>
      reads this, ptr
      requires Valid()
    {
      pushed[|popped|..]
    }

    constructor (n: nat)
      requires n > 0
      ensures Valid() && fresh(ptr) && size == n && Contents() == []
    {
      size, head, tail, pending, pushSem, popSem := n, 0, 0, 0, n, 0;
      ptr := new nat[n](_ => 0);
      pushed, popped := [], [];
    }

    /** `queue_try_push`: appends unless the queue is full. */
    method TryPush(v: nat) returns (rc: int)
      requires Valid()
      modifies this, ptr
      ensures Valid() && ptr == old(ptr) && size == old(size)
      ensures rc == 0 <==> |old(Contents())| < size
      ensures rc == 0 || rc == -1
      ensures Contents() == if rc == 0 then old(Contents()) + [v] else old(Contents())
    {
      if pushSem == 0 {
        return -1;
      }
      PushConsistent(View(), pushed, popped, v);
      pushSem := pushSem - 1;
      ptr[tail] := v;
      assert ptr[..] == old(ptr[..])[old(tail) := v];
      tail := Slot(tail + 1, size);
      pending := pending + 1;
      popSem := popSem + 1;
      pushed := pushed + [v];
      assert View() == AddPending(AdvanceTail(Store(old(View()), v)), 1);
      return 0;
    }

    /** The critical section of a pop. */
    method RemoveFirst() returns (v: nat)
      requires 0 < size == ptr.Length && head < size && pending > 0
      modifies this`head, this`pending, ptr
      ensures v == Fetch(old(View())) && View() == AddPending(AdvanceHead(Clear(old(View()))), -1)
    {
      v := ptr[head];
      ptr[head] := 0;
      assert ptr[..] == old(ptr[..])[old(head) := 0];
      head := Slot(head + 1, size);
      pending := pending - 1;
    }

    /** `queue_try_pop`: the oldest element, or nothing exactly when the queue is empty. */
    method TryPop() returns (r: Option<nat>)
      requires Valid()
      modifies this, ptr
      ensures Valid() && ptr == old(ptr) && size == old(size)
      ensures r.None? <==> old(Contents()) == []
      ensures r.None? ==> Contents() == old(Contents())
      ensures r.Some? ==> old(Contents()) == [r.value] + Contents()
    {
      if popSem == 0 {
        return None;
      }
      PopConsistent(View(), pushed, popped);
      FirstAndRest(pushed[|popped|..]);
      popSem := popSem - 1;
      var v := RemoveFirst();
      pushSem := pushSem + 1;
      popped := popped + [v];
      return Some(v);
    }
  }
}
