/**
 The ring as an object: the bodies of lf_queue.h on an array, each run without
 interference. `base` counts all items ever popped, so the proof covers rings whose
 counters have wrapped any number of times.
 */
module LfQueueRing {
  import opened Common
  import opened Bits
  import opened Circular
  import opened LfQueue

  /** `lf_queue_init`: which sizes are accepted. */
  method Accepts(size: nat) returns (ok: bool)
    ensures ok <==> size > 0 && IsPow2(size)
  {
    if size == 0 {
      return false;
    }
    AndPredecessor(size);
    ok := And(size, size - 1) == 0;
  }

  /** The ring `r` holds `q`, after `base` items have passed through it. */
  ghost predicate Represents(r: Ring, k: nat, base: nat, q: seq<nat>) {
    && Capacity(r.capacity, k) && r.mask == r.capacity - 1 && |r.slots| == r.capacity
    && Holds(r.slots, base, q) && r.sem == |q|
    && r.head == base % WORDS && r.tail == (base + |q|) % WORDS
    && forall i :: 0 <= i < |q| ==> q[i] != 0
  }

  /** What a whole push does to the ring. */
  lemma PushRepresents(r: Ring, k: nat, base: nat, q: seq<nat>, v: nat)
    requires Represents(r, k, base, q) && |q| < r.capacity && v != 0
    ensures And(r.tail, r.mask) < |r.slots|
    ensures Represents(Store(r, r.tail, v).(tail := Increment(r.tail), sem := r.sem + 1), k, base, q + [v])
  {
    var t := base + |q|;
    MaskedSlot(t, r.capacity, k);
    HoldsAppend(r.slots, base, q, v);
    WrappedIncrement(t);
  }

  /** What a whole pop does to the ring. */
  lemma PopRepresents(r: Ring, k: nat, base: nat, q: seq<nat>)
    requires Represents(r, k, base, q) && q != []
    ensures And(r.head, r.mask) < |r.slots| && Fetch(r, r.head) == q[0]
    ensures Represents(Store(r, r.head, 0).(head := Increment(r.head), sem := r.sem - 1), k, base + 1, q[1..])
  {
    MaskedSlot(base, r.capacity, k);
    HoldsDrop(r.slots, base, q);
    WrappedIncrement(base);
  }

  class LockFreeQueue {
    var capacity: nat
    var mask: nat
    var ptr: array<nat>
    var tail: nat
    var head: nat
    var sem: nat

    ghost var order: nat
    ghost var base: nat
    ghost var contents: seq<nat>

    ghost function View(): Ring
      reads this, ptr
    {
      Ring(capacity, mask, ptr[..], tail, head, sem)
    }

    ghost predicate Valid()
      reads this, ptr
    {
      Represents(View(), order, base, contents)
    }

    constructor (size: nat, ghost k: nat)
      requires Capacity(size, k)
      ensures Valid() && fresh(ptr) && capacity == size && contents == []
    {
      capacity, mask, tail, head, sem := size, size - 1, 0, 0, 0;
      ptr := new nat[size](_ => 0);
      order, base, contents := k, 0, [];
    }

    /** `lf_queue_try_push`: refuses NULL and a full ring, and otherwise appends. */
    method TryPush(v: nat) returns (rc: int)
      requires Valid()
      modifies this, ptr
      ensures Valid() && ptr == old(ptr) && capacity == old(capacity)
      ensures rc == 0 <==> v != 0 && |old(contents)| < capacity
      ensures rc == 0 || rc == -1
      ensures contents == if rc == 0 then old(contents) + [v] else old(contents)
    {
      if v == 0 {
        return -1;
      }
      DepthOf(base, |contents|, capacity, order);
      if Minus(tail, head) >= capacity {
        return -1;
      }
      PushRepresents(View(), order, base, contents, v);
      ptr[And(tail, mask)] := v;
      tail := Increment(tail);
      sem := sem + 1;
      contents := contents + [v];
      assert View() == Store(old(View()), old(tail), v).(tail := tail, sem := sem);
      return 0;
    }

    /** `lf_queue_try_pop`: the oldest item, or nothing exactly when the ring is empty. */
    method TryPop() returns (r: Option<nat>)
      requires Valid()
      modifies this, ptr
      ensures Valid() && ptr == old(ptr) && capacity == old(capacity)
      ensures r.None? <==> old(contents) == []
      ensures r.None? ==> contents == old(contents)
      ensures r.Some? ==> r.value != 0 && old(contents) == [r.value] + contents
    {
      if sem == 0 {
        return None;
      }
      PopRepresents(View(), order, base, contents);
      sem := sem - 1;
      var j := And(head, mask);
      var v := ptr[j];
      ptr[j] := 0;
      head := Increment(head);
      assert View() == Store(old(View()), old(head), 0).(head := head, sem := sem);
      base, contents := base + 1, contents[1..];
      return Some(v);
    }

    /** `lf_queue_get_pending`: the depth, unless the ring holds 2^63 items. */
    method GetPending() returns (n: int)
      requires Valid()
      ensures |contents| < HALF ==> n == |contents|
      ensures |contents| == HALF ==> n == 0 - HALF
    {
      DepthOf(base, |contents|, capacity, order);
      n := Signed(Minus(tail, head));
    }
  }
}
