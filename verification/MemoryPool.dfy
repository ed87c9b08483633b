/**
 The pool of pool.h as an object, each call run without interference. The Linux body
 reserves before it allocates, the Windows body tests the cap again afterwards; run
 alone, both perform the same operation of the abstract bounded pool.
 */
module MemoryPool {
  import opened Common
  import opened BlockPoolSafety

  /** The operation a non-blocking get performs; `mem` is what the allocator would return. */
  function GetOp(p: Store, cap: nat, mem: Option<nat>): (o: Op)
    ensures o == Nothing <==> p.free == [] && (mem.None? || (cap != 0 && |p.out| >= cap))
    ensures o.Reuse? <==> p.free != []
  {
    if p.free != [] then Reuse(p.free[0])
    else if (cap != 0 && |p.out| >= cap) || mem.None? then Nothing
    else Make(mem.value)
  }

  function Obtained(o: Op): Option<nat> {
    match o
    case Reuse(b) => Some(b)
    case Make(b) => Some(b)
    case _ => None
  }

  class SharedPool {
    var cap: nat
    var freeList: seq<nat>
    var total: int
    var inUse: int
    var allocators: int

    ghost var out: multiset<nat>

    ghost function Contents(): Store
      reads this
    {
      Store(freeList, out)
    }

    ghost predicate Valid()
      reads this
    {
      && Separate(Contents()) && inUse == |out| && total == |freeList| + inUse && allocators == 0
      && (cap != 0 ==> total <= cap)
    }

    constructor (limit: nat)
      ensures Valid() && cap == limit && Contents() == Store([], multiset{})
    {
      cap, freeList, total, inUse, allocators, out := limit, [], 0, 0, 0, multiset{};
    }

    /** The reuse branch both bodies share. */
    method Recycle() returns (b: nat)
      requires Valid() && freeList != []
      modifies this
      ensures Valid() && cap == old(cap) && b == old(freeList)[0]
      ensures freeList == old(freeList)[1..] && out == old(out) + multiset{b}
      ensures Contents() == Effect(old(Contents()), Reuse(b))
    {
      StaysSeparate(Contents(), cap, Reuse(freeList[0]));
      b := freeList[0];
      freeList := freeList[1..];
      inUse := inUse + 1;
      out := out + multiset{b};
    }

    /** `pool_try_get`, Linux: reserve, allocate, roll back on failure. */
    method TryGetLinux(mem: Option<nat>) returns (r: Option<nat>)
      requires Valid() && (mem.Some? ==> mem.value !in freeList && mem.value !in out)
      modifies this
      ensures Valid() && cap == old(cap)
      ensures Allowed(old(Contents()), cap, GetOp(old(Contents()), cap, mem))
      ensures Contents() == Effect(old(Contents()), GetOp(old(Contents()), cap, mem))
      ensures r == Obtained(GetOp(old(Contents()), cap, mem))
      ensures r.None? <==> old(freeList) == [] && (mem.None? || (cap != 0 && |old(out)| >= cap))
      ensures r.None? ==> Contents() == old(Contents())
      ensures old(freeList) != [] ==> r == Some(old(freeList)[0]) && freeList == old(freeList)[1..]
      ensures old(freeList) == [] && r.Some? ==> r == mem && freeList == []
      ensures r.Some? ==> out == old(out) + multiset{r.value}
    {
      if freeList != [] {
        var b := Recycle();
        return Some(b);
      }
      if cap != 0 && total >= cap {
        return None;
      }
      total := total + 1;
      if mem.None? {
        total := total - 1;
        return None;
      }
      inUse := inUse + 1;
      out := out + multiset{mem.value};
      return mem;
    }

    /** `pool_try_get`, Windows: allocate, then test the cap again. */
    method TryGetWindows(mem: Option<nat>) returns (r: Option<nat>)
      requires Valid() && (mem.Some? ==> mem.value !in freeList && mem.value !in out)
      modifies this
      ensures Valid() && cap == old(cap)
      ensures Allowed(old(Contents()), cap, GetOp(old(Contents()), cap, mem))
      ensures Contents() == Effect(old(Contents()), GetOp(old(Contents()), cap, mem))
      ensures r == Obtained(GetOp(old(Contents()), cap, mem))
      ensures r.None? <==> old(freeList) == [] && (mem.None? || (cap != 0 && |old(out)| >= cap))
      ensures r.None? ==> Contents() == old(Contents())
      ensures old(freeList) != [] ==> r == Some(old(freeList)[0]) && freeList == old(freeList)[1..]
      ensures old(freeList) == [] && r.Some? ==> r == mem && freeList == []
      ensures r.Some? ==> out == old(out) + multiset{r.value}
    {
      if freeList != [] {
        var b := Recycle();
        return Some(b);
      }
      if cap != 0 && total >= cap {
        return None;
      }
      allocators := allocators + 1;
      allocators := allocators - 1;
      if mem.None? {
        return None;
      }
      if cap != 0 && total >= cap {
        assert false;
      }
      total := total + 1;
      inUse := inUse + 1;
      out := out + multiset{mem.value};
      return mem;
    }

    /** `pool_put` of a block the caller holds. */
    method Put(b: nat)
      requires Valid() && b in out
      modifies this
      ensures Valid() && cap == old(cap)
      ensures freeList == [b] + old(freeList) && out == old(out) - multiset{b}
      ensures Contents() == Effect(old(Contents()), GiveBack(b))
    {
      StaysSeparate(Contents(), cap, GiveBack(b));
      inUse := inUse - 1;
      freeList := [b] + freeList;
      out := out - multiset{b};
    }
  }
}
