/**
 The bounded memory pool of vpn/common/inc/pool.h, in its Linux and Windows forms.

 All shared fields are touched only under the pool's lock, so one event is one
 critical section: the part of a call between taking the lock and releasing it or
 going to sleep on the condition variable. Allocation happens outside the lock and is
 an event of its own, which may fail. Any number of threads take part.
 */
module BlockPool {
  import opened Threads
  import opened Runs

  datatype Os = Linux | Windows

  datatype Kind = Trying | Waiting

  datatype Local =
    | Idle
    | Allocating(kind: Kind)
    | Allocated(kind: Kind, block: nat)
    | Failed(kind: Kind)
    | Sleeping
    | Woken

  /**
   `free` is the recycled list, top first. `out` is the bag of blocks callers hold.
   `minted` bounds the identities handed out by the allocator so far.
   */
  datatype State = State(cap: nat, free: seq<nat>, total: int, inUse: int, allocators: int,
                         out: multiset<nat>, minted: nat, threads: map<Tid, Local>)

  /**
   `Put` names the sleeper its signal wakes, if there is one; waking more than one is
   covered by `Spurious`.
   */
  datatype Event =
    | Get(t: Tid, kind: Kind)
    | Malloc(t: Tid, ok: bool)
    | Finish(t: Tid)
    | Resume(t: Tid)
    | Spurious(t: Tid)
    | Put(t: Tid, block: nat, wake: Tid)

  predicate IsSleeping(l: Local) { l.Sleeping? }
  predicate IsWoken(l: Local) { l.Woken? }
  predicate InFlight(l: Local) { l.Allocating? || l.Allocated? || l.Failed? }

  /** Callers put only what they hold; a signal wakes a sleeper whenever there is one. */
  predicate Enabled(s: State, e: Event) {
    e.t in s.threads &&
    match e
    case Get(t, _) => s.threads[t].Idle?
    case Malloc(t, _) => s.threads[t].Allocating?
    case Finish(t) => s.threads[t].Allocated? || s.threads[t].Failed?
    case Resume(t) => s.threads[t].Woken?
    case Spurious(t) => s.threads[t].Sleeping?
    case Put(t, block, wake) =>
      && s.threads[t].Idle? && block in s.out
      && (Count(s.threads, IsSleeping) > 0 ==> wake in s.threads && s.threads[wake].Sleeping?)
  }

  function Move(s: State, t: Tid, l: Local): State {
    s.(threads := s.threads[t := l])
  }

  /** No block may be added: the capacity test, where 0 means unlimited. */
  predicate Exhausted(s: State) {
    s.cap != 0 && s.total >= s.cap
  }

  /** From taking the lock to releasing it: reuse, grow, give up or sleep. */
  function Enter(os: Os, s: State, t: Tid, kind: Kind): State {
    if s.free != [] then
      Move(s, t, Idle).(free := s.free[1..], inUse := s.inUse + 1, out := s.out + multiset{s.free[0]})
    else if !Exhausted(s) then
      (if os == Linux then Move(s, t, Allocating(kind)).(total := s.total + 1)
       else Move(s, t, Allocating(kind)).(allocators := s.allocators + 1))
    else if kind == Trying then Move(s, t, Idle)
    else Move(s, t, Sleeping)
  }

  function Wake(l: Local): Local {
    if l.Sleeping? then Woken else l
  }

  function Awake(m: map<Tid, Local>): map<Tid, Local> {
    map t | t in m :: Wake(m[t])
  }

  function WakeAll(s: State): State {
    s.(threads := Awake(s.threads))
  }

  /** Hand a newly allocated block to the caller. */
  function Deliver(s: State, t: Tid, block: nat): State {
    Move(s, t, Idle).(inUse := s.inUse + 1, out := s.out + multiset{block})
  }

  /** Linux: the slot was reserved before allocating, so a failure only gives it back. */
  function FinishLinux(s: State, t: Tid): State
    requires t in s.threads
  {
    match s.threads[t]
    case Allocated(_, block) => Deliver(s, t, block)
    case Failed(_) => Move(s, t, Idle).(total := s.total - 1)
    case _ => s
  }

  /** Windows: nothing was reserved, so the capacity is tested again. */
  function FinishWindows(s: State, t: Tid): State
    requires t in s.threads
  {
    var s1 := s.(allocators := s.allocators - 1);
    match s.threads[t]
    case Allocated(kind, block) =>
      if !Exhausted(s) then Deliver(s1, t, block).(total := s.total + 1)
      else if kind == Trying then Move(WakeAll(s1), t, Idle)
      else Enter(Windows, WakeAll(s1), t, Waiting)
    case Failed(kind) => if kind == Trying then Move(WakeAll(s1), t, Idle) else Move(s1, t, Sleeping)
    case _ => s
  }

  function Next(os: Os, s: State, e: Event): State
    requires Enabled(s, e)
  {
    match e
    case Get(t, kind) => Enter(os, s, t, kind)
    case Malloc(t, ok) =>
      if ok then Move(s, t, Allocated(s.threads[t].kind, s.minted)).(minted := s.minted + 1)
      else Move(s, t, Failed(s.threads[t].kind))
    case Finish(t) => if os == Linux then FinishLinux(s, t) else FinishWindows(s, t)
    case Resume(t) => Enter(os, s, t, Waiting)
    case Spurious(t) => Move(s, t, Woken)
    case Put(_, block, wake) =>
      var s1 := if Count(s.threads, IsSleeping) > 0 then Move(s, wake, Woken) else s;
      s1.(inUse := s.inUse - 1, free := [block] + s.free, out := s.out - multiset{block})
  }

  function Initial(cap: nat, tids: set<Tid>): State {
    State(cap, [], 0, 0, 0, multiset{}, 0, map t | t in tids :: Idle)
  }

  function Pool(os: Os): System<State, Event> {
    System((s: State, e: Event) => Enabled(s, e), (s: State, e: Event) => if Enabled(s, e) then Next(os, s, e) else s)
  }
}
