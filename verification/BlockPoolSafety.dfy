/**
 Conservation in both pools, and their common abstraction.
 */
module BlockPoolSafety {
  import opened Common
  import opened Threads
  import opened Runs
  import opened BlockPool

  // ------------------------------------------------------------- the abstract bounded pool

  /** Recycled blocks, top first, and blocks in use. */
  datatype Store = Store(free: seq<nat>, out: multiset<nat>)

  datatype Op = Nothing | Reuse(b: nat) | Make(b: nat) | GiveBack(b: nat)

  /** A made block is new and fits under the cap; a reused one is the top; one returned was in use. */
  predicate Allowed(p: Store, cap: nat, o: Op) {
    match o
    case Nothing => true
    case Reuse(b) => p.free != [] && b == p.free[0]
    case Make(b) => b !in p.free && b !in p.out && (cap == 0 || |p.free| + |p.out| < cap)
    case GiveBack(b) => b in p.out
  }

  function Effect(p: Store, o: Op): Store {
    match o
    case Nothing => p
    case Reuse(b) => if p.free == [] then p else Store(p.free[1..], p.out + multiset{b})
    case Make(b) => p.(out := p.out + multiset{b})
    case GiveBack(b) => Store([b] + p.free, p.out - multiset{b})
  }

  function Bounded(cap: nat): System<Store, Op> {
    System((p: Store, o: Op) => Allowed(p, cap, o), (p: Store, o: Op) => Effect(p, o))
  }

  // ------------------------------------------------------------- the invariant

  /** No block is free twice, held twice, or free and held. */
  predicate Separate(p: Store) {
    && Distinct(p.free)
    && (forall b :: b in p.out ==> p.out[b] == 1 && b !in p.free)
  }

  /** Blocks fresh from the allocator are new to everybody. */
  predicate Minted(s: State) {
    && (forall b :: b in s.free ==> b < s.minted)
    && (forall b :: b in s.out ==> b < s.minted)
    && (forall t :: t in s.threads && s.threads[t].Allocated? ==>
          var b := s.threads[t].block;
          b < s.minted && b !in s.free && b !in s.out)
    && (forall t, u :: t in s.threads && u in s.threads && t != u && s.threads[t].Allocated? && s.threads[u].Allocated?
          ==> s.threads[t].block != s.threads[u].block)
  }

  /** The counters: a Linux block counts as soon as it is reserved, a Windows one when it is delivered. */
  predicate Ledger(os: Os, s: State) {
    && s.inUse == |s.out|
    && (os == Linux ==> s.total == |s.free| + s.inUse + Count(s.threads, InFlight) && s.allocators == 0)
    && (os == Windows ==> s.total == |s.free| + s.inUse && s.allocators == Count(s.threads, InFlight))
    && (s.cap != 0 ==> s.total <= s.cap)
  }

  function StoreOf(s: State): Store {
    Store(s.free, s.out)
  }

  predicate Inv(os: Os, s: State) {
    Separate(StoreOf(s)) && Minted(s) && Ledger(os, s)
  }

  // ------------------------------------------------------------- one event

  function OpOf(os: Os, s: State, e: Event): Op
    requires Enabled(s, e)
  {
    match e
    case Get(_, _) => if s.free != [] then Reuse(s.free[0]) else Nothing
    case Resume(_) => if s.free != [] then Reuse(s.free[0]) else Nothing
    case Put(_, block, _) => GiveBack(block)
    case Finish(t) =>
      (match s.threads[t]
       case Allocated(kind, block) =>
         if os == Linux || !Exhausted(s) then Make(block)
         else if kind == Waiting && s.free != [] then Reuse(s.free[0])
         else Nothing
       case _ => Nothing)
    case _ => Nothing
  }

  /** The free list and the callers' blocks change exactly as the abstract pool says. */
  lemma StoreFollows(os: Os, s: State, e: Event)
    requires Inv(os, s) && Enabled(s, e)
    ensures Allowed(StoreOf(s), s.cap, OpOf(os, s, e))
    ensures StoreOf(Next(os, s, e)) == Effect(StoreOf(s), OpOf(os, s, e))
  {
    if e.Finish? && s.threads[e.t].Allocated? {
      CountPositive(s.threads, e.t, InFlight);
    }
  }

  lemma StaysSeparate(p: Store, cap: nat, o: Op)
    requires Separate(p) && Allowed(p, cap, o)
    ensures Separate(Effect(p, o))
  {
  }

  lemma WakingKeepsCounts(m: map<Tid, Local>)
    ensures Count(Awake(m), InFlight) == Count(m, InFlight)
    ensures Count(Awake(m), IsSleeping) == 0
  {
    assert Where(Awake(m), InFlight) == Where(m, InFlight);
    CountNone(Awake(m), IsSleeping);
  }

  lemma EnterKeepsMinted(os: Os, s: State, t: Tid, kind: Kind)
    requires Minted(s) && t in s.threads && !s.threads[t].Allocated?
    ensures Minted(Enter(os, s, t, kind))
  {
    if s.free != [] {
      assert s.free[0] in s.free;
      assert forall b :: b in s.free[1..] ==> b in s.free;
    }
  }

  lemma WakingKeepsMinted(s: State)
    requires Minted(s)
    ensures Minted(WakeAll(s))
  {
  }

  /** A delivered or discarded block leaves the allocating thread's hands. */
  lemma LettingGoKeepsMinted(s: State, t: Tid, l: Local)
    requires Minted(s) && t in s.threads && !l.Allocated?
    ensures Minted(Move(s, t, l))
    ensures s.threads[t].Allocated? ==> Minted(Deliver(s, t, s.threads[t].block))
  {
  }

  /** What the thread did before it enters the critical section again does not matter. */
  lemma SecondEntry(os: Os, s: State, t: Tid)
    ensures Enter(os, Move(s, t, Idle), t, Waiting) == Enter(os, s, t, Waiting)
  {
    var l := Enter(os, s, t, Waiting).threads[t];
    assert s.threads[t := Idle][t := l] == s.threads[t := l];
  }

  /** The counters do not matter to whose block is whose. */
  lemma SameMinted(s: State, s': State)
    requires Minted(s) && s' == s.(total := s'.total, inUse := s'.inUse, allocators := s'.allocators)
    ensures Minted(s')
  {
  }

  lemma FinishLinuxKeepsMinted(s: State, t: Tid)
    requires Minted(s) && Enabled(s, Finish(t))
    ensures Minted(FinishLinux(s, t))
  {
    LettingGoKeepsMinted(s, t, Idle);
    if s.threads[t].Failed? {
      SameMinted(Move(s, t, Idle), FinishLinux(s, t));
    }
  }

  lemma OverrunKeepsMinted(s: State, t: Tid)
    requires Minted(s) && t in s.threads
    ensures Minted(Move(WakeAll(s), t, Idle)) && Minted(Enter(Windows, WakeAll(s), t, Waiting))
  {
    var awake := WakeAll(s);
    WakingKeepsMinted(s);
    LettingGoKeepsMinted(awake, t, Idle);
    EnterKeepsMinted(Windows, Move(awake, t, Idle), t, Waiting);
    SecondEntry(Windows, awake, t);
  }

  lemma FinishWindowsKeepsMinted(s: State, t: Tid)
    requires Minted(s) && Enabled(s, Finish(t))
    ensures Minted(FinishWindows(s, t))
  {
    var s1, s' := s.(allocators := s.allocators - 1), FinishWindows(s, t);
    SameMinted(s, s1);
    if s.threads[t] == Failed(Waiting) {
      assert s' == Move(s1, t, Sleeping);
      LettingGoKeepsMinted(s1, t, Sleeping);
    } else if s.threads[t].Allocated? && !Exhausted(s) {
      LettingGoKeepsMinted(s1, t, Idle);
      SameMinted(Deliver(s1, t, s.threads[t].block), s');
    } else {
      assert s' == Move(WakeAll(s1), t, Idle) || s' == Enter(Windows, WakeAll(s1), t, Waiting);
      OverrunKeepsMinted(s1, t);
    }
  }

  lemma MallocKeepsMinted(os: Os, s: State, e: Event)
    requires Minted(s) && Enabled(s, e) && (e.Malloc? || e.Spurious?)
    ensures Minted(Next(os, s, e))
  {
  }

  lemma PutKeepsMinted(os: Os, s: State, e: Event)
    requires Minted(s) && Separate(StoreOf(s)) && Enabled(s, e) && e.Put?
    ensures Minted(Next(os, s, e))
  {
  }

  lemma KeepsMinted(os: Os, s: State, e: Event)
    requires Minted(s) && Separate(StoreOf(s)) && Enabled(s, e)
    ensures Minted(Next(os, s, e))
  {
    match e
    case Get(t, kind) => EnterKeepsMinted(os, s, t, kind);
    case Resume(t) => EnterKeepsMinted(os, s, t, Waiting);
    case Finish(t) => if os == Linux { FinishLinuxKeepsMinted(s, t); } else { FinishWindowsKeepsMinted(s, t); }
    case Malloc(_, _) => MallocKeepsMinted(os, s, e);
    case Spurious(_) => MallocKeepsMinted(os, s, e);
    case Put(_, _, _) => PutKeepsMinted(os, s, e);
  }

  /** Besides its own thread, an event at most wakes sleepers. */
  lemma ThreadsAfter(os: Os, s: State, e: Event)
    requires Enabled(s, e) && !e.Put?
    ensures var m := Next(os, s, e).threads;
            e.t in m && (m == s.threads[e.t := m[e.t]] || m == Awake(s.threads)[e.t := m[e.t]])
  {
  }

  lemma InFlightMove(m: map<Tid, Local>, m': map<Tid, Local>, t: Tid)
    requires t in m && t in m' && (m' == m[t := m'[t]] || m' == Awake(m)[t := m'[t]])
    ensures Count(m', InFlight) + Bit(InFlight(m[t])) == Count(m, InFlight) + Bit(InFlight(m'[t]))
  {
    WakingKeepsCounts(m);
    CountUpdate(m, t, m'[t], InFlight);
    CountUpdate(Awake(m), t, m'[t], InFlight);
    assert InFlight(Awake(m)[t]) == InFlight(m[t]);
  }

  /** The in-flight count after an event. */
  lemma InFlightAfter(os: Os, s: State, e: Event)
    requires Enabled(s, e)
    ensures var s' := Next(os, s, e);
            && e.t in s'.threads
            && (!e.Put? ==> Count(s'.threads, InFlight) + Bit(InFlight(s.threads[e.t]))
                            == Count(s.threads, InFlight) + Bit(InFlight(s'.threads[e.t])))
            && (e.Put? ==> Count(s'.threads, InFlight) == Count(s.threads, InFlight))
  {
    if !e.Put? {
      ThreadsAfter(os, s, e);
      InFlightMove(s.threads, Next(os, s, e).threads, e.t);
    } else if Count(s.threads, IsSleeping) > 0 {
      CountUpdate(s.threads, e.wake, Woken, InFlight);
    }
  }

  lemma EnterKeepsLedger(os: Os, s: State, e: Event)
    requires Inv(os, s) && Enabled(s, e) && (e.Get? || e.Resume?)
    ensures Ledger(os, Next(os, s, e))
  {
    InFlightAfter(os, s, e);
  }

  lemma FinishLinuxKeepsLedger(s: State, t: Tid)
    requires Inv(Linux, s) && Enabled(s, Finish(t))
    ensures Ledger(Linux, FinishLinux(s, t))
  {
    InFlightAfter(Linux, s, Finish(t));
  }

  lemma FinishWindowsKeepsLedger(s: State, t: Tid)
    requires Inv(Windows, s) && Enabled(s, Finish(t))
    ensures Ledger(Windows, FinishWindows(s, t))
  {
    InFlightAfter(Windows, s, Finish(t));
  }

  lemma KeepsLedger(os: Os, s: State, e: Event)
    requires Inv(os, s) && Enabled(s, e)
    ensures Ledger(os, Next(os, s, e))
  {
    if e.Get? || e.Resume? {
      EnterKeepsLedger(os, s, e);
    } else if e.Finish? {
      if os == Linux {
        FinishLinuxKeepsLedger(s, e.t);
      } else {
        FinishWindowsKeepsLedger(s, e.t);
      }
    } else {
      InFlightAfter(os, s, e);
    }
  }

  lemma StepRefines(os: Os, s: State, e: Event)
    requires Inv(os, s) && Enabled(s, e)
    ensures Inv(os, Next(os, s, e)) && Next(os, s, e).cap == s.cap
    ensures Allowed(StoreOf(s), s.cap, OpOf(os, s, e))
    ensures StoreOf(Next(os, s, e)) == Effect(StoreOf(s), OpOf(os, s, e))
  {
    StoreFollows(os, s, e);
    StaysSeparate(StoreOf(s), s.cap, OpOf(os, s, e));
    KeepsMinted(os, s, e);
    KeepsLedger(os, s, e);
  }

  // ------------------------------------------------------------- how calls end

  /** The event ends a get of its thread without a block: the call returns NULL. */
  predicate EndsEmptyHanded(os: Os, s: State, e: Event)
    requires Enabled(s, e)
  {
    !e.Put? && e.t in Next(os, s, e).threads && Next(os, s, e).threads[e.t].Idle? && OpOf(os, s, e) == Nothing
  }

  /**
   A get fails exactly if it is non-blocking and finds no free block and the cap reached,
   at first or again after allocating, or if its allocation fails; a blocking Windows get
   never fails.
   */
  lemma FailsExactly(os: Os, s: State, e: Event)
    requires Enabled(s, e)
    ensures EndsEmptyHanded(os, s, e) <==>
            || (e.Get? && e.kind == Trying && s.free == [] && s.cap != 0 && s.total >= s.cap)
            || (e.Finish? && s.threads[e.t].Failed? && (os == Linux || s.threads[e.t].kind == Trying))
            || (e.Finish? && os == Windows && s.threads[e.t].Allocated? && s.threads[e.t].kind == Trying
                && s.cap != 0 && s.total >= s.cap)
  {
  }

  /** A get or a woken waiter that finds a free block takes it; otherwise it allocates exactly below the cap. */
  lemma EntersExactly(os: Os, s: State, e: Event)
    requires Enabled(s, e) && (e.Get? || e.Resume?)
    ensures e.t in Next(os, s, e).threads
    ensures var l', waits := Next(os, s, e).threads[e.t], e.Resume? || e.kind == Waiting;
            && (OpOf(os, s, e) != Nothing <==> s.free != [])
            && (s.free != [] ==> l'.Idle?)
            && (l'.Allocating? <==> s.free == [] && (s.cap == 0 || s.total < s.cap))
            && (l'.Allocating? ==> (l'.kind == Waiting <==> waits))
            && (l'.Sleeping? <==> waits && s.free == [] && s.cap != 0 && s.total >= s.cap)
  {
  }

  /** An allocation has the outcome the allocator gave it, and keeps the kind of its call. */
  lemma AllocatesExactly(os: Os, s: State, t: Tid, ok: bool)
    requires Enabled(s, Malloc(t, ok))
    ensures t in Next(os, s, Malloc(t, ok)).threads
    ensures var l' := Next(os, s, Malloc(t, ok)).threads[t];
            && (l'.Allocated? <==> ok) && (l'.Failed? <==> !ok) && l'.kind == s.threads[t].kind
            && (ok ==> l'.block == s.minted)
  {
  }

  // ------------------------------------------------------------- whole runs

  function OpsOf(os: Os, s: State, es: seq<Event>): seq<Op>
    requires Valid(Pool(os), s, es)
    decreases |es|
  {
    if es == [] then [] else [OpOf(os, s, es[0])] + OpsOf(os, Next(os, s, es[0]), es[1..])
  }

  /** Both pools refine the abstract bounded pool. */
  lemma {:induction false} RunRefines(os: Os, s: State, es: seq<Event>)
    requires Inv(os, s) && Valid(Pool(os), s, es)
    ensures Inv(os, After(Pool(os), s, es)) && After(Pool(os), s, es).cap == s.cap
    ensures Valid(Bounded(s.cap), StoreOf(s), OpsOf(os, s, es))
    ensures After(Bounded(s.cap), StoreOf(s), OpsOf(os, s, es)) == StoreOf(After(Pool(os), s, es))
    decreases |es|
  {
    if es != [] {
      StepRefines(os, s, es[0]);
      RunRefines(os, Next(os, s, es[0]), es[1..]);
      assert OpsOf(os, s, es)[1..] == OpsOf(os, Next(os, s, es[0]), es[1..]);
    }
  }

  lemma InitialInv(os: Os, cap: nat, tids: set<Tid>)
    ensures Inv(os, Initial(cap, tids))
  {
    CountNone(Initial(cap, tids).threads, InFlight);
  }

  /**
   Conservation after any run from `pool_init`, on either system, with failed
   allocations and rollbacks: the counters add up, the cap holds, nothing underflows
   and no block is in two places; and the run is one of the abstract bounded pool.
   */
  lemma PoolConserves(os: Os, cap: nat, tids: set<Tid>, es: seq<Event>)
    requires Valid(Pool(os), Initial(cap, tids), es)
    ensures var s := After(Pool(os), Initial(cap, tids), es);
            && s.total == |s.free| + s.inUse + (if os == Linux then Count(s.threads, InFlight) else 0)
            && s.inUse == |s.out| && (cap != 0 ==> s.total <= cap)
            && Separate(StoreOf(s))
            && Valid(Bounded(cap), Store([], multiset{}), OpsOf(os, Initial(cap, tids), es))
            && After(Bounded(cap), Store([], multiset{}), OpsOf(os, Initial(cap, tids), es)) == StoreOf(s)
  {
    InitialInv(os, cap, tids);
    RunRefines(os, Initial(cap, tids), es);
  }
}
