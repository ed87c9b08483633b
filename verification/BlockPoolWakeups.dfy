/**
 Wakeups in the two pools.

 A returned block is never stranded on Linux: while somebody sleeps unsignalled, at
 least as many waiters are on their way as there are free blocks. The same claim about
 Windows, and the claim that a sleeper implies a pool filled to capacity about either
 system, fail in one branch each; the failures are exhibited and delimited exactly.
 */
module BlockPoolWakeups {
  import opened Threads
  import opened Runs
  import opened BlockPool

  predicate NoLostWakeup(s: State) {
    Count(s.threads, IsSleeping) > 0 ==> |s.free| <= Count(s.threads, IsWoken)
  }

  lemma CountsAfter(m: map<Tid, Local>, t: Tid, l: Local)
    requires t in m
    ensures Count(m[t := l], IsSleeping) + Bit(IsSleeping(m[t])) == Count(m, IsSleeping) + Bit(IsSleeping(l))
    ensures Count(m[t := l], IsWoken) + Bit(IsWoken(m[t])) == Count(m, IsWoken) + Bit(IsWoken(l))
  {
    CountUpdate(m, t, l, IsSleeping);
    CountUpdate(m, t, l, IsWoken);
  }

  /** Reusing, growing, giving up and sleeping all keep the promise, barging included. */
  lemma EnterKeeps(os: Os, s: State, t: Tid, kind: Kind)
    requires NoLostWakeup(s) && t in s.threads && !s.threads[t].Sleeping?
    ensures NoLostWakeup(Enter(os, s, t, kind))
  {
    CountsAfter(s.threads, t, Enter(os, s, t, kind).threads[t]);
  }

  lemma OthersKeep(os: Os, s: State, e: Event)
    requires NoLostWakeup(s) && Enabled(s, e) && !e.Finish?
    ensures NoLostWakeup(Next(os, s, e))
  {
    if e.Get? {
      EnterKeeps(os, s, e.t, e.kind);
    } else if e.Resume? {
      EnterKeeps(os, s, e.t, Waiting);
    } else if e.Put? {
      if Count(s.threads, IsSleeping) > 0 {
        CountsAfter(s.threads, e.wake, Woken);
      }
    } else {
      CountsAfter(s.threads, e.t, Next(os, s, e).threads[e.t]);
    }
  }

  lemma LinuxKeeps(s: State, e: Event)
    requires NoLostWakeup(s) && Enabled(s, e)
    ensures NoLostWakeup(Next(Linux, s, e))
  {
    if e.Finish? {
      CountsAfter(s.threads, e.t, Idle);
    } else {
      OthersKeep(Linux, s, e);
    }
  }

  /** Linux, every run: no wakeup for a returned block is lost. */
  lemma LinuxLosesNoWakeup(cap: nat, tids: set<Tid>, es: seq<Event>)
    requires Valid(Pool(Linux), Initial(cap, tids), es)
    ensures NoLostWakeup(After(Pool(Linux), Initial(cap, tids), es))
  {
    CountNone(Initial(cap, tids).threads, IsSleeping);
    forall s, e | NoLostWakeup(s) && Pool(Linux).enabled(s, e)
      ensures NoLostWakeup(Pool(Linux).next(s, e))
    {
      LinuxKeeps(s, e);
    }
    Invariant(Pool(Linux), NoLostWakeup, Initial(cap, tids), es);
  }

  /**
   The one Windows branch that breaks the promise: a waiter whose allocation failed goes
   to sleep without looking at the free list again.
   */
  predicate SleepsPastBlock(s: State, e: Event)
    requires Enabled(s, e)
  {
    e.Finish? && s.threads[e.t] == Failed(Waiting) && |s.free| > Count(s.threads, IsWoken)
  }

  lemma OverrunWakesAll(s: State, t: Tid)
    requires t in s.threads
    ensures NoLostWakeup(Move(WakeAll(s), t, Idle)) && NoLostWakeup(Enter(Windows, WakeAll(s), t, Waiting))
  {
    var m := Awake(s.threads);
    CountNone(m, IsSleeping);
    CountsAfter(m, t, Idle);
    CountsAfter(m, t, Enter(Windows, WakeAll(s), t, Waiting).threads[t]);
  }

  /** Windows: an event loses a wakeup exactly in that branch. */
  lemma WindowsLosesExactly(s: State, e: Event)
    requires NoLostWakeup(s) && Enabled(s, e)
    ensures NoLostWakeup(Next(Windows, s, e)) <==> !SleepsPastBlock(s, e)
  {
    if e.Finish? {
      var s1 := s.(allocators := s.allocators - 1);
      OverrunWakesAll(s1, e.t);
      CountsAfter(s.threads, e.t, Idle);
      CountsAfter(s.threads, e.t, Sleeping);
    } else {
      OthersKeep(Windows, s, e);
    }
  }

  /** The Windows pool under the interleavings that avoid that branch. */
  const CAREFUL_WINDOWS := System((s: State, e: Event) => Enabled(s, e) && !SleepsPastBlock(s, e),
                                 (s: State, e: Event) => if Enabled(s, e) then Next(Windows, s, e) else s)

  /** Windows, every run that avoids it: no wakeup for a returned block is lost. */
  lemma WindowsOtherwiseLosesNone(cap: nat, tids: set<Tid>, es: seq<Event>)
    requires Valid(CAREFUL_WINDOWS, Initial(cap, tids), es)
    ensures NoLostWakeup(After(CAREFUL_WINDOWS, Initial(cap, tids), es))
  {
    CountNone(Initial(cap, tids).threads, IsSleeping);
    forall s, e | NoLostWakeup(s) && CAREFUL_WINDOWS.enabled(s, e)
      ensures NoLostWakeup(CAREFUL_WINDOWS.next(s, e))
    {
      WindowsLosesExactly(s, e);
    }
    Invariant(CAREFUL_WINDOWS, NoLostWakeup, Initial(cap, tids), es);
  }

  /** Whoever sleeps does so because the pool is filled to its cap. */
  predicate SleepersAreJustified(s: State) {
    Count(s.threads, IsSleeping) > 0 ==> s.cap != 0 && s.total == s.cap
  }

  /** The Linux branch that breaks this: a rollback frees capacity and tells nobody. */
  predicate RollsBackSilently(s: State, e: Event)
    requires Enabled(s, e)
  {
    e.Finish? && s.threads[e.t].Failed? && Count(s.threads, IsSleeping) > 0
  }

  /** Linux: an event leaves a sleeper beside spare capacity exactly in that branch. */
  lemma LinuxStrandsExactly(s: State, e: Event)
    requires SleepersAreJustified(s) && Enabled(s, e) && (s.cap != 0 ==> s.total <= s.cap)
    ensures SleepersAreJustified(Next(Linux, s, e)) <==> !RollsBackSilently(s, e)
  {
    if e.Put? {
      if Count(s.threads, IsSleeping) > 0 {
        CountsAfter(s.threads, e.wake, Woken);
      }
    } else {
      CountsAfter(s.threads, e.t, Next(Linux, s, e).threads[e.t]);
    }
  }

  /** The Linux pool under the interleavings that avoid that branch. */
  const CAREFUL_LINUX := System((s: State, e: Event) => Enabled(s, e) && !RollsBackSilently(s, e),
                               (s: State, e: Event) => if Enabled(s, e) then Next(Linux, s, e) else s)

  predicate Justified(s: State) {
    SleepersAreJustified(s) && (s.cap != 0 ==> s.total <= s.cap)
  }

  /** Linux, every run that avoids it: nobody sleeps beside spare capacity. */
  lemma LinuxOtherwiseStrandsNobody(cap: nat, tids: set<Tid>, es: seq<Event>)
    requires Valid(CAREFUL_LINUX, Initial(cap, tids), es)
    ensures SleepersAreJustified(After(CAREFUL_LINUX, Initial(cap, tids), es))
  {
    CountNone(Initial(cap, tids).threads, IsSleeping);
    forall s, e | Justified(s) && CAREFUL_LINUX.enabled(s, e)
      ensures Justified(CAREFUL_LINUX.next(s, e))
    {
      LinuxStrandsExactly(s, e);
    }
    Invariant(CAREFUL_LINUX, Justified, Initial(cap, tids), es);
  }

  /** The Windows branch that breaks it: a waiter whose allocation failed sleeps although the cap is not reached. */
  predicate SleepsBesideRoom(s: State, e: Event)
    requires Enabled(s, e)
  {
    e.Finish? && s.threads[e.t] == Failed(Waiting) && !Exhausted(s)
  }

  /** Windows: an event leaves a sleeper beside spare capacity exactly in that branch. */
  lemma WindowsStrandsExactly(s: State, e: Event)
    requires SleepersAreJustified(s) && Enabled(s, e) && (s.cap != 0 ==> s.total <= s.cap)
    ensures SleepersAreJustified(Next(Windows, s, e)) <==> !SleepsBesideRoom(s, e)
  {
    if e.Put? {
      if Count(s.threads, IsSleeping) > 0 {
        CountsAfter(s.threads, e.wake, Woken);
      }
    } else if e.Finish? && s.threads[e.t] != Failed(Waiting) {
      WindowsFinishJustified(s, e.t);
    } else {
      CountsAfter(s.threads, e.t, Next(Windows, s, e).threads[e.t]);
    }
  }

  lemma WindowsFinishJustified(s: State, t: Tid)
    requires SleepersAreJustified(s) && Enabled(s, Finish(t)) && (s.cap != 0 ==> s.total <= s.cap)
    requires s.threads[t] != Failed(Waiting)
    ensures SleepersAreJustified(FinishWindows(s, t))
  {
    var m := Awake(s.threads);
    CountNone(m, IsSleeping);
    CountsAfter(m, t, FinishWindows(s, t).threads[t]);
    CountsAfter(s.threads, t, Idle);
  }

  /** The Windows pool under the interleavings that avoid that branch. */
  const UNSTRANDED_WINDOWS := System((s: State, e: Event) => Enabled(s, e) && !SleepsBesideRoom(s, e),
                                     (s: State, e: Event) => if Enabled(s, e) then Next(Windows, s, e) else s)

  /** Windows, every run that avoids it: nobody sleeps beside spare capacity. */
  lemma WindowsOtherwiseStrandsNobody(cap: nat, tids: set<Tid>, es: seq<Event>)
    requires Valid(UNSTRANDED_WINDOWS, Initial(cap, tids), es)
    ensures SleepersAreJustified(After(UNSTRANDED_WINDOWS, Initial(cap, tids), es))
  {
    CountNone(Initial(cap, tids).threads, IsSleeping);
    forall s, e | Justified(s) && UNSTRANDED_WINDOWS.enabled(s, e)
      ensures Justified(UNSTRANDED_WINDOWS.next(s, e))
    {
      WindowsStrandsExactly(s, e);
    }
    Invariant(UNSTRANDED_WINDOWS, Justified, Initial(cap, tids), es);
  }

  // ------------------------------------------------------------- the failures, as runs

  function Two(cap: nat, free: seq<nat>, total: int, inUse: int, allocators: int, out: multiset<nat>, minted: nat,
               l0: Local, l1: Local): State
  {
    State(cap, free, total, inUse, allocators, out, minted, map[0 := l0, 1 := l1])
  }

  predicate Steps(os: Os, r: State, e: Event, q: State) {
    Enabled(r, e) && Next(os, r, e) == q
  }

  lemma Walk(os: Os, s: State, r: State, e: Event, q: State)
    requires Reaches(Pool(os), s, r) && Steps(os, r, e, q)
    ensures Reaches(Pool(os), s, q)
  {
    ReachesNext(Pool(os), s, r, e);
  }

  lemma NobodySleeps(l0: Local, l1: Local)
    requires !l0.Sleeping? && !l1.Sleeping?
    ensures Count(map[0 := l0, 1 := l1], IsSleeping) == 0
  {
    CountNone(map[0 := l0, 1 := l1], IsSleeping);
  }

  lemma StrandingSteps() returns (r1: State, r2: State, r3: State, r4: State)
    ensures Steps(Linux, Initial(1, {0, 1}), Get(0, Waiting), r1) && Steps(Linux, r1, Get(1, Waiting), r2)
    ensures Steps(Linux, r2, Malloc(0, false), r3) && Steps(Linux, r3, Finish(0), r4)
    ensures r4 == Two(1, [], 0, 0, 0, multiset{}, 0, Idle, Sleeping)
  {
    r1 := Two(1, [], 1, 0, 0, multiset{}, 0, Allocating(Waiting), Idle);
    r2 := Two(1, [], 1, 0, 0, multiset{}, 0, Allocating(Waiting), Sleeping);
    r3 := Two(1, [], 1, 0, 0, multiset{}, 0, Failed(Waiting), Sleeping);
    r4 := Two(1, [], 0, 0, 0, multiset{}, 0, Idle, Sleeping);
    assert Initial(1, {0, 1}) == Two(1, [], 0, 0, 0, multiset{}, 0, Idle, Idle);
  }

  /** Linux: a run after which a waiter sleeps, unsignalled, beside a pool with room and nobody in it. */
  lemma LinuxCanStrand()
    ensures Reaches(Pool(Linux), Initial(1, {0, 1}), Two(1, [], 0, 0, 0, multiset{}, 0, Idle, Sleeping))
  {
    var s := Initial(1, {0, 1});
    var r1, r2, r3, r4 := StrandingSteps();
    ReachesItself(Pool(Linux), s);
    Walk(Linux, s, s, Get(0, Waiting), r1);
    Walk(Linux, s, r1, Get(1, Waiting), r2);
    Walk(Linux, s, r2, Malloc(0, false), r3);
    Walk(Linux, s, r3, Finish(0), r4);
  }

  /** One thread and no cap. */
  function Alone(l: Local, allocators: int): State {
    State(0, [], 0, 0, allocators, multiset{}, 0, map[0 := l])
  }

  lemma LonelySteps()
    ensures Initial(0, {0}) == Alone(Idle, 0)
    ensures Steps(Windows, Alone(Idle, 0), Get(0, Waiting), Alone(Allocating(Waiting), 1))
    ensures Steps(Windows, Alone(Allocating(Waiting), 1), Malloc(0, false), Alone(Failed(Waiting), 1))
    ensures Steps(Windows, Alone(Failed(Waiting), 1), Finish(0), Alone(Sleeping, 0))
  {
  }

  /** Windows: a run after which the only thread sleeps beside an empty pool without a cap. */
  lemma WindowsCanStrand()
    ensures Reaches(Pool(Windows), Initial(0, {0}), Alone(Sleeping, 0))
  {
    var s := Alone(Idle, 0);
    LonelySteps();
    ReachesItself(Pool(Windows), s);
    Walk(Windows, s, s, Get(0, Waiting), Alone(Allocating(Waiting), 1));
    Walk(Windows, s, Alone(Allocating(Waiting), 1), Malloc(0, false), Alone(Failed(Waiting), 1));
    Walk(Windows, s, Alone(Failed(Waiting), 1), Finish(0), Alone(Sleeping, 0));
  }

  /** Thread 0 gets a block and thread 1 starts allocating another. */
  lemma LosingStart() returns (r1: State, r2: State, r3: State, r4: State)
    ensures Steps(Windows, Initial(2, {0, 1}), Get(0, Waiting), r1) && Steps(Windows, r1, Malloc(0, true), r2)
    ensures Steps(Windows, r2, Finish(0), r3) && Steps(Windows, r3, Get(1, Waiting), r4)
    ensures r4 == Two(2, [], 1, 1, 1, multiset{0}, 1, Idle, Allocating(Waiting))
  {
    r1 := Two(2, [], 0, 0, 1, multiset{}, 0, Allocating(Waiting), Idle);
    r2 := Two(2, [], 0, 0, 1, multiset{}, 1, Allocated(Waiting, 0), Idle);
    r3 := Two(2, [], 1, 1, 0, multiset{0}, 1, Idle, Idle);
    r4 := Two(2, [], 1, 1, 1, multiset{0}, 1, Idle, Allocating(Waiting));
    assert Initial(2, {0, 1}) == Two(2, [], 0, 0, 0, multiset{}, 0, Idle, Idle);
  }

  /** The block comes back, the allocation fails, and thread 1 sleeps beside the block. */
  lemma LosingEnd() returns (r5: State, r6: State, r7: State)
    ensures Steps(Windows, Two(2, [], 1, 1, 1, multiset{0}, 1, Idle, Allocating(Waiting)), Put(0, 0, 0), r5)
    ensures Steps(Windows, r5, Malloc(1, false), r6) && Steps(Windows, r6, Finish(1), r7)
    ensures r7 == Two(2, [0], 1, 0, 0, multiset{}, 1, Idle, Sleeping)
  {
    NobodySleeps(Idle, Allocating(Waiting));
    r5 := Two(2, [0], 1, 0, 1, multiset{}, 1, Idle, Allocating(Waiting));
    r6 := Two(2, [0], 1, 0, 1, multiset{}, 1, Idle, Failed(Waiting));
    r7 := Two(2, [0], 1, 0, 0, multiset{}, 1, Idle, Sleeping);
  }

  /** Windows: a run after which a waiter sleeps, unsignalled, beside a free block. */
  lemma WindowsCanLose()
    ensures Reaches(Pool(Windows), Initial(2, {0, 1}), Two(2, [0], 1, 0, 0, multiset{}, 1, Idle, Sleeping))
  {
    var s := Initial(2, {0, 1});
    var r1, r2, r3, r4 := LosingStart();
    var r5, r6, r7 := LosingEnd();
    ReachesItself(Pool(Windows), s);
    Walk(Windows, s, s, Get(0, Waiting), r1);
    Walk(Windows, s, r1, Malloc(0, true), r2);
    Walk(Windows, s, r2, Finish(0), r3);
    Walk(Windows, s, r3, Get(1, Waiting), r4);
    Walk(Windows, s, r4, Put(0, 0, 0), r5);
    Walk(Windows, s, r5, Malloc(1, false), r6);
    Walk(Windows, s, r6, Finish(1), r7);
  }
}
