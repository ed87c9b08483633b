/**
 The countdown latch of vpn/common/inc/cnt_sync.h. Decrements and waiters hold the
 mutex; increments do not, so every atomic access to the counter is an event of its
 own. The counter balances increments against decrements; no wakeup is lost unless an
 increment wraps the 64-bit counter to zero past somebody who sleeps or is about to; and a
 timed wait can report a timeout at zero, in two ways that are delimited exactly.
 */
module CountLatch {
  import opened Common
  import opened Threads
  import opened Runs

  /**
   Why a sleeper woke. A deadline carries history: the counter at that moment, and
   whether somebody had decremented it to zero without having broadcast yet.
   */
  datatype Reason = Signal | Deadline(value: nat, unannounced: bool)

  /** What a wait reports; a timeout carries the counter at the moment the lock was retaken. */
  datatype Result = Zero | TimedOut(due: Reason, value: nat)

  datatype Local =
    | Idle
    | DecLocked
    | DecDone(left: nat)
    | DecUnlock
    | Testing(timed: bool)
    | Committed(timed: bool)
    | Sleeping(timed: bool)
    | Woken(timed: bool, why: Reason)
    | Leaving(result: Result)

  /** `down` says that a decrement of zero has aborted the program. */
  datatype State = State(value: nat, mutex: Option<Tid>, down: bool, threads: map<Tid, Local>)

  datatype Event =
    | Inc(t: Tid)
    | Dec(t: Tid)
    | Wait(t: Tid, timed: bool)
    | Go(t: Tid)
    | Spurious(t: Tid)
    | Expire(t: Tid)

  predicate HoldsMutex(l: Local) {
    l.DecLocked? || l.DecDone? || l.DecUnlock? || l.Testing? || l.Committed? || l.Leaving?
  }

  predicate Enabled(s: State, e: Event) {
    !s.down && e.t in s.threads &&
    match e
    case Inc(t) => s.threads[t].Idle?
    case Dec(t) => s.threads[t].Idle? && s.mutex.None?
    case Wait(t, _) => s.threads[t].Idle? && s.mutex.None?
    case Spurious(t) => s.threads[t].Sleeping?
    case Expire(t) => s.threads[t].Sleeping? && s.threads[t].timed
    case Go(t) => !s.threads[t].Idle? && !s.threads[t].Sleeping? && (s.threads[t].Woken? ==> s.mutex.None?)
  }

  function Wake(l: Local): Local {
    if l.Sleeping? then Woken(l.timed, Signal) else l
  }

  function WakeAll(m: map<Tid, Local>): map<Tid, Local> {
    map t | t in m :: Wake(m[t])
  }

  function Move(s: State, t: Tid, l: Local): State {
    s.(threads := s.threads[t := l])
  }

  /** The thread that holds the mutex is at `l`. */
  predicate HolderAt(s: State, l: Local) {
    s.mutex.Some? && s.mutex.value in s.threads && s.threads[s.mutex.value] == l
  }

  /** Somebody has decremented the counter to zero and not yet broadcast. */
  predicate Announcing(s: State) {
    HolderAt(s, DecDone(0))
  }

  function GoNext(s: State, t: Tid): State
    requires t in s.threads
  {
    match s.threads[t]
    case DecLocked =>
      if s.value == 0 then s.(value := WORDS - 1, down := true)
      else Move(s, t, DecDone(s.value - 1)).(value := s.value - 1)
    case DecDone(left) =>
      if left == 0 then Move(s.(threads := WakeAll(s.threads)), t, DecUnlock) else Move(s, t, DecUnlock)
    case DecUnlock => Move(s, t, Idle).(mutex := None)
    case Testing(timed) => Move(s, t, if s.value == 0 then Leaving(Zero) else Committed(timed))
    case Committed(timed) => Move(s, t, Sleeping(timed)).(mutex := None)
    case Woken(timed, why) =>
      Move(s, t, if why.Deadline? then Leaving(TimedOut(why, s.value)) else Testing(timed)).(mutex := Some(t))
    case Leaving(_) => Move(s, t, Idle).(mutex := None)
    case _ => s
  }

  function Next(s: State, e: Event): State
    requires Enabled(s, e)
  {
    match e
    case Inc(_) => s.(value := (s.value + 1) % WORDS)
    case Dec(t) => Move(s, t, DecLocked).(mutex := Some(t))
    case Wait(t, timed) => Move(s, t, Testing(timed)).(mutex := Some(t))
    case Spurious(t) => Move(s, t, Woken(s.threads[t].timed, Signal))
    case Expire(t) => Move(s, t, Woken(true, Deadline(s.value, Announcing(s))))
    case Go(t) => GoNext(s, t)
  }

  /** An increment of the largest counter value. */
  predicate Wraps(s: State, e: Event) {
    e.Inc? && s.value == WORDS - 1
  }

  function Step(s: State, e: Event): State {
    if Enabled(s, e) then Next(s, e) else s
  }

  /** The latch under every interleaving. */
  const WRAPPING := System((s: State, e: Event) => Enabled(s, e), (s: State, e: Event) => Step(s, e))

  /** The latch under every interleaving in which no increment wraps. */
  const LATCH := System((s: State, e: Event) => Enabled(s, e) && !Wraps(s, e), (s: State, e: Event) => Step(s, e))

  function Initial(value: nat, tids: set<Tid>): State {
    State(value, None, false, map t | t in tids :: Idle)
  }

  // ------------------------------------------------------------- the invariant

  predicate Locking(s: State) {
    && s.value < WORDS && (s.down ==> s.mutex.Some?)
    && (s.mutex.Some? ==> s.mutex.value in s.threads && HoldsMutex(s.threads[s.mutex.value]))
    && (forall t :: t in s.threads && HoldsMutex(s.threads[t]) ==> s.mutex == Some(t))
  }

  /** A deadline finds the counter non-zero, or at a zero that has not been announced yet. */
  predicate Due(why: Reason) {
    why.Deadline? ==> why.value != 0 || why.unannounced
  }

  predicate LocalOk(s: State, l: Local) {
    match l
    case Sleeping(_) => s.value != 0 || Announcing(s)
    case Committed(_) => s.value != 0
    case Woken(_, why) => Due(why)
    case Leaving(result) => result.TimedOut? ==> result.due.Deadline? && Due(result.due)
    case _ => true
  }

  /** Nobody sleeps through zero, unless the broadcast is about to come; nor is about to go to sleep at zero. */
  predicate Watched(s: State) {
    forall t :: t in s.threads ==> LocalOk(s, s.threads[t])
  }

  predicate Inv(s: State) {
    Locking(s) && Watched(s)
  }

  lemma StepKeepsLocking(s: State, e: Event)
    requires Locking(s) && Enabled(s, e)
    ensures Locking(Next(s, e))
  {
  }

  lemma StepKeepsWatched(s: State, e: Event)
    requires Inv(s) && Enabled(s, e) && !Wraps(s, e)
    ensures Watched(Next(s, e))
  {
    var s' := Next(s, e);
    assert LocalOk(s, s.threads[e.t]);
    forall t | t in s'.threads ensures LocalOk(s', s'.threads[t]) {
      assert LocalOk(s, s.threads[t]);
    }
  }

  // ------------------------------------------------------------- wakeups

  /** While the mutex is free, a sleeper that nobody has woken is right to sleep. */
  predicate NoLostWakeup(s: State) {
    s.mutex.None? ==> forall t :: t in s.threads && s.threads[t].Sleeping? ==> s.value != 0
  }

  lemma InvLosesNone(s: State)
    requires Inv(s)
    ensures NoLostWakeup(s)
  {
    forall t | s.mutex.None? && t in s.threads && s.threads[t].Sleeping? ensures s.value != 0 {
      assert LocalOk(s, s.threads[t]);
    }
  }

  /** Somebody sleeps, or is about to, trusting the counter not to be zero. */
  predicate SomebodyRelies(s: State) {
    exists t :: t in s.threads && (s.threads[t].Committed? || (s.threads[t].Sleeping? && !Announcing(s)))
  }

  predicate SomebodySleeps(s: State) {
    exists t :: t in s.threads && s.threads[t].Sleeping?
  }

  /** An increment wraps the counter to zero past somebody who sleeps or is about to. */
  predicate WrapsPast(s: State, e: Event) {
    Wraps(s, e) && SomebodyRelies(s)
  }

  /**
   From a state that satisfies the invariant: an event breaks it exactly if it wraps past
   somebody who sleeps or is about to, and loses a wakeup at once exactly if it wraps past
   a sleeper while the mutex is free.
   */
  lemma WrapLosesExactly(s: State, e: Event)
    requires Inv(s) && Enabled(s, e)
    ensures NoLostWakeup(Next(s, e)) <==> !(Wraps(s, e) && s.mutex.None? && SomebodySleeps(s))
    ensures Inv(Next(s, e)) <==> !WrapsPast(s, e)
  {
    StepKeepsLocking(s, e);
    if !Wraps(s, e) {
      StepKeepsWatched(s, e);
      InvLosesNone(Next(s, e));
    } else {
      WrapBreaksExactly(s, e);
    }
  }

  lemma WrapBreaksExactly(s: State, e: Event)
    requires Inv(s) && Enabled(s, e) && Wraps(s, e)
    ensures Watched(Next(s, e)) <==> !SomebodyRelies(s)
  {
    var s' := Next(s, e);
    assert s'.value == 0 && s'.threads == s.threads && Announcing(s') == Announcing(s);
    if !SomebodyRelies(s) {
      forall t | t in s'.threads ensures LocalOk(s', s'.threads[t]) {
        assert LocalOk(s, s.threads[t]);
      }
    } else {
      var t :| t in s.threads && (s.threads[t].Committed? || (s.threads[t].Sleeping? && !Announcing(s)));
      assert !LocalOk(s', s'.threads[t]);
    }
  }

  /** The latch under every interleaving in which no increment wraps past such a thread. */
  const CAREFUL := System((s: State, e: Event) => Enabled(s, e) && !WrapsPast(s, e),
                          (s: State, e: Event) => Step(s, e))

  /** The invariant holds after every event of the run. */
  predicate Keeps(s: State, es: seq<Event>)
    requires Valid(WRAPPING, s, es)
    decreases |es|
  {
    es == [] || (Inv(Next(s, es[0])) && Keeps(Next(s, es[0]), es[1..]))
  }

  /**
   Over every run: the invariant survives exactly if no increment wraps past somebody who
   sleeps or is about to, and then no wakeup is lost.
   */
  lemma {:induction false} RunKeepsExactly(s: State, es: seq<Event>)
    requires Inv(s) && Valid(WRAPPING, s, es)
    ensures Keeps(s, es) <==> Valid(CAREFUL, s, es)
    ensures Valid(CAREFUL, s, es) ==> NoLostWakeup(After(WRAPPING, s, es))
    decreases |es|
  {
    if es == [] {
      InvLosesNone(s);
    } else {
      WrapLosesExactly(s, es[0]);
      if !WrapsPast(s, es[0]) {
        RunKeepsExactly(Next(s, es[0]), es[1..]);
      }
    }
  }

  lemma ReachableInv(value: nat, tids: set<Tid>, es: seq<Event>)
    requires value < WORDS && Valid(CAREFUL, Initial(value, tids), es)
    ensures Inv(After(CAREFUL, Initial(value, tids), es))
  {
    forall s, e | Inv(s) && CAREFUL.enabled(s, e) ensures Inv(CAREFUL.next(s, e)) {
      WrapLosesExactly(s, e);
    }
    Invariant(CAREFUL, Inv, Initial(value, tids), es);
  }

  /** In particular no wakeup is lost in any such run of a new latch, although increments do not lock. */
  lemma LatchLosesNoWakeup(value: nat, tids: set<Tid>, es: seq<Event>)
    requires value < WORDS && Valid(CAREFUL, Initial(value, tids), es)
    ensures NoLostWakeup(After(CAREFUL, Initial(value, tids), es))
  {
    ReachableInv(value, tids, es);
    InvLosesNone(After(CAREFUL, Initial(value, tids), es));
  }

  /** An event that gives the mutex up and leaves its thread, or another one, asleep. */
  predicate ReleasesPastSleeper(s: State, e: Event)
    requires Enabled(s, e)
  {
    var l := s.threads[e.t];
    e.Go? && (l.Committed? || ((l.DecUnlock? || l.Leaving?) && SomebodySleeps(s)))
  }

  /**
   The same without the invariant, so that it also covers what follows a wrap: an event
   loses a wakeup exactly if it wraps past a sleeper while the mutex is free, or releases
   the mutex past a sleeper at zero.
   */
  lemma EventLosesExactly(s: State, e: Event)
    requires Locking(s) && NoLostWakeup(s) && Enabled(s, e)
    ensures !NoLostWakeup(Next(s, e)) <==>
            (Wraps(s, e) && s.mutex.None? && SomebodySleeps(s)) || (s.value == 0 && ReleasesPastSleeper(s, e))
  {
    var s' := Next(s, e);
    assert NoLostWakeup(s') <==> !(s'.mutex.None? && s'.value == 0 && SomebodySleeps(s'));
    SleepersAfter(s, e);
  }

  lemma SleepersAfter(s: State, e: Event)
    requires Locking(s) && Enabled(s, e)
    ensures e.Go? && s.threads[e.t].Committed? ==> SomebodySleeps(Next(s, e))
    ensures e.Inc? || (e.Go? && (s.threads[e.t].DecUnlock? || s.threads[e.t].Leaving?)) ==>
              (SomebodySleeps(Next(s, e)) <==> SomebodySleeps(s))
    ensures e.Spurious? || e.Expire? ==> SomebodySleeps(s)
  {
    var s' := Next(s, e);
    if e.Go? && s.threads[e.t].Committed? {
      assert s'.threads[e.t].Sleeping?;
    } else if e.Spurious? || e.Expire? {
      assert s.threads[e.t].Sleeping?;
    } else if e.Go? && (s.threads[e.t].DecUnlock? || s.threads[e.t].Leaving?) {
      if t :| t in s.threads && s.threads[t].Sleeping? {
        assert s'.threads[t].Sleeping?;
      }
    }
  }

  // ------------------------------------------------------------- the counter as a balance

  function Incs(es: seq<Event>): nat {
    if es == [] then 0 else Bit(es[0].Inc?) + Incs(es[1..])
  }

  function Decs(es: seq<Event>): nat {
    if es == [] then 0 else Bit(es[0].Dec?) + Decs(es[1..])
  }

  /** The counter, less the decrement that is under way; one below zero after an abort. */
  function Credit(s: State): int {
    if s.down then -1 else s.value - Bit(HolderAt(s, DecLocked))
  }

  lemma StepCredits(s: State, e: Event)
    requires Locking(s) && Enabled(s, e) && !Wraps(s, e)
    ensures Credit(Next(s, e)) == Credit(s) + Bit(e.Inc?) - Bit(e.Dec?)
  {
    var s' := Next(s, e);
    if s.mutex.Some? && s.mutex.value != e.t {
      assert HolderAt(s', DecLocked) == HolderAt(s, DecLocked);
    }
  }

  lemma {:induction false} RunCredits(s: State, es: seq<Event>)
    requires Locking(s) && Valid(LATCH, s, es)
    ensures Locking(After(LATCH, s, es)) && Credit(After(LATCH, s, es)) == Credit(s) + Incs(es) - Decs(es)
    decreases |es|
  {
    if es != [] {
      StepKeepsLocking(s, es[0]);
      StepCredits(s, es[0]);
      RunCredits(Next(s, es[0]), es[1..]);
    }
  }

  /**
   The program aborts exactly when decrements outnumber the initial value and the
   increments: it is down, or the excess decrement is the thread's next access.
   */
  lemma AbortsExactly(value: nat, tids: set<Tid>, es: seq<Event>)
    requires value < WORDS && Valid(LATCH, Initial(value, tids), es)
    ensures var s := After(LATCH, Initial(value, tids), es);
            Decs(es) > value + Incs(es) <==> s.down || (s.value == 0 && HolderAt(s, DecLocked))
    ensures Decs(es) <= value + Incs(es) + 1
  {
    RunCredits(Initial(value, tids), es);
  }

  /** Inside a wait, from the call until its result is known. */
  predicate Waiting(l: Local) {
    l.Testing? || l.Committed? || l.Sleeping? || l.Woken?
  }

  /** The event decides the wait of `t`, with this result. */
  predicate Decides(s: State, e: Event, t: Tid, r: Result)
    requires Enabled(s, e) && t in s.threads
  {
    s.threads[t] != Leaving(r) && t in Next(s, e).threads && Next(s, e).threads[t] == Leaving(r)
  }

  /**
   A wait ends only with a result, keeps its kind until then, and is woken by its deadline
   only if it has one, which is noted as it was.
   */
  lemma WaitsEndWithResult(s: State, e: Event, t: Tid)
    requires Enabled(s, e) && t in s.threads && Waiting(s.threads[t])
    ensures t in Next(s, e).threads
    ensures var l, l' := s.threads[t], Next(s, e).threads[t];
            && (Waiting(l') || l'.Leaving?)
            && (Waiting(l') ==> l'.timed == l.timed)
            && (l'.Leaving? && l'.result.TimedOut? ==> l.timed || (l.Woken? && l.why.Deadline?))
            && (l'.Woken? && l'.why.Deadline? && l' != l ==>
                  e == Expire(t) && l.timed && l'.why == Deadline(s.value, Announcing(s)))
  {
  }

  /** A wait reports zero exactly by testing the counter at zero, under the lock. */
  lemma ZeroWasSeen(s: State, e: Event, t: Tid)
    requires Enabled(s, e) && t in s.threads
    ensures Decides(s, e, t, Zero) <==> e == Go(t) && s.threads[t].Testing? && s.value == 0
  {
  }

  /** Over every run without a wrap: a wait reports zero exactly by a test that finds all taken off again. */
  lemma ZeroIsReportedExactly(value: nat, tids: set<Tid>, es: seq<Event>, e: Event, t: Tid)
    requires value < WORDS && Valid(LATCH, Initial(value, tids), es)
    requires var s := After(LATCH, Initial(value, tids), es);
             Enabled(s, e) && t in s.threads
    ensures var s := After(LATCH, Initial(value, tids), es);
            Decides(s, e, t, Zero) <==> e == Go(t) && s.threads[t].Testing? && Decs(es) == value + Incs(es)
  {
    var s := After(LATCH, Initial(value, tids), es);
    ZeroWasSeen(s, e, t);
    if e == Go(t) && s.threads[t].Testing? {
      ZeroMeansBalanced(value, tids, es, t);
    }
  }

  /** A test of the counter succeeds exactly when all it was raised by has been taken off again. */
  lemma ZeroMeansBalanced(value: nat, tids: set<Tid>, es: seq<Event>, t: Tid)
    requires value < WORDS && Valid(LATCH, Initial(value, tids), es)
    requires var s := After(LATCH, Initial(value, tids), es);
             Enabled(s, Go(t)) && s.threads[t].Testing?
    ensures var s := After(LATCH, Initial(value, tids), es);
            Next(s, Go(t)).threads[t] == Leaving(Zero) <==> Decs(es) == value + Incs(es)
  {
    RunCredits(Initial(value, tids), es);
  }

  /** With the mutex free at zero, no waiter sleeps, and one that was signalled can leave with zero at once. */
  lemma WaiterCanLeave(s: State, t: Tid)
    requires Inv(s) && !s.down && s.mutex.None? && s.value == 0 && t in s.threads && Waiting(s.threads[t])
    ensures s.threads[t].Woken? && Enabled(s, Go(t))
    ensures s.threads[t].why == Signal ==>
              Enabled(Next(s, Go(t)), Go(t)) && Next(Next(s, Go(t)), Go(t)).threads[t] == Leaving(Zero)
  {
    assert LocalOk(s, s.threads[t]);
  }

  /** A decrement reports the value it left behind, and sleepers are woken exactly by the one that leaves zero. */
  lemma DecrementReports(s: State, e: Event, t: Tid)
    requires Enabled(s, e) && t in s.threads && t != e.t
    ensures var s', l := Next(s, e), s.threads[e.t];
            && e.t in s'.threads && t in s'.threads
            && (s'.threads[e.t].DecDone? ==>
                  l == s'.threads[e.t] || (l.DecLocked? && s'.value == s.value - 1 == s'.threads[e.t].left))
            && (s.threads[t].Sleeping? ==> (s'.threads[t].Woken? <==> e.Go? && l == DecDone(0)))
            && (!s.threads[t].Sleeping? || !s'.threads[t].Woken? ==> s'.threads[t] == s.threads[t])
  {
  }

  // ------------------------------------------------------------- timeouts at zero

  /** The wait of `t` is about to report a timeout although the counter is zero. */
  predicate MissesZero(s: State, t: Tid) {
    t in s.threads && s.threads[t].Leaving? && s.threads[t].result.TimedOut? && s.threads[t].result.value == 0
  }

  /**
   In every run without such a wrap, a timed wait misses zero exactly if its deadline came first and found
   the counter non-zero, or at a zero not yet announced, and the lock is retaken at zero.
   */
  lemma LateWaitMisses(value: nat, tids: set<Tid>, es: seq<Event>, t: Tid)
    requires value < WORDS && Valid(CAREFUL, Initial(value, tids), es)
    requires var s := After(CAREFUL, Initial(value, tids), es);
             Enabled(s, Go(t)) && s.threads[t].Woken?
    ensures var s := After(CAREFUL, Initial(value, tids), es);
            var why := s.threads[t].why;
            MissesZero(Next(s, Go(t)), t) <==> why.Deadline? && (why.value != 0 || why.unannounced) && s.value == 0
  {
    ReachableInv(value, tids, es);
    var s := After(CAREFUL, Initial(value, tids), es);
    assert LocalOk(s, s.threads[t]);
  }

  /** And whoever leaves with a timeout has been woken by such a deadline. */
  lemma TimeoutsAreDue(value: nat, tids: set<Tid>, es: seq<Event>, t: Tid)
    requires value < WORDS && Valid(CAREFUL, Initial(value, tids), es)
    ensures var s := After(CAREFUL, Initial(value, tids), es);
            t in s.threads && s.threads[t].Leaving? && s.threads[t].result.TimedOut? ==>
              var due := s.threads[t].result.due;
              due.Deadline? && (due.value != 0 || due.unannounced)
  {
    ReachableInv(value, tids, es);
    var s := After(CAREFUL, Initial(value, tids), es);
    if t in s.threads {
      assert LocalOk(s, s.threads[t]);
    }
  }

  // ------------------------------------------------------------- the failures, as runs

  /** Two threads, nobody has aborted. */
  function Two(value: nat, mutex: Option<Tid>, l0: Local, l1: Local): State {
    State(value, mutex, false, map[0 := l0, 1 := l1])
  }

  predicate Steps(r: State, e: Event, q: State) {
    Enabled(r, e) && Next(r, e) == q
  }

  lemma Walk(s: State, r: State, e: Event, q: State)
    requires Reaches(WRAPPING, s, r) && Steps(r, e, q)
    ensures Reaches(WRAPPING, s, q)
  {
    ReachesNext(WRAPPING, s, r, e);
  }

  lemma FallAsleepSteps(value: nat, timed: bool)
    requires value > 0
    ensures Initial(value, {0, 1}) == Two(value, None, Idle, Idle)
    ensures Steps(Two(value, None, Idle, Idle), Wait(0, timed), Two(value, Some(0), Testing(timed), Idle))
    ensures Steps(Two(value, Some(0), Testing(timed), Idle), Go(0), Two(value, Some(0), Committed(timed), Idle))
    ensures Steps(Two(value, Some(0), Committed(timed), Idle), Go(0), Two(value, None, Sleeping(timed), Idle))
  {
  }

  /** Thread 0 goes to sleep on a counter that is not zero. */
  lemma FallAsleep(value: nat, timed: bool)
    requires value > 0
    ensures Reaches(WRAPPING, Initial(value, {0, 1}), Two(value, None, Sleeping(timed), Idle))
  {
    var s := Two(value, None, Idle, Idle);
    FallAsleepSteps(value, timed);
    ReachesItself(WRAPPING, s);
    Walk(s, s, Wait(0, timed), Two(value, Some(0), Testing(timed), Idle));
    Walk(s, Two(value, Some(0), Testing(timed), Idle), Go(0), Two(value, Some(0), Committed(timed), Idle));
    Walk(s, Two(value, Some(0), Committed(timed), Idle), Go(0), Two(value, None, Sleeping(timed), Idle));
  }

  /** A run in which an increment wraps past a sleeper, who then sleeps at zero with the mutex free. */
  lemma WrapCanLose()
    ensures Reaches(WRAPPING, Initial(WORDS - 1, {0, 1}), Two(0, None, Sleeping(false), Idle))
    ensures !NoLostWakeup(Two(0, None, Sleeping(false), Idle))
  {
    var s, q := Initial(WORDS - 1, {0, 1}), Two(0, None, Sleeping(false), Idle);
    FallAsleep(WORDS - 1, false);
    Walk(s, Two(WORDS - 1, None, Sleeping(false), Idle), Inc(1), q);
    assert q.threads[0].Sleeping?;
  }

  /**
   A run in which the wrap meets no sleeper, but a thread about to sleep: no wakeup is lost
   yet, and then the next event, which is no wrap, loses one.
   */
  lemma WrapCanLoseLater()
    ensures var r, q := Two(0, Some(0), Committed(false), Idle), Two(0, None, Sleeping(false), Idle);
            && Reaches(WRAPPING, Initial(WORDS - 1, {0, 1}), r) && NoLostWakeup(r)
            && Steps(r, Go(0), q) && !NoLostWakeup(q)
  {
    var s, n := Initial(WORDS - 1, {0, 1}), WORDS - 1;
    FallAsleepSteps(n, false);
    ReachesItself(WRAPPING, s);
    Walk(s, Two(n, None, Idle, Idle), Wait(0, false), Two(n, Some(0), Testing(false), Idle));
    Walk(s, Two(n, Some(0), Testing(false), Idle), Go(0), Two(n, Some(0), Committed(false), Idle));
    Walk(s, Two(n, Some(0), Committed(false), Idle), Inc(1), Two(0, Some(0), Committed(false), Idle));
    LastStepLoses();
  }

  lemma LastStepLoses()
    ensures var r, q := Two(0, Some(0), Committed(false), Idle), Two(0, None, Sleeping(false), Idle);
            Steps(r, Go(0), q) && !NoLostWakeup(q)
  {
    assert Two(0, None, Sleeping(false), Idle).threads[0].Sleeping?;
  }

  /** Thread 1 decrements to zero. */
  lemma DecrementSteps(l: Local)
    ensures Steps(Two(1, None, l, Idle), Dec(1), Two(1, Some(1), l, DecLocked))
    ensures Steps(Two(1, Some(1), l, DecLocked), Go(1), Two(0, Some(1), l, DecDone(0)))
  {
  }

  /** Thread 1 broadcasts and unlocks; thread 0, already awake, takes the lock and gives up. */
  lemma GiveUpSteps(why: Reason)
    requires why.Deadline?
    ensures var l := Woken(true, why);
            && Steps(Two(0, Some(1), l, DecDone(0)), Go(1), Two(0, Some(1), l, DecUnlock))
            && Steps(Two(0, Some(1), l, DecUnlock), Go(1), Two(0, None, l, Idle))
            && Steps(Two(0, None, l, Idle), Go(0), Two(0, Some(0), Leaving(TimedOut(why, 0)), Idle))
  {
  }

  lemma GiveUp(s: State, why: Reason)
    requires why.Deadline? && Reaches(WRAPPING, s, Two(0, Some(1), Woken(true, why), DecDone(0)))
    ensures Reaches(WRAPPING, s, Two(0, Some(0), Leaving(TimedOut(why, 0)), Idle))
  {
    var l := Woken(true, why);
    GiveUpSteps(why);
    Walk(s, Two(0, Some(1), l, DecDone(0)), Go(1), Two(0, Some(1), l, DecUnlock));
    Walk(s, Two(0, Some(1), l, DecUnlock), Go(1), Two(0, None, l, Idle));
    Walk(s, Two(0, None, l, Idle), Go(0), Two(0, Some(0), Leaving(TimedOut(why, 0)), Idle));
  }

  /** A run in which the deadline finds the counter at one and the lock is retaken at zero. */
  lemma ZeroAfterDeadline()
    ensures Reaches(WRAPPING, Initial(1, {0, 1}), Two(0, Some(0), Leaving(TimedOut(Deadline(1, false), 0)), Idle))
  {
    var s, l := Initial(1, {0, 1}), Woken(true, Deadline(1, false));
    FallAsleep(1, true);
    Walk(s, Two(1, None, Sleeping(true), Idle), Expire(0), Two(1, None, l, Idle));
    DecrementSteps(l);
    Walk(s, Two(1, None, l, Idle), Dec(1), Two(1, Some(1), l, DecLocked));
    Walk(s, Two(1, Some(1), l, DecLocked), Go(1), Two(0, Some(1), l, DecDone(0)));
    GiveUp(s, Deadline(1, false));
  }

  lemma ExpiresUnannounced()
    ensures Steps(Two(0, Some(1), Sleeping(true), DecDone(0)), Expire(0),
                  Two(0, Some(1), Woken(true, Deadline(0, true)), DecDone(0)))
  {
  }

  /** A run in which zero comes before the deadline, but the broadcast after it. */
  lemma ZeroBeforeDeadline()
    ensures Reaches(WRAPPING, Initial(1, {0, 1}), Two(0, Some(0), Leaving(TimedOut(Deadline(0, true), 0)), Idle))
  {
    var s, l := Initial(1, {0, 1}), Sleeping(true);
    FallAsleep(1, true);
    DecrementSteps(l);
    Walk(s, Two(1, None, l, Idle), Dec(1), Two(1, Some(1), l, DecLocked));
    Walk(s, Two(1, Some(1), l, DecLocked), Go(1), Two(0, Some(1), l, DecDone(0)));
    ExpiresUnannounced();
    Walk(s, Two(0, Some(1), l, DecDone(0)), Expire(0), Two(0, Some(1), Woken(true, Deadline(0, true)), DecDone(0)));
    GiveUp(s, Deadline(0, true));
  }
}
