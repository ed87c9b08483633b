/**
 The synchronised state of vpn/common/inc/state_sync.h. The state is touched only
 under the lock, so one event is one critical section, or a sleeper's wake-up.
 */
module StateLatch {
  import opened Common
  import opened Threads
  import opened Runs

  /** The waits the header offers; the last two carry a deadline. */
  datatype Call =
    | WaitFor(target: int)
    | WaitForAny(a: int, b: int)
    | WaitWhile(value: int)
    | WaitMs(target: int)
    | WaitMsAbort(target: int, abort: int)

  datatype Code = Ok | ConnAborted | TimedOut | Canceled

  /**
   `due` says whether a deadline woke the thread, and in which state; `seen` is the state
   at the moment the call gave up the lock for good. The two states are history.
   */
  datatype Local =
    | Idle
    | Sleeping(call: Call)
    | Woken(call: Call, due: Option<int>)
    | Returned(call: Call, code: Code, due: Option<int>, seen: int)

  datatype State = State(value: int, threads: map<Tid, Local>)

  const NANOS: int := 1_000_000_000
  const SECONDS: int := 0x7FFF_FFFF_FFFF_FFFF

  /** A normalised time whose seconds fit the signed 64-bit field. */
  predicate Representable(sec: int, nsec: int) {
    -SECONDS - 1 <= sec <= SECONDS && 0 <= nsec < NANOS
  }

  /** The guard against overflow of the seconds. */
  predicate Accepts(sec: int, ms: nat) {
    sec <= SECONDS - ms / 1000
  }

  /**
   `state_sync_timespec_add_ms`, and the same lines of the timed count latch, whose
   timeout is wider: the sum, normalised. A refusal means that the sum has no
   representation; one sum without a representation is not refused, the one whose
   seconds overflow only through the carry of the nanoseconds.
   */
  method AddMs(sec: int, nsec: int, ms: nat) returns (rc: int, sec': int, nsec': int)
    requires Representable(sec, nsec) && ms < 0x1_0000_0000_0000_0000
    ensures rc == if Accepts(sec, ms) then 0 else -EINVAL
    ensures rc == 0 ==> sec' * NANOS + nsec' == sec * NANOS + nsec + ms * 1_000_000 && 0 <= nsec' < NANOS
    ensures rc == 0 ==> (Representable(sec', nsec') <==>
                           !(sec == SECONDS - ms / 1000 && nsec + ms % 1000 * 1_000_000 >= NANOS))
    ensures rc != 0 ==> sec' == sec && nsec' == nsec && (sec * NANOS + nsec + ms * 1_000_000) / NANOS > SECONDS
  {
    var secAdd, nsecAdd := ms / 1000, ms % 1000 * 1_000_000;
    sec', nsec' := sec, nsec;
    if sec > SECONDS - secAdd {
      return -EINVAL, sec', nsec';
    }
    sec' := sec' + secAdd;
    nsec' := nsec' + nsecAdd;
    if nsec' >= NANOS {
      sec' := sec' + 1;
      nsec' := nsec' - NANOS;
    }
    return 0, sec', nsec';
  }

  /** One millisecond added to the last representable one: accepted, and the sum has no representation. */
  lemma CarrySlipsThrough(sec': int, nsec': int)
    requires sec' * NANOS + nsec' == SECONDS * NANOS + (NANOS - 1) + 1_000_000 && 0 <= nsec' < NANOS
    ensures Representable(SECONDS, NANOS - 1) && Accepts(SECONDS, 1)
    ensures sec' == SECONDS + 1 && !Representable(sec', nsec')
  {
  }

  /** `clock` says whether a deadline could be computed. */
  datatype Event =
    | Set(t: Tid, value: int)
    | Begin(t: Tid, call: Call, clock: bool)
    | Deadline(t: Tid)
    | Spurious(t: Tid)
    | Resume(t: Tid)
    | Collect(t: Tid)

  predicate HasDeadline(c: Call) {
    c.WaitMs? || c.WaitMsAbort?
  }

  /** The loop condition of the call is over. */
  predicate Ready(c: Call, value: int) {
    match c
    case WaitFor(target) => value == target
    case WaitForAny(a, b) => value == a || value == b
    case WaitWhile(v) => value != v
    case WaitMs(target) => value == target
    case WaitMsAbort(target, abort) => value == target || value == abort
  }

  predicate Enabled(s: State, e: Event) {
    e.t in s.threads &&
    match e
    case Set(t, _) => s.threads[t].Idle?
    case Begin(t, call, clock) => s.threads[t].Idle? && (clock || HasDeadline(call))
    case Deadline(t) => s.threads[t].Sleeping? && HasDeadline(s.threads[t].call)
    case Spurious(t) => s.threads[t].Sleeping?
    case Resume(t) => s.threads[t].Woken?
    case Collect(t) => s.threads[t].Returned?
  }

  function Move(s: State, t: Tid, l: Local): State {
    s.(threads := s.threads[t := l])
  }

  function Return(s: State, t: Tid, call: Call, code: Code, due: Option<int>): State {
    Move(s, t, Returned(call, code, due, s.value))
  }

  /** The code of a wait whose condition holds. */
  function ReadyCode(c: Call, value: int): Code {
    if c.WaitMsAbort? && value != c.target then ConnAborted else Ok
  }

  function Loop(s: State, t: Tid, call: Call, due: Option<int>): State {
    if Ready(call, s.value) then Return(s, t, call, ReadyCode(call, s.value), due) else Move(s, t, Sleeping(call))
  }

  function Wake(l: Local): Local {
    if l.Sleeping? then Woken(l.call, None) else l
  }

  function Next(s: State, e: Event): State
    requires Enabled(s, e)
  {
    match e
    case Set(_, value) =>
      if value == s.value then s else State(value, map t | t in s.threads :: Wake(s.threads[t]))
    case Begin(t, call, clock) =>
      if clock then Loop(s, t, call, None)
      else if call.WaitMsAbort? && Ready(call, s.value) then Loop(s, t, call, None)
      else Return(s, t, call, Canceled, None)
    case Deadline(t) => Move(s, t, Woken(s.threads[t].call, Some(s.value)))
    case Spurious(t) => Move(s, t, Woken(s.threads[t].call, None))
    case Resume(t) =>
      var l := s.threads[t];
      if l.due.None? then Loop(s, t, l.call, None)
      else if l.call.WaitMsAbort? && Ready(l.call, s.value) then Loop(s, t, l.call, l.due)
      else Return(s, t, l.call, TimedOut, l.due)
    case Collect(t) => Move(s, t, Idle)
  }

  const LATCH := System((s: State, e: Event) => Enabled(s, e),
                        (s: State, e: Event) => if Enabled(s, e) then Next(s, e) else s)

  function Initial(value: int, tids: set<Tid>): State {
    State(value, map t | t in tids :: Idle)
  }

  // ------------------------------------------------------------- the proof

  /** What a returned call may conclude about the state it saw under the lock. */
  predicate Truthful(call: Call, code: Code, seen: int) {
    match call
    case WaitMsAbort(target, abort) =>
      && (code == Ok <==> seen == target)
      && (code == ConnAborted <==> seen == abort && seen != target)
      && (code == TimedOut || code == Canceled ==> seen != target && seen != abort)
    case WaitMs(target) => code != ConnAborted && (code == Ok ==> seen == target)
    case WaitFor(target) => code == Ok && seen == target
    case WaitForAny(a, b) => code == Ok && (seen == a || seen == b)
    case WaitWhile(value) => code == Ok && seen != value
  }

  /** A deadline only ever finds a call that offers one, and never in a state it waits for. */
  predicate Expired(call: Call, due: Option<int>) {
    due.Some? ==> HasDeadline(call) && !Ready(call, due.value)
  }

  predicate LocalOk(s: State, l: Local) {
    match l
    case Sleeping(call) => !Ready(call, s.value)
    case Woken(call, due) => Expired(call, due)
    case Returned(call, code, due, seen) =>
      && Truthful(call, code, seen) && Expired(call, due)
      && (code == TimedOut ==> due.Some?) && (call.WaitMs? && due.Some? ==> code == TimedOut)
    case Idle => true
  }

  predicate Inv(s: State) {
    forall t :: t in s.threads ==> LocalOk(s, s.threads[t])
  }

  lemma StepKeeps(s: State, e: Event)
    requires Inv(s) && Enabled(s, e)
    ensures Inv(Next(s, e))
  {
    var s' := Next(s, e);
    assert LocalOk(s, s.threads[e.t]);
    forall t | t in s'.threads ensures LocalOk(s', s'.threads[t]) {
      assert LocalOk(s, s.threads[t]);
    }
  }

  lemma ReachableOk(value: int, tids: set<Tid>, es: seq<Event>, t: Tid)
    requires Valid(LATCH, Initial(value, tids), es)
    ensures var s := After(LATCH, Initial(value, tids), es);
            t in s.threads ==> LocalOk(s, s.threads[t])
  {
    forall s, e | Inv(s) && LATCH.enabled(s, e) ensures Inv(LATCH.next(s, e)) {
      StepKeeps(s, e);
    }
    Invariant(LATCH, Inv, Initial(value, tids), es);
  }

  /** The state that a sequence of events leaves behind: the last one set. */
  function LastSet(value: int, es: seq<Event>): int
    decreases |es|
  {
    if es == [] then value else LastSet(if es[0].Set? then es[0].value else value, es[1..])
  }

  /** The state is always the last one set. */
  lemma {:induction false} StateIsLastSet(s: State, es: seq<Event>)
    requires Valid(LATCH, s, es)
    ensures After(LATCH, s, es).value == LastSet(s.value, es)
    decreases |es|
  {
    if es != [] {
      StateIsLastSet(Next(s, es[0]), es[1..]);
    }
  }

  /** The call a thread is in, or has returned from. */
  function CallOf(l: Local): Option<Call> {
    if l.Idle? then None else Some(l.call)
  }

  /**
   A thread is in the call it began until it collects the result; only a deadline notes a
   state as due, the current one; and only a missing clock cancels, and never the
   `WaitMsAbort` that is ready at once.
   */
  lemma CallsPersist(s: State, e: Event, t: Tid)
    requires Enabled(s, e) && t in s.threads
    ensures t in Next(s, e).threads
    ensures var l, l' := s.threads[t], Next(s, e).threads[t];
            && CallOf(l') == (if e.t != t then CallOf(l)
                              else match e
                                case Begin(_, call, _) => Some(call)
                                case Collect(_) => None
                                case _ => CallOf(l))
            && (l.Returned? && l' != l ==> e == Collect(t))
            && (l'.Woken? && l'.due.Some? && l' != l ==> e == Deadline(t) && l'.due == Some(s.value))
            && (l'.Returned? && l'.code == Canceled && l' != l ==>
                  e.Begin? && e.t == t && !e.clock && !(e.call.WaitMsAbort? && Ready(e.call, s.value)))
            && (l'.Returned? && l' != l ==> l'.seen == s.value)
  {
  }

  /** A waiter whose condition holds is awake, and returns with its next move unless its deadline has passed. */
  lemma ReadyWaiterReturns(s: State, t: Tid)
    requires Inv(s) && t in s.threads && (s.threads[t].Sleeping? || s.threads[t].Woken?)
    requires Ready(s.threads[t].call, s.value)
    ensures s.threads[t].Woken? && Enabled(s, Resume(t))
    ensures var l' := Next(s, Resume(t)).threads[t];
            && l'.Returned?
            && (s.threads[t].due.None? || s.threads[t].call.WaitMsAbort? ==> l'.code == Ok || l'.code == ConnAborted)
  {
    assert LocalOk(s, s.threads[t]);
  }

  /** After every run nobody sleeps while its condition holds, and every return is truthful. */
  lemma NoLostWakeup(value: int, tids: set<Tid>, es: seq<Event>, t: Tid)
    requires Valid(LATCH, Initial(value, tids), es)
    ensures var s := After(LATCH, Initial(value, tids), es);
            t in s.threads ==>
              && (s.threads[t].Sleeping? ==>
                    match s.threads[t].call
                    case WaitFor(target) => s.value != target
                    case WaitForAny(a, b) => s.value != a && s.value != b
                    case WaitWhile(value) => s.value == value
                    case WaitMs(target) => s.value != target
                    case WaitMsAbort(target, abort) => s.value != target && s.value != abort)
              && (s.threads[t].Returned? ==> Truthful(s.threads[t].call, s.threads[t].code, s.threads[t].seen))
  {
    ReachableOk(value, tids, es, t);
  }

  /**
   The plain timed wait does not look again after its deadline: in every run it reports
   a timeout in the target state exactly if a deadline woke it in another state and the
   target was set before it had the lock again.
   */
  lemma LateWaitMisses(value: int, tids: set<Tid>, es: seq<Event>, t: Tid)
    requires Valid(LATCH, Initial(value, tids), es)
    ensures var s := After(LATCH, Initial(value, tids), es);
            t in s.threads && s.threads[t].Returned? && s.threads[t].call.WaitMs? ==>
              var l := s.threads[t];
              (l.code == TimedOut && l.seen == l.call.target) <==>
              (l.due.Some? && l.due.value != l.call.target && l.seen == l.call.target)
  {
    ReachableOk(value, tids, es, t);
  }

  /** The state is the awaited one, and the waiter has been told of a timeout. */
  function Missed(): State {
    State(1, map[0 := Returned(WaitMs(1), TimedOut, Some(0), 1), 1 := Idle])
  }

  predicate Steps(r: State, e: Event, q: State) {
    Enabled(r, e) && Next(r, e) == q
  }

  lemma MissingSteps() returns (r1: State, r2: State, r3: State)
    ensures Steps(Initial(0, {0, 1}), Begin(0, WaitMs(1), true), r1) && Steps(r1, Deadline(0), r2)
    ensures Steps(r2, Set(1, 1), r3) && Steps(r3, Resume(0), Missed())
  {
    r1 := State(0, map[0 := Sleeping(WaitMs(1)), 1 := Idle]);
    r2 := State(0, map[0 := Woken(WaitMs(1), Some(0)), 1 := Idle]);
    r3 := State(1, map[0 := Woken(WaitMs(1), Some(0)), 1 := Idle]);
  }

  /** A run that leads there. */
  lemma LateWaitWitness()
    ensures exists es :: Valid(LATCH, Initial(0, {0, 1}), es) && After(LATCH, Initial(0, {0, 1}), es) == Missed()
  {
    var s := Initial(0, {0, 1});
    var r1, r2, r3 := MissingSteps();
    ReachesItself(LATCH, s);
    ReachesNext(LATCH, s, s, Begin(0, WaitMs(1), true));
    ReachesNext(LATCH, s, r1, Deadline(0));
    ReachesNext(LATCH, s, r2, Set(1, 1));
    ReachesNext(LATCH, s, r3, Resume(0));
  }
}
