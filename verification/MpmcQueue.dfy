/**
 The bounded queue of vpn/common/inc/queue.h: a circular buffer under a mutex, with
 one semaphore counting free slots and one counting items. Semaphores are taken
 before the lock and posted after it, so at any moment many threads are in between.

 Every assignment inside the critical section is an event of its own.
 */
module MpmcQueue {
  import opened Common
  import opened Threads
  import opened Runs
  import opened Circular

  datatype Buffer = Buffer(size: nat, slots: seq<nat>, head: nat, tail: nat, pending: int)

  datatype Local =
    | Idle
    | PushToken(v: nat)
    | PushStore(v: nat)
    | PushAdvance
    | PushCount
    | PushUnlock
    | PushPost
    | PopToken
    | PopFetch
    | PopClear(v: nat)
    | PopAdvance(v: nat)
    | PopCount(v: nat)
    | PopUnlock(v: nat)
    | PopPost(v: nat)

  /** `pushed` and `popped` record the stores and the fetches, in lock order. */
  datatype State = State(b: Buffer, mutex: Option<Tid>, pushSem: nat, popSem: nat,
                         pushed: seq<nat>, popped: seq<nat>, threads: map<Tid, Local>)

  /**
   `Push` and `Pop` take a token, blocking or not; `Refuse...` is a non-blocking call
   that finds none; `Interrupt` is a blocking call cut short by a signal.
   */
  datatype Event =
    | Push(t: Tid, v: nat)
    | Pop(t: Tid)
    | RefusePush(t: Tid)
    | RefusePop(t: Tid)
    | Interrupt(t: Tid)
    | Go(t: Tid)

  predicate Enabled(s: State, e: Event) {
    e.t in s.threads &&
    match e
    case Push(_, _) => s.threads[e.t].Idle? && s.pushSem > 0
    case Pop(_) => s.threads[e.t].Idle? && s.popSem > 0
    case RefusePush(_) => s.threads[e.t].Idle? && s.pushSem == 0
    case RefusePop(_) => s.threads[e.t].Idle? && s.popSem == 0
    case Interrupt(_) => s.threads[e.t].Idle?
    case Go(t) => !s.threads[t].Idle? && (s.threads[t].PushToken? || s.threads[t].PopToken? ==> s.mutex.None?)
  }

  function Store(b: Buffer, v: nat): Buffer {
    if b.tail < |b.slots| then b.(slots := b.slots[b.tail := v]) else b
  }

  function Fetch(b: Buffer): nat {
    if b.head < |b.slots| then b.slots[b.head] else 0
  }

  function Clear(b: Buffer): Buffer {
    if b.head < |b.slots| then b.(slots := b.slots[b.head := 0]) else b
  }

  function AdvanceTail(b: Buffer): Buffer
    requires b.size > 0
  {
    b.(tail := Slot(b.tail + 1, b.size))
  }

  function AdvanceHead(b: Buffer): Buffer
    requires b.size > 0
  {
    b.(head := Slot(b.head + 1, b.size))
  }

  function AddPending(b: Buffer, n: int): Buffer {
    b.(pending := b.pending + n)
  }

  function Move(s: State, t: Tid, l: Local): State {
    s.(threads := s.threads[t := l])
  }

  function GoNext(s: State, t: Tid): State
    requires t in s.threads && s.b.size > 0
  {
    var b := s.b;
    match s.threads[t]
    case Idle => s
    case PushToken(v) => Move(s, t, PushStore(v)).(mutex := Some(t))
    case PushStore(v) => Move(s, t, PushAdvance).(b := Store(b, v), pushed := s.pushed + [v])
    case PushAdvance => Move(s, t, PushCount).(b := AdvanceTail(b))
    case PushCount => Move(s, t, PushUnlock).(b := AddPending(b, 1))
    case PushUnlock => Move(s, t, PushPost).(mutex := None)
    case PushPost => Move(s, t, Idle).(popSem := s.popSem + 1)
    case PopToken => Move(s, t, PopFetch).(mutex := Some(t))
    case PopFetch => Move(s, t, PopClear(Fetch(b))).(popped := s.popped + [Fetch(b)])
    case PopClear(v) => Move(s, t, PopAdvance(v)).(b := Clear(b))
    case PopAdvance(v) => Move(s, t, PopCount(v)).(b := AdvanceHead(b))
    case PopCount(v) => Move(s, t, PopUnlock(v)).(b := AddPending(b, -1))
    case PopUnlock(v) => Move(s, t, PopPost(v)).(mutex := None)
    case PopPost(v) => Move(s, t, Idle).(pushSem := s.pushSem + 1)
  }

  function Next(s: State, e: Event): State
    requires Enabled(s, e)
  {
    match e
    case Push(t, v) => Move(s, t, PushToken(v)).(pushSem := s.pushSem - 1)
    case Pop(t) => Move(s, t, PopToken).(popSem := s.popSem - 1)
    case Go(t) => if s.b.size > 0 then GoNext(s, t) else s
    case _ => s
  }

  function EmptyBuffer(size: nat): Buffer {
    Buffer(size, seq(size, _ => 0), 0, 0, 0)
  }

  function Initial(size: nat, tids: set<Tid>): State {
    State(EmptyBuffer(size), None, size, 0, [], [], map t | t in tids :: Idle)
  }

  /** The queue under every interleaving of any mix of callers. */
  const QUEUE := System((s: State, e: Event) => Enabled(s, e),
                        (s: State, e: Event) => if Enabled(s, e) then Next(s, e) else s)
}
