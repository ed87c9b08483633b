/**
 The lock-free block pool (vpn/common/inc/lf_pool.h): a Treiber stack of arena
 indices whose head word packs an index and a generation, guarded by a counting
 semaphore.

 The shared words and the atomic actions on them come first; the arena class uses
 the same actions. Then come the thread-local program points, one event per atomic
 action, for any number of threads.
 */
module LfPool {
  import opened Common
  import opened Threads
  import opened Runs

  const NIL: nat := 0xFFFF_FFFF
  const GENERATIONS: nat := 0x1_0000_0000

  /** The two 32-bit halves of the head word. */
  datatype Head = Head(idx: nat, gen: nat)

  /** `next[i]` is the `next_idx` prefix of block `i`. */
  datatype Shared = Shared(cap: nat, next: seq<nat>, head: Head, inUse: nat, sem: nat)

  /** Successor of `seen` with a new top index; the generation is a 32-bit counter. */
  function Bump(seen: Head, idx: nat): Head {
    Head(idx, (seen.gen + 1) % GENERATIONS)
  }

  function CompareExchange(sh: Shared, seen: Head, desired: Head): Shared {
    if sh.head == seen then sh.(head := desired) else sh
  }

  function WriteNext(sh: Shared, b: nat, v: nat): Shared {
    if b < |sh.next| then sh.(next := sh.next[b := v]) else sh
  }

  function AddInUse(sh: Shared): Shared {
    sh.(inUse := (sh.inUse + 1) % WORDS)
  }

  function SubInUse(sh: Shared): Shared {
    sh.(inUse := (sh.inUse + WORDS - 1) % WORDS)
  }

  function Post(sh: Shared): Shared {
    sh.(sem := sh.sem + 1)
  }

  function InitialShared(cap: nat): Shared {
    Shared(cap, seq(cap, i => if i + 1 < cap then i + 1 else NIL), Head(0, 0), 0, cap)
  }

  datatype Kind = Trying | Waiting

  /**
   Where a thread stands. `stamp` is a history variable: the number of successful
   exchanges there had been when `seen` was read. No event depends on it.
   */
  datatype Local =
    | Idle
    | GetToken(kind: Kind)
    | GetLoaded(kind: Kind, seen: Head, stamp: nat)
    | GetLinked(kind: Kind, seen: Head, nxt: nat, stamp: nat)
    | GetPopped(block: nat)
    | GetRefund
    | OutOfArena
    | PutStart(block: nat)
    | PutLoaded(block: nat, seen: Head, stamp: nat)
    | PutLinked(block: nat, seen: Head, stamp: nat)
    | PutPushed
    | PutPost

  /**
   `cas` counts successful exchanges (history); `out` is the bag of blocks that
   callers hold, so a block handed to two callers would occur in it twice.
   */
  datatype State = State(sh: Shared, cas: nat, out: multiset<nat>, threads: map<Tid, Local>)

  /** What a thread does next; `Spurious` is a weak exchange failing for no reason. */
  datatype Choice = Get(kind: Kind) | Put(block: nat) | Go | Spurious

  datatype Event = Event(t: Tid, c: Choice)

  /** Blocking on the semaphore is a disabled event; callers put only what they hold. */
  predicate Enabled(s: State, e: Event) {
    e.t in s.threads &&
    match s.threads[e.t]
    case Idle =>
      (match e.c
       case Get(kind) => s.sh.sem > 0 || kind == Trying
       case Put(block) => block in s.out
       case _ => false)
    case OutOfArena => false
    case GetLinked(_, _, _, _) => e.c == Go || e.c == Spurious
    case PutLinked(_, _, _) => e.c == Go || e.c == Spurious
    case _ => e.c == Go
  }

  function Move(s: State, t: Tid, l: Local): State {
    s.(threads := s.threads[t := l])
  }

  /** Whether this event is an exchange that finds the head word it expects. */
  predicate Exchanges(s: State, e: Event)
    requires e.t in s.threads
  {
    var l := s.threads[e.t];
    (l.GetLinked? || l.PutLinked?) && e.c == Go && s.sh.head == l.seen
  }

  function Next(s: State, e: Event): State
    requires Enabled(s, e)
  {
    var t, sh := e.t, s.sh;
    match s.threads[t]
    case Idle =>
      (match e.c
       case Get(kind) => if sh.sem == 0 then s else Move(s, t, GetToken(kind)).(sh := sh.(sem := sh.sem - 1))
       case Put(block) => Move(s, t, PutStart(block)).(out := s.out - multiset{block})
       case _ => s)
    case GetToken(kind) => Move(s, t, GetLoaded(kind, sh.head, s.cas))
    case GetLoaded(kind, seen, stamp) =>
      if seen.idx == NIL && kind == Trying then Move(s, t, GetRefund)
      else if seen.idx >= |sh.next| then Move(s, t, OutOfArena)
      else Move(s, t, GetLinked(kind, seen, sh.next[seen.idx], stamp))
    case GetLinked(kind, seen, nxt, _) =>
      if Exchanges(s, e)
      then Move(s, t, GetPopped(seen.idx)).(sh := CompareExchange(sh, seen, Bump(seen, nxt)), cas := s.cas + 1)
      else Move(s, t, GetLoaded(kind, sh.head, s.cas))
    case GetPopped(block) => Move(s, t, Idle).(sh := AddInUse(sh), out := s.out + multiset{block})
    case GetRefund => Move(s, t, Idle).(sh := Post(sh))
    case PutStart(block) => Move(s, t, PutLoaded(block, sh.head, s.cas))
    case PutLoaded(block, seen, stamp) =>
      Move(s, t, PutLinked(block, seen, stamp)).(sh := WriteNext(sh, block, seen.idx))
    case PutLinked(block, seen, _) =>
      if Exchanges(s, e)
      then Move(s, t, PutPushed).(sh := CompareExchange(sh, seen, Bump(seen, block)), cas := s.cas + 1)
      else Move(s, t, PutLoaded(block, sh.head, s.cas))
    case PutPushed => Move(s, t, PutPost).(sh := SubInUse(sh))
    case PutPost => Move(s, t, Idle).(sh := Post(sh))
    case OutOfArena => s
  }

  /** A get that succeeds in popping does so fewer than `w` exchanges after its head load. */
  predicate InWindow(s: State, e: Event, w: nat)
    requires e.t in s.threads
  {
    var l := s.threads[e.t];
    l.GetLinked? && Exchanges(s, e) ==> s.cas < l.stamp + w
  }

  /** A get that succeeds in popping installs the link that the popped block has at that moment. */
  predicate PopsCurrentLink(s: State, e: Event)
    requires e.t in s.threads
  {
    var l := s.threads[e.t];
    l.GetLinked? && Exchanges(s, e) ==> l.seen.idx < |s.sh.next| && l.nxt == s.sh.next[l.seen.idx]
  }

  function Initial(cap: nat, tids: set<Tid>): State {
    State(InitialShared(cap), 0, multiset{}, map t | t in tids :: Idle)
  }

  function Step(s: State, e: Event): State {
    if Enabled(s, e) then Next(s, e) else s
  }

  /** The pool under every interleaving. */
  const POOL := System((s: State, e: Event) => Enabled(s, e), (s: State, e: Event) => Step(s, e))

  /** The pool under the interleavings in which every pop installs a current link. */
  const COHERENT := System((s: State, e: Event) => Enabled(s, e) && PopsCurrentLink(s, e),
                           (s: State, e: Event) => Step(s, e))

  /** The pool under the interleavings in which no pop is `w` or more exchanges late. */
  function Windowed(w: nat): System<State, Event> {
    System((s: State, e: Event) => Enabled(s, e) && InWindow(s, e, w), (s: State, e: Event) => Step(s, e))
  }
}
