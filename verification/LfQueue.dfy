/**
 The lock-free single-producer single-consumer ring (vpn/common/inc/lf_queue.h).

 Head and tail are free-running 64-bit counters that wrap; slots are found by
 masking. The consumer never reads the tail: a semaphore token is its only evidence
 that an item is there. One event is one atomic action of the producer, of the
 consumer, or of one of any number of threads asking for the depth.
 */
module LfQueue {
  import opened Common
  import opened Bits
  import opened Threads
  import opened Runs
  import opened Circular

  /** `a - b` on `size_t`. */
  function Minus(a: nat, b: nat): nat
    requires b <= WORDS
  {
    (a + WORDS - b) % WORDS
  }

  function Increment(a: nat): nat {
    (a + 1) % WORDS
  }

  /** A `size_t` read as `ssize_t`. */
  function Signed(a: nat): int {
    if a < HALF then a else a - WORDS
  }

  datatype Ring = Ring(capacity: nat, mask: nat, slots: seq<nat>, tail: nat, head: nat, sem: nat)

  /** `q->ptr[i & q->mask] = v` */
  function Store(r: Ring, i: nat, v: nat): Ring {
    var j := And(i, r.mask);
    if j < |r.slots| then r.(slots := r.slots[j := v]) else r
  }

  /** `q->ptr[i & q->mask]`, where the null pointer is 0 */
  function Fetch(r: Ring, i: nat): nat {
    var j := And(i, r.mask);
    if j < |r.slots| then r.slots[j] else 0
  }

  /** `seen` is a history variable: how many items had been popped when `hd` was read. */
  datatype Producer =
    | Resting
    | TailRead(v: nat, tl: nat)
    | HeadRead(v: nat, tl: nat, hd: nat, seen: nat)
    | SlotWritten(v: nat, tl: nat)
    | TailStored

  datatype Consumer =
    | Asleep
    | Token
    | Positioned(hd: nat)
    | Fetched(hd: nat, v: nat)
    | Cleared(hd: nat, v: nat)

  /** Histories: `popped0`, `pushed0` at the head read, `popped1`, `pushed1` at the tail read. */
  datatype Observer =
    | Away
    | Half(hd: nat, popped0: nat, pushed0: nat)
    | Told(depth: int, popped0: nat, pushed0: nat, popped1: nat, pushed1: nat)

  /** `pushed` and `popped` are the items in the order of the tail and head stores. */
  datatype State = State(ring: Ring, pushed: seq<nat>, popped: seq<nat>,
                         p: Producer, c: Consumer, watch: map<Tid, Observer>)

  /** `Reject` is a non-blocking pop that finds no token. */
  datatype Event = Push(v: nat) | Produce | Pop | Reject | Consume | Watch(t: Tid)

  /** A push of NULL is rejected before the ring is touched, so `v` is not 0. */
  predicate Enabled(s: State, e: Event) {
    match e
    case Push(v) => s.p.Resting? && v != 0
    case Produce => !s.p.Resting?
    case Pop => s.c.Asleep? && s.ring.sem > 0
    case Reject => s.c.Asleep? && s.ring.sem == 0
    case Consume => !s.c.Asleep?
    case Watch(t) => t in s.watch
  }

  /** The fullness test of a push. */
  predicate Full(r: Ring, tl: nat, hd: nat) {
    hd <= WORDS && Minus(tl, hd) >= r.capacity
  }

  function ProduceNext(s: State): State {
    var r := s.ring;
    match s.p
    case Resting => s
    case TailRead(v, tl) => s.(p := HeadRead(v, tl, r.head, |s.popped|))
    case HeadRead(v, tl, hd, _) =>
      if Full(r, tl, hd) then s.(p := Resting) else s.(ring := Store(r, tl, v), p := SlotWritten(v, tl))
    case SlotWritten(v, tl) => s.(ring := r.(tail := Increment(tl)), pushed := s.pushed + [v], p := TailStored)
    case TailStored => s.(ring := r.(sem := r.sem + 1), p := Resting)
  }

  function ConsumeNext(s: State): State {
    var r := s.ring;
    match s.c
    case Asleep => s
    case Token => s.(c := Positioned(r.head))
    case Positioned(hd) => s.(c := Fetched(hd, Fetch(r, hd)))
    case Fetched(hd, v) => s.(ring := Store(r, hd, 0), c := Cleared(hd, v))
    case Cleared(hd, v) => s.(ring := r.(head := Increment(hd)), popped := s.popped + [v], c := Asleep)
  }

  function WatchNext(s: State, o: Observer): Observer {
    match o
    case Away => Half(s.ring.head, |s.popped|, |s.pushed|)
    case Half(hd, popped0, pushed0) =>
      Told(if hd <= WORDS then Signed(Minus(s.ring.tail, hd)) else 0, popped0, pushed0, |s.popped|, |s.pushed|)
    case Told(_, _, _, _, _) => Away
  }

  function Next(s: State, e: Event): State
    requires Enabled(s, e)
  {
    match e
    case Push(v) => s.(p := TailRead(v, s.ring.tail))
    case Produce => ProduceNext(s)
    case Pop => s.(ring := s.ring.(sem := s.ring.sem - 1), c := Token)
    case Reject => s
    case Consume => ConsumeNext(s)
    case Watch(t) => s.(watch := s.watch[t := WatchNext(s, s.watch[t])])
  }

  function EmptyRing(capacity: nat): Ring
    requires capacity > 0
  {
    Ring(capacity, capacity - 1, seq(capacity, _ => 0), 0, 0, 0)
  }

  function Initial(capacity: nat, watchers: set<Tid>): State
    requires capacity > 0
  {
    State(EmptyRing(capacity), [], [], Resting, Asleep, map t | t in watchers :: Away)
  }

  /** The ring under every interleaving of one producer, one consumer and the watchers. */
  const QUEUE := System((s: State, e: Event) => Enabled(s, e),
                        (s: State, e: Event) => if Enabled(s, e) then Next(s, e) else s)

  // ---------------------------------------------------------------- arithmetic of the wrap

  /** A capacity the ring accepts on a 64-bit machine: a power of two. */
  predicate Capacity(capacity: nat, k: nat) {
    k <= 63 && capacity == Pow2(k)
  }

  lemma WordsIsPow2()
    ensures Pow2(64) == WORDS && Pow2(63) == HALF
  {
    Pow2Of32();
    Pow2Adds(32, 32);
    assert Pow2(64) == 2 * Pow2(63);
  }

  lemma CapacityDivides(capacity: nat, k: nat) returns (m: nat)
    requires Capacity(capacity, k)
    ensures WORDS == capacity * m && 0 < capacity <= HALF
  {
    WordsIsPow2();
    Pow2Adds(k, 64 - k);
    m := Pow2(64 - k);
    if k < 63 {
      Pow2Monotone(k, 63);
    }
  }

  /** Masking a wrapped counter finds the slot of the unwrapped one. */
  lemma MaskedSlot(i: nat, capacity: nat, k: nat)
    requires Capacity(capacity, k)
    ensures capacity > 0 && And(i % WORDS, capacity - 1) == Slot(i, capacity)
  {
    var m := CapacityDivides(capacity, k);
    AndMask(i % WORDS, k);
    ModMod(i, WORDS, capacity, m);
    SlotIsRemainder(i, capacity);
  }

  /** Incrementing a wrapped counter is wrapping the incremented one. */
  lemma WrappedIncrement(a: nat)
    ensures Increment(a % WORDS) == (a + 1) % WORDS
  {
    ModStep(a, WORDS);
  }

  /** The wrapped difference of two counters is their true difference, wrapped. */
  lemma WrappedDifference(a: nat, b: nat)
    requires b <= a
    ensures Minus(a % WORDS, b % WORDS) == (a - b) % WORDS
  {
  }

  /** The distance between wrapped counters is the depth of any ring, up to its capacity. */
  lemma DepthOf(base: nat, n: nat, capacity: nat, k: nat)
    requires Capacity(capacity, k) && n <= capacity
    ensures 0 < capacity <= HALF && Minus((base + n) % WORDS, base % WORDS) == n
  {
    var m := CapacityDivides(capacity, k);
    WrappedDifference(base + n, base);
    Remainder(n, WORDS, 0, n);
  }
}
