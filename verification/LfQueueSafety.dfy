/**
 The single-producer single-consumer ring refines a bounded first-in first-out queue
 over every interleaving, however often its counters wrap.
 */
module LfQueueSafety {
  import opened Common
  import opened Bits
  import opened Threads
  import opened Runs
  import opened Circular
  import opened LfQueue
  import opened Fifo

  /** The items in the queue, oldest first. */
  function Contents(s: State): seq<nat>
    requires |s.popped| <= |s.pushed|
  {
    s.pushed[|s.popped|..]
  }

  /** The counters are the true counts, wrapped, and pops are a prefix of pushes. */
  predicate Counters(s: State, k: nat) {
    var r, h, t := s.ring, |s.popped|, |s.pushed|;
    && Capacity(r.capacity, k) && r.mask == r.capacity - 1 && |r.slots| == r.capacity
    && h <= t <= h + r.capacity && s.popped == s.pushed[..h]
    && r.head == h % WORDS && r.tail == t % WORDS
    && forall i :: 0 <= i < t ==> s.pushed[i] != 0
  }

  /** Tokens: posted, about to be posted, or in the consumer's hand, one for each item. */
  predicate Tokens(s: State) {
    s.ring.sem + Bit(s.p.TailStored?) + Bit(!s.c.Asleep?) == |s.pushed| - |s.popped|
  }

  /** Every live slot holds its item; the consumer may already have cleared the oldest. */
  predicate Slots(s: State) {
    && |s.ring.slots| > 0
    && forall i :: |s.popped| <= i < |s.pushed| && !(i == |s.popped| && s.c.Cleared?)
         ==> s.ring.slots[Slot(i, |s.ring.slots|)] == s.pushed[i]
  }

  /** What the producer knows; its view of the head may be stale, never ahead. */
  predicate ProducerOk(s: State) {
    var r, h, t := s.ring, |s.popped|, |s.pushed|;
    match s.p
    case Resting => true
    case TailRead(v, tl) => v != 0 && tl == r.tail
    case HeadRead(v, tl, hd, seen) =>
      v != 0 && tl == r.tail && seen <= h && hd == seen % WORDS && t <= seen + r.capacity
    case SlotWritten(v, tl) =>
      v != 0 && tl == r.tail && t < h + r.capacity && |r.slots| > 0 && r.slots[Slot(t, |r.slots|)] == v
    case TailStored => true
  }

  predicate ConsumerOk(s: State) {
    var h := |s.popped|;
    match s.c
    case Asleep => true
    case Token => true
    case Positioned(hd) => hd == s.ring.head
    case Fetched(hd, v) => hd == s.ring.head && h < |s.pushed| && v == s.pushed[h]
    case Cleared(hd, v) => hd == s.ring.head && h < |s.pushed| && v == s.pushed[h]
  }

  predicate WatcherOk(s: State, o: Observer) {
    match o
    case Away => true
    case Half(hd, popped0, pushed0) =>
      hd == popped0 % WORDS && popped0 <= pushed0 && popped0 <= |s.popped| && pushed0 <= |s.pushed|
    case Told(depth, popped0, pushed0, popped1, pushed1) =>
      && popped0 <= pushed0 <= pushed1 && popped0 <= popped1 <= pushed1 <= popped1 + s.ring.capacity
      && depth == Signed((pushed1 - popped0) % WORDS)
  }

  predicate Inv(s: State, k: nat) {
    && Counters(s, k) && Tokens(s) && Slots(s) && ProducerOk(s) && ConsumerOk(s)
    && forall t :: t in s.watch ==> WatcherOk(s, s.watch[t])
  }

  lemma InitialInv(k: nat, watchers: set<Tid>)
    requires k <= 63
    ensures Inv(Initial(Pow2(k), watchers), k)
  {
  }

  /** The event ends the push in progress without a post: the call returns -1. */
  predicate Refuses(s: State)
    requires Enabled(s, Produce)
  {
    Next(s, Produce).p.Resting? && !s.p.TailStored?
  }

  /** A push is refused exactly when the ring was full at the moment its head was read. */
  lemma RefusedMeansFull(s: State, k: nat)
    requires Inv(s, k) && Enabled(s, Produce)
    ensures Refuses(s) <==> s.p.HeadRead? && |s.pushed| - s.p.seen == s.ring.capacity
  {
    if s.p.HeadRead? {
      DepthOf(s.p.seen, |s.pushed| - s.p.seen, s.ring.capacity, k);
    }
  }

  lemma ProducerStores(s: State, k: nat)
    requires Inv(s, k) && s.p.HeadRead?
    ensures Inv(Next(s, Produce), k)
  {
    RefusedMeansFull(s, k);
    MaskedSlot(|s.pushed|, s.ring.capacity, k);
    var s' := Next(s, Produce);
    forall i | |s.popped| <= i < |s.pushed| && !Full(s.ring, s.p.tl, s.p.hd)
      ensures Slot(i, |s.ring.slots|) != Slot(|s.pushed|, |s.ring.slots|)
    {
      SlotsDiffer(i, |s.pushed|, s.ring.capacity);
    }
  }

  lemma ProducerPublishes(s: State, k: nat)
    requires Inv(s, k) && s.p.SlotWritten?
    ensures Inv(Next(s, Produce), k)
  {
    var s' := Next(s, Produce);
    assert s'.popped == s'.pushed[..|s.popped|];
    WrappedIncrement(|s.pushed|);
  }

  lemma ProducerKeeps(s: State, k: nat)
    requires Inv(s, k) && Enabled(s, Produce)
    ensures Inv(Next(s, Produce), k)
  {
    if s.p.HeadRead? {
      ProducerStores(s, k);
    } else if s.p.SlotWritten? {
      ProducerPublishes(s, k);
    }
  }

  lemma ConsumerFetches(s: State, k: nat)
    requires Inv(s, k) && s.c.Positioned?
    ensures Inv(Next(s, Consume), k)
  {
    MaskedSlot(|s.popped|, s.ring.capacity, k);
  }

  lemma ConsumerClears(s: State, k: nat)
    requires Inv(s, k) && s.c.Fetched?
    ensures Inv(Next(s, Consume), k)
  {
    MaskedSlot(|s.popped|, s.ring.capacity, k);
    forall i | |s.popped| < i < |s.pushed| || (i == |s.pushed| && s.p.SlotWritten?)
      ensures Slot(i, |s.ring.slots|) != Slot(|s.popped|, |s.ring.slots|)
    {
      SlotsDiffer(|s.popped|, i, s.ring.capacity);
    }
  }

  lemma ConsumerAdvances(s: State, k: nat)
    requires Inv(s, k) && s.c.Cleared?
    ensures Inv(Next(s, Consume), k)
  {
    var s' := Next(s, Consume);
    assert s'.popped == s'.pushed[..|s.popped| + 1];
    WrappedIncrement(|s.popped|);
  }

  lemma ConsumerKeeps(s: State, k: nat)
    requires Inv(s, k) && Enabled(s, Consume)
    ensures Inv(Next(s, Consume), k)
  {
    match s.c
    case Token =>
    case Positioned(_) => ConsumerFetches(s, k);
    case Fetched(_, _) => ConsumerClears(s, k);
    case Cleared(_, _) => ConsumerAdvances(s, k);
  }

  lemma WatcherKeeps(s: State, k: nat, t: Tid)
    requires Inv(s, k) && t in s.watch
    ensures Inv(Next(s, Watch(t)), k)
  {
    assert WatcherOk(s, s.watch[t]);
    if s.watch[t].Half? {
      WrappedDifference(|s.pushed|, s.watch[t].popped0);
    }
  }

  lemma StepKeeps(s: State, k: nat, e: Event)
    requires Inv(s, k) && Enabled(s, e)
    ensures Inv(Next(s, e), k)
  {
    match e
    case Produce => ProducerKeeps(s, k);
    case Consume => ConsumerKeeps(s, k);
    case Watch(t) => WatcherKeeps(s, k, t);
    case _ =>
  }

  /** What an event means to the callers: only the tail store enqueues, only the head store dequeues. */
  function OpOf(s: State, e: Event): Op {
    if e == Produce && s.p.SlotWritten? then Enqueue(s.p.v)
    else if e == Consume && s.c.Cleared? then Dequeue(s.c.v)
    else Nothing
  }

  /** The contents change exactly as the operation says. */
  lemma ContentsFollow(s: State, e: Event)
    requires Enabled(s, e) && s.popped <= s.pushed
    requires e == Consume && s.c.Cleared? ==> |s.popped| < |s.pushed| && s.c.v == s.pushed[|s.popped|]
    ensures |Next(s, e).popped| <= |Next(s, e).pushed|
    ensures Contents(Next(s, e)) == Effect(Contents(s), OpOf(s, e))
    ensures OpOf(s, e).Dequeue? ==> Contents(s) != [] && Contents(s)[0] == OpOf(s, e).v
  {
  }

  lemma StepRefines(s: State, k: nat, e: Event)
    requires Inv(s, k) && Enabled(s, e)
    ensures Inv(Next(s, e), k)
    ensures Allowed(Contents(s), s.ring.capacity, OpOf(s, e))
    ensures Contents(Next(s, e)) == Effect(Contents(s), OpOf(s, e))
    ensures Next(s, e).ring.capacity == s.ring.capacity
  {
    StepKeeps(s, k, e);
    ContentsFollow(s, e);
  }

  function OpsOf(s: State, es: seq<Event>): seq<Op>
    requires Valid(QUEUE, s, es)
    decreases |es|
  {
    if es == [] then [] else [OpOf(s, es[0])] + OpsOf(Next(s, es[0]), es[1..])
  }

  /** Every run of the ring is a run of the bounded queue. */
  lemma {:induction false} RunRefines(s: State, k: nat, es: seq<Event>)
    requires Inv(s, k) && Valid(QUEUE, s, es)
    ensures Inv(After(QUEUE, s, es), k)
    ensures Valid(Bounded(s.ring.capacity), Contents(s), OpsOf(s, es))
    ensures After(Bounded(s.ring.capacity), Contents(s), OpsOf(s, es)) == Contents(After(QUEUE, s, es))
    ensures After(QUEUE, s, es).ring.capacity == s.ring.capacity
    decreases |es|
  {
    if es != [] {
      StepRefines(s, k, es[0]);
      RunRefines(Next(s, es[0]), k, es[1..]);
      assert OpsOf(s, es)[1..] == OpsOf(Next(s, es[0]), es[1..]);
    }
  }

  /**
   After any run from `lf_queue_init` the ring holds what a bounded queue would hold;
   what was put in is what was taken out followed by the contents; tokens match items;
   and the slot a token holder is about to read holds the oldest item, which is not null.
   */
  lemma QueueIsFifo(k: nat, watchers: set<Tid>, es: seq<Event>)
    requires k <= 63 && Valid(QUEUE, Initial(Pow2(k), watchers), es)
    ensures var s0 := Initial(Pow2(k), watchers);
            var s := After(QUEUE, s0, es);
            && s.popped <= s.pushed && |s.pushed| - |s.popped| <= Pow2(k)
            && s.pushed[|s.popped|..] == After(Bounded(Pow2(k)), [], OpsOf(s0, es))
            && Valid(Bounded(Pow2(k)), [], OpsOf(s0, es))
            && Given(OpsOf(s0, es)) == Taken(OpsOf(s0, es)) + s.pushed[|s.popped|..]
            && Tokens(s)
            && (s.c.Positioned? ==> s.popped < s.pushed && Fetch(s.ring, s.c.hd) == s.pushed[|s.popped|] != 0)
            && (s.p.SlotWritten? ==> |s.pushed| - |s.popped| < Pow2(k))
  {
    var s0 := Initial(Pow2(k), watchers);
    InitialInv(k, watchers);
    assert Contents(s0) == [];
    RunRefines(s0, k, es);
    InOrder(Pow2(k), [], OpsOf(s0, es));
    var s := After(QUEUE, s0, es);
    MaskedSlot(|s.popped|, s.ring.capacity, k);
  }

  // ------------------------------------------------------------- the callers

  /**
   An observer outside the ring: `arg` is the argument of the last push, `accepted` the
   arguments of the pushes that have returned 0, and `got` what the pops have returned.
   */
  datatype Calls = Calls(arg: nat, accepted: seq<nat>, got: seq<nat>)

  function Observe(c: Calls, s: State, e: Event): Calls
    requires Enabled(s, e)
  {
    match e
    case Push(v) => c.(arg := v)
    case Produce =>
      if Next(s, e).p.Resting? && !Refuses(s) then c.(accepted := c.accepted + [c.arg]) else c
    case Consume =>
      if Next(s, e).c.Asleep? then c.(got := c.got + [if s.c.Cleared? then s.c.v else 0]) else c
    case _ => c
  }

  function Observed(c: Calls, s: State, es: seq<Event>): Calls
    requires Valid(QUEUE, s, es)
    decreases |es|
  {
    if es == [] then c else Observed(Observe(c, s, es[0]), Next(s, es[0]), es[1..])
  }

  /** The items are the accepted arguments, and the one whose push is about to return. */
  predicate Honoured(s: State, c: Calls) {
    && s.pushed == c.accepted + (if s.p.TailStored? then [c.arg] else [])
    && s.popped == c.got
    && (s.p.TailRead? || s.p.HeadRead? || s.p.SlotWritten? ==> s.p.v == c.arg)
  }

  lemma StepHonours(s: State, c: Calls, e: Event)
    requires Honoured(s, c) && Enabled(s, e)
    ensures Honoured(Next(s, e), Observe(c, s, e))
  {
  }

  lemma {:induction false} RunHonours(s: State, c: Calls, es: seq<Event>)
    requires Honoured(s, c) && Valid(QUEUE, s, es)
    ensures Honoured(After(QUEUE, s, es), Observed(c, s, es))
    decreases |es|
  {
    if es != [] {
      StepHonours(s, c, es[0]);
      RunHonours(Next(s, es[0]), Observe(c, s, es[0]), es[1..]);
    }
  }

  /** In every run, what the pops have returned are the first arguments that pushes were given and took. */
  lemma CallersAreServed(k: nat, watchers: set<Tid>, es: seq<Event>)
    requires k <= 63 && Valid(QUEUE, Initial(Pow2(k), watchers), es)
    ensures var s := After(QUEUE, Initial(Pow2(k), watchers), es);
            var c := Observed(Calls(0, [], []), Initial(Pow2(k), watchers), es);
            && s.pushed == c.accepted + (if s.p.TailStored? then [c.arg] else [])
            && c.got <= s.pushed && |s.pushed| - |c.got| <= Pow2(k)
  {
    RunHonours(Initial(Pow2(k), watchers), Calls(0, [], []), es);
    QueueIsFifo(k, watchers, es);
  }

  /** A watcher's notes are true: the numbers of pops and pushes at each of its reads. */
  lemma WatcherNotes(s: State, t: Tid)
    requires t in s.watch
    ensures var o, o' := s.watch[t], Next(s, Watch(t)).watch[t];
            && (o.Away? ==> o'.Half? && o'.popped0 == |s.popped| && o'.pushed0 == |s.pushed|)
            && (o.Half? ==> o'.Told? && o'.popped0 == o.popped0 && o'.pushed0 == o.pushed0
                            && o'.popped1 == |s.popped| && o'.pushed1 == |s.pushed|)
  {
  }

  /** A non-blocking pop is refused exactly when every item still awaits its post. */
  lemma RejectedMeansUnposted(s: State, k: nat)
    requires Inv(s, k) && s.c.Asleep?
    ensures Enabled(s, Reject) <==> |Contents(s)| == Bit(s.p.TailStored?)
  {
  }

  /**
   What a watcher is told, in every run: the distance it measured, which is the depth at
   its second read plus the pops between its reads, exactly if that is below 2^63. If
   capacity and pops between the reads stay below 2^63, it is told a number that is not
   negative, covers the depth at both reads, and exceeds the capacity by no more than
   those pops.
   */
  lemma DepthIsExact(k: nat, watchers: set<Tid>, es: seq<Event>, t: Tid)
    requires k <= 63 && Valid(QUEUE, Initial(Pow2(k), watchers), es)
    requires var s := After(QUEUE, Initial(Pow2(k), watchers), es);
             t in s.watch && s.watch[t].Told?
    ensures var o := After(QUEUE, Initial(Pow2(k), watchers), es).watch[t];
            var pops := o.popped1 - o.popped0;
            && pops >= 0
            && (o.depth == o.pushed1 - o.popped0 <==> (o.pushed1 - o.popped1) + pops < HALF)
            && (Pow2(k) + pops < HALF ==>
                  && 0 <= o.depth <= Pow2(k) + pops
                  && o.pushed0 - o.popped0 <= o.depth && o.pushed1 - o.popped1 <= o.depth)
  {
    InitialInv(k, watchers);
    RunRefines(Initial(Pow2(k), watchers), k, es);
    var s := After(QUEUE, Initial(Pow2(k), watchers), es);
    assert WatcherOk(s, s.watch[t]);
  }
}
