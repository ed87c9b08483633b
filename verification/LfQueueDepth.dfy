/**
 The bound of `LfQueueSafety.DepthIsExact` cannot be dropped: a watcher that reads the
 head of a ring with a single slot, stops while 2^63 items pass through, and then reads
 the tail of the empty ring, is told a depth of -2^63.
 */
module LfQueueDepth {
  import opened Common
  import opened Bits
  import opened Runs
  import opened LfQueue

  function Ones(n: nat): seq<nat> {
    seq(n, _ => 1)
  }

  /** A ring of one slot, with its watcher at `o`. */
  function Single(slot: nat, tail: nat, head: nat, sem: nat, pushed: nat, popped: nat,
                  p: Producer, c: Consumer, o: Observer): State
  {
    State(Ring(1, 0, [slot], tail, head, sem), Ones(pushed), Ones(popped), p, c, map[0 := o])
  }

  const HALFWAY := Half(0, 0, 0)

  function Start(): State {
    Initial(1, {0})
  }

  predicate Steps(r: State, e: Event, q: State) {
    Enabled(r, e) && Next(r, e) == q
  }

  ghost predicate Reached(r: State) {
    Reaches(QUEUE, Start(), r)
  }

  lemma Walk(r: State, e: Event, q: State)
    requires Reached(r) && Steps(r, e, q)
    ensures Reached(q)
  {
    ReachesNext(QUEUE, Start(), r, e);
  }

  lemma OneMore(n: nat)
    ensures Ones(n) + [1] == Ones(n + 1)
  {
  }

  /** Both counters at `w`, after `n` items have passed through. */
  function Empty(w: nat, n: nat): State {
    Single(0, w, w, 0, n, n, Resting, Asleep, HALFWAY)
  }

  lemma PushSteps(w: nat, n: nat) returns (r1: State, r2: State, r3: State, r4: State)
    requires w < WORDS
    ensures Steps(Empty(w, n), Push(1), r1) && Steps(r1, Produce, r2) && Steps(r2, Produce, r3)
    ensures Steps(r3, Produce, r4)
    ensures Steps(r4, Produce, Single(1, Increment(w), w, 1, n + 1, n, Resting, Asleep, HALFWAY))
  {
    r1 := Single(0, w, w, 0, n, n, TailRead(1, w), Asleep, HALFWAY);
    r2 := Single(0, w, w, 0, n, n, HeadRead(1, w, w, n), Asleep, HALFWAY);
    r3 := Single(1, w, w, 0, n, n, SlotWritten(1, w), Asleep, HALFWAY);
    r4 := Single(1, Increment(w), w, 0, n + 1, n, TailStored, Asleep, HALFWAY);
    OneMore(n);
  }

  lemma PopSteps(w: nat, v: nat, n: nat) returns (r1: State, r2: State, r3: State, r4: State)
    requires w < WORDS
    ensures Steps(Single(1, v, w, 1, n + 1, n, Resting, Asleep, HALFWAY), Pop, r1)
    ensures Steps(r1, Consume, r2) && Steps(r2, Consume, r3) && Steps(r3, Consume, r4)
    ensures Steps(r4, Consume, Single(0, v, Increment(w), 0, n + 1, n + 1, Resting, Asleep, HALFWAY))
  {
    r1 := Single(1, v, w, 0, n + 1, n, Resting, Token, HALFWAY);
    r2 := Single(1, v, w, 0, n + 1, n, Resting, Positioned(w), HALFWAY);
    r3 := Single(1, v, w, 0, n + 1, n, Resting, Fetched(w, 1), HALFWAY);
    r4 := Single(0, v, w, 0, n + 1, n, Resting, Cleared(w, 1), HALFWAY);
    OneMore(n);
  }

  lemma PassThrough(w: nat, n: nat)
    requires w < WORDS && Reached(Empty(w, n))
    ensures Reached(Empty(Increment(w), n + 1))
  {
    var r1, r2, r3, r4 := PushSteps(w, n);
    Walk(Empty(w, n), Push(1), r1);
    Walk(r1, Produce, r2);
    Walk(r2, Produce, r3);
    Walk(r3, Produce, r4);
    var full := Single(1, Increment(w), w, 1, n + 1, n, Resting, Asleep, HALFWAY);
    Walk(r4, Produce, full);
    var q1, q2, q3, q4 := PopSteps(w, Increment(w), n);
    Walk(full, Pop, q1);
    Walk(q1, Consume, q2);
    Walk(q2, Consume, q3);
    Walk(q3, Consume, q4);
    Walk(q4, Consume, Empty(Increment(w), n + 1));
  }

  lemma HeadIsRead()
    ensures Steps(Start(), Watch(0), Empty(0, 0))
  {
  }

  lemma {:induction false} ManyPassThrough(n: nat)
    requires n <= HALF
    ensures Reached(Empty(n, n))
  {
    if n == 0 {
      ReachesItself(QUEUE, Start());
      HeadIsRead();
      Walk(Start(), Watch(0), Empty(0, 0));
    } else {
      ManyPassThrough(n - 1);
      PassThrough(n - 1, n - 1);
    }
  }

  /** Nothing was in the ring at either read, and the watcher is told -2^63. */
  function Misled(): State {
    Single(0, HALF, HALF, 0, HALF, HALF, Resting, Asleep, Told(0 - HALF, 0, 0, HALF, HALF))
  }

  lemma TailIsRead()
    ensures Steps(Empty(HALF, HALF), Watch(0), Misled())
  {
  }

  lemma DepthCanBeNegative()
    ensures Pow2(0) == 1 && Reaches(QUEUE, Initial(1, {0}), Misled())
  {
    ManyPassThrough(HALF);
    TailIsRead();
    Walk(Empty(HALF, HALF), Watch(0), Misled());
  }
}
