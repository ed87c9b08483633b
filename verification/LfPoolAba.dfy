/**
 The window of `LfPoolSafety` cannot be widened: one more exchange, and a 32-bit
 generation has come full circle. Thread 0 remembers block 0 with successor 1;
 thread 1 takes blocks 0, 1 and 2, returns block 0, and then pops and pushes block 0
 until the generation repeats. The late exchange of thread 0 then puts block 1 back
 on the stack while a caller still holds it, and the next getter receives it again.
 */
module LfPoolAba {
  import opened Threads
  import opened Runs
  import opened LfPool

  /** The pool in which an exchange may come one exchange too late. */
  function Wider(): System<State, Event> {
    Windowed(GENERATIONS + 1)
  }

  /** A pool of four blocks and two threads. */
  function Pair(next: seq<nat>, head: Head, inUse: nat, sem: nat, cas: nat, out: multiset<nat>,
                l0: Local, l1: Local): State
  {
    State(Shared(4, next, head, inUse, sem), cas, out, map[0 := l0, 1 := l1])
  }

  const EARLY := GetLinked(Waiting, Head(0, 0), 1, 0)

  const FRESH_LINKS: seq<nat> := [1, 2, 3, NIL]
  const BENT_LINKS: seq<nat> := [3, 2, 3, NIL]

  function Start(): State {
    Initial(4, {0, 1})
  }

  /** The event `c` of thread `t` leads from `r` to `q`, at most 2^32 exchanges late. */
  predicate Steps(r: State, t: Tid, c: Choice, q: State) {
    Enabled(r, Event(t, c)) && InWindow(r, Event(t, c), GENERATIONS + 1) && Next(r, Event(t, c)) == q
  }

  ghost predicate Reached(r: State) {
    Reaches(Wider(), Start(), r)
  }

  lemma Walk(r: State, t: Tid, c: Choice, q: State)
    requires Reached(r) && Steps(r, t, c, q)
    ensures Reached(q)
  {
    ReachesNext(Wider(), Start(), r, Event(t, c));
  }

  /** Thread 1 takes the top block `b`, whose link is `nxt`, and lends it to its caller. */
  lemma TakeTopSteps(next: seq<nat>, b: nat, nxt: nat, gen: nat, inUse: nat, sem: nat, cas: nat,
                     out: multiset<nat>, l0: Local)
    returns (r1: State, r2: State, r3: State, r4: State)
    requires |next| == 4 && b < 4 && next[b] == nxt && sem > 0 && inUse < 4
    ensures Steps(Pair(next, Head(b, gen), inUse, sem, cas, out, l0, Idle), 1, Get(Waiting), r1)
    ensures Steps(r1, 1, Go, r2) && Steps(r2, 1, Go, r3) && Steps(r3, 1, Go, r4)
    ensures Steps(r4, 1, Go,
                  Pair(next, Bump(Head(b, gen), nxt), inUse + 1, sem - 1, cas + 1, out + multiset{b}, l0, Idle))
  {
    var h, h' := Head(b, gen), Bump(Head(b, gen), nxt);
    r1 := Pair(next, h, inUse, sem - 1, cas, out, l0, GetToken(Waiting));
    r2 := Pair(next, h, inUse, sem - 1, cas, out, l0, GetLoaded(Waiting, h, cas));
    r3 := Pair(next, h, inUse, sem - 1, cas, out, l0, GetLinked(Waiting, h, nxt, cas));
    r4 := Pair(next, h', inUse, sem - 1, cas + 1, out, l0, GetPopped(b));
  }

  lemma TakeTop(next: seq<nat>, b: nat, nxt: nat, gen: nat, inUse: nat, sem: nat, cas: nat,
                out: multiset<nat>, l0: Local)
    requires |next| == 4 && b < 4 && next[b] == nxt && sem > 0 && inUse < 4
    requires Reached(Pair(next, Head(b, gen), inUse, sem, cas, out, l0, Idle))
    ensures Reached(Pair(next, Bump(Head(b, gen), nxt), inUse + 1, sem - 1, cas + 1, out + multiset{b}, l0, Idle))
  {
    var r1, r2, r3, r4 := TakeTopSteps(next, b, nxt, gen, inUse, sem, cas, out, l0);
    Walk(Pair(next, Head(b, gen), inUse, sem, cas, out, l0, Idle), 1, Get(Waiting), r1);
    Walk(r1, 1, Go, r2);
    Walk(r2, 1, Go, r3);
    Walk(r3, 1, Go, r4);
    Walk(r4, 1, Go, Pair(next, Bump(Head(b, gen), nxt), inUse + 1, sem - 1, cas + 1, out + multiset{b}, l0, Idle));
  }

  /** Thread 1 takes block 0 back and reads the head. */
  lemma GiveZeroSteps(next: seq<nat>, h: Head, inUse: nat, sem: nat, cas: nat, out: multiset<nat>) returns (r: State)
    ensures Steps(Pair(next, h, inUse, sem, cas, out + multiset{0}, EARLY, Idle), 1, Put(0), r)
    ensures Steps(r, 1, Go, Pair(next, h, inUse, sem, cas, out, EARLY, PutLoaded(0, h, cas)))
  {
    assert out + multiset{0} - multiset{0} == out;
    r := Pair(next, h, inUse, sem, cas, out, EARLY, PutStart(0));
  }

  /** Thread 1 links and pushes block 0 on top of block 3. */
  lemma PushZeroSteps(next: seq<nat>, gen: nat, inUse: nat, sem: nat, cas: nat, out: multiset<nat>) returns (r: State)
    requires |next| == 4
    ensures Steps(Pair(next, Head(3, gen), inUse, sem, cas, out, EARLY, PutLoaded(0, Head(3, gen), cas)), 1, Go, r)
    ensures Steps(r, 1, Go, Pair(next[0 := 3], Bump(Head(3, gen), 0), inUse, sem, cas + 1, out, EARLY, PutPushed))
  {
    r := Pair(next[0 := 3], Head(3, gen), inUse, sem, cas, out, EARLY, PutLinked(0, Head(3, gen), cas));
  }

  lemma PostSteps(next: seq<nat>, h: Head, inUse: nat, sem: nat, cas: nat, out: multiset<nat>) returns (r: State)
    requires 0 < inUse < 4
    ensures Steps(Pair(next, h, inUse, sem, cas, out, EARLY, PutPushed), 1, Go, r)
    ensures Steps(r, 1, Go, Pair(next, h, inUse - 1, sem + 1, cas, out, EARLY, Idle))
  {
    r := Pair(next, h, inUse - 1, sem, cas, out, EARLY, PutPost);
  }

  lemma ReturnZero(next: seq<nat>, gen: nat, inUse: nat, sem: nat, cas: nat, out: multiset<nat>)
    requires |next| == 4 && 0 < inUse < 4
    requires Reached(Pair(next, Head(3, gen), inUse, sem, cas, out + multiset{0}, EARLY, Idle))
    ensures Reached(Pair(next[0 := 3], Bump(Head(3, gen), 0), inUse - 1, sem + 1, cas + 1, out, EARLY, Idle))
  {
    var next', h' := next[0 := 3], Bump(Head(3, gen), 0);
    var r1 := GiveZeroSteps(next, Head(3, gen), inUse, sem, cas, out);
    var r2 := Pair(next, Head(3, gen), inUse, sem, cas, out, EARLY, PutLoaded(0, Head(3, gen), cas));
    var r3 := PushZeroSteps(next, gen, inUse, sem, cas, out);
    Walk(Pair(next, Head(3, gen), inUse, sem, cas, out + multiset{0}, EARLY, Idle), 1, Put(0), r1);
    Walk(r1, 1, Go, r2);
    Walk(r2, 1, Go, r3);
    Walk(r3, 1, Go, Pair(next', h', inUse, sem, cas + 1, out, EARLY, PutPushed));
    var r4 := PostSteps(next', h', inUse, sem, cas + 1, out);
    Walk(Pair(next', h', inUse, sem, cas + 1, out, EARLY, PutPushed), 1, Go, r4);
    Walk(r4, 1, Go, Pair(next', h', inUse - 1, sem + 1, cas + 1, out, EARLY, Idle));
  }

  /** Block 0 on top of block 3, blocks 1 and 2 lent, thread 0 late by `4 + 2 * j` exchanges. */
  function Bent(j: nat): State {
    Pair(BENT_LINKS, Head(0, (4 + 2 * j) % GENERATIONS), 2, 1, 4 + 2 * j, multiset{1, 2}, EARLY, Idle)
  }

  lemma ThreadZeroSteps() returns (r1: State, r2: State)
    ensures Steps(Start(), 0, Get(Waiting), r1) && Steps(r1, 0, Go, r2)
    ensures Steps(r2, 0, Go, Pair(FRESH_LINKS, Head(0, 0), 0, 3, 0, multiset{}, EARLY, Idle))
  {
    assert Start() == Pair(FRESH_LINKS, Head(0, 0), 0, 4, 0, multiset{}, Idle, Idle);
    r1 := Pair(FRESH_LINKS, Head(0, 0), 0, 3, 0, multiset{}, GetToken(Waiting), Idle);
    r2 := Pair(FRESH_LINKS, Head(0, 0), 0, 3, 0, multiset{}, GetLoaded(Waiting, Head(0, 0), 0), Idle);
  }

  /** Thread 0 stops just before its exchange. */
  lemma ThreadZeroStops()
    ensures Reached(Pair(FRESH_LINKS, Head(0, 0), 0, 3, 0, multiset{}, EARLY, Idle))
  {
    var r1, r2 := ThreadZeroSteps();
    ReachesItself(Wider(), Start());
    Walk(Start(), 0, Get(Waiting), r1);
    Walk(r1, 0, Go, r2);
    Walk(r2, 0, Go, Pair(FRESH_LINKS, Head(0, 0), 0, 3, 0, multiset{}, EARLY, Idle));
  }

  /** The states along the way of `ThreadOneBends`, spelled both ways. */
  lemma BendingStates()
    ensures Pair(FRESH_LINKS, Bump(Head(0, 0), 1), 1, 2, 1, multiset{} + multiset{0}, EARLY, Idle)
         == Pair(FRESH_LINKS, Head(1, 1), 1, 2, 1, multiset{0}, EARLY, Idle)
    ensures Pair(FRESH_LINKS, Bump(Head(1, 1), 2), 2, 1, 2, multiset{0} + multiset{1}, EARLY, Idle)
         == Pair(FRESH_LINKS, Head(2, 2), 2, 1, 2, multiset{0, 1}, EARLY, Idle)
    ensures Pair(FRESH_LINKS, Bump(Head(2, 2), 3), 3, 0, 3, multiset{0, 1} + multiset{2}, EARLY, Idle)
         == Pair(FRESH_LINKS, Head(3, 3), 3, 0, 3, multiset{1, 2} + multiset{0}, EARLY, Idle)
    ensures Pair(FRESH_LINKS[0 := 3], Bump(Head(3, 3), 0), 2, 1, 4, multiset{1, 2}, EARLY, Idle) == Bent(0)
  {
    assert FRESH_LINKS[0 := 3] == BENT_LINKS;
  }

  /** Thread 1 takes three blocks and returns the first. */
  lemma ThreadOneBends()
    ensures Reached(Bent(0))
  {
    BendingStates();
    ThreadZeroStops();
    TakeTop(FRESH_LINKS, 0, 1, 0, 0, 3, 0, multiset{}, EARLY);
    TakeTop(FRESH_LINKS, 1, 2, 1, 1, 2, 1, multiset{0}, EARLY);
    TakeTop(FRESH_LINKS, 2, 3, 2, 2, 1, 2, multiset{0, 1}, EARLY);
    ReturnZero(FRESH_LINKS, 3, 3, 0, 3, multiset{1, 2});
  }

  lemma CyclingStates(j: nat, gen: nat)
    requires gen == Bent(j).sh.head.gen
    ensures Bent(j) == Pair(BENT_LINKS, Head(0, gen), 2, 1, 4 + 2 * j, multiset{1, 2}, EARLY, Idle)
    ensures Pair(BENT_LINKS, Bump(Head(0, gen), 3), 3, 0, 4 + 2 * j + 1, multiset{1, 2} + multiset{0}, EARLY, Idle)
         == Pair(BENT_LINKS, Head(3, (gen + 1) % GENERATIONS), 3, 0, 5 + 2 * j,
                 multiset{1, 2} + multiset{0}, EARLY, Idle)
    ensures Pair(BENT_LINKS[0 := 3], Bump(Head(3, (gen + 1) % GENERATIONS), 0), 2, 1, 6 + 2 * j,
                 multiset{1, 2}, EARLY, Idle)
         == Bent(j + 1)
  {
    assert BENT_LINKS[0 := 3] == BENT_LINKS;
  }

  lemma Cycle(j: nat)
    requires Reached(Bent(j))
    ensures Reached(Bent(j + 1))
  {
    var gen := Bent(j).sh.head.gen;
    CyclingStates(j, gen);
    TakeTop(BENT_LINKS, 0, 3, gen, 2, 1, 4 + 2 * j, multiset{1, 2}, EARLY);
    ReturnZero(BENT_LINKS, (gen + 1) % GENERATIONS, 3, 0, 5 + 2 * j, multiset{1, 2});
  }

  lemma {:induction false} Cycles(j: nat)
    ensures Reached(Bent(j))
  {
    if j == 0 {
      ThreadOneBends();
    } else {
      Cycles(j - 1);
      Cycle(j - 1);
    }
  }

  /** Exactly 2^32 exchanges late, thread 0's exchange succeeds and exposes block 1. */
  lemma LateExchange(j: nat)
    requires 4 + 2 * j == GENERATIONS
    ensures Steps(Bent(j), 0, Go,
                  Pair(BENT_LINKS, Head(1, 1), 2, 1, GENERATIONS + 1, multiset{1, 2}, GetPopped(0), Idle))
  {
  }

  /** A run in which a single exchange comes 2^32 exchanges late lends block 1 to two callers. */
  lemma TooLateLendsTwice()
    ensures exists es :: Valid(Wider(), Start(), es) && After(Wider(), Start(), es).out[1] == 2
  {
    var j := (GENERATIONS - 4) / 2;
    Cycles(j);
    LateExchange(j);
    Walk(Bent(j), 0, Go, Pair(BENT_LINKS, Head(1, 1), 2, 1, GENERATIONS + 1, multiset{1, 2}, GetPopped(0), Idle));
    TakeTop(BENT_LINKS, 1, 2, 1, 2, 1, GENERATIONS + 1, multiset{1, 2}, GetPopped(0));
    var q := Pair(BENT_LINKS, Bump(Head(1, 1), 2), 3, 0, GENERATIONS + 2,
                  multiset{1, 2} + multiset{1}, GetPopped(0), Idle);
    var es :| Valid(Wider(), Start(), es) && After(Wider(), Start(), es) == q;
    assert After(Wider(), Start(), es).out[1] == 2;
  }
}
