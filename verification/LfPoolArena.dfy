/**
 The pool as the object the engines allocate: an arena of links updated in place.

 Each method is the C body run by one thread with nobody else inside the pool; the
 number of spurious failures of the weak exchange is a parameter. Its actions are
 exactly events of the transition system, so its outcome is one of the reachable
 outcomes that `LfPoolSafety` speaks about.
 */
module LfPoolArena {
  import opened Common
  import opened Threads
  import opened Runs
  import opened LfPool
  import opened LfPoolSafety

  /** A pool with a single thread, between calls. */
  function Solo(sh: Shared, cas: nat, out: multiset<nat>, l: Local): State {
    State(sh, cas, out, map[0 := l])
  }

  ghost predicate Leads(s: State, m: State) {
    Reaches(Windowed(GENERATIONS), s, m)
  }

  /** The event `c` of the single thread leads from `m` to `m'`, and the stack from `a` to `a'`. */
  predicate Does(m: State, a: Stack, c: Choice, m': State, a': Stack) {
    var e := Event(0, c);
    && Enabled(m, e) && InWindow(m, e, GENERATIONS) && Next(m, e) == m'
    && StackEnabled(a, LabelOf(m, e)) && StackNext(a, LabelOf(m, e)) == a'
  }

  lemma Advance(s: State, m: State, a: Stack, c: Choice, m': State, a': Stack)
    requires Leads(s, m) && Inv(m, a) && Does(m, a, c, m', a')
    ensures Leads(s, m') && Inv(m', a')
  {
    if m.threads[0].GetLinked? && Exchanges(m, Event(0, c)) {
      NoAba(m, a, Event(0, c));
    }
    StepRefines(m, a, Event(0, c));
    ReachesNext(Windowed(GENERATIONS), s, m, Event(0, c));
  }

  /** The shared words after one thread has taken the top block. */
  function Taken(sh: Shared): Shared
    requires sh.sem > 0 && sh.head.idx < |sh.next|
  {
    AddInUse(sh.(sem := sh.sem - 1, head := Bump(sh.head, sh.next[sh.head.idx])))
  }

  /** The shared words after one thread has returned block `b`. */
  function Returned(sh: Shared, b: nat): Shared {
    Post(SubInUse(WriteNext(sh, b, sh.head.idx).(head := Bump(sh.head, b))))
  }

  lemma TakeSteps(sh: Shared, cas: nat, out: multiset<nat>, a: Stack, kind: Kind)
    returns (m1: State, m2: State, m3: State, m4: State, a4: Stack)
    requires sh.sem > 0 && a.free != [] && a.free[0] == sh.head.idx < |sh.next| && sh.head.idx != NIL
    requires sh.head.idx < |a.place| && a.place[sh.head.idx] == OnStack
    ensures Does(Solo(sh, cas, out, Idle), a, Get(kind), m1, a)
    ensures Does(m1, a, Go, m2, a) && Does(m2, a, Go, m3, a) && Does(m3, a, Go, m4, a4)
    ensures Does(m4, a4, Go, Solo(Taken(sh), cas + 1, out + multiset{sh.head.idx}, Idle),
                 Stack(a.free[1..], a.place[sh.head.idx := Lent]))
  {
    var h, nxt := sh.head, sh.next[sh.head.idx];
    var sh1 := sh.(sem := sh.sem - 1);
    m1 := Solo(sh1, cas, out, GetToken(kind));
    m2 := Solo(sh1, cas, out, GetLoaded(kind, h, cas));
    m3 := Solo(sh1, cas, out, GetLinked(kind, h, nxt, cas));
    m4 := Solo(sh1.(head := Bump(h, nxt)), cas + 1, out, GetPopped(h.idx));
    a4 := Stack(a.free[1..], a.place[h.idx := With(0)]);
    assert a4.place[h.idx := Lent] == a.place[h.idx := Lent];
  }

  /** One thread alone: a get is a run of the machine, and it takes the top. */
  lemma AfterTake(sh: Shared, cas: nat, out: multiset<nat>, a: Stack, kind: Kind) returns (done: State, a': Stack)
    requires Inv(Solo(sh, cas, out, Idle), a) && sh.sem > 0
    ensures a.free != [] && a.free[0] == sh.head.idx < |sh.next| && sh.head.idx != NIL && sh.head.idx !in out
    ensures done == Solo(Taken(sh), cas + 1, out + multiset{sh.head.idx}, Idle) && a'.free == a.free[1..]
    ensures Leads(Solo(sh, cas, out, Idle), done) && Inv(done, a')
  {
    var s := Solo(sh, cas, out, Idle);
    QuietBalance(s, a);
    assert sh.head.idx in a.free;
    var m1, m2, m3, m4, a4 := TakeSteps(sh, cas, out, a, kind);
    ReachesItself(Windowed(GENERATIONS), s);
    Advance(s, s, a, Get(kind), m1, a);
    Advance(s, m1, a, Go, m2, a);
    Advance(s, m2, a, Go, m3, a);
    Advance(s, m3, a, Go, m4, a4);
    done := Solo(Taken(sh), cas + 1, out + multiset{sh.head.idx}, Idle);
    a' := Stack(a.free[1..], a.place[sh.head.idx := Lent]);
    Advance(s, m4, a4, Go, done, a');
  }

  lemma PushSteps(sh: Shared, cas: nat, out: multiset<nat>, a: Stack, b: nat)
    returns (m1: State, m2: State, m3: State, m4: State, a1: Stack)
    requires b in out && b < |a.place| && a.place[b] == Lent
    ensures Does(Solo(sh, cas, out, Idle), a, Put(b), m1, a1) && Does(m1, a1, Go, m2, a1) && Does(m2, a1, Go, m3, a1)
    ensures Does(m3, a1, Go, m4, Stack([b] + a.free, a.place[b := OnStack]))
    ensures m4 == Solo(WriteNext(sh, b, sh.head.idx).(head := Bump(sh.head, b)), cas + 1, out - multiset{b}, PutPushed)
  {
    var h, out' := sh.head, out - multiset{b};
    m1 := Solo(sh, cas, out', PutStart(b));
    m2 := Solo(sh, cas, out', PutLoaded(b, h, cas));
    var sh3 := WriteNext(sh, b, h.idx);
    m3 := Solo(sh3, cas, out', PutLinked(b, h, cas));
    m4 := Solo(sh3.(head := Bump(h, b)), cas + 1, out', PutPushed);
    a1 := a.(place := a.place[b := With(0)]);
    assert a1.place[b := OnStack] == a.place[b := OnStack];
  }

  lemma PostSteps(sh: Shared, cas: nat, out: multiset<nat>, a: Stack) returns (m: State)
    ensures Does(Solo(sh, cas, out, PutPushed), a, Go, m, a)
    ensures Does(m, a, Go, Solo(Post(SubInUse(sh)), cas, out, Idle), a)
  {
    m := Solo(SubInUse(sh), cas, out, PutPost);
  }

  /** One thread alone: a put is a run of the machine, and it makes the block the top. */
  lemma AfterReturn(sh: Shared, cas: nat, out: multiset<nat>, a: Stack, b: nat) returns (done: State, a': Stack)
    requires Inv(Solo(sh, cas, out, Idle), a) && b in out
    ensures b < |sh.next|
    ensures done == Solo(Returned(sh, b), cas + 1, out - multiset{b}, Idle) && a'.free == [b] + a.free
    ensures Leads(Solo(sh, cas, out, Idle), done) && Inv(done, a')
  {
    var s := Solo(sh, cas, out, Idle);
    assert out[b] > 0 && a.place[b] == Lent;
    var m1, m2, m3, m4, a1 := PushSteps(sh, cas, out, a, b);
    a' := Stack([b] + a.free, a.place[b := OnStack]);
    done := Solo(Returned(sh, b), cas + 1, out - multiset{b}, Idle);
    var m5 := PostSteps(m4.sh, cas + 1, out - multiset{b}, a');
    ReachesItself(Windowed(GENERATIONS), s);
    Advance(s, s, a, Put(b), m1, a1);
    Advance(s, m1, a1, Go, m2, a1);
    Advance(s, m2, a1, Go, m3, a1);
    Advance(s, m3, a1, Go, m4, a');
    Advance(s, m4, a', Go, m5, a');
    Advance(s, m5, a', Go, done, a');
  }

  class Arena {
    var capacity: nat
    var next: array<nat>
    var head: Head
    var inUse: nat
    var sem: nat

    ghost function View(): Shared
      reads this, next
    {
      Shared(capacity, next[..], head, inUse, sem)
    }

    /** `lf_pool_init` for an accepted capacity: every block linked to its neighbour. */
    constructor (cap: nat)
      requires 0 < cap < NIL
      ensures View() == InitialShared(cap) && fresh(next)
    {
      capacity, head, inUse, sem := cap, Head(0, 0), 0, cap;
      next := new nat[cap];
      new;
      var i := 0;
      while i < cap - 1
        invariant 0 <= i <= cap - 1 && next.Length == cap && fresh(next)
        invariant capacity == cap && head == Head(0, 0) && inUse == 0 && sem == cap
        invariant forall k :: 0 <= k < i ==> next[k] == k + 1
      {
        next[i] := i + 1;
        i := i + 1;
      }
      next[cap - 1] := NIL;
      assert next[..] == InitialShared(cap).next;
    }

    /** The exchange loop of a get: the head moves to the link of the top block, if there is one. */
    method PopTop(kind: Kind, spurious: nat) returns (b: Option<nat>)
      requires head.idx == NIL ==> kind == Trying
      requires head.idx != NIL ==> head.idx < next.Length
      modifies this`head
      ensures b.None? <==> old(head).idx == NIL
      ensures b.None? ==> head == old(head)
      ensures b.Some? ==> b.value == old(head).idx && head == Bump(old(head), next[b.value])
    {
      var seen, left := head, spurious;
      while true
        invariant seen == head == old(head)
        decreases left
      {
        if kind == Trying && seen.idx == NIL {
          return None;
        }
        var nxt := next[seen.idx];
        if left == 0 && head == seen {
          head := Bump(seen, nxt);
          return Some(seen.idx);
        }
        seen, left := head, left - 1;
      }
    }

    /** The exchange loop of a put: the block is linked to the old top and becomes the head. */
    method PushTop(b: nat, spurious: nat)
      requires b < next.Length
      modifies this`head, next
      ensures head == Bump(old(head), b) && next[..] == old(next[..])[b := old(head).idx]
    {
      var seen, left := head, spurious;
      while true
        invariant seen == head == old(head)
        invariant forall k :: 0 <= k < next.Length && k != b ==> next[k] == old(next[k])
        decreases left
      {
        next[b] := seen.idx;
        if left == 0 && head == seen {
          head := Bump(seen, b);
          break;
        }
        seen, left := head, left - 1;
      }
    }

    /**
     `lf_pool_try_get`, and `lf_pool_wait_get` when it need not sleep; a non-blocking get
     that meets an empty stack gives its token back. In a quiet pool that branch is dead,
     and `AfterTake` says what the new words mean.
     */
    method Take(kind: Kind, spurious: nat) returns (r: Option<nat>)
      requires kind == Waiting ==> sem > 0 && head.idx != NIL
      requires head.idx != NIL ==> head.idx < next.Length
      modifies this
      ensures next == old(next)
      ensures r.None? <==> old(sem) == 0 || old(head).idx == NIL
      ensures r.None? ==> View() == old(View())
      ensures r.Some? ==> r.value == old(head).idx && View() == Taken(old(View()))
    {
      if sem == 0 {
        return None;
      }
      sem := sem - 1;
      r := PopTop(kind, spurious);
      if r.None? {
        sem := sem + 1;
        return;
      }
      inUse := (inUse + 1) % WORDS;
    }

    /** `lf_pool_put`; `AfterReturn` says what the new words mean. */
    method Return(b: nat, spurious: nat)
      requires b < next.Length
      modifies this, next
      ensures next == old(next) && View() == Returned(old(View()), b)
    {
      PushTop(b, spurious);
      inUse := (inUse + WORDS - 1) % WORDS;
      sem := sem + 1;
    }
  }

  /** `lf_pool_init`: the argument checks, with the outcome of the two allocations as a parameter. */
  method Init(blockSize: nat, capacity: nat, resources: bool) returns (r: Option<Arena>)
    ensures r.Some? <==> blockSize > 0 && 0 < capacity < NIL && resources
    ensures r.Some? ==> fresh(r.value) && r.value.View() == InitialShared(capacity)
  {
    if blockSize == 0 || capacity == 0 || capacity >= NIL || !resources {
      return None;
    }
    var p := new Arena(capacity);
    return Some(p);
  }

  /** With nobody inside the pool the semaphore is the stack height. */
  lemma QuietBalance(s: State, a: Stack)
    requires Inv(s, a) && forall t :: t in s.threads ==> s.threads[t].Idle?
    ensures s.sh.sem == |a.free|
  {
    CountNone(s.threads, HoldsToken);
    CountNone(s.threads, Pushed);
    CountNone(s.threads, Unposted);
  }
}
