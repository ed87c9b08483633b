/**
 Safety of the lock-free pool over every run in which pops install current links: it
 refines an abstract stack, and tokens, blocks and the in-use counter balance. No other
 run does, and every run in which no pop comes 2^32 or more exchanges late is of this
 kind; puts and exchanges that fail may be as late as they like.
 */
module LfPoolSafety {
  import opened Common
  import opened Threads
  import opened Runs
  import opened LfPool

  /** Where a block is: on the stack, with a caller, or in the hands of a thread inside the pool. */
  datatype Place = OnStack | Lent | With(t: Tid)

  /** The abstract pool: a stack of blocks and one place for every block. */
  datatype Stack = Stack(free: seq<nat>, place: seq<Place>)

  datatype Label =
    | Silent
    | Pop(t: Tid, b: nat)
    | Lend(t: Tid, b: nat)
    | Take(t: Tid, b: nat)
    | Push(t: Tid, b: nat)

  /** A pop is genuine when it takes the top; a push when the pusher has the block in hand. */
  predicate StackEnabled(a: Stack, l: Label) {
    match l
    case Silent => true
    case Pop(_, b) => a.free != [] && b == a.free[0] && b < |a.place| && a.place[b] == OnStack
    case Lend(t, b) => b < |a.place| && a.place[b] == With(t)
    case Take(_, b) => b < |a.place| && a.place[b] == Lent
    case Push(t, b) => b < |a.place| && a.place[b] == With(t)
  }

  function StackNext(a: Stack, l: Label): Stack
    requires StackEnabled(a, l)
  {
    match l
    case Silent => a
    case Pop(t, b) => Stack(a.free[1..], a.place[b := With(t)])
    case Lend(_, b) => a.(place := a.place[b := Lent])
    case Take(t, b) => a.(place := a.place[b := With(t)])
    case Push(_, b) => Stack([b] + a.free, a.place[b := OnStack])
  }

  /** What an event of the pool does to the stack: only a successful exchange pops or pushes. */
  function LabelOf(s: State, e: Event): Label
    requires Enabled(s, e)
  {
    var l := s.threads[e.t];
    if Exchanges(s, e) then (if l.GetLinked? then Pop(e.t, l.seen.idx) else Push(e.t, l.block))
    else if l.GetPopped? then Lend(e.t, l.block)
    else if l.Idle? && e.c.Put? then Take(e.t, e.c.block)
    else Silent
  }

  /** The link that belongs behind position `i` of a chain. */
  function Following(l: seq<nat>, i: nat): nat {
    if i + 1 < |l| then l[i + 1] else NIL
  }

  /** The links lead from `start` through exactly `l` to the end sentinel. */
  predicate IsChain(next: seq<nat>, start: nat, l: seq<nat>) {
    && start == (if l == [] then NIL else l[0])
    && forall i :: 0 <= i < |l| ==> l[i] < |next| && next[l[i]] == Following(l, i)
  }

  /** What a remembered head word still tells: nothing changed if nobody exchanged since. */
  predicate Remembered(s: State, seen: Head, stamp: nat) {
    stamp <= s.cas && seen.gen == stamp % GENERATIONS && (stamp == s.cas ==> seen == s.sh.head)
  }

  predicate InHand(s: State, a: Stack, t: Tid, b: nat) {
    b < |a.place| && a.place[b] == With(t)
  }

  predicate Carries(l: Local) {
    l.GetPopped? || l.PutStart? || l.PutLoaded? || l.PutLinked?
  }

  predicate LocalOk(s: State, a: Stack, t: Tid, l: Local) {
    match l
    case GetLoaded(_, seen, stamp) => Remembered(s, seen, stamp) && seen.idx < |s.sh.next|
    case GetLinked(_, seen, nxt, stamp) =>
      Remembered(s, seen, stamp) && seen.idx < |s.sh.next| && (stamp == s.cas ==> nxt == s.sh.next[seen.idx])
    case GetPopped(b) => InHand(s, a, t, b)
    case GetRefund => false
    case OutOfArena => false
    case PutStart(b) => InHand(s, a, t, b)
    case PutLoaded(b, seen, stamp) => InHand(s, a, t, b) && Remembered(s, seen, stamp)
    case PutLinked(b, seen, stamp) =>
      InHand(s, a, t, b) && Remembered(s, seen, stamp) && b < |s.sh.next| && s.sh.next[b] == seen.idx
    case _ => true
  }

  /** The stack is what the links spell. */
  predicate Links(s: State, a: Stack) {
    && 0 < s.sh.cap < NIL && |s.sh.next| == s.sh.cap == |a.place|
    && s.sh.head.gen == s.cas % GENERATIONS
    && IsChain(s.sh.next, s.sh.head.idx, a.free) && Distinct(a.free)
  }

  /** Every block is in exactly the place recorded for it. */
  predicate Places(s: State, a: Stack) {
    && (forall b :: 0 <= b < |a.place| ==> (b in a.free <==> a.place[b] == OnStack))
    && (forall b :: b in s.out ==> b < |a.place|)
    && (forall b :: 0 <= b < |a.place| ==> s.out[b] == Bit(a.place[b] == Lent))
    && (forall b :: 0 <= b < |a.place| && a.place[b].With? ==>
          a.place[b].t in s.threads && Carries(s.threads[a.place[b].t]) && s.threads[a.place[b].t].block == b)
  }

  predicate Locals(s: State, a: Stack) {
    forall t :: t in s.threads ==> LocalOk(s, a, t, s.threads[t])
  }

  predicate Shape(s: State, a: Stack) {
    Links(s, a) && Places(s, a) && Locals(s, a)
  }

  // The five windows of the code that the accounting distinguishes.
  predicate HoldsToken(l: Local) { l.GetToken? || l.GetLoaded? || l.GetLinked? || l.GetRefund? || l.OutOfArena? }
  predicate Popped(l: Local) { l.GetPopped? }
  predicate Returning(l: Local) { l.PutStart? || l.PutLoaded? || l.PutLinked? }
  predicate Pushed(l: Local) { l.PutPushed? }
  predicate Unposted(l: Local) { l.PutPost? }

  /** Tokens match the stack, blocks are conserved, and `in_use` lags by exactly the threads in between. */
  predicate Balance(s: State, a: Stack) {
    && s.sh.sem + Count(s.threads, HoldsToken) + Count(s.threads, Pushed) + Count(s.threads, Unposted) == |a.free|
    && |a.free| + |s.out| + Count(s.threads, Popped) + Count(s.threads, Returning) == s.sh.cap
    && s.sh.inUse == |s.out| + Count(s.threads, Returning) + Count(s.threads, Pushed)
  }

  predicate Inv(s: State, a: Stack) {
    Shape(s, a) && Balance(s, a)
  }

  lemma CountsAfter(m: map<Tid, Local>, t: Tid, l: Local)
    requires t in m
    ensures Count(m[t := l], HoldsToken) + Bit(HoldsToken(m[t])) == Count(m, HoldsToken) + Bit(HoldsToken(l))
    ensures Count(m[t := l], Popped) + Bit(Popped(m[t])) == Count(m, Popped) + Bit(Popped(l))
    ensures Count(m[t := l], Returning) + Bit(Returning(m[t])) == Count(m, Returning) + Bit(Returning(l))
    ensures Count(m[t := l], Pushed) + Bit(Pushed(m[t])) == Count(m, Pushed) + Bit(Pushed(l))
    ensures Count(m[t := l], Unposted) + Bit(Unposted(m[t])) == Count(m, Unposted) + Bit(Unposted(l))
  {
    CountUpdate(m, t, l, HoldsToken);
    CountUpdate(m, t, l, Popped);
    CountUpdate(m, t, l, Returning);
    CountUpdate(m, t, l, Pushed);
    CountUpdate(m, t, l, Unposted);
  }

  /** A token holder finds the stack non-empty. */
  lemma TokenMeansBlock(s: State, a: Stack, t: Tid)
    requires Inv(s, a) && t in s.threads && HoldsToken(s.threads[t])
    ensures a.free != [] && s.sh.head.idx == a.free[0] < s.sh.cap
  {
    CountPositive(s.threads, t, HoldsToken);
  }

  /** An exchange that succeeds although others came in between is late by a full turn of the generations. */
  lemma StaleIsLate(s: State, a: Stack, e: Event)
    requires Shape(s, a) && Enabled(s, e) && Exchanges(s, e) && s.threads[e.t].stamp != s.cas
    ensures s.cas >= s.threads[e.t].stamp + GENERATIONS
    ensures s.cas % GENERATIONS == s.threads[e.t].stamp % GENERATIONS
  {
    var l := s.threads[e.t];
    assert LocalOk(s, a, e.t, l);
    assert Remembered(s, l.seen, l.stamp);
  }

  /** Inside the window, a pop succeeds only if nobody exchanged since the head was read. */
  lemma NoAba(s: State, a: Stack, e: Event)
    requires Shape(s, a) && Enabled(s, e) && InWindow(s, e, GENERATIONS) && Exchanges(s, e) && s.threads[e.t].GetLinked?
    ensures s.threads[e.t].stamp == s.cas && PopsCurrentLink(s, e)
  {
    if s.threads[e.t].stamp != s.cas {
      StaleIsLate(s, a, e);
    }
    assert LocalOk(s, a, e.t, s.threads[e.t]);
  }

  lemma ChainPop(next: seq<nat>, l: seq<nat>)
    requires l != [] && IsChain(next, l[0], l) && Distinct(l)
    ensures IsChain(next, next[l[0]], l[1..]) && Distinct(l[1..])
  {
    assert next[l[0]] == Following(l, 0);
    var m := l[1..];
    forall i | 0 <= i < |m|
      ensures m[i] < |next| && next[m[i]] == Following(m, i)
    {
      assert m[i] == l[i + 1] && Following(l, i + 1) == Following(m, i);
    }
  }

  lemma TailMembers(l: seq<nat>)
    requires l != [] && Distinct(l)
    ensures forall b :: b in l[1..] <==> b in l && b != l[0]
  {
    forall b | b in l && b != l[0] ensures b in l[1..] {
      var i :| 0 <= i < |l| && l[i] == b;
      assert l[1..][i - 1] == b;
    }
  }

  lemma ChainPush(next: seq<nat>, start: nat, l: seq<nat>, b: nat)
    requires IsChain(next, start, l) && Distinct(l) && b !in l && b < |next| && next[b] == start
    ensures IsChain(next, b, [b] + l) && Distinct([b] + l)
  {
    var m := [b] + l;
    forall i | 0 <= i < |m|
      ensures m[i] < |next| && next[m[i]] == Following(m, i)
    {
      if i > 0 {
        assert m[i] == l[i - 1] && Following(l, i - 1) == Following(m, i);
      }
    }
  }

  /** Counting exchanges and counting generations stay in step. */
  lemma GenerationAdvances(seen: Head, idx: nat, cas: nat)
    requires seen.gen == cas % GENERATIONS
    ensures Bump(seen, idx).gen == (cas + 1) % GENERATIONS
  {
  }

  /** A successful exchange of a get takes the top of the stack, however late it comes. */
  lemma PopIsGenuine(s: State, a: Stack, e: Event)
    requires Inv(s, a) && Enabled(s, e) && Exchanges(s, e) && s.threads[e.t].GetLinked?
    ensures StackEnabled(a, LabelOf(s, e))
    ensures s.threads[e.t].seen.idx == a.free[0] < |s.sh.next|
  {
    TokenMeansBlock(s, a, e.t);
    assert LocalOk(s, a, e.t, s.threads[e.t]);
    assert a.free[0] in a.free;
  }

  lemma PopKeepsLinks(s: State, a: Stack, e: Event)
    requires Links(s, a) && Enabled(s, e) && Exchanges(s, e) && s.threads[e.t].GetLinked?
    requires StackEnabled(a, LabelOf(s, e)) && PopsCurrentLink(s, e)
    ensures Links(Next(s, e), StackNext(a, LabelOf(s, e)))
  {
    ChainPop(s.sh.next, a.free);
    GenerationAdvances(s.sh.head, s.threads[e.t].nxt, s.cas);
  }

  lemma PopKeepsPlaces(s: State, a: Stack, e: Event)
    requires Links(s, a) && Places(s, a) && Enabled(s, e) && Exchanges(s, e) && s.threads[e.t].GetLinked?
    requires StackEnabled(a, LabelOf(s, e))
    ensures Places(Next(s, e), StackNext(a, LabelOf(s, e)))
  {
    TailMembers(a.free);
  }

  /** A successful exchange of a put pushes a block that was in nobody else's hands, however late it comes. */
  lemma PushIsGenuine(s: State, a: Stack, e: Event)
    requires Shape(s, a) && Enabled(s, e) && Exchanges(s, e) && s.threads[e.t].PutLinked?
    ensures StackEnabled(a, LabelOf(s, e))
    ensures var b := s.threads[e.t].block; b < |s.sh.next| && b !in a.free && s.sh.next[b] == s.sh.head.idx
  {
    assert LocalOk(s, a, e.t, s.threads[e.t]);
  }

  lemma PushKeepsLinks(s: State, a: Stack, e: Event)
    requires Links(s, a) && Enabled(s, e) && Exchanges(s, e) && s.threads[e.t].PutLinked?
    requires StackEnabled(a, LabelOf(s, e))
    requires var b := s.threads[e.t].block; b < |s.sh.next| && b !in a.free && s.sh.next[b] == s.sh.head.idx
    ensures Links(Next(s, e), StackNext(a, LabelOf(s, e)))
  {
    var b := s.threads[e.t].block;
    ChainPush(s.sh.next, s.sh.head.idx, a.free, b);
    GenerationAdvances(s.sh.head, b, s.cas);
  }

  lemma PushKeepsPlaces(s: State, a: Stack, e: Event)
    requires Places(s, a) && Enabled(s, e) && Exchanges(s, e) && s.threads[e.t].PutLinked?
    requires StackEnabled(a, LabelOf(s, e))
    ensures Places(Next(s, e), StackNext(a, LabelOf(s, e)))
  {
  }

  /** After an exchange every other thread's remembered head is out of date, which is all it may assume. */
  lemma ExchangeKeepsLocals(s: State, a: Stack, e: Event)
    requires Locals(s, a) && Enabled(s, e) && Exchanges(s, e) && StackEnabled(a, LabelOf(s, e))
    ensures Locals(Next(s, e), StackNext(a, LabelOf(s, e)))
  {
    var s', a' := Next(s, e), StackNext(a, LabelOf(s, e));
    forall t | t in s'.threads ensures LocalOk(s', a', t, s'.threads[t]) {
      assert LocalOk(s, a, t, s.threads[t]);
    }
  }

  /** Writing the link of a block in hand touches no block of the stack. */
  lemma LinkKeepsLinks(s: State, a: Stack, e: Event)
    requires Links(s, a) && Places(s, a) && Enabled(s, e) && s.threads[e.t].PutLoaded?
    requires InHand(s, a, e.t, s.threads[e.t].block)
    ensures Links(Next(s, e), a) && Places(Next(s, e), a)
  {
  }

  lemma LinkKeepsLocals(s: State, a: Stack, e: Event)
    requires Shape(s, a) && Enabled(s, e) && s.threads[e.t].PutLoaded?
    ensures Locals(Next(s, e), a)
  {
    var s', b := Next(s, e), s.threads[e.t].block;
    assert LocalOk(s, a, e.t, s.threads[e.t]);
    assert s.sh.head.idx < |s.sh.next| ==> s.sh.head.idx in a.free;
    forall t | t in s'.threads ensures LocalOk(s', a, t, s'.threads[t]) {
      assert LocalOk(s, a, t, s.threads[t]);
    }
  }

  /** Lending a block changes one place and no link. */
  lemma LendKeepsPlaces(s: State, a: Stack, e: Event)
    requires Links(s, a) && Places(s, a) && Enabled(s, e) && LabelOf(s, e).Lend? && StackEnabled(a, LabelOf(s, e))
    ensures Links(Next(s, e), StackNext(a, LabelOf(s, e))) && Places(Next(s, e), StackNext(a, LabelOf(s, e)))
  {
  }

  /** So does taking it back. */
  lemma TakeKeepsPlaces(s: State, a: Stack, e: Event)
    requires Links(s, a) && Places(s, a) && Enabled(s, e) && LabelOf(s, e).Take? && StackEnabled(a, LabelOf(s, e))
    ensures Links(Next(s, e), StackNext(a, LabelOf(s, e))) && Places(Next(s, e), StackNext(a, LabelOf(s, e)))
  {
  }

  lemma HandoverKeepsLocals(s: State, a: Stack, e: Event)
    requires Locals(s, a) && Enabled(s, e) && (LabelOf(s, e).Lend? || LabelOf(s, e).Take?)
    requires StackEnabled(a, LabelOf(s, e))
    ensures Locals(Next(s, e), StackNext(a, LabelOf(s, e)))
  {
    var s', a' := Next(s, e), StackNext(a, LabelOf(s, e));
    forall t | t in s'.threads ensures LocalOk(s', a', t, s'.threads[t]) {
      assert LocalOk(s, a, t, s.threads[t]);
    }
  }

  /** A thread that moves without touching head, links or places keeps the shape. */
  lemma MoveKeepsShape(s: State, a: Stack, t: Tid, l: Local, sh: Shared)
    requires Shape(s, a) && t in s.threads && LocalOk(s, a, t, l)
    requires Carries(l) == Carries(s.threads[t]) && (Carries(l) ==> l.block == s.threads[t].block)
    requires sh == s.sh.(inUse := sh.inUse, sem := sh.sem)
    ensures Shape(Move(s, t, l).(sh := sh), a)
  {
  }

  lemma GetKeepsShape(s: State, a: Stack, e: Event)
    requires Inv(s, a) && Enabled(s, e) && LabelOf(s, e) == Silent
    requires s.threads[e.t].Idle? || HoldsToken(s.threads[e.t])
    ensures Shape(Next(s, e), a)
  {
    var s' := Next(s, e);
    assert LocalOk(s, a, e.t, s.threads[e.t]);
    if s.threads[e.t].Idle? {
      if s.sh.sem > 0 {
        MoveKeepsShape(s, a, e.t, s'.threads[e.t], s'.sh);
      }
    } else {
      TokenMeansBlock(s, a, e.t);
      MoveKeepsShape(s, a, e.t, s'.threads[e.t], s'.sh);
    }
  }

  lemma PutKeepsShape(s: State, a: Stack, e: Event)
    requires Inv(s, a) && Enabled(s, e) && LabelOf(s, e) == Silent
    requires Returning(s.threads[e.t]) || Pushed(s.threads[e.t]) || Unposted(s.threads[e.t])
    requires !s.threads[e.t].PutLoaded?
    ensures Shape(Next(s, e), a)
  {
    var s' := Next(s, e);
    assert LocalOk(s, a, e.t, s.threads[e.t]);
    MoveKeepsShape(s, a, e.t, s'.threads[e.t], s'.sh);
  }

  /** The in-use counter never leaves [0, capacity], so neither update wraps. */
  lemma InUseIsExact(s: State, a: Stack)
    requires Balance(s, a)
    ensures s.sh.inUse + s.sh.sem + Count(s.threads, HoldsToken) + Count(s.threads, Popped) + Count(s.threads, Unposted)
            == s.sh.cap
  {
  }

  /** How the accounts move with one thread, as an equation on the terms of `Balance`. */
  lemma Rebalance(s: State, a: Stack, s': State, a': Stack, t: Tid)
    requires Balance(s, a) && t in s.threads && t in s'.threads && s'.threads == s.threads[t := s'.threads[t]]
    requires s'.sh.cap == s.sh.cap
    requires var l, l' := s.threads[t], s'.threads[t];
             && s'.sh.sem + Bit(HoldsToken(l')) + Bit(Pushed(l')) + Bit(Unposted(l')) - |a'.free|
                == s.sh.sem + Bit(HoldsToken(l)) + Bit(Pushed(l)) + Bit(Unposted(l)) - |a.free|
             && |a'.free| + |s'.out| + Bit(Popped(l')) + Bit(Returning(l'))
                == |a.free| + |s.out| + Bit(Popped(l)) + Bit(Returning(l))
             && s'.sh.inUse - |s'.out| - Bit(Returning(l')) - Bit(Pushed(l'))
                == s.sh.inUse - |s.out| - Bit(Returning(l)) - Bit(Pushed(l))
    ensures Balance(s', a')
  {
    CountsAfter(s.threads, t, s'.threads[t]);
  }

  lemma GetKeepsBalance(s: State, a: Stack, e: Event)
    requires Balance(s, a) && Enabled(s, e) && StackEnabled(a, LabelOf(s, e))
    requires (s.threads[e.t].Idle? && e.c.Get?) || HoldsToken(s.threads[e.t])
    ensures Balance(Next(s, e), StackNext(a, LabelOf(s, e)))
  {
    var s' := Next(s, e);
    assert s'.threads == s.threads[e.t := s'.threads[e.t]];
    Rebalance(s, a, s', StackNext(a, LabelOf(s, e)), e.t);
  }

  lemma LendKeepsBalance(s: State, a: Stack, e: Event)
    requires Balance(s, a) && s.sh.cap < NIL && Enabled(s, e) && StackEnabled(a, LabelOf(s, e))
    requires Popped(s.threads[e.t])
    ensures Balance(Next(s, e), StackNext(a, LabelOf(s, e)))
  {
    InUseIsExact(s, a);
    CountPositive(s.threads, e.t, Popped);
    NoWrap(s.sh.inUse);
    Rebalance(s, a, Next(s, e), StackNext(a, LabelOf(s, e)), e.t);
  }

  lemma NoWrap(n: nat)
    requires n < NIL
    ensures (n + 1) % WORDS == n + 1 && (n > 0 ==> (n + WORDS - 1) % WORDS == n - 1)
  {
  }

  lemma PutKeepsBalance(s: State, a: Stack, e: Event)
    requires Balance(s, a) && Enabled(s, e) && StackEnabled(a, LabelOf(s, e))
    requires (s.threads[e.t].Idle? && e.c.Put?) || Returning(s.threads[e.t])
    ensures Balance(Next(s, e), StackNext(a, LabelOf(s, e)))
  {
    var s' := Next(s, e);
    assert s'.threads == s.threads[e.t := s'.threads[e.t]];
    Rebalance(s, a, s', StackNext(a, LabelOf(s, e)), e.t);
  }

  lemma PostKeepsBalance(s: State, a: Stack, e: Event)
    requires Balance(s, a) && s.sh.cap < NIL && Enabled(s, e) && (Pushed(s.threads[e.t]) || Unposted(s.threads[e.t]))
    ensures LabelOf(s, e) == Silent && Balance(Next(s, e), a)
  {
    var s' := Next(s, e);
    if Pushed(s.threads[e.t]) {
      InUseIsExact(s, a);
      CountPositive(s.threads, e.t, Pushed);
      NoWrap(s.sh.inUse);
    }
    Rebalance(s, a, s', a, e.t);
  }

  /** One event: unless it pops a stale link it is a step of the abstract stack and keeps the invariant. */
  lemma StepRefines(s: State, a: Stack, e: Event)
    requires Inv(s, a) && Enabled(s, e) && PopsCurrentLink(s, e)
    ensures StackEnabled(a, LabelOf(s, e)) && Inv(Next(s, e), StackNext(a, LabelOf(s, e)))
  {
    var l := s.threads[e.t];
    assert LocalOk(s, a, e.t, l);
    if Exchanges(s, e) {
      if l.GetLinked? {
        PopIsGenuine(s, a, e);
        PopKeepsLinks(s, a, e);
        PopKeepsPlaces(s, a, e);
      } else {
        PushIsGenuine(s, a, e);
        PushKeepsLinks(s, a, e);
        PushKeepsPlaces(s, a, e);
      }
      ExchangeKeepsLocals(s, a, e);
    } else if LabelOf(s, e) != Silent {
      if LabelOf(s, e).Lend? {
        LendKeepsPlaces(s, a, e);
      } else {
        TakeKeepsPlaces(s, a, e);
      }
      HandoverKeepsLocals(s, a, e);
    } else if l.PutLoaded? {
      LinkKeepsLinks(s, a, e);
      LinkKeepsLocals(s, a, e);
    } else if l.Idle? || HoldsToken(l) {
      GetKeepsShape(s, a, e);
    } else {
      PutKeepsShape(s, a, e);
    }
    if (l.Idle? && e.c.Get?) || HoldsToken(l) {
      GetKeepsBalance(s, a, e);
    } else if Popped(l) {
      LendKeepsBalance(s, a, e);
    } else if l.Idle? || Returning(l) {
      PutKeepsBalance(s, a, e);
    } else {
      PostKeepsBalance(s, a, e);
    }
  }

  /**
   Gets run to their end: one is refused at once exactly if there is no token; with a token
   it ends only by popping the top, which it then hands to its caller; and its head loads
   are stamped with the exchanges there have been.
   */
  lemma GetsRunToEnd(s: State, a: Stack, e: Event)
    requires Inv(s, a) && Enabled(s, e)
    requires (s.threads[e.t].Idle? && e.c.Get?) || HoldsToken(s.threads[e.t]) || Popped(s.threads[e.t])
    ensures e.t in Next(s, e).threads
    ensures var s', l, l' := Next(s, e), s.threads[e.t], Next(s, e).threads[e.t];
            && (l.Idle? ==> if s.sh.sem == 0 then s' == s else l' == GetToken(e.c.kind))
            && (HoldsToken(l) && !HoldsToken(l') ==> a.free != [] && l' == GetPopped(a.free[0]))
            && (l.GetPopped? ==> l'.Idle? && s'.out == s.out + multiset{l.block})
            && (l'.GetLoaded? ==> l'.stamp == s.cas && l'.seen == s.sh.head)
  {
    if HoldsToken(s.threads[e.t]) {
      TokenMeansBlock(s, a, e.t);
      assert LocalOk(s, a, e.t, s.threads[e.t]);
    }
  }

  /** So do puts: one ends only after pushing the very block it was called with. */
  lemma PutsRunToEnd(s: State, e: Event)
    requires Enabled(s, e)
    requires (s.threads[e.t].Idle? && e.c.Put?) || Returning(s.threads[e.t]) || Pushed(s.threads[e.t])
             || Unposted(s.threads[e.t])
    ensures e.t in Next(s, e).threads
    ensures var s', l, l' := Next(s, e), s.threads[e.t], Next(s, e).threads[e.t];
            && (l.Idle? ==> l' == PutStart(e.c.block) && s'.out == s.out - multiset{e.c.block})
            && (Returning(l) ==>
                  || (Returning(l') && l'.block == l.block)
                  || (l'.PutPushed? && LabelOf(s, e) == Push(e.t, l.block)))
            && (l.PutPushed? ==> l'.PutPost?) && (l.PutPost? ==> l'.Idle?)
            && (l'.PutLoaded? ==> l'.stamp == s.cas && l'.seen == s.sh.head)
  {
  }

  /** The links spell the abstract stack. */
  predicate Spells(s: State, a: Stack) {
    IsChain(s.sh.next, s.sh.head.idx, a.free)
  }

  /** A pop always takes the top, and leaves links that spell the rest exactly if it installs a current link. */
  lemma PopIsSafeExactly(s: State, a: Stack, e: Event)
    requires Inv(s, a) && Enabled(s, e) && Exchanges(s, e) && s.threads[e.t].GetLinked?
    ensures StackEnabled(a, LabelOf(s, e))
    ensures Spells(Next(s, e), StackNext(a, LabelOf(s, e))) <==> PopsCurrentLink(s, e)
    ensures Inv(Next(s, e), StackNext(a, LabelOf(s, e))) <==> PopsCurrentLink(s, e)
  {
    PopIsGenuine(s, a, e);
    assert s.sh.next[a.free[0]] == Following(a.free, 0);
    if PopsCurrentLink(s, e) {
      StepRefines(s, a, e);
    }
  }

  /** The labels of a run, in order. */
  function LabelsOf(s: State, es: seq<Event>): seq<Label>
    decreases |es|
  {
    if es == [] || !Enabled(s, es[0]) then [] else [LabelOf(s, es[0])] + LabelsOf(Next(s, es[0]), es[1..])
  }

  /** The abstract stack itself, as a system. */
  const STACK := System((a: Stack, l: Label) => StackEnabled(a, l),
                              (a: Stack, l: Label) => if StackEnabled(a, l) then StackNext(a, l) else a)

  function InitialStack(cap: nat): Stack {
    Stack(seq(cap, i => i), seq(cap, _ => OnStack))
  }

  lemma InitialChain(cap: nat)
    requires 0 < cap < NIL
    ensures IsChain(InitialShared(cap).next, 0, InitialStack(cap).free) && Distinct(InitialStack(cap).free)
  {
    var next, free := InitialShared(cap).next, InitialStack(cap).free;
    forall i | 0 <= i < |free|
      ensures free[i] < |next| && next[free[i]] == Following(free, i)
    {
      assert free[i] == i;
    }
  }

  lemma InitialShape(cap: nat, tids: set<Tid>)
    requires 0 < cap < NIL
    ensures Shape(Initial(cap, tids), InitialStack(cap))
  {
    InitialChain(cap);
    var free := InitialStack(cap).free;
    forall b | 0 <= b < cap ensures b in free {
      assert free[b] == b;
    }
  }

  lemma InitialBalance(cap: nat, tids: set<Tid>)
    ensures Balance(Initial(cap, tids), InitialStack(cap))
  {
    var m := Initial(cap, tids).threads;
    CountNone(m, HoldsToken);
    CountNone(m, Popped);
    CountNone(m, Returning);
    CountNone(m, Pushed);
    CountNone(m, Unposted);
  }

  /** Refinement over whole runs: the invariant ties the final states of pool and stack. */
  lemma {:induction false} RunRefines(s: State, a: Stack, es: seq<Event>)
    requires Inv(s, a) && Valid(COHERENT, s, es)
    ensures Valid(STACK, a, LabelsOf(s, es))
    ensures Inv(After(COHERENT, s, es), After(STACK, a, LabelsOf(s, es)))
    ensures After(COHERENT, s, es).sh.cap == s.sh.cap
    decreases |es|
  {
    if es != [] {
      StepRefines(s, a, es[0]);
      RunRefines(Next(s, es[0]), StackNext(a, LabelOf(s, es[0])), es[1..]);
      assert LabelsOf(s, es)[1..] == LabelsOf(Next(s, es[0]), es[1..]);
    }
  }

  /** Every event is a step of the stack, after which the links spell it again. */
  predicate Tracks(s: State, a: Stack, es: seq<Event>)
    requires Valid(POOL, s, es)
    decreases |es|
  {
    es == [] ||
    (&& StackEnabled(a, LabelOf(s, es[0])) && Spells(Next(s, es[0]), StackNext(a, LabelOf(s, es[0])))
     && Tracks(Next(s, es[0]), StackNext(a, LabelOf(s, es[0])), es[1..]))
  }

  /** Under every interleaving: the pool tracks the stack exactly if every pop installs a current link. */
  lemma {:induction false} RunIsSafeExactly(s: State, a: Stack, es: seq<Event>)
    requires Inv(s, a) && Valid(POOL, s, es)
    ensures Tracks(s, a, es) <==> Valid(COHERENT, s, es)
    decreases |es|
  {
    if es != [] {
      if PopsCurrentLink(s, es[0]) {
        StepRefines(s, a, es[0]);
        RunIsSafeExactly(Next(s, es[0]), StackNext(a, LabelOf(s, es[0])), es[1..]);
      } else {
        PopIsSafeExactly(s, a, es[0]);
      }
    }
  }

  /** The window is enough: inside it every pop installs a current link. */
  lemma {:induction false} WindowedIsCoherent(s: State, a: Stack, es: seq<Event>)
    requires Inv(s, a) && Valid(Windowed(GENERATIONS), s, es)
    ensures Valid(COHERENT, s, es) && After(COHERENT, s, es) == After(Windowed(GENERATIONS), s, es)
    decreases |es|
  {
    if es != [] {
      if s.threads[es[0].t].GetLinked? && Exchanges(s, es[0]) {
        NoAba(s, a, es[0]);
      }
      StepRefines(s, a, es[0]);
      WindowedIsCoherent(Next(s, es[0]), StackNext(a, LabelOf(s, es[0])), es[1..]);
    }
  }

  /** The threads inside the pool that have block `b` in hand. */
  function Hands(s: State, b: nat): set<Tid> {
    set t | t in s.threads && Carries(s.threads[t]) && s.threads[t].block == b
  }

  /** Every block has exactly one holder: the stack, one caller, or one thread inside the pool. */
  lemma OneHolder(s: State, a: Stack, b: nat)
    requires Inv(s, a) && b < s.sh.cap
    ensures Bit(b in a.free) + s.out[b] + |Hands(s, b)| == 1
  {
    forall t | t in Hands(s, b) ensures a.place[b] == With(t) {
      assert LocalOk(s, a, t, s.threads[t]);
    }
    if a.place[b].With? {
      assert Hands(s, b) == {a.place[b].t};
    } else {
      assert Hands(s, b) == {};
    }
  }

  /**
   The pool as its callers see it: an acyclic, terminated chain; one holder for each
   block; tokens and in-use counter in balance; and no thread on a path that only an
   empty or broken stack would open.
   */
  predicate Safe(s: State, a: Stack) {
    && Spells(s, a) && Distinct(a.free)
    && (forall b :: 0 <= b < s.sh.cap ==> Bit(b in a.free) + s.out[b] + |Hands(s, b)| == 1)
    && s.sh.sem + Count(s.threads, HoldsToken) + Count(s.threads, Pushed) + Count(s.threads, Unposted) == |a.free|
    && s.sh.inUse + s.sh.sem + Count(s.threads, HoldsToken) + Count(s.threads, Popped) + Count(s.threads, Unposted)
       == s.sh.cap
    && (forall t :: t in s.threads ==> !s.threads[t].GetRefund? && !s.threads[t].OutOfArena?)
  }

  lemma InvIsSafe(s: State, a: Stack)
    requires Inv(s, a)
    ensures Safe(s, a)
  {
    InUseIsExact(s, a);
    forall b | 0 <= b < s.sh.cap ensures Bit(b in a.free) + s.out[b] + |Hands(s, b)| == 1 {
      OneHolder(s, a, b);
    }
    forall t | t in s.threads ensures !s.threads[t].GetRefund? && !s.threads[t].OutOfArena? {
      assert LocalOk(s, a, t, s.threads[t]);
    }
  }

  /** Every state reachable from `lf_pool_init` by pops of current links is safe, for any number of threads. */
  lemma CoherentPoolIsSafe(cap: nat, tids: set<Tid>, es: seq<Event>) returns (a: Stack)
    requires 0 < cap < NIL && Valid(COHERENT, Initial(cap, tids), es)
    ensures a == After(STACK, InitialStack(cap), LabelsOf(Initial(cap, tids), es))
    ensures Safe(After(COHERENT, Initial(cap, tids), es), a)
    ensures After(COHERENT, Initial(cap, tids), es).sh.cap == cap
  {
    var s0 := Initial(cap, tids);
    InitialShape(cap, tids);
    InitialBalance(cap, tids);
    RunRefines(s0, InitialStack(cap), es);
    a := After(STACK, InitialStack(cap), LabelsOf(s0, es));
    InvIsSafe(After(COHERENT, s0, es), a);
  }

  /** In particular every state reachable while no pop comes 2^32 or more exchanges late. */
  lemma PoolIsSafe(cap: nat, tids: set<Tid>, es: seq<Event>) returns (a: Stack)
    requires 0 < cap < NIL && Valid(Windowed(GENERATIONS), Initial(cap, tids), es)
    ensures a == After(STACK, InitialStack(cap), LabelsOf(Initial(cap, tids), es))
    ensures Safe(After(Windowed(GENERATIONS), Initial(cap, tids), es), a)
    ensures After(Windowed(GENERATIONS), Initial(cap, tids), es).sh.cap == cap
  {
    InitialShape(cap, tids);
    InitialBalance(cap, tids);
    WindowedIsCoherent(Initial(cap, tids), InitialStack(cap), es);
    a := CoherentPoolIsSafe(cap, tids, es);
  }

  /** No thread inside the pool ever has to wait for another. */
  lemma NobodyWaitsInside(s: State, a: Stack, t: Tid)
    requires Inv(s, a) && t in s.threads && !s.threads[t].Idle?
    ensures Enabled(s, Event(t, Go))
  {
    assert LocalOk(s, a, t, s.threads[t]);
  }

  /** Lock-freedom: an exchange that fails for a reason means another exchange succeeded meanwhile. */
  lemma FailureMeansProgress(s: State, a: Stack, e: Event)
    requires Inv(s, a) && Enabled(s, e) && e.c == Go && !Exchanges(s, e)
    requires s.threads[e.t].GetLinked? || s.threads[e.t].PutLinked?
    ensures s.threads[e.t].stamp < s.cas
  {
    assert LocalOk(s, a, e.t, s.threads[e.t]);
  }
}
