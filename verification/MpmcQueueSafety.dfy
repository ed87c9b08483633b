/** The mutex-and-semaphores queue refines the bounded FIFO, and its tokens balance. */
module MpmcQueueSafety {
  import opened Common
  import opened Threads
  import opened Runs
  import opened Fifo
  import opened Circular
  import opened MpmcQueue

  /** The program points between lock and unlock. */
  predicate InSection(l: Local) {
    || l.PushStore? || l.PushAdvance? || l.PushCount? || l.PushUnlock?
    || l.PopFetch? || l.PopClear? || l.PopAdvance? || l.PopCount? || l.PopUnlock?
  }

  /** The buffer once the section that `l` is in has run to its end. */
  function Settle(b: Buffer, l: Local): Buffer
    requires b.size > 0
  {
    match l
    case PushAdvance => AddPending(AdvanceTail(b), 1)
    case PushCount => AddPending(b, 1)
    case PopClear(_) => AddPending(AdvanceHead(Clear(b)), -1)
    case PopAdvance(_) => AddPending(AdvanceHead(b), -1)
    case PopCount(_) => AddPending(b, -1)
    case _ => b
  }

  /** The buffer as the next thread to lock will find it. */
  function Settled(s: State): Buffer
    requires s.b.size > 0
  {
    if s.mutex.Some? && s.mutex.value in s.threads then Settle(s.b, s.threads[s.mutex.value]) else s.b
  }

  function Contents(s: State): seq<nat>
    requires |s.popped| <= |s.pushed|
  {
    s.pushed[|s.popped|..]
  }

  /** Buffer and history agree; in particular tail == (head + pending) mod size. */
  predicate Consistent(b: Buffer, pushed: seq<nat>, popped: seq<nat>) {
    && b.size > 0 && |b.slots| == b.size
    && popped <= pushed && Holds(b.slots, |popped|, pushed[|popped|..])
    && b.head == Slot(|popped|, b.size) && b.tail == Slot(|pushed|, b.size)
    && b.pending == |pushed| - |popped|
  }

  predicate Locking(s: State) {
    && (s.mutex.Some? ==> s.mutex.value in s.threads && InSection(s.threads[s.mutex.value]))
    && (forall t :: t in s.threads && InSection(s.threads[t]) ==> s.mutex == Some(t))
  }

  // The in-flight windows on either side of the buffer.
  predicate MayPush(l: Local) { l.PushToken? || l.PushStore? }
  predicate HasPopped(l: Local) { l.PopClear? || l.PopAdvance? || l.PopCount? || l.PopUnlock? || l.PopPost? }
  predicate MayPop(l: Local) { l.PopToken? || l.PopFetch? }
  predicate HasPushed(l: Local) { l.PushAdvance? || l.PushCount? || l.PushUnlock? || l.PushPost? }

  /** Every free slot and every item is a semaphore unit or a thread in flight. */
  predicate Balance(s: State) {
    && s.pushSem + Count(s.threads, MayPush) + Count(s.threads, HasPopped) + |s.pushed| - |s.popped| == s.b.size
    && s.popSem + Count(s.threads, MayPop) + Count(s.threads, HasPushed) == |s.pushed| - |s.popped|
  }

  predicate Inv(s: State) {
    s.b.size > 0 && Locking(s) && Consistent(Settled(s), s.pushed, s.popped) && Balance(s)
  }

  lemma InitialInv(size: nat, tids: set<Tid>)
    requires size > 0
    ensures Inv(Initial(size, tids))
  {
    var m := Initial(size, tids).threads;
    CountNone(m, MayPush);
    CountNone(m, HasPopped);
    CountNone(m, MayPop);
    CountNone(m, HasPushed);
  }

  lemma CountsAfter(m: map<Tid, Local>, t: Tid, l: Local)
    requires t in m
    ensures Count(m[t := l], MayPush) + Bit(MayPush(m[t])) == Count(m, MayPush) + Bit(MayPush(l))
    ensures Count(m[t := l], HasPopped) + Bit(HasPopped(m[t])) == Count(m, HasPopped) + Bit(HasPopped(l))
    ensures Count(m[t := l], MayPop) + Bit(MayPop(m[t])) == Count(m, MayPop) + Bit(MayPop(l))
    ensures Count(m[t := l], HasPushed) + Bit(HasPushed(m[t])) == Count(m, HasPushed) + Bit(HasPushed(l))
  {
    CountUpdate(m, t, l, MayPush);
    CountUpdate(m, t, l, HasPopped);
    CountUpdate(m, t, l, MayPop);
    CountUpdate(m, t, l, HasPushed);
  }

  /** A thread about to store finds room. */
  lemma TokenMeansRoom(s: State, t: Tid)
    requires Inv(s) && t in s.threads && MayPush(s.threads[t])
    ensures |s.pushed| - |s.popped| < s.b.size
  {
    CountPositive(s.threads, t, MayPush);
  }

  /** A thread about to fetch finds an item. */
  lemma TokenMeansItem(s: State, t: Tid)
    requires Inv(s) && t in s.threads && MayPop(s.threads[t])
    ensures |s.pushed| > |s.popped|
  {
    CountPositive(s.threads, t, MayPop);
  }

  /** What an event means to callers: the store enqueues and the fetch dequeues. */
  function OpOf(s: State, e: Event): Op
    requires Enabled(s, e)
  {
    var l := s.threads[e.t];
    if e.Go? && l.PushStore? then Enqueue(l.v)
    else if e.Go? && l.PopFetch? then Dequeue(Fetch(s.b))
    else Nothing
  }

  /** What a whole push does to a consistent buffer. */
  lemma PushConsistent(b: Buffer, pushed: seq<nat>, popped: seq<nat>, v: nat)
    requires Consistent(b, pushed, popped) && |pushed| - |popped| < b.size
    ensures Consistent(AddPending(AdvanceTail(Store(b, v)), 1), pushed + [v], popped)
    ensures (pushed + [v])[|popped|..] == pushed[|popped|..] + [v]
  {
    var q := pushed[|popped|..];
    HoldsAppend(b.slots, |popped|, q, v);
    assert (pushed + [v])[|popped|..] == q + [v];
    SlotAdds(|pushed|, 1, b.size);
  }

  /** What a whole pop does to a consistent buffer. */
  lemma PopConsistent(b: Buffer, pushed: seq<nat>, popped: seq<nat>)
    requires Consistent(b, pushed, popped) && |pushed| > |popped|
    ensures Fetch(b) == pushed[|popped|]
    ensures Consistent(AddPending(AdvanceHead(Clear(b)), -1), pushed, popped + [Fetch(b)])
    ensures pushed[|popped| + 1..] == pushed[|popped|..][1..]
  {
    var q := pushed[|popped|..];
    HoldsDrop(b.slots, |popped|, q);
    assert pushed[|popped| + 1..] == q[1..];
    assert popped + [Fetch(b)] == pushed[..|popped| + 1];
    SlotAdds(|popped|, 1, b.size);
  }

  lemma StoreKeeps(s: State, t: Tid)
    requires Inv(s) && t in s.threads && s.threads[t].PushStore?
    ensures Locking(GoNext(s, t)) && Consistent(Settled(GoNext(s, t)), GoNext(s, t).pushed, s.popped)
    ensures Contents(GoNext(s, t)) == Contents(s) + [s.threads[t].v]
  {
    TokenMeansRoom(s, t);
    PushConsistent(s.b, s.pushed, s.popped, s.threads[t].v);
  }

  lemma FetchKeeps(s: State, t: Tid)
    requires Inv(s) && t in s.threads && s.threads[t].PopFetch?
    ensures |Contents(s)| > 0 && Fetch(s.b) == Contents(s)[0]
    ensures Locking(GoNext(s, t)) && Consistent(Settled(GoNext(s, t)), s.pushed, GoNext(s, t).popped)
    ensures Contents(GoNext(s, t)) == Contents(s)[1..]
  {
    TokenMeansItem(s, t);
    PopConsistent(s.b, s.pushed, s.popped);
  }

  /** The events between lock and unlock other than the store and the fetch. */
  predicate Tidying(l: Local) {
    l.PushAdvance? || l.PushCount? || l.PopClear? || l.PopAdvance? || l.PopCount?
  }

  /** They only carry out what the settled buffer already shows. */
  lemma TidyingKeeps(s: State, t: Tid)
    requires s.b.size > 0 && Locking(s) && t in s.threads && Tidying(s.threads[t])
    ensures var s' := GoNext(s, t);
            Locking(s') && Settled(s') == Settled(s) && s'.pushed == s.pushed && s'.popped == s.popped
  {
    var s' := GoNext(s, t);
    assert s'.mutex == Some(t);
    assert Settle(s'.b, s'.threads[t]) == Settle(s.b, s.threads[t]);
  }

  /** Events outside the section, and those that open and close it, leave the buffer alone. */
  lemma OutsideKeeps(s: State, e: Event)
    requires s.b.size > 0 && Locking(s) && Enabled(s, e) && OpOf(s, e) == Nothing
    requires !(e.Go? && Tidying(s.threads[e.t]))
    ensures var s' := Next(s, e);
            Locking(s') && s'.b == s.b && s'.pushed == s.pushed && s'.popped == s.popped
    ensures Settled(Next(s, e)) == Settled(s)
  {
    var s' := Next(s, e);
    if e.Go? && (s.threads[e.t].PushToken? || s.threads[e.t].PopToken?) {
      assert s'.mutex == Some(e.t);
    } else if s.mutex.Some? && s.mutex.value != e.t {
      assert s'.threads[s.mutex.value] == s.threads[s.mutex.value];
    }
  }

  /** How the accounts move with one thread. */
  lemma Rebalance(s: State, s': State, t: Tid)
    requires Balance(s) && t in s.threads && t in s'.threads && s'.threads == s.threads[t := s'.threads[t]]
    requires s'.b.size == s.b.size
    requires var l, l' := s.threads[t], s'.threads[t];
             && s'.pushSem + Bit(MayPush(l')) + Bit(HasPopped(l')) + |s'.pushed| - |s'.popped|
                == s.pushSem + Bit(MayPush(l)) + Bit(HasPopped(l)) + |s.pushed| - |s.popped|
             && s'.popSem + Bit(MayPop(l')) + Bit(HasPushed(l')) - |s'.pushed| + |s'.popped|
                == s.popSem + Bit(MayPop(l)) + Bit(HasPushed(l)) - |s.pushed| + |s.popped|
    ensures Balance(s')
  {
    CountsAfter(s.threads, t, s'.threads[t]);
  }

  lemma PushKeepsBalance(s: State, t: Tid)
    requires s.b.size > 0 && Balance(s) && t in s.threads && (MayPush(s.threads[t]) || HasPushed(s.threads[t]))
    ensures Balance(GoNext(s, t))
  {
    Rebalance(s, GoNext(s, t), t);
  }

  lemma PopKeepsBalance(s: State, t: Tid)
    requires s.b.size > 0 && Balance(s) && t in s.threads && (MayPop(s.threads[t]) || HasPopped(s.threads[t]))
    ensures Balance(GoNext(s, t))
  {
    Rebalance(s, GoNext(s, t), t);
  }

  lemma KeepsBalance(s: State, e: Event)
    requires s.b.size > 0 && Balance(s) && Enabled(s, e)
    ensures Balance(Next(s, e))
  {
    if e.Go? {
      if MayPush(s.threads[e.t]) || HasPushed(s.threads[e.t]) {
        PushKeepsBalance(s, e.t);
      } else {
        PopKeepsBalance(s, e.t);
      }
    } else {
      var s' := Next(s, e);
      assert s'.threads == s.threads[e.t := s'.threads[e.t]];
      Rebalance(s, s', e.t);
    }
  }

  lemma StepRefines(s: State, e: Event)
    requires Inv(s) && Enabled(s, e)
    ensures Inv(Next(s, e)) && Next(s, e).b.size == s.b.size
    ensures Allowed(Contents(s), s.b.size, OpOf(s, e))
    ensures Contents(Next(s, e)) == Effect(Contents(s), OpOf(s, e))
  {
    KeepsBalance(s, e);
    match OpOf(s, e)
    case Enqueue(v) =>
      TokenMeansRoom(s, e.t);
      StoreKeeps(s, e.t);
    case Dequeue(_) => FetchKeeps(s, e.t);
    case Nothing =>
      if e.Go? && Tidying(s.threads[e.t]) {
        TidyingKeeps(s, e.t);
      } else {
        OutsideKeeps(s, e);
      }
  }

  function OpsOf(s: State, es: seq<Event>): seq<Op>
    requires Valid(QUEUE, s, es)
    decreases |es|
  {
    if es == [] then [] else [OpOf(s, es[0])] + OpsOf(Next(s, es[0]), es[1..])
  }

  /** Every run of the queue is a run of the bounded FIFO. */
  lemma {:induction false} RunRefines(s: State, es: seq<Event>)
    requires Inv(s) && Valid(QUEUE, s, es)
    ensures Inv(After(QUEUE, s, es)) && After(QUEUE, s, es).b.size == s.b.size
    ensures Valid(Bounded(s.b.size), Contents(s), OpsOf(s, es))
    ensures After(Bounded(s.b.size), Contents(s), OpsOf(s, es)) == Contents(After(QUEUE, s, es))
    decreases |es|
  {
    if es != [] {
      StepRefines(s, es[0]);
      RunRefines(Next(s, es[0]), es[1..]);
      assert OpsOf(s, es)[1..] == OpsOf(Next(s, es[0]), es[1..]);
    }
  }

  /**
   After any run from `queue_init`: the queue is the bounded FIFO of its stores and
   fetches, what came out is a prefix of what went in, tokens balance, and whenever
   the mutex is free the fields describe the contents exactly.
   */
  lemma QueueIsFifo(size: nat, tids: set<Tid>, es: seq<Event>)
    requires size > 0 && Valid(QUEUE, Initial(size, tids), es)
    ensures var s0 := Initial(size, tids);
            var s := After(QUEUE, s0, es);
            && s.popped <= s.pushed && Balance(s)
            && Valid(Bounded(size), [], OpsOf(s0, es))
            && Given(OpsOf(s0, es)) == Taken(OpsOf(s0, es)) + s.pushed[|s.popped|..]
            && s.pushed[|s.popped|..] == After(Bounded(size), [], OpsOf(s0, es))
            && (s.mutex.None? ==> Consistent(s.b, s.pushed, s.popped))
            && s.pushSem <= size && s.popSem <= size
  {
    var s0 := Initial(size, tids);
    InitialInv(size, tids);
    assert Contents(s0) == [];
    RunRefines(s0, es);
    InOrder(size, [], OpsOf(s0, es));
  }

  /** At every unlock the tail is `pending` slots past the head. */
  lemma TailFollowsHead(b: Buffer, pushed: seq<nat>, popped: seq<nat>)
    requires Consistent(b, pushed, popped)
    ensures b.pending >= 0 && b.tail == Slot(b.head + b.pending, b.size)
  {
    SlotAdds(|popped|, |pushed| - |popped|, b.size);
  }

  /** A refused push means every slot that holds no item is claimed by a thread in flight. */
  lemma RefusedMeansClaimed(s: State, t: Tid)
    requires Inv(s) && t in s.threads && s.threads[t].Idle?
    ensures Enabled(s, RefusePush(t)) <==>
            |Contents(s)| + Count(s.threads, MayPush) + Count(s.threads, HasPopped) == s.b.size
    ensures Enabled(s, RefusePop(t)) <==>
            |Contents(s)| == Count(s.threads, MayPop) + Count(s.threads, HasPushed)
    ensures forall v :: Enabled(s, Push(t, v)) <==> !Enabled(s, RefusePush(t))
    ensures Enabled(s, Pop(t)) <==> !Enabled(s, RefusePop(t))
  {
  }

  /** How many moves a thread has to make before its call returns. */
  function MovesLeft(l: Local): nat {
    match l
    case Idle => 0
    case PushToken(_) => 6
    case PushStore(_) => 5
    case PushAdvance => 4
    case PushCount => 3
    case PushUnlock => 2
    case PushPost => 1
    case PopToken => 7
    case PopFetch => 6
    case PopClear(_) => 5
    case PopAdvance(_) => 4
    case PopCount(_) => 3
    case PopUnlock(_) => 2
    case PopPost(_) => 1
  }

  /** Every move brings its own call nearer to its end and no other call further from it. */
  lemma EveryMoveCounts(s: State, t: Tid, u: Tid)
    requires s.b.size > 0 && Enabled(s, Go(t)) && u in s.threads
    ensures u in Next(s, Go(t)).threads
    ensures MovesLeft(Next(s, Go(t)).threads[u]) == MovesLeft(s.threads[u]) - Bit(u == t)
  {
  }

  /** The queue never locks up: while a thread is inside a call, some thread inside one can move. */
  lemma SomebodyCanMove(s: State, t: Tid) returns (u: Tid)
    requires Inv(s) && t in s.threads && !s.threads[t].Idle?
    ensures u in s.threads && !s.threads[u].Idle? && Enabled(s, Go(u))
  {
    u := if s.mutex.Some? then s.mutex.value else t;
  }
}
