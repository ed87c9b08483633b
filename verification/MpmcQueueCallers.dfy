/**
 The queue of queue.h as its callers see it: the item stored by a push is the argument of
 that call, and the value a pop returns is the item it fetched, each exactly once.

 An observer follows a run from outside. It notes the argument of each push when the call
 is made and the value of each pop when the call returns, and counts stores and fetches in
 between; it never looks at the buffer.
 */
module MpmcQueueCallers {
  import opened Common
  import opened Threads
  import opened Runs
  import opened MpmcQueue
  import opened MpmcQueueSafety

  /**
   `asked[t]` is the argument of the last push of `t`, `stored` the arguments in the order
   of the stores, `turn[t]` the number of fetches before the last one of `t`, and `got[k]`
   the value returned by the call that made fetch number `k`.
   */
  datatype Calls = Calls(asked: map<Tid, nat>, stored: seq<nat>, fetched: nat, turn: map<Tid, nat>, got: map<nat, nat>)

  function Observe(c: Calls, s: State, e: Event): Calls
    requires Enabled(s, e)
  {
    match e
    case Push(t, v) => c.(asked := c.asked[t := v])
    case Go(t) =>
      (match s.threads[t]
       case PushStore(_) => c.(stored := c.stored + [if t in c.asked then c.asked[t] else 0])
       case PopFetch => c.(fetched := c.fetched + 1, turn := c.turn[t := c.fetched])
       case PopPost(v) => if t in c.turn then c.(got := c.got[c.turn[t] := v]) else c
       case _ => c)
    case _ => c
  }

  function Observed(c: Calls, s: State, es: seq<Event>): Calls
    requires Valid(QUEUE, s, es)
    decreases |es|
  {
    if es == [] then c else Observed(Observe(c, s, es[0]), Next(s, es[0]), es[1..])
  }

  /** A thread carries its own argument in, and the item of its own fetch out. */
  predicate Carries(s: State, c: Calls, t: Tid)
    requires t in s.threads
  {
    var l := s.threads[t];
    && (MayPush(l) ==> t in c.asked && l.v == c.asked[t])
    && (HasPopped(l) ==> t in c.turn && c.turn[t] < |s.popped| && c.turn[t] !in c.got && l.v == s.popped[c.turn[t]])
  }

  /** Every thread does, and no two are on their way out with the same fetch. */
  predicate Carriers(s: State, c: Calls) {
    && (forall t :: t in s.threads ==> Carries(s, c, t))
    && (forall t, u :: t in s.threads && u in s.threads && t != u && HasPopped(s.threads[t]) && HasPopped(s.threads[u])
          ==> t in c.turn && u in c.turn && c.turn[t] != c.turn[u])
  }

  predicate Totals(s: State, c: Calls) {
    && c.stored == s.pushed && c.fetched == |s.popped|
    && (forall k :: k in c.got ==> k < |s.popped| && c.got[k] == s.popped[k])
    && |c.got| + Count(s.threads, HasPopped) == |s.popped|
  }

  predicate Honoured(s: State, c: Calls) {
    Carriers(s, c) && Totals(s, c)
  }

  lemma GotGrows(got: map<nat, nat>, k: nat, v: nat)
    requires k !in got
    ensures |got[k := v]| == |got| + 1
  {
    assert got[k := v].Keys == got.Keys + {k};
    assert |got.Keys| == |got| && |got[k := v].Keys| == |got[k := v]|;
  }

  /** What one thread may do without disturbing the others. */
  lemma OthersCarry(s: State, c: Calls, s': State, c': Calls, t: Tid)
    requires Carriers(s, c) && t in s.threads && t in s'.threads && s'.threads == s.threads[t := s'.threads[t]]
    requires s.popped <= s'.popped && Carries(s', c', t)
    requires c'.asked == c.asked || (t in c'.asked && c'.asked == c.asked[t := c'.asked[t]])
    requires c'.turn == c.turn || (t in c'.turn && c'.turn == c.turn[t := c'.turn[t]] && c'.turn[t] >= |s.popped|)
    requires c'.got == c.got || (HasPopped(s.threads[t]) && c'.got.Keys == c.got.Keys + {c.turn[t]})
    requires HasPopped(s'.threads[t]) ==> t in c'.turn && (HasPopped(s.threads[t]) || c'.turn[t] >= |s.popped|)
    ensures Carriers(s', c')
  {
    assert Carries(s, c, t);
    forall u | u in s'.threads ensures Carries(s', c', u) {
      assert Carries(s, c, u);
    }
  }

  lemma PushHonours(s: State, c: Calls, t: Tid, v: nat)
    requires Honoured(s, c) && Enabled(s, Push(t, v))
    ensures Honoured(Next(s, Push(t, v)), Observe(c, s, Push(t, v)))
  {
    var s' := Next(s, Push(t, v));
    CountUpdate(s.threads, t, PushToken(v), HasPopped);
    OthersCarry(s, c, s', Observe(c, s, Push(t, v)), t);
  }

  lemma StoreHonours(s: State, c: Calls, t: Tid)
    requires s.b.size > 0 && Honoured(s, c) && Enabled(s, Go(t)) && s.threads[t].PushStore?
    ensures Honoured(Next(s, Go(t)), Observe(c, s, Go(t)))
  {
    assert Carries(s, c, t);
    CountUpdate(s.threads, t, PushAdvance, HasPopped);
    OthersCarry(s, c, Next(s, Go(t)), Observe(c, s, Go(t)), t);
  }

  lemma FetchHonours(s: State, c: Calls, t: Tid)
    requires s.b.size > 0 && Honoured(s, c) && Enabled(s, Go(t)) && s.threads[t].PopFetch?
    ensures Honoured(Next(s, Go(t)), Observe(c, s, Go(t)))
  {
    CountUpdate(s.threads, t, PopClear(Fetch(s.b)), HasPopped);
    OthersCarry(s, c, Next(s, Go(t)), Observe(c, s, Go(t)), t);
  }

  lemma ReturnHonours(s: State, c: Calls, t: Tid)
    requires s.b.size > 0 && Honoured(s, c) && Enabled(s, Go(t)) && s.threads[t].PopPost?
    ensures Honoured(Next(s, Go(t)), Observe(c, s, Go(t)))
  {
    assert Carries(s, c, t);
    ReturnTotals(s, c, t);
    OthersCarry(s, c, Next(s, Go(t)), Observe(c, s, Go(t)), t);
  }

  lemma ReturnTotals(s: State, c: Calls, t: Tid)
    requires s.b.size > 0 && Totals(s, c) && Enabled(s, Go(t)) && s.threads[t].PopPost? && Carries(s, c, t)
    ensures Totals(Next(s, Go(t)), Observe(c, s, Go(t)))
  {
    CountUpdate(s.threads, t, Idle, HasPopped);
    GotGrows(c.got, c.turn[t], s.threads[t].v);
  }

  /** The events the observer does not note. */
  predicate Unnoted(s: State, e: Event)
    requires Enabled(s, e)
  {
    !e.Push? && !(e.Go? && (s.threads[e.t].PushStore? || s.threads[e.t].PopFetch? || s.threads[e.t].PopPost?))
  }

  /** They neither start nor end a call's way with its value, and leave the value alone. */
  lemma UnnotedCarries(s: State, c: Calls, e: Event)
    requires s.b.size > 0 && Enabled(s, e) && Unnoted(s, e) && Carries(s, c, e.t)
    ensures var s' := Next(s, e);
            && e.t in s'.threads && s'.threads == s.threads[e.t := s'.threads[e.t]]
            && s'.pushed == s.pushed && s'.popped == s.popped
            && HasPopped(s'.threads[e.t]) == HasPopped(s.threads[e.t]) && Carries(s', c, e.t)
    ensures Observe(c, s, e) == c
  {
  }

  lemma UnnotedHonours(s: State, c: Calls, e: Event)
    requires s.b.size > 0 && Honoured(s, c) && Enabled(s, e) && Unnoted(s, e)
    ensures Honoured(Next(s, e), Observe(c, s, e))
  {
    assert Carries(s, c, e.t);
    UnnotedCarries(s, c, e);
    CountUpdate(s.threads, e.t, Next(s, e).threads[e.t], HasPopped);
    OthersCarry(s, c, Next(s, e), c, e.t);
  }

  lemma StepHonours(s: State, c: Calls, e: Event)
    requires s.b.size > 0 && Honoured(s, c) && Enabled(s, e)
    ensures Honoured(Next(s, e), Observe(c, s, e))
  {
    if Unnoted(s, e) {
      UnnotedHonours(s, c, e);
    } else if e.Push? {
      PushHonours(s, c, e.t, e.v);
    } else if s.threads[e.t].PushStore? {
      StoreHonours(s, c, e.t);
    } else if s.threads[e.t].PopFetch? {
      FetchHonours(s, c, e.t);
    } else {
      ReturnHonours(s, c, e.t);
    }
  }

  lemma {:induction false} RunHonours(s: State, c: Calls, es: seq<Event>)
    requires Inv(s) && Honoured(s, c) && Valid(QUEUE, s, es)
    ensures Honoured(After(QUEUE, s, es), Observed(c, s, es))
    decreases |es|
  {
    if es != [] {
      StepHonours(s, c, es[0]);
      StepRefines(s, es[0]);
      RunHonours(Next(s, es[0]), Observe(c, s, es[0]), es[1..]);
    }
  }

  /**
   Over every run from `queue_init`: items are the arguments of the pushes, in the order of
   the stores; fetch number `k` returns item number `k` to its caller; and every fetch has
   returned or is still on its way out, once.
   */
  lemma CallersAreServed(size: nat, tids: set<Tid>, es: seq<Event>)
    requires size > 0 && Valid(QUEUE, Initial(size, tids), es)
    ensures var s := After(QUEUE, Initial(size, tids), es);
            var c := Observed(Calls(map[], [], 0, map[], map[]), Initial(size, tids), es);
            && s.pushed == c.stored
            && (forall k :: k in c.got ==> k < |c.stored| && c.got[k] == c.stored[k])
            && |c.got| + Count(s.threads, HasPopped) == c.fetched == |s.popped|
  {
    var s0 := Initial(size, tids);
    InitialInv(size, tids);
    CountNone(s0.threads, HasPopped);
    RunHonours(s0, Calls(map[], [], 0, map[], map[]), es);
    RunRefines(s0, es);
  }
}
