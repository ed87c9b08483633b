/** The specification both queues refine: a bounded first-in first-out sequence. */
module Fifo {
  import opened Runs

  datatype Op = Nothing | Enqueue(v: nat) | Dequeue(v: nat)

  /** An item enters only while there is room and leaves only from the front. */
  predicate Allowed(q: seq<nat>, bound: nat, o: Op) {
    match o
    case Nothing => true
    case Enqueue(_) => |q| < bound
    case Dequeue(v) => q != [] && q[0] == v
  }

  function Effect(q: seq<nat>, o: Op): seq<nat> {
    match o
    case Nothing => q
    case Enqueue(v) => q + [v]
    case Dequeue(_) => if q == [] then q else q[1..]
  }

  function Bounded(bound: nat): System<seq<nat>, Op> {
    System((q: seq<nat>, o: Op) => Allowed(q, bound, o), (q: seq<nat>, o: Op) => Effect(q, o))
  }

  /** The items a sequence of operations takes out, in order. */
  function Taken(os: seq<Op>): seq<nat> {
    if os == [] then [] else (if os[0].Dequeue? then [os[0].v] else []) + Taken(os[1..])
  }

  /** The items a sequence of operations puts in, in order. */
  function Given(os: seq<Op>): seq<nat> {
    if os == [] then [] else (if os[0].Enqueue? then [os[0].v] else []) + Given(os[1..])
  }

  /** One operation moves the accounts on. */
  lemma OneMore(q: seq<nat>, o: Op, given: seq<nat>, taken: seq<nat>, rest: seq<nat>, bound: nat)
    requires Allowed(q, bound, o) && Effect(q, o) + given == taken + rest
    ensures q + ((if o.Enqueue? then [o.v] else []) + given) == ((if o.Dequeue? then [o.v] else []) + taken) + rest
  {
    match o
    case Nothing =>
      assert [] + given == given && [] + taken == taken;
    case Enqueue(v) =>
      assert q + ([v] + given) == q + [v] + given && [] + taken == taken;
    case Dequeue(v) =>
      assert [v] + taken + rest == [v] + (taken + rest) == [v] + q[1..] + given && [] + given == given;
  }

  /** What the specification means: items come out in the order they went in, and none is lost. */
  lemma {:induction false} InOrder(bound: nat, q: seq<nat>, os: seq<Op>)
    requires Valid(Bounded(bound), q, os)
    ensures q + Given(os) == Taken(os) + After(Bounded(bound), q, os)
    ensures |q| <= bound ==> |After(Bounded(bound), q, os)| <= bound
    decreases |os|
  {
    if os != [] {
      var q' := Effect(q, os[0]);
      InOrder(bound, q', os[1..]);
      OneMore(q, os[0], Given(os[1..]), Taken(os[1..]), After(Bounded(bound), q', os[1..]), bound);
    }
  }
}
