/** A sequence laid out in a circular buffer, shared by both queues of the VPN. */
module Circular {
  import opened Bits

  /** The slot of position `i` in a buffer of `n` slots: `i % n`, by going round. */
  function Slot(i: nat, n: nat): (j: nat)
    requires n > 0
    ensures j < n
  {
    if i < n then i else Slot(i - n, n)
  }

  lemma {:induction false} SlotIsRemainder(i: nat, n: nat)
    requires n > 0
    ensures Slot(i, n) == i % n
  {
    if i < n {
      Remainder(i, n, 0, i);
    } else {
      SlotIsRemainder(i - n, n);
      var q, r := Division(i - n, n);
      MulStep(n, q);
      Remainder(i, n, q + 1, r);
    }
  }

  /** Stepping a slot index round the buffer follows the position. */
  lemma {:induction false} SlotAdds(i: nat, d: nat, n: nat)
    requires n > 0
    ensures Slot(Slot(i, n) + d, n) == Slot(i + d, n)
  {
    if i >= n {
      SlotAdds(i - n, d, n);
    }
  }

  /** Two positions less than a buffer apart never share a slot. */
  lemma {:induction false} SlotsDiffer(i: nat, j: nat, n: nat)
    requires i < j < i + n
    ensures Slot(i, n) != Slot(j, n)
  {
    if i >= n {
      SlotsDiffer(i - n, j - n, n);
    }
  }

  lemma SlotGoesRound(i: nat, n: nat)
    requires n > 0
    ensures Slot(i + n, n) == Slot(i, n)
  {
  }

  /** What is found at position `p`. */
  function At(slots: seq<nat>, p: nat): nat
    requires |slots| > 0
  {
    slots[Slot(p, |slots|)]
  }

  /** The items of `q` sit in consecutive slots, the first at position `base`; the other slots are null. */
  predicate Holds(slots: seq<nat>, base: nat, q: seq<nat>) {
    && 0 < |slots| && |q| <= |slots|
    && (forall p :: base <= p < base + |q| ==> At(slots, p) == q[p - base])
    && (forall p :: base + |q| <= p < base + |slots| ==> At(slots, p) == 0)
  }

  lemma HoldsAppend(slots: seq<nat>, base: nat, q: seq<nat>, v: nat)
    requires Holds(slots, base, q) && |q| < |slots|
    ensures Holds(slots[Slot(base + |q|, |slots|) := v], base, q + [v])
  {
    var end := base + |q|;
    var slots' := slots[Slot(end, |slots|) := v];
    forall p | base <= p < base + |slots|
      ensures At(slots', p) == if p == end then v else At(slots, p)
    {
      if p < end {
        SlotsDiffer(p, end, |slots|);
      } else if p > end {
        SlotsDiffer(end, p, |slots|);
      }
    }
  }

  lemma HoldsDrop(slots: seq<nat>, base: nat, q: seq<nat>)
    requires Holds(slots, base, q) && q != []
    ensures slots[Slot(base, |slots|)] == q[0]
    ensures Holds(slots[Slot(base, |slots|) := 0], base + 1, q[1..])
  {
    assert At(slots, base) == q[0];
    var slots' := slots[Slot(base, |slots|) := 0];
    forall p | base + 1 <= p < base + 1 + |slots|
      ensures At(slots', p) == if p == base + |slots| then 0 else At(slots, p)
    {
      if p < base + |slots| {
        SlotsDiffer(base, p, |slots|);
      } else {
        SlotGoesRound(base, |slots|);
      }
    }
  }
}
