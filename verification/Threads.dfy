/**
 Finite families of threads and how many of them satisfy a predicate.

 Every concurrent structure of the VPN is modelled as a transition system whose
 state maps thread identifiers to local states. Token and block accounting needs
 to count the threads that are inside a given window of the code.
 */
module Threads {

  type Tid = nat

  /** The threads of `m` whose local state satisfies `p`. */
  function Where<L>(m: map<Tid, L>, p: L -> bool): set<Tid> {
    set t | t in m && p(m[t])
  }

  /** How many threads of `m` have a local state satisfying `p`. */
  function Count<L>(m: map<Tid, L>, p: L -> bool): nat {
    |Where(m, p)|
  }

  function Bit(b: bool): nat {
    if b then 1 else 0
  }

  lemma CardinalityWithout(s: set<Tid>, t: Tid)
    ensures |s| == |s - {t}| + Bit(t in s)
  {
    if t in s {
      assert s == (s - {t}) + {t};
    } else {
      assert s == s - {t};
    }
  }

  lemma OthersStay<L>(m: map<Tid, L>, t: Tid, l: L, p: L -> bool)
    ensures Where(m, p) - {t} == Where(m[t := l], p) - {t}
  {
    forall u | u != t ensures u in Where(m, p) <==> u in Where(m[t := l], p) {
    }
  }

  /** Moving one thread changes a count by at most one, in the obvious way. */
  lemma CountUpdate<L>(m: map<Tid, L>, t: Tid, l: L, p: L -> bool)
    requires t in m
    ensures Count(m[t := l], p) + Bit(p(m[t])) == Count(m, p) + Bit(p(l))
  {
    CardinalityWithout(Where(m, p), t);
    CardinalityWithout(Where(m[t := l], p), t);
    OthersStay(m, t, l, p);
  }

  /** A thread satisfying `p` makes the count positive. */
  lemma CountPositive<L>(m: map<Tid, L>, t: Tid, p: L -> bool)
    requires t in m && p(m[t])
    ensures Count(m, p) >= 1
  {
    assert t in Where(m, p);
    assert Where(m, p) != {};
  }

  /** A family in which nobody satisfies `p` has count zero. */
  lemma CountNone<L>(m: map<Tid, L>, p: L -> bool)
    requires forall t :: t in m ==> !p(m[t])
    ensures Count(m, p) == 0
  {
    assert Where(m, p) == {};
  }
}
