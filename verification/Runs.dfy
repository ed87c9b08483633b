/**
 Runs of a transition system.

 A system says which events are enabled in a state and what state an event leads
 to. A run is a finite sequence of events, each enabled where it happens, so a
 statement about the state after every valid run is a statement about every
 reachable state under every interleaving.
 */
module Runs {

  datatype System<!S, !E> = System(enabled: (S, E) -> bool, next: (S, E) -> S)

  /** The events of `es` can happen one after the other, starting in `s`. */
  predicate Valid<S, E>(y: System<S, E>, s: S, es: seq<E>) {
    es == [] || (y.enabled(s, es[0]) && Valid(y, y.next(s, es[0]), es[1..]))
  }

  /** The state the events of `es` lead to. */
  function After<S, E>(y: System<S, E>, s: S, es: seq<E>): S {
    if es == [] then s else After(y, y.next(s, es[0]), es[1..])
  }

  /** What holds initially and is kept by every enabled event holds after every run. */
  lemma {:induction false} Invariant<S(!new), E(!new)>(y: System<S, E>, inv: S -> bool, s: S, es: seq<E>)
    requires inv(s) && Valid(y, s, es)
    requires forall x, e :: inv(x) && y.enabled(x, e) ==> inv(y.next(x, e))
    ensures inv(After(y, s, es))
  {
    if es != [] {
      Invariant(y, inv, y.next(s, es[0]), es[1..]);
    }
  }

  /** Two runs, the second starting where the first ends, make one run. */
  lemma {:induction false} Append<S, E>(y: System<S, E>, s: S, es: seq<E>, fs: seq<E>)
    requires Valid(y, s, es) && Valid(y, After(y, s, es), fs)
    ensures Valid(y, s, es + fs)
    ensures After(y, s, es + fs) == After(y, After(y, s, es), fs)
  {
    if es == [] {
      assert es + fs == fs;
    } else {
      Append(y, y.next(s, es[0]), es[1..], fs);
      assert (es + fs)[1..] == es[1..] + fs;
    }
  }

  /** Some run leads from `s` to `r`. */
  ghost predicate Reaches<S(!new), E(!new)>(y: System<S, E>, s: S, r: S) {
    exists es :: Valid(y, s, es) && After(y, s, es) == r
  }

  lemma ReachesItself<S(!new), E(!new)>(y: System<S, E>, s: S)
    ensures Reaches(y, s, s)
  {
    assert Valid(y, s, []) && After(y, s, []) == s;
  }

  lemma ReachesNext<S(!new), E(!new)>(y: System<S, E>, s: S, r: S, e: E)
    requires Reaches(y, s, r) && y.enabled(r, e)
    ensures Reaches(y, s, y.next(r, e))
  {
    var es :| Valid(y, s, es) && After(y, s, es) == r;
    var q := y.next(r, e);
    assert Valid(y, q, []) && After(y, q, []) == q;
    assert [e][1..] == [];
    assert Valid(y, r, [e]) && After(y, r, [e]) == q;
    Append(y, s, es, [e]);
  }
}
