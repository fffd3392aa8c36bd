/** Runs of a step machine: one event after another, each a step of the machine's own. */
module Runs {

  ghost predicate Run<S(!new), E>(step: (S, E, S) -> bool, s: S, events: seq<E>, t: S)
    decreases |events|
  {
    if events == [] then s == t
    else exists mid :: step(s, events[0], mid) && Run(step, mid, events[1..], t)
  }

  lemma Before<S(!new), E>(step: (S, E, S) -> bool, s: S, e: E, mid: S, events: seq<E>, t: S)
    requires step(s, e, mid) && Run(step, mid, events, t)
    ensures Run(step, s, [e] + events, t)
  {
    assert ([e] + events)[1..] == events;
  }

  lemma {:induction false} Joined<S(!new), E>(step: (S, E, S) -> bool, s: S, a: seq<E>, t: S, b: seq<E>, u: S)
    requires Run(step, s, a, t) && Run(step, t, b, u)
    ensures Run(step, s, a + b, u)
    decreases |a|
  {
    if a == [] {
      assert a + b == b;
    } else {
      var mid :| step(s, a[0], mid) && Run(step, mid, a[1..], t);
      Joined(step, mid, a[1..], t, b, u);
      Before(step, s, a[0], mid, a[1..] + b, u);
      assert [a[0]] + (a[1..] + b) == a + b;
    }
  }
}
