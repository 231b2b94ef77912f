/** Sequences of steps, for any step relation. */
module Paths {
  ghost predicate Path<X(!new), E(!new)>(step: (X, E, X) -> bool, xs: seq<X>, es: seq<E>) {
    |xs| == |es| + 1 && forall i {:trigger es[i]} :: 0 <= i < |es| ==> step(xs[i], es[i], xs[i + 1])
  }

  ghost predicate Leads<X(!new), E(!new)>(step: (X, E, X) -> bool, x: X, y: X) {
    exists xs: seq<X>, es: seq<E> :: Path(step, xs, es) && xs[0] == x && xs[|es|] == y
  }

  lemma LeadsNowhere<X(!new), E(!new)>(step: (X, E, X) -> bool, x: X)
    ensures Leads(step, x, x)
  {
    var xs: seq<X>, es: seq<E> := [x], [];
    assert Path(step, xs, es) && xs[0] == x && xs[|es|] == x;
  }

  lemma LeadsOn<X(!new), E(!new)>(step: (X, E, X) -> bool, x: X, y: X, z: X)
    requires Leads(step, x, y) && Leads(step, y, z)
    ensures Leads(step, x, z)
  {
    var xs: seq<X>, es: seq<E> :| Path(step, xs, es) && xs[0] == x && xs[|es|] == y;
    var ys: seq<X>, fs: seq<E> :| Path(step, ys, fs) && ys[0] == y && ys[|fs|] == z;
    PathOn(step, xs, es, ys, fs);
  }

  lemma PathOn<X(!new), E(!new)>(step: (X, E, X) -> bool, xs: seq<X>, es: seq<E>, ys: seq<X>, fs: seq<E>)
    requires Path(step, xs, es) && Path(step, ys, fs) && xs[|es|] == ys[0]
    ensures var zs, gs := xs + ys[1..], es + fs;
            Path(step, zs, gs) && zs[0] == xs[0] && zs[|gs|] == ys[|fs|]
  {
    var zs, gs := xs + ys[1..], es + fs;
    forall i | 0 <= i < |gs| ensures step(zs[i], gs[i], zs[i + 1]) {
      if i < |es| {
        assert step(xs[i], es[i], xs[i + 1]);
      } else {
        assert step(ys[i - |es|], fs[i - |es|], ys[i - |es| + 1]);
      }
    }
  }

  lemma LeadsOnce<X(!new), E(!new)>(step: (X, E, X) -> bool, x: X, e: E, y: X)
    requires step(x, e, y)
    ensures Leads(step, x, y)
  {
    var xs, es := [x, y], [e];
    assert Path(step, xs, es) && xs[0] == x && xs[|es|] == y;
  }

  /** What every step keeps holds along the path. */
  lemma {:induction false} Along<X(!new), E(!new)>(step: (X, E, X) -> bool, inv: X -> bool,
                                                   xs: seq<X>, es: seq<E>, j: nat)
    requires Path(step, xs, es) && inv(xs[0]) && j < |xs|
    requires forall x, e, y {:trigger step(x, e, y)} :: inv(x) && step(x, e, y) ==> inv(y)
    ensures inv(xs[j])
  {
    if j > 0 {
      Along(step, inv, xs, es, j - 1);
      assert step(xs[j - 1], es[j - 1], xs[j - 1 + 1]);
    }
  }

  lemma Append<X(!new), E(!new)>(step: (X, E, X) -> bool, xs: seq<X>, es: seq<E>, e: E, y: X)
    requires Path(step, xs, es) && step(xs[|es|], e, y)
    ensures Path(step, xs + [y], es + [e])
  {
    forall j | 0 <= j < |es + [e]| ensures step((xs + [y])[j], (es + [e])[j], (xs + [y])[j + 1]) {
      if j < |es| { assert step(xs[j], es[j], xs[j + 1]); }
    }
  }

  /** Two paths with an event between them, seen as one path of a weaker relation. */
  lemma Join<X(!new), E(!new)>(first: (X, E, X) -> bool, second: (X, E, X) -> bool, any: (X, E, X) -> bool,
                               a: seq<X>, d: seq<E>, m: E, b: seq<X>, e: seq<E>)
    requires Path(first, a, d) && Path(second, b, e) && any(a[|d|], m, b[0])
    requires forall x, v, y :: first(x, v, y) ==> any(x, v, y)
    requires forall x, v, y :: second(x, v, y) ==> any(x, v, y)
    ensures var xs, es := a + b, d + [m] + e;
            && Path(any, xs, es) && xs[0] == a[0] && xs[|d|] == a[|d|] && es[|d|] == m && xs[|es|] == b[|e|]
            && forall j {:trigger es[j]} :: |d| < j < |es| ==> second(xs[j], es[j], xs[j + 1])
  {
    var xs, es := a + b, d + [m] + e;
    forall j | 0 <= j < |es| ensures any(xs[j], es[j], xs[j + 1]) {
      if j < |d| {
        assert first(a[j], d[j], a[j + 1]);
      } else if j > |d| {
        assert second(b[j - |d| - 1], e[j - |d| - 1], b[j - |d|]);
      }
    }
    forall j | |d| < j < |es| ensures second(xs[j], es[j], xs[j + 1]) {
      assert second(b[j - |d| - 1], e[j - |d| - 1], b[j - |d|]);
    }
  }
}
