/** Reachability along a binary relation. */
module Graphs {

  ghost predicate IsPath<T>(step: (T, T) -> bool, p: seq<T>) {
    && p != []
    && forall i, j :: 0 <= i < |p| - 1 && j == i + 1 ==> step(p[i], p[j])
  }

  /** There is a path of zero or more steps from `u` to `v`. */
  ghost predicate Reach<T(!new)>(step: (T, T) -> bool, u: T, v: T) {
    exists p: seq<T> :: IsPath(step, p) && p[0] == u && p[|p| - 1] == v
  }

  lemma ReachRefl<T(!new)>(step: (T, T) -> bool, u: T)
    ensures Reach(step, u, u)
  {
    assert IsPath(step, [u]);
  }

  lemma ReachStep<T(!new)>(step: (T, T) -> bool, u: T, v: T)
    requires step(u, v)
    ensures Reach(step, u, v)
  {
    assert IsPath(step, [u, v]);
  }

  lemma ReachTrans<T(!new)>(step: (T, T) -> bool, u: T, v: T, w: T)
    requires Reach(step, u, v) && Reach(step, v, w)
    ensures Reach(step, u, w)
  {
    var p :| IsPath(step, p) && p[0] == u && p[|p| - 1] == v;
    var q :| IsPath(step, q) && q[0] == v && q[|q| - 1] == w;
    var r := p + q[1..];
    forall i, j | 0 <= i < |r| - 1 && j == i + 1
      ensures step(r[i], r[j])
    {
      if i >= |p| - 1 {
        assert r[i] == q[i - (|p| - 1)] && r[j] == q[j - (|p| - 1)];
      }
    }
    assert IsPath(step, r);
  }

  /** A set closed under the relation holds everything reachable from any of its elements. */
  lemma ReachClosed<T(!new)>(step: (T, T) -> bool, inside: T -> bool, u: T, v: T)
    requires forall x, y :: inside(x) && step(x, y) ==> inside(y)
    requires inside(u) && Reach(step, u, v)
    ensures inside(v)
  {
    var p :| IsPath(step, p) && p[0] == u && p[|p| - 1] == v;
    var i := 0;
    while i < |p| - 1
      invariant 0 <= i <= |p| - 1
      invariant inside(p[i])
    {
      assert step(p[i], p[i + 1]);
      i := i + 1;
    }
  }

  /** A path of at least one step ends with a step. */
  lemma ReachLast<T(!new)>(step: (T, T) -> bool, u: T, v: T) returns (w: T)
    requires Reach(step, u, v) && u != v
    ensures Reach(step, u, w) && step(w, v)
  {
    var p :| IsPath(step, p) && p[0] == u && p[|p| - 1] == v;
    assert |p| > 1;
    var q := p[..|p| - 1];
    w := q[|q| - 1];
    assert IsPath(step, q);
    assert step(p[|p| - 2], p[|p| - 1]);
  }

  /** A map between two graphs that sends steps to steps, or to nothing, sends paths to paths. */
  lemma ReachMap<S(!new), T(!new)>(step: (S, S) -> bool, other: (T, T) -> bool, f: S -> T, u: S, v: S)
    requires forall x, y :: step(x, y) ==> f(x) == f(y) || other(f(x), f(y))
    requires Reach(step, u, v)
    ensures Reach(other, f(u), f(v))
  {
    var p :| IsPath(step, p) && p[0] == u && p[|p| - 1] == v;
    ReachRefl(other, f(u));
    var i := 0;
    while i < |p| - 1
      invariant 0 <= i <= |p| - 1
      invariant Reach(other, f(u), f(p[i]))
    {
      assert step(p[i], p[i + 1]);
      if f(p[i]) != f(p[i + 1]) {
        ReachStep(other, f(p[i]), f(p[i + 1]));
        ReachTrans(other, f(u), f(p[i]), f(p[i + 1]));
      }
      i := i + 1;
    }
  }

  /** Walking the steps backwards. */
  lemma ReachBack<T(!new)>(step: (T, T) -> bool, back: (T, T) -> bool, u: T, v: T)
    requires forall x, y :: step(x, y) ==> back(y, x)
    requires Reach(step, u, v)
    ensures Reach(back, v, u)
  {
    var p :| IsPath(step, p) && p[0] == u && p[|p| - 1] == v;
    ReachRefl(back, u);
    var i := 0;
    while i < |p| - 1
      invariant 0 <= i <= |p| - 1
      invariant Reach(back, p[i], u)
    {
      assert step(p[i], p[i + 1]);
      ReachStep(back, p[i + 1], p[i]);
      ReachTrans(back, p[i + 1], p[i], u);
      i := i + 1;
    }
  }
}
