/** Finite directed graphs given by successor sets; a node without an entry has no successors. */
module Graphs {

  function Succ<T(!new)>(g: map<T, set<T>>, n: T): set<T> {
    if n in g then g[n] else {}
  }

  /** Every node the graph mentions, as a key or as a target. */
  function Nodes<T(!new)>(g: map<T, set<T>>): set<T> {
    g.Keys + set k, v | k in g && v in g[k] :: v
  }

  ghost predicate IsPath<T(!new)>(g: map<T, set<T>>, p: seq<T>) {
    && |p| > 0
    && forall i, j | 0 <= i < j < |p| && j == i + 1 :: p[j] in Succ(g, p[i])
  }

  ghost predicate Reach<T(!new)>(g: map<T, set<T>>, a: T, b: T) {
    exists p :: IsPath(g, p) && p[0] == a && p[|p| - 1] == b
  }

  ghost predicate ClosedIn<T(!new)>(g: map<T, set<T>>, s: set<T>) {
    forall v | v in s :: Succ(g, v) <= s
  }

  lemma ReachSelf<T(!new)>(g: map<T, set<T>>, a: T)
    ensures Reach(g, a, a)
  {
    assert IsPath(g, [a]);
  }

  lemma ReachEdge<T(!new)>(g: map<T, set<T>>, a: T, b: T)
    requires b in Succ(g, a)
    ensures Reach(g, a, b)
  {
    assert IsPath(g, [a, b]) && [a, b][|[a, b]| - 1] == b;
  }

  lemma ReachTrans<T(!new)>(g: map<T, set<T>>, a: T, b: T, c: T)
    requires Reach(g, a, b) && Reach(g, b, c)
    ensures Reach(g, a, c)
  {
    var p :| IsPath(g, p) && p[0] == a && p[|p| - 1] == b;
    var q :| IsPath(g, q) && q[0] == b && q[|q| - 1] == c;
    var r := p + q[1..];
    forall i, j | 0 <= i < j < |r| && j == i + 1 ensures r[j] in Succ(g, r[i]) {
      if i >= |p| - 1 {
        assert r[i] == q[i - (|p| - 1)] && r[j] == q[j - (|p| - 1)];
      }
    }
    assert IsPath(g, r) && r[0] == a && r[|r| - 1] == c;
  }

  /** A path out of a closed set stays inside it. */
  lemma {:induction false} PathStays<T(!new)>(g: map<T, set<T>>, s: set<T>, p: seq<T>)
    requires ClosedIn(g, s) && IsPath(g, p) && p[0] in s
    ensures p[|p| - 1] in s
  {
    if |p| > 1 {
      assert p[1] in Succ(g, p[0]);
      PathStays(g, s, p[1..]);
    }
  }

  lemma ReachStays<T(!new)>(g: map<T, set<T>>, s: set<T>, a: T, b: T)
    requires ClosedIn(g, s) && a in s && Reach(g, a, b)
    ensures b in s
  {
    var p :| IsPath(g, p) && p[0] == a && p[|p| - 1] == b;
    PathStays(g, s, p);
  }
}
