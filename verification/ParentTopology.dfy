/** The component topology: every component or facet names a parent, which is a system of the catalog or
    another component. The cycle walk, and the walk over all descendants that has no guard of its own. */
module ParentTopology {
  import opened Ordering

  /** Parents by key. A parent may be a system of the catalog, another key, or neither. */
  type Parents = map<string, string>

  // ----- the parent chain -----

  /** The chain from `key` stays inside the topology for n steps: each parent met is a key and not a system. */
  ghost predicate Inside(parents: Parents, catalog: set<string>, key: string, n: nat)
    decreases n
  {
    key in parents && (n == 0 || (parents[key] !in catalog && Inside(parents, catalog, parents[key], n - 1)))
  }

  /** The chain never leaves the topology. */
  ghost predicate NeverLeaves(parents: Parents, catalog: set<string>, key: string) {
    forall n: nat :: Inside(parents, catalog, key, n)
  }

  function Ancestor(parents: Parents, key: string, n: nat): string
    decreases n
  {
    if n == 0 || key !in parents then key else Ancestor(parents, parents[key], n - 1)
  }

  lemma {:induction false} InsideShift(parents: Parents, catalog: set<string>, key: string, m: nat, n: nat)
    ensures Inside(parents, catalog, key, m + n) <==>
            Inside(parents, catalog, key, m) && Inside(parents, catalog, Ancestor(parents, key, m), n)
    decreases m
  {
    if m > 0 && key in parents && parents[key] !in catalog {
      InsideShift(parents, catalog, parents[key], m - 1, n);
    } else if m == 0 && !Inside(parents, catalog, key, 0) {
      assert !Inside(parents, catalog, key, n);
    }
  }

  lemma {:induction false} AncestorNext(parents: Parents, catalog: set<string>, key: string, n: nat)
    requires Inside(parents, catalog, key, n)
    ensures Ancestor(parents, key, n) in parents
    ensures Ancestor(parents, key, n + 1) == parents[Ancestor(parents, key, n)]
    decreases n
  {
    if n > 0 { AncestorNext(parents, catalog, parents[key], n - 1); }
  }

  lemma {:induction false} AncestorAdd(parents: Parents, catalog: set<string>, key: string, m: nat, n: nat)
    requires Inside(parents, catalog, key, m)
    ensures Ancestor(parents, key, m + n) == Ancestor(parents, Ancestor(parents, key, m), n)
    decreases m
  {
    if m > 0 { AncestorAdd(parents, catalog, parents[key], m - 1, n); }
  }

  /** A chain that returns to a key it has met stays inside for ever. */
  lemma {:induction false} ReturnsForever(parents: Parents, catalog: set<string>, x: string, period: nat, n: nat)
    requires period > 0 && Inside(parents, catalog, x, period) && Ancestor(parents, x, period) == x
    ensures Inside(parents, catalog, x, n)
    decreases n
  {
    if n <= period {
      InsideShift(parents, catalog, x, n, period - n);
    } else {
      ReturnsForever(parents, catalog, x, period, n - period);
      InsideShift(parents, catalog, x, period, n - period);
    }
  }

  datatype Walk = Rooted | Cycle | Unresolved(node: string, parent: string)

  /** The walk from one key: terminates on every topology, and reports a cycle exactly when the chain never leaves it. */
  method WalkParents(key: string, parents: Parents, catalog: set<string>) returns (r: Walk)
    requires key in parents
    ensures r.Cycle? <==> NeverLeaves(parents, catalog, key)
    ensures r.Rooted? ==> exists n: nat :: Inside(parents, catalog, key, n) && EndsAt(parents, key, n) in catalog
    ensures r.Unresolved? ==>
      && r.node in parents && parents[r.node] == r.parent && r.parent !in catalog && r.parent !in parents
      && exists n: nat :: Inside(parents, catalog, key, n) && Ancestor(parents, key, n) == r.node
  {
    var seen: set<string> := {};
    var current := key;
    ghost var n: nat := 0;
    while current in parents
      invariant current == Ancestor(parents, key, n) && current in parents && Inside(parents, catalog, key, n)
      invariant seen <= parents.Keys && forall x | x in seen :: Met(parents, key, n, x)
      decreases parents.Keys - seen
    {
      if current in seen {
        CycleClosed(parents, catalog, key, n);
        return Cycle;
      }
      seen := seen + {current};
      var parent := parents[current];
      InsideShift(parents, catalog, key, n, 1);
      if parent in catalog {
        LeavesAt(parents, catalog, key, n + 1);
        assert EndsAt(parents, key, n) == parent;
        return Rooted;
      }
      if parent !in parents {
        LeavesAt(parents, catalog, key, n + 1);
        return Unresolved(current, parent);
      }
      AncestorNext(parents, catalog, key, n);
      MetGrows(parents, key, n, seen);
      current := parent;
      n := n + 1;
    }
    assert false;
    r := Rooted;
  }

  /** The parent that follows the n-th node of the chain. */
  ghost function EndsAt(parents: Parents, key: string, n: nat): string {
    var x := Ancestor(parents, key, n);
    if x in parents then parents[x] else x
  }

  /** x was met before step n. */
  ghost predicate Met(parents: Parents, key: string, n: nat, x: string) {
    exists i: nat :: i < n && Ancestor(parents, key, i) == x
  }

  lemma MetGrows(parents: Parents, key: string, n: nat, seen: set<string>)
    requires forall x | x in seen :: x == Ancestor(parents, key, n) || Met(parents, key, n, x)
    ensures forall x | x in seen :: Met(parents, key, n + 1, x)
  {
    forall x | x in seen ensures Met(parents, key, n + 1, x) {
      if Met(parents, key, n, x) {
        var i: nat :| i < n && Ancestor(parents, key, i) == x;
        assert i < n + 1;
      } else {
        assert n < n + 1;
      }
    }
  }

  lemma CycleClosed(parents: Parents, catalog: set<string>, key: string, n: nat)
    requires Inside(parents, catalog, key, n) && Met(parents, key, n, Ancestor(parents, key, n))
    ensures NeverLeaves(parents, catalog, key)
  {
    var i: nat :| i < n && Ancestor(parents, key, i) == Ancestor(parents, key, n);
    var x := Ancestor(parents, key, i);
    InsideShift(parents, catalog, key, i, n - i);
    AncestorAdd(parents, catalog, key, i, n - i);
    forall m: nat ensures Inside(parents, catalog, key, m) {
      ReturnsForever(parents, catalog, x, n - i, m);
      InsideShift(parents, catalog, key, i, m);
      InsideShift(parents, catalog, key, m, i);
    }
  }

  lemma LeavesAt(parents: Parents, catalog: set<string>, key: string, n: nat)
    requires !Inside(parents, catalog, key, n)
    ensures !NeverLeaves(parents, catalog, key)
  {
  }

  // ----- all descendants of a node -----

  /** The keys in dictionary order. */
  ghost predicate Lists(keys: seq<string>, parents: Parents) {
    NoDuplicates(keys) && forall k :: k in keys <==> k in parents
  }

  lemma KeysListed(keys: seq<string>, parents: Parents)
    requires Lists(keys, parents)
    ensures forall k | k in keys :: k in parents
  {
  }

  function ChildrenOf(keys: seq<string>, parents: Parents, p: string): seq<string> {
    if keys == [] then []
    else
      var last := keys[|keys| - 1];
      ChildrenOf(keys[..|keys| - 1], parents, p) + if last in parents && parents[last] == p then [last] else []
  }

  /** The loop that fills `children_by_topology`; a missing entry stands for no children. */
  method BuildChildren(keys: seq<string>, parents: Parents) returns (children: map<string, seq<string>>)
    requires forall k | k in keys :: k in parents
    ensures forall p :: (if p in children then children[p] else []) == ChildrenOf(keys, parents, p)
  {
    hide ChildrenOf;
    children := map[];
    NoChildren(parents);
    assert keys[..0] == [];
    for i := 0 to |keys|
      invariant forall p :: Listed(children, p) == ChildrenOf(keys[..i], parents, p)
    {
      var key, before := keys[i], children;
      var parent := parents[key];
      children := before[parent := Listed(before, parent) + [key]];
      forall p ensures Listed(children, p) == ChildrenOf(keys[..i + 1], parents, p) {
        ChildrenNext(keys, parents, i, p);
      }
    }
    assert keys[..|keys|] == keys;
    forall p ensures (if p in children then children[p] else []) == ChildrenOf(keys, parents, p) {
      assert Listed(children, p) == ChildrenOf(keys, parents, p);
    }
  }

  function Listed(children: map<string, seq<string>>, p: string): seq<string> { if p in children then children[p] else [] }

  lemma NoChildren(parents: Parents)
    ensures forall p :: ChildrenOf([], parents, p) == []
  {
  }

  /** One more key: it joins its parent's children and no others. */
  lemma ChildrenNext(keys: seq<string>, parents: Parents, i: nat, p: string)
    requires i < |keys| && keys[i] in parents
    ensures ChildrenOf(keys[..i + 1], parents, p) == ChildrenOf(keys[..i], parents, p) + if parents[keys[i]] == p then [keys[i]] else []
  {
    assert keys[..i + 1][..i] == keys[..i];
  }

  lemma {:induction false} ChildrenMember(keys: seq<string>, parents: Parents, p: string, k: string)
    ensures k in ChildrenOf(keys, parents, p) <==> k in keys && k in parents && parents[k] == p
  {
    if keys != [] {
      ChildrenMember(keys[..|keys| - 1], parents, p, k);
      assert keys == keys[..|keys| - 1] + [keys[|keys| - 1]];
    }
  }

  lemma {:induction false} ChildrenDistinct(keys: seq<string>, parents: Parents, p: string)
    requires NoDuplicates(keys)
    ensures NoDuplicates(ChildrenOf(keys, parents, p))
  {
    if keys != [] {
      ChildrenDistinct(keys[..|keys| - 1], parents, p);
      ChildrenMember(keys[..|keys| - 1], parents, p, keys[|keys| - 1]);
    }
  }

  /** d is a proper descendant of node. */
  ghost predicate Descends(parents: Parents, node: string, d: string) {
    d in parents && exists n: nat :: n >= 1 && Ancestor(parents, d, n) == node
  }

  lemma DescendsStep(parents: Parents, node: string, d: string)
    requires d in parents && (parents[d] == node || Descends(parents, node, parents[d]))
    ensures Descends(parents, node, d)
  {
    if parents[d] == node {
      assert Ancestor(parents, d, 1) == node;
    } else {
      var n: nat :| n >= 1 && Ancestor(parents, parents[d], n) == node;
      assert Ancestor(parents, d, n + 1) == node;
    }
  }

  datatype Visit = Visit(stack: seq<string>, result: seq<string>)

  /** One iteration of the descendants loop. */
  function Step(keys: seq<string>, parents: Parents, v: Visit): Visit
    requires v.stack != []
  {
    var child := v.stack[|v.stack| - 1];
    Visit(v.stack[..|v.stack| - 1] + ChildrenOf(keys, parents, child), v.result + [child])
  }

  function Run(keys: seq<string>, parents: Parents, v: Visit, n: nat): Visit
    decreases n
  {
    if n == 0 || v.stack == [] then v else Run(keys, parents, Step(keys, parents, v), n - 1)
  }

  function Start(keys: seq<string>, parents: Parents, node: string): Visit {
    Visit(ChildrenOf(keys, parents, node), [])
  }

  lemma {:induction false} RunNext(keys: seq<string>, parents: Parents, v: Visit, n: nat)
    requires Run(keys, parents, v, n).stack != []
    ensures Run(keys, parents, v, n + 1) == Step(keys, parents, Run(keys, parents, v, n))
    decreases n
  {
    if n > 0 && v.stack != [] { RunNext(keys, parents, Step(keys, parents, v), n - 1); }
  }

  /** Visited and waiting nodes are different descendants, and every child of a visited node is among them. */
  ghost predicate VisitOk(parents: Parents, node: string, v: Visit) {
    && NoDuplicates(v.result + v.stack)
    && (forall x | x in v.result + v.stack :: x in parents && (parents[x] == node || parents[x] in v.result) && Descends(parents, node, x))
    && (forall k | k in parents && (parents[k] == node || parents[k] in v.result) :: k in v.result || k in v.stack)
  }

  lemma StartOk(keys: seq<string>, parents: Parents, node: string)
    requires Lists(keys, parents)
    ensures VisitOk(parents, node, Start(keys, parents, node))
  {
    var v := Start(keys, parents, node);
    assert v.result + v.stack == v.stack;
    ChildrenDistinct(keys, parents, node);
    forall x ensures x in v.stack <==> x in parents && parents[x] == node {
      ChildrenMember(keys, parents, node, x);
    }
    forall x | x in v.stack ensures Descends(parents, node, x) {
      DescendsStep(parents, node, x);
    }
  }

  lemma StepOk(keys: seq<string>, parents: Parents, node: string, v: Visit)
    requires Lists(keys, parents) && VisitOk(parents, node, v) && v.stack != [] && !Descends(parents, node, node)
    ensures VisitOk(parents, node, Step(keys, parents, v))
  {
    hide Descends, Lists;
    var n := |v.stack| - 1;
    var child, rest := v.stack[n], v.stack[..n];
    var kids := ChildrenOf(keys, parents, child);
    var v' := Step(keys, parents, v);
    assert child in v.result + v.stack && child != node;
    assert v.stack == rest + [child];
    ChildNotVisited(v.result, rest, child);
    assert Lists(keys, parents);
    KidsFacts(keys, parents, child);
    forall k | k in kids ensures k !in v.result + v.stack {}
    JoinDistinct(v.result + [child] + rest, kids);
    assert v'.result + v'.stack == v.result + [child] + rest + kids;
    forall x | x in v'.result + v'.stack
      ensures x in parents && (parents[x] == node || parents[x] in v'.result) && Descends(parents, node, x)
    {
      if x in kids {
        DescendsStep(parents, node, x);
      } else {
        assert x in v.result + v.stack;
      }
    }
  }

  lemma ChildNotVisited(result: seq<string>, rest: seq<string>, child: string)
    requires NoDuplicates(result + (rest + [child]))
    ensures child !in result && NoDuplicates(result + [child] + rest)
  {
    var all := result + (rest + [child]);
    assert all[|all| - 1] == child;
    forall i | 0 <= i < |result| ensures result[i] != child { assert all[i] == result[i]; }
    forall i | 0 <= i < |rest| ensures rest[i] != child { assert all[|result| + i] == rest[i]; }
    var moved := result + [child] + rest;
    forall i, j | 0 <= i < j < |moved| ensures moved[i] != moved[j] {
      if i != |result| && j != |result| {
        assert moved[i] == all[if i < |result| then i else i - 1];
        assert moved[j] == all[if j < |result| then j else j - 1];
      } else if i == |result| {
        assert moved[j] == rest[j - |result| - 1];
      }
    }
  }

  lemma KidsFacts(keys: seq<string>, parents: Parents, p: string)
    requires Lists(keys, parents)
    ensures NoDuplicates(ChildrenOf(keys, parents, p))
    ensures forall k :: k in ChildrenOf(keys, parents, p) <==> k in parents && parents[k] == p
  {
    ChildrenDistinct(keys, parents, p);
    forall k ensures k in ChildrenOf(keys, parents, p) <==> k in parents && parents[k] == p {
      ChildrenMember(keys, parents, p, k);
    }
  }

  lemma JoinDistinct(a: seq<string>, b: seq<string>)
    requires NoDuplicates(a) && NoDuplicates(b) && forall x | x in b :: x !in a
    ensures NoDuplicates(a + b)
  {
    forall i, j | 0 <= i < j < |a + b| ensures (a + b)[i] != (a + b)[j] {
      if i < |a| <= j { assert (a + b)[j] in b && (a + b)[i] in a; }
    }
  }

  lemma {:induction false} AllFound(parents: Parents, node: string, result: seq<string>, d: string, n: nat)
    requires VisitOk(parents, node, Visit([], result)) && n >= 1 && d in parents && Ancestor(parents, d, n) == node
    ensures d in result
    decreases n
  {
    if n > 1 && parents[d] != node {
      if parents[d] in parents {
        AllFound(parents, node, result, parents[d], n - 1);
      }
    }
  }

  lemma DistinctSize(a: seq<string>, s: set<string>)
    requires NoDuplicates(a) && forall x | x in a :: x in s
    ensures |a| <= |s|
  {
    if a != [] {
      var n := |a| - 1;
      DistinctSize(a[..n], s - {a[n]});
    }
  }

  lemma ResultSize(parents: Parents, node: string, v: Visit)
    requires VisitOk(parents, node, v)
    ensures |v.result| + |v.stack| <= |parents|
  {
    DistinctSize(v.result + v.stack, parents.Keys);
  }

  /** `descendants`, on a node that is not its own descendant: every proper descendant, each once. */
  method Descendants(node: string, keys: seq<string>, parents: Parents) returns (result: seq<string>, ghost steps: nat)
    requires Lists(keys, parents) && !Descends(parents, node, node)
    ensures NoDuplicates(result) && forall d :: d in result <==> Descends(parents, node, d)
    ensures Run(keys, parents, Start(keys, parents, node), steps) == Visit([], result)
  {
    hide VisitOk, Descends, Lists, ChildrenOf, NoDuplicates;
    KeysListed(keys, parents);
    var children := BuildChildren(keys, parents);
    result := [];
    var stack := if node in children then children[node] else [];
    ghost var start := Start(keys, parents, node);
    steps := 0;
    StartOk(keys, parents, node);
    while stack != []
      invariant VisitOk(parents, node, Visit(stack, result))
      invariant Run(keys, parents, start, steps) == Visit(stack, result)
      decreases |parents| - |result|
    {
      StepOk(keys, parents, node, Visit(stack, result));
      RunNext(keys, parents, start, steps);
      ResultSize(parents, node, Visit(stack, result));
      var child := stack[|stack| - 1];
      stack := stack[..|stack| - 1];
      result := result + [child];
      stack := stack + if child in children then children[child] else [];
      steps := steps + 1;
    }
    WalkComplete(parents, node, result);
  }

  lemma WalkComplete(parents: Parents, node: string, result: seq<string>)
    requires VisitOk(parents, node, Visit([], result))
    ensures NoDuplicates(result) && forall d :: d in result <==> Descends(parents, node, d)
  {
    assert result + [] == result;
    forall d | Descends(parents, node, d) ensures d in result {
      var n: nat :| n >= 1 && Ancestor(parents, d, n) == node;
      AllFound(parents, node, result, d, n);
    }
  }

  /** No reported cycle is enough: with systems and topology keys disjoint, a node that is its own descendant is on a
      chain that never leaves the topology. */
  lemma OwnDescendantIsCycle(parents: Parents, catalog: set<string>, node: string)
    requires catalog !! parents.Keys && Descends(parents, node, node)
    ensures NeverLeaves(parents, catalog, node)
  {
    var n: nat :| n >= 1 && Ancestor(parents, node, n) == node;
    ChainInside(parents, catalog, node, n);
    forall m: nat ensures Inside(parents, catalog, node, m) {
      ReturnsForever(parents, catalog, node, n, m);
    }
  }

  lemma {:induction false} ChainInside(parents: Parents, catalog: set<string>, key: string, n: nat)
    requires catalog !! parents.Keys && key in parents && Ancestor(parents, key, n) in parents
    ensures Inside(parents, catalog, key, n)
    decreases n
  {
    if n > 0 {
      if parents[key] in parents {
        ChainInside(parents, catalog, parents[key], n - 1);
      }
    }
  }

  // ----- and otherwise the walk never ends -----

  /** x leads down to node. */
  ghost predicate Above(parents: Parents, x: string, node: string) {
    x in parents && (x == node || Descends(parents, x, node))
  }

  lemma NextDown(keys: seq<string>, parents: Parents, x: string, node: string)
    requires Lists(keys, parents) && x in parents && Descends(parents, x, node)
    ensures exists y :: y in ChildrenOf(keys, parents, x) && Above(parents, y, node)
  {
    var n: nat :| n >= 1 && Ancestor(parents, node, n) == x;
    var y := ChildTowards(parents, x, node, n);
    ChildrenMember(keys, parents, x, y);
  }

  lemma {:induction false} ChildTowards(parents: Parents, x: string, node: string, n: nat) returns (y: string)
    requires x in parents && node in parents && n >= 1 && Ancestor(parents, node, n) == x
    ensures y in parents && parents[y] == x && Above(parents, y, node)
    decreases n
  {
    if parents[node] == x {
      y := node;
    } else {
      assert n > 1;
      y := ChildTowards(parents, x, parents[node], n - 1);
      DescendsVia(parents, y, node);
    }
  }

  lemma DescendsVia(parents: Parents, y: string, node: string)
    requires node in parents && Above(parents, y, parents[node])
    ensures Above(parents, y, node)
  {
    DescendsStep(parents, y, node);
  }

  ghost predicate HasAbove(parents: Parents, stack: seq<string>, node: string) {
    exists x :: x in stack && Above(parents, x, node)
  }

  lemma StepKeepsAbove(keys: seq<string>, parents: Parents, node: string, v: Visit)
    requires Lists(keys, parents) && Descends(parents, node, node) && v.stack != [] && HasAbove(parents, v.stack, node)
    ensures HasAbove(parents, Step(keys, parents, v).stack, node)
  {
    hide Descends, Lists, ChildrenOf;
    var x :| x in v.stack && Above(parents, x, node);
    var v', top := Step(keys, parents, v), v.stack[|v.stack| - 1];
    if x == top {
      NextDown(keys, parents, x, node);
      var y :| y in ChildrenOf(keys, parents, x) && Above(parents, y, node);
      assert y in v'.stack;
    } else {
      assert v.stack == v.stack[..|v.stack| - 1] + [top];
      assert x in v'.stack;
    }
  }

  lemma {:induction false} NeverEmpty(keys: seq<string>, parents: Parents, node: string, v: Visit, n: nat)
    requires Lists(keys, parents) && Descends(parents, node, node) && HasAbove(parents, v.stack, node)
    ensures Run(keys, parents, v, n).stack != []
    decreases n
  {
    hide Descends, Lists, Above, Step;
    if n > 0 {
      assert v.stack != [];
      StepKeepsAbove(keys, parents, node, v);
      NeverEmpty(keys, parents, node, Step(keys, parents, v), n - 1);
    }
  }

  /** The descendants walk from a node ends exactly when the node is not its own descendant. */
  lemma WalkEndsIff(keys: seq<string>, parents: Parents, node: string)
    requires Lists(keys, parents)
    ensures (exists n: nat :: Run(keys, parents, Start(keys, parents, node), n).stack == []) <==> !Descends(parents, node, node)
  {
    if Descends(parents, node, node) {
      NextDown(keys, parents, node, node);
      forall n: nat ensures Run(keys, parents, Start(keys, parents, node), n).stack != [] {
        NeverEmpty(keys, parents, node, Start(keys, parents, node), n);
      }
    } else {
      StartOk(keys, parents, node);
      var n := WalkEnds(keys, parents, node, Start(keys, parents, node));
      assert Run(keys, parents, Start(keys, parents, node), n).stack == [];
    }
  }

  lemma {:induction false} WalkEnds(keys: seq<string>, parents: Parents, node: string, v: Visit) returns (n: nat)
    requires Lists(keys, parents) && !Descends(parents, node, node) && VisitOk(parents, node, v)
    ensures Run(keys, parents, v, n).stack == []
    decreases |parents| - |v.result|
  {
    hide VisitOk, Descends, Lists, ChildrenOf;
    if v.stack == [] {
      n := 0;
    } else {
      ResultSize(parents, node, v);
      StepOk(keys, parents, node, v);
      var m := WalkEnds(keys, parents, node, Step(keys, parents, v));
      n := m + 1;
    }
  }

  /** Two components that are each other's parent. */
  const MUTUAL: Parents := map["a" := "b", "b" := "a"]

  /** The cycle walk reports both of them, and the descendants walk from either never ends. */
  lemma MutualNeverEnds(catalog: set<string>, node: string, n: nat)
    requires "a" !in catalog && "b" !in catalog && node in MUTUAL
    ensures NeverLeaves(MUTUAL, catalog, node)
    ensures Run(["a", "b"], MUTUAL, Start(["a", "b"], MUTUAL, node), n).stack != []
  {
    var other := MUTUAL[node];
    assert Ancestor(MUTUAL, node, 2) == Ancestor(MUTUAL, other, 1) == node by {
      assert Ancestor(MUTUAL, other, 1) == Ancestor(MUTUAL, node, 0);
    }
    assert Descends(MUTUAL, node, node);
    OwnDescendantIsCycle(MUTUAL, catalog, node);
    assert Lists(["a", "b"], MUTUAL);
    WalkEndsIff(["a", "b"], MUTUAL, node);
  }
}
