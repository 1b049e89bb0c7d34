/** Tarjan's strongly connected components, as `scc` runs it: one shared stack, index map and
    low-link map that a recursive visitor updates, and components emitted as they close. */
module StronglyConnected {
  import opened Graphs
  import opened Ordering

  type Node = string
  type Graph = map<Node, set<Node>>

  /** The part of the visitor's shared state that the invariant speaks about. */
  datatype Search = Search(stack: seq<Node>, indices: map<Node, nat>, result: seq<seq<Node>>)

  /** All members of the components emitted so far. */
  ghost function Emitted(result: seq<seq<Node>>): set<Node> {
    if result == [] then {}
    else Emitted(result[..|result| - 1]) + Elements(result[|result| - 1])
  }

  /** c is exactly the mutual-reachability class of each of its members. */
  ghost predicate IsClass(g: Graph, c: seq<Node>) {
    forall u, w | u in c :: w in c <==> Reach(g, u, w) && Reach(g, w, u)
  }

  ghost predicate IsComponent(g: Graph, c: seq<Node>) {
    c != [] && NoDuplicates(c) && Sorted(LeqString, c) && IsClass(g, c)
  }

  /** Emission order: a component's members lead only into itself and earlier components. */
  ghost predicate GoodResult(g: Graph, result: seq<seq<Node>>) {
    && (forall i | 0 <= i < |result| :: IsComponent(g, result[i]))
    && (forall i, v | 0 <= i < |result| && v in result[i] ::
          v !in Emitted(result[..i]) && Succ(g, v) <= Emitted(result[..i + 1]))
  }

  /** Stack and index map, without regard to the graph. */
  ghost predicate Shape(s: Search) {
    && (forall i | 0 <= i < |s.stack| :: s.stack[i] in s.indices)
    && (forall i, j | 0 <= i < j < |s.stack| :: s.indices[s.stack[i]] < s.indices[s.stack[j]])
    && (forall v :: v in s.indices <==> v in s.stack || v in Emitted(s.result))
    && (forall v | v in s.stack :: v !in Emitted(s.result))
  }

  /** x reaches a node still being visited that was indexed no later than x itself. */
  ghost predicate Anchored(g: Graph, grey: set<Node>, indices: map<Node, nat>, x: Node) {
    exists a :: a in grey && a in indices && x in indices && indices[a] <= indices[x] && Reach(g, x, a)
  }

  ghost predicate AllAnchored(g: Graph, grey: set<Node>, s: Search) {
    forall x {:trigger Anchored(g, grey, s.indices, x)} | x in s.stack :: Anchored(g, grey, s.indices, x)
  }

  /** Lower stack entries reach higher ones. */
  ghost predicate StackReaches(g: Graph, stack: seq<Node>) {
    forall i, j | 0 <= i <= j < |stack| :: Reach(g, stack[i], stack[j])
  }

  /** A finished node has only indexed successors. */
  ghost predicate BlackDone(g: Graph, grey: set<Node>, indices: map<Node, nat>) {
    forall v | v in indices && v !in grey :: Succ(g, v) <= indices.Keys
  }

  ghost predicate FromKey(g: Graph, v: Node) {
    exists k :: k in g && Reach(g, k, v)
  }

  ghost predicate AllFromKeys(g: Graph, indices: map<Node, nat>) {
    indices.Keys <= Nodes(g) && forall v {:trigger FromKey(g, v)} | v in indices :: FromKey(g, v)
  }

  /** The search invariant; `grey` holds the nodes whose visit has begun but not returned. */
  ghost predicate Inv(g: Graph, grey: set<Node>, s: Search) {
    && Shape(s)
    && grey <= Elements(s.stack)
    && GoodResult(g, s.result)
    && BlackDone(g, grey, s.indices)
    && StackReaches(g, s.stack)
    && AllAnchored(g, grey, s)
    && AllFromKeys(g, s.indices)
  }

  ghost predicate AllReach(g: Graph, grey: set<Node>, node: Node) {
    forall a | a in grey :: Reach(g, a, node)
  }

  lemma {:induction false} EmittedMember(result: seq<seq<Node>>, v: Node)
    ensures v in Emitted(result) <==> exists i | 0 <= i < |result| :: v in result[i]
  {
    if result != [] {
      var n := |result| - 1;
      EmittedMember(result[..n], v);
      if v in Emitted(result[..n]) {
        var i :| 0 <= i < n && v in result[..n][i];
        assert v in result[i];
      } else if v in result[n] {
      } else {
        forall i | 0 <= i < |result| ensures v !in result[i] {
          if i < n { assert result[..n][i] == result[i]; }
        }
      }
    }
  }

  /** Emitted nodes only lead to emitted nodes. */
  lemma EmittedClosed(g: Graph, result: seq<seq<Node>>)
    requires GoodResult(g, result)
    ensures ClosedIn(g, Emitted(result))
  {
    forall v, w | v in Emitted(result) && w in Succ(g, v) ensures w in Emitted(result) {
      EmittedMember(result, v);
      var i :| 0 <= i < |result| && v in result[i];
      EmittedMember(result[..i + 1], w);
      var j :| 0 <= j < i + 1 && w in result[..i + 1][j];
      assert w in result[j];
      EmittedMember(result, w);
    }
  }

  // ----- starting a visit: the node goes on top of the stack and turns grey -----

  lemma StartReaches(g: Graph, grey: set<Node>, s: Search, node: Node)
    requires AllAnchored(g, grey, s) && StackReaches(g, s.stack) && AllReach(g, grey, node)
    ensures StackReaches(g, s.stack + [node])
  {
    var stack' := s.stack + [node];
    ReachSelf(g, node);
    forall i, j | 0 <= i <= j < |stack'| ensures Reach(g, stack'[i], stack'[j]) {
      if j == |s.stack| && i < j {
        var x := s.stack[i];
        assert Anchored(g, grey, s.indices, x);
        var a :| a in grey && Reach(g, x, a);
        ReachTrans(g, x, a, node);
      }
    }
  }

  lemma StartAnchored(g: Graph, grey: set<Node>, s: Search, node: Node, index: nat)
    requires AllAnchored(g, grey, s) && node !in s.indices
    ensures AllAnchored(g, grey + {node}, s.(stack := s.stack + [node], indices := s.indices[node := index]))
  {
    var indices' := s.indices[node := index];
    forall x | x in s.stack + [node] ensures Anchored(g, grey + {node}, indices', x) {
      if x == node {
        ReachSelf(g, node);
      } else {
        assert Anchored(g, grey, s.indices, x);
        var a :| a in grey && a in s.indices && s.indices[a] <= s.indices[x] && Reach(g, x, a);
        assert a in grey + {node} && indices'[a] <= indices'[x];
      }
    }
  }

  lemma StartShape(s: Search, node: Node, index: nat)
    requires Shape(s) && node !in s.indices
    requires forall v | v in s.indices :: s.indices[v] < index
    ensures Shape(s.(stack := s.stack + [node], indices := s.indices[node := index]))
  {
    var s' := s.(stack := s.stack + [node], indices := s.indices[node := index]);
    forall i | 0 <= i < |s'.stack| ensures s'.stack[i] in s'.indices {}
    forall v | v in s'.stack ensures v !in Emitted(s'.result) {}
  }

  lemma StartVisit(g: Graph, grey: set<Node>, s: Search, node: Node, index: nat)
    requires Inv(g, grey, s) && AllReach(g, grey, node)
    requires node !in s.indices && node in Nodes(g) && FromKey(g, node)
    requires forall v | v in s.indices :: s.indices[v] < index
    ensures Inv(g, grey + {node}, s.(stack := s.stack + [node], indices := s.indices[node := index]))
  {
    StartShape(s, node, index);
    StartReaches(g, grey, s, node);
    StartAnchored(g, grey, s, node, index);
  }

  // ----- finishing a visit that found a way further down: the node stays stacked, black -----

  lemma FinishBelow(g: Graph, grey: set<Node>, s: Search, node: Node, y: Node)
    requires Inv(g, grey + {node}, s) && node in s.indices && Succ(g, node) <= s.indices.Keys
    requires y in s.stack && y in s.indices && s.indices[y] < s.indices[node] && Reach(g, node, y)
    ensures Inv(g, grey, s)
  {
    AnchorBelow(g, grey, s, node, y);
  }

  lemma AnchorBelow(g: Graph, grey: set<Node>, s: Search, node: Node, y: Node)
    requires AllAnchored(g, grey + {node}, s) && node in s.indices
    requires y in s.stack && y in s.indices && s.indices[y] < s.indices[node] && Reach(g, node, y)
    ensures AllAnchored(g, grey, s)
  {
    assert Anchored(g, grey + {node}, s.indices, y);
    var b :| b in grey + {node} && b in s.indices && s.indices[b] <= s.indices[y] && Reach(g, y, b);
    assert b in grey;
    forall x | x in s.stack ensures Anchored(g, grey, s.indices, x) {
      assert Anchored(g, grey + {node}, s.indices, x);
      var a :| a in grey + {node} && a in s.indices && s.indices[a] <= s.indices[x] && Reach(g, x, a);
      if a == node {
        ReachTrans(g, x, node, y);
        ReachTrans(g, x, y, b);
      }
    }
  }

  // ----- finishing a component root: its whole suffix leaves the stack as the next component -----

  /** Nothing from the root of a component upwards leads below it. */
  ghost predicate NoEscape(g: Graph, stack: seq<Node>, base: nat)
    requires base <= |stack|
  {
    forall z, y | z in stack[base..] && y in Succ(g, z) :: y !in stack[..base]
  }

  /** stack[base] is the node whose visit is about to return, above every other grey node. */
  ghost predicate AtRoot(g: Graph, grey: set<Node>, s: Search, base: nat) {
    && base < |s.stack|
    && AllReach(g, grey, s.stack[base])
    && Succ(g, s.stack[base]) <= s.indices.Keys
    && grey <= Elements(s.stack[..base])
    && NoEscape(g, s.stack, base)
  }

  lemma SuffixMutual(g: Graph, grey: set<Node>, s: Search, base: nat, u: Node)
    requires AtRoot(g, grey, s, base)
    requires AllAnchored(g, grey + {s.stack[base]}, s) && StackReaches(g, s.stack)
    requires u in s.stack[base..]
    ensures Reach(g, s.stack[base], u) && Reach(g, u, s.stack[base])
  {
    var node := s.stack[base];
    var i :| base <= i < |s.stack| && s.stack[i] == u;
    assert Reach(g, s.stack[base], s.stack[i]);
    assert Anchored(g, grey + {node}, s.indices, u);
    var a :| a in grey + {node} && Reach(g, u, a);
    ReachSelf(g, node);
    ReachTrans(g, u, a, node);
  }

  lemma SuffixClosed(g: Graph, grey: set<Node>, s: Search, base: nat)
    requires AtRoot(g, grey, s, base)
    requires Shape(s) && BlackDone(g, grey + {s.stack[base]}, s.indices)
    requires ClosedIn(g, Emitted(s.result))
    ensures ClosedIn(g, Elements(s.stack[base..]) + Emitted(s.result))
  {
    hide Shape, NoEscape, AllReach, BlackDone;
    forall z, y | z in Elements(s.stack[base..]) && y in Succ(g, z)
      ensures y in Elements(s.stack[base..]) + Emitted(s.result)
    {
      SuffixStep(g, grey, s, base, z, y);
    }
  }

  lemma SuffixStep(g: Graph, grey: set<Node>, s: Search, base: nat, z: Node, y: Node)
    requires AtRoot(g, grey, s, base) && Shape(s) && BlackDone(g, grey + {s.stack[base]}, s.indices)
    requires z in s.stack[base..] && y in Succ(g, z)
    ensures y in s.stack[base..] || y in Emitted(s.result)
  {
    hide Shape, AllReach, Reach;
    SuffixNotPrefix(s, base, z);
    assert y in s.indices && y !in s.stack[..base];
    IndexedWhere(s, y);
    assert s.stack == s.stack[..base] + s.stack[base..];
  }

  lemma IndexedWhere(s: Search, y: Node)
    requires Shape(s) && y in s.indices
    ensures y in s.stack || y in Emitted(s.result)
  {
  }

  lemma SuffixNotPrefix(s: Search, base: nat, z: Node)
    requires Shape(s) && base <= |s.stack| && z in s.stack[base..]
    ensures z !in s.stack[..base] && z in s.indices && z !in Emitted(s.result) && z in s.stack
  {
    var j :| base <= j < |s.stack| && s.stack[j] == z;
    forall i | 0 <= i < base ensures s.stack[i] != z {
      assert s.indices[s.stack[i]] < s.indices[s.stack[j]];
    }
  }

  /** The stack from a component root upwards is one mutual-reachability class. */
  lemma SuffixIsClass(g: Graph, grey: set<Node>, s: Search, base: nat)
    requires AtRoot(g, grey, s, base)
    requires Inv(g, grey + {s.stack[base]}, s)
    ensures IsClass(g, s.stack[base..])
  {
    var node := s.stack[base];
    var c := s.stack[base..];
    EmittedClosed(g, s.result);
    SuffixClosed(g, grey, s, base);
    forall u, w | u in c ensures w in c <==> Reach(g, u, w) && Reach(g, w, u) {
      SuffixMutual(g, grey, s, base, u);
      if w in c {
        SuffixMutual(g, grey, s, base, w);
        ReachTrans(g, u, node, w);
        ReachTrans(g, w, node, u);
      } else if Reach(g, u, w) && Reach(g, w, u) {
        ReachStays(g, Elements(c) + Emitted(s.result), u, w);
        ReachStays(g, Emitted(s.result), w, u);
        SuffixNotPrefix(s, base, u);
        assert false;
      }
    }
  }

  lemma RootComponent(g: Graph, grey: set<Node>, s: Search, base: nat, c: seq<Node>)
    requires AtRoot(g, grey, s, base) && Inv(g, grey + {s.stack[base]}, s)
    requires multiset(c) == multiset(s.stack[base..]) && Sorted(LeqString, c)
    ensures IsComponent(g, c) && forall v :: v in c <==> v in s.stack[base..]
  {
    var suffix := s.stack[base..];
    SuffixIsClass(g, grey, s, base);
    SameMembers(c, suffix);
    assert suffix[0] in c;
    forall i, j | 0 <= i < j < |suffix| ensures suffix[i] != suffix[j] {
      assert s.indices[s.stack[base + i]] < s.indices[s.stack[base + j]];
    }
    NoDuplicatesByCount(suffix);
    NoDuplicatesByCount(c);
  }

  lemma SameMembers(a: seq<Node>, b: seq<Node>)
    requires multiset(a) == multiset(b)
    ensures forall v :: v in a <==> v in b
  {
    forall v ensures v in a <==> v in b {
      assert v in a <==> v in multiset(a);
      assert v in b <==> v in multiset(b);
    }
  }

  lemma FinishRoot(g: Graph, grey: set<Node>, s: Search, base: nat, c: seq<Node>)
    requires AtRoot(g, grey, s, base) && Inv(g, grey + {s.stack[base]}, s)
    requires multiset(c) == multiset(s.stack[base..]) && Sorted(LeqString, c)
    ensures Inv(g, grey, s.(stack := s.stack[..base], result := s.result + [c]))
  {
    RootComponent(g, grey, s, base, c);
    EmittedClosed(g, s.result);
    SuffixClosed(g, grey, s, base);
    assert Elements(s.stack[base..]) == Elements(c);
    forall v | v in c ensures v !in Emitted(s.result) {
      SuffixNotPrefix(s, base, v);
    }
    GoodResultExtends(g, s.result, c);
    RootShape(s, base, c);
    RootAnchored(g, grey, s, base, c);
  }

  lemma GoodResultExtends(g: Graph, result: seq<seq<Node>>, c: seq<Node>)
    requires GoodResult(g, result) && IsComponent(g, c)
    requires ClosedIn(g, Elements(c) + Emitted(result))
    requires forall v | v in c :: v !in Emitted(result)
    ensures GoodResult(g, result + [c])
  {
    var result' := result + [c];
    assert result'[..|result|] == result && result'[..|result| + 1] == result';
    forall i, v | 0 <= i < |result'| && v in result'[i]
      ensures v !in Emitted(result'[..i]) && Succ(g, v) <= Emitted(result'[..i + 1])
    {
      if i < |result| {
        assert result'[..i] == result[..i] && result'[..i + 1] == result[..i + 1];
      } else {
        assert v in Elements(c) + Emitted(result);
      }
    }
  }

  lemma RootShape(s: Search, base: nat, c: seq<Node>)
    requires Shape(s) && base <= |s.stack|
    requires forall v :: v in c <==> v in s.stack[base..]
    ensures Shape(s.(stack := s.stack[..base], result := s.result + [c]))
  {
    var stack', result' := s.stack[..base], s.result + [c];
    assert result'[..|s.result|] == s.result;
    assert s.stack == stack' + s.stack[base..];
    forall v | v in stack' ensures v !in Emitted(result') {
      if v in c {
        SuffixNotPrefix(s, base, v);
        assert false;
      }
    }
  }

  lemma RootAnchored(g: Graph, grey: set<Node>, s: Search, base: nat, c: seq<Node>)
    requires Shape(s) && base < |s.stack| && AllAnchored(g, grey + {s.stack[base]}, s)
    ensures AllAnchored(g, grey, s.(stack := s.stack[..base], result := s.result + [c]))
  {
    var node := s.stack[base];
    forall x | x in s.stack[..base] ensures Anchored(g, grey, s.indices, x) {
      var i :| 0 <= i < base && s.stack[i] == x;
      assert Anchored(g, grey + {node}, s.indices, x);
      var a :| a in grey + {node} && a in s.indices && s.indices[a] <= s.indices[x] && Reach(g, x, a);
      assert s.indices[s.stack[i]] < s.indices[s.stack[base]];
      assert a in grey;
    }
  }

  // ----- what the low-link value promises -----

  /** l is the index of a stacked node that `node` reaches. */
  ghost predicate LowWitness(g: Graph, s: Search, node: Node, l: nat) {
    exists y :: y in s.stack && y in s.indices && s.indices[y] == l && Reach(g, node, y)
  }

  /** l bounds every edge, already looked at, from the stack above `base` to the stack below it. */
  ghost predicate LowBound(g: Graph, s: Search, base: nat, node: Node, looked: set<Node>, l: nat)
    requires base <= |s.stack|
  {
    forall z, y | z in s.stack[base..] && y in Succ(g, z) && y in s.stack[..base] && y in s.indices && (z == node ==> y in looked) ::
      l <= s.indices[y]
  }

  ghost predicate Keeps(m: map<Node, nat>, m': map<Node, nat>) {
    forall v | v in m :: v in m' && m'[v] == m[v]
  }

  /** Later states keep the stack as a prefix, every index, and every emitted component. */
  ghost predicate Extends(s: Search, s': Search) {
    s.stack <= s'.stack && s.result <= s'.result && Keeps(s.indices, s'.indices)
  }

  function Min(a: nat, b: nat): nat { if b < a then b else a }

  lemma LowAfterVisit(g: Graph, s: Search, s': Search, base: nat, node: Node, looked: set<Node>, target: Node, l: nat, lt: nat)
    requires Shape(s) && Extends(s, s') && base <= |s.stack| && target !in s.indices
    requires LowBound(g, s, base, node, looked, l)
    requires LowBound(g, s', |s.stack|, target, Succ(g, target), lt)
    ensures LowBound(g, s', base, node, looked + {target}, Min(l, lt))
  {
    assert s'.stack[..base] == s.stack[..base];
    forall z, y | z in s'.stack[base..] && y in Succ(g, z) && y in s'.stack[..base] && y in s'.indices
        && (z == node ==> y in looked + {target})
      ensures Min(l, lt) <= s'.indices[y]
    {
      var i :| base <= i < |s'.stack| && s'.stack[i] == z;
      assert y in s.stack && y != target;
      if i < |s.stack| {
        assert z == s.stack[base..][i - base];
      } else {
        assert z == s'.stack[|s.stack|..][i - |s.stack|];
        assert y in s'.stack[..|s.stack|];
      }
    }
  }

  lemma LowAfterEdge(g: Graph, s: Search, base: nat, node: Node, looked: set<Node>, target: Node, l: nat, l': nat)
    requires base <= |s.stack| && LowBound(g, s, base, node, looked, l) && l' <= l
    requires target in s.stack && target in s.indices ==> l' <= s.indices[target]
    ensures LowBound(g, s, base, node, looked + {target}, l')
  {
  }

  lemma WitnessThrough(g: Graph, s: Search, node: Node, target: Node, l: nat)
    requires target in Succ(g, node) && LowWitness(g, s, target, l)
    ensures LowWitness(g, s, node, l)
  {
    var y :| y in s.stack && y in s.indices && s.indices[y] == l && Reach(g, target, y);
    ReachEdge(g, node, target);
    ReachTrans(g, node, target, y);
  }

  lemma WitnessExtends(g: Graph, s: Search, s': Search, node: Node, l: nat)
    requires Extends(s, s') && LowWitness(g, s, node, l)
    ensures LowWitness(g, s', node, l)
  {
    var y :| y in s.stack && y in s.indices && s.indices[y] == l && Reach(g, node, y);
    assert y in s'.stack;
  }

  lemma WitnessEdge(g: Graph, s: Search, node: Node, target: Node)
    requires target in s.stack && target in s.indices && target in Succ(g, node)
    ensures LowWitness(g, s, node, s.indices[target])
  {
    ReachEdge(g, node, target);
  }

  /** What a visited successor's low-link contributes to its parent's. */
  lemma TargetVisited(g: Graph, s: Search, s': Search, base: nat, node: Node, looked: set<Node>, target: Node, l: nat, lt: nat)
    requires Shape(s) && Extends(s, s') && base <= |s.stack| && target !in s.indices && target in Succ(g, node)
    requires LowBound(g, s, base, node, looked, l) && LowWitness(g, s, node, l)
    requires LowBound(g, s', |s.stack|, target, Succ(g, target), lt)
    requires if target in s'.stack then LowWitness(g, s', target, lt) else l <= lt
    ensures LowBound(g, s', base, node, looked + {target}, Min(l, lt))
    ensures LowWitness(g, s', node, Min(l, lt))
  {
    hide LowBound, LowWitness, Shape;
    LowAfterVisit(g, s, s', base, node, looked, target, l, lt);
    WitnessExtends(g, s, s', node, l);
    if lt < l {
      WitnessThrough(g, s', node, target, lt);
    }
  }

  lemma StartLow(g: Graph, s: Search, base: nat, l: nat)
    requires |s.stack| == base + 1 && s.stack[base] in s.indices && s.indices[s.stack[base]] == l
    ensures LowBound(g, s, base, s.stack[base], {}, l)
    ensures LowWitness(g, s, s.stack[base], l)
  {
    ReachSelf(g, s.stack[base]);
    assert forall z | z in s.stack[base..] :: z == s.stack[base];
  }

  lemma RootCannotEscape(g: Graph, s: Search, base: nat, l: nat)
    requires Shape(s) && base < |s.stack|
    requires LowBound(g, s, base, s.stack[base], Succ(g, s.stack[base]), l) && l == s.indices[s.stack[base]]
    ensures NoEscape(g, s.stack, base)
  {
    forall z, y | z in s.stack[base..] && y in Succ(g, z) ensures y !in s.stack[..base] {
      if y in s.stack[..base] {
        assert false;
      }
    }
  }

  lemma GreyReachTarget(g: Graph, grey: set<Node>, node: Node, target: Node)
    requires AllReach(g, grey, node) && target in Succ(g, node)
    ensures AllReach(g, grey + {node}, target)
  {
    ReachEdge(g, node, target);
    forall a | a in grey + {node} ensures Reach(g, a, target) {
      if a != node { ReachTrans(g, a, node, target); }
    }
  }

  lemma TargetFromKey(g: Graph, node: Node, target: Node)
    requires FromKey(g, node) && target in Succ(g, node)
    ensures FromKey(g, target) && target in Nodes(g)
  {
    var k :| k in g && Reach(g, k, node);
    ReachEdge(g, node, target);
    ReachTrans(g, k, node, target);
  }

  lemma InvFacts(g: Graph, grey: set<Node>, s: Search)
    requires Inv(g, grey, s)
    ensures Shape(s) && grey <= Elements(s.stack) && s.indices.Keys <= Nodes(g) && NoDuplicates(s.stack)
  {
  }

  /** A visit returns at a component root: the sorted suffix is emitted. */
  lemma CloseRoot(g: Graph, grey: set<Node>, s: Search, base: nat, l: nat, component: seq<Node>)
    requires base < |s.stack| && Inv(g, grey + {s.stack[base]}, s) && grey <= Elements(s.stack[..base]) && AllReach(g, grey, s.stack[base])
    requires Succ(g, s.stack[base]) <= s.indices.Keys && s.stack[base] in s.indices && l == s.indices[s.stack[base]]
    requires LowBound(g, s, base, s.stack[base], Succ(g, s.stack[base]), l) && multiset(component) == multiset(s.stack[base..])
    ensures var s' := s.(stack := s.stack[..base], result := s.result + [Sort(LeqString, component)]);
      && Inv(g, grey, s') && LowBound(g, s', base, s.stack[base], Succ(g, s.stack[base]), l) && s.stack[base] !in s'.stack
  {
    hide Inv, Reach, AllReach, Emitted;
    InvFacts(g, grey + {s.stack[base]}, s);
    RootCannotEscape(g, s, base, l);
    StringOrder();
    SortSorts(LeqString, component);
    FinishRoot(g, grey, s, base, Sort(LeqString, component));
    SuffixNotPrefix(s, base, s.stack[base]);
  }

  /** A visit returns below a component root: the node stays stacked. */
  lemma CloseBelow(g: Graph, grey: set<Node>, s: Search, node: Node, l: nat)
    requires Inv(g, grey + {node}, s) && node in s.indices && Succ(g, node) <= s.indices.Keys && l < s.indices[node]
    requires LowWitness(g, s, node, l)
    ensures Inv(g, grey, s)
  {
    hide Inv, Reach;
    var y :| y in s.stack && y in s.indices && s.indices[y] == l && Reach(g, node, y);
    FinishBelow(g, grey, s, node, y);
  }

  class Tarjan {
    const graph: Graph
    var index: nat
    var stack: seq<Node>
    var onStack: set<Node>
    var indices: map<Node, nat>
    var low: map<Node, nat>
    var result: seq<seq<Node>>

    ghost function View(): Search
      reads this
    {
      Search(stack, indices, result)
    }

    ghost predicate Valid(grey: set<Node>)
      reads this
    {
      && Inv(graph, grey, View())
      && (forall v :: v in onStack <==> v in stack)
      && low.Keys == indices.Keys
      && forall v | v in indices :: indices[v] < index
    }

    constructor (graph: Graph)
      ensures this.graph == graph && Valid({}) && stack == [] && indices == map[] && result == []
    {
      this.graph := graph;
      index, stack, onStack, indices, low, result := 0, [], {}, map[], map[], [];
    }

    /** Pops the stack down to and including `node`; the popped nodes, last first. */
    method PopComponent(node: Node, ghost base: nat) returns (component: seq<Node>)
      requires base < |stack| && stack[base] == node && (forall v :: v in onStack <==> v in stack)
      requires NoDuplicates(stack)
      modifies this`stack, this`onStack
      ensures stack == old(stack)[..base] && forall v :: v in onStack <==> v in stack
      ensures multiset(component) == multiset(old(stack)[base..])
    {
      component := [];
      ghost var all := stack;
      while true
        invariant base < |stack| <= |all| && stack == all[..|stack|]
        invariant forall v :: v in onStack <==> v in stack
        invariant multiset(component) == multiset(all[|stack|..])
        decreases |stack|
      {
        var item := stack[|stack| - 1];
        assert all[|stack| - 1..] == [item] + all[|stack|..];
        assert stack == stack[..|stack| - 1] + [item];
        stack := stack[..|stack| - 1];
        assert item in onStack;
        onStack := onStack - {item};
        component := component + [item];
        if item == node {
          assert all[|stack|] == all[base];
          break;
        }
        assert |stack| != base;
      }
    }

    /** The end of a visit: emit the component if `node` is its root, else leave it stacked. */
    method Finish(node: Node, ghost base: nat, ghost grey: set<Node>)
      requires base < |stack| && stack[base] == node && Valid(grey + {node})
      requires grey <= Elements(stack[..base]) && AllReach(graph, grey, node)
      requires Succ(graph, node) <= indices.Keys && node in low && low[node] <= indices[node]
      requires LowWitness(graph, View(), node, low[node])
      requires LowBound(graph, View(), base, node, Succ(graph, node), low[node])
      modifies this`stack, this`onStack, this`result
      ensures Valid(grey) && old(stack)[..base] <= stack && old(result) <= result
      ensures LowBound(graph, View(), base, node, Succ(graph, node), low[node])
      ensures if node in stack
              then low[node] < indices[node] && LowWitness(graph, View(), node, low[node])
              else stack == old(stack)[..base] && low[node] == indices[node]
    {
      hide Inv, Reach, AllReach, Shape, LowBound, LowWitness, NoDuplicates, Succ, Emitted;
      InvFacts(graph, grey + {node}, View());
      if low[node] == indices[node] {
        ghost var full := View();
        var component := PopComponent(node, base);
        result := result + [Sort(LeqString, component)];
        CloseRoot(graph, grey, full, base, low[node], component);
        assert View() == full.(stack := full.stack[..base], result := full.result + [Sort(LeqString, component)]);
      } else {
        CloseBelow(graph, grey, View(), node, low[node]);
        assert node in stack;
      }
    }

    /** One successor of `node`: visit it if it is new, else let its index count if it is stacked. */
    method LookAt(node: Node, target: Node, ghost looked: set<Node>, ghost base: nat, ghost grey: set<Node>)
      requires Valid(grey + {node}) && node in indices && low[node] <= indices[node]
      requires AllReach(graph, grey, node) && FromKey(graph, node) && target in Succ(graph, node)
      requires base <= |stack| && LowBound(graph, View(), base, node, looked, low[node])
      requires LowWitness(graph, View(), node, low[node])
      modifies this
      ensures Valid(grey + {node}) && Extends(old(View()), View()) && target in indices
      ensures Keeps(old(low) - {node}, low)
      ensures node in low && low[node] <= indices[node]
      ensures LowBound(graph, View(), base, node, looked + {target}, low[node])
      ensures LowWitness(graph, View(), node, low[node])
      decreases Nodes(graph) - indices.Keys, 1
    {
      hide Inv, LowBound, LowWitness, Reach, AllReach, FromKey, Nodes, Shape, NoDuplicates, Emitted, Succ;
      ghost var before := View();
      ghost var l := low[node];
      InvFacts(graph, grey + {node}, before);
      if target !in indices {
        GreyReachTarget(graph, grey, node, target);
        TargetFromKey(graph, node, target);
        Visit(target, grey + {node});
        TargetVisited(graph, before, View(), base, node, looked, target, l, low[target]);
        low := low[node := Min(low[node], low[target])];
      } else if target in onStack {
        WitnessEdge(graph, before, node, target);
        LowAfterEdge(graph, before, base, node, looked, target, l, Min(l, indices[target]));
        low := low[node := Min(low[node], indices[target])];
      } else {
        LowAfterEdge(graph, before, base, node, looked, target, l, l);
      }
    }

    /** The start of a visit: index the node, push it, give it its own index as low-link. */
    method Push(node: Node, ghost grey: set<Node>)
      requires Valid(grey) && node !in indices && node in Nodes(graph) && FromKey(graph, node)
      requires AllReach(graph, grey, node)
      modifies this
      ensures Valid(grey + {node}) && Extends(old(View()), View()) && stack == old(stack) + [node]
      ensures Keeps(old(low), low)
      ensures node in indices && indices[node] == low[node] == old(index)
      ensures LowBound(graph, View(), |old(stack)|, node, {}, low[node])
      ensures LowWitness(graph, View(), node, low[node])
    {
      hide Inv, LowBound, LowWitness, Reach, AllReach, FromKey, Nodes;
      InvFacts(graph, grey, View());
      StartVisit(graph, grey, View(), node, index);
      indices := indices[node := index];
      low := low[node := index];
      index := index + 1;
      stack := stack + [node];
      onStack := onStack + {node};
      assert Inv(graph, grey + {node}, View());
      StartLow(graph, View(), |stack| - 1, low[node]);
    }

    /** The successor loop of a visit, in an arbitrary order. */
    method LookAtAll(node: Node, ghost base: nat, ghost grey: set<Node>)
      requires Valid(grey + {node}) && node in indices && low[node] <= indices[node]
      requires AllReach(graph, grey, node) && FromKey(graph, node)
      requires base <= |stack| && LowBound(graph, View(), base, node, {}, low[node])
      requires LowWitness(graph, View(), node, low[node])
      modifies this
      ensures Valid(grey + {node}) && Extends(old(View()), View()) && Succ(graph, node) <= indices.Keys
      ensures Keeps(old(low) - {node}, low)
      ensures node in low && low[node] <= indices[node]
      ensures LowBound(graph, View(), base, node, Succ(graph, node), low[node])
      ensures LowWitness(graph, View(), node, low[node])
      decreases Nodes(graph) - indices.Keys, 2
    {
      hide Inv, LowBound, LowWitness, Reach, AllReach, FromKey, Shape, Nodes;
      var todo := if node in graph then graph[node] else {};
      ghost var looked := {};
      while todo != {}
        invariant todo <= Succ(graph, node) && looked == Succ(graph, node) - todo
        invariant Valid(grey + {node}) && Extends(old(View()), View())
        invariant Keeps(old(low) - {node}, low)
        invariant looked <= indices.Keys
        invariant node in low && low[node] <= indices[node]
        invariant LowWitness(graph, View(), node, low[node])
        invariant LowBound(graph, View(), base, node, looked, low[node])
      {
        var target :| target in todo;
        LookAt(node, target, looked, base, grey);
        todo, looked := todo - {target}, looked + {target};
      }
      assert looked == Succ(graph, node);
    }

    /** One recursive visit. On return the node is either emitted, with the stack as before, or
        still stacked with a low-link strictly below its own index. */
    method Visit(node: Node, ghost grey: set<Node>)
      requires Valid(grey) && node !in indices && node in Nodes(graph) && FromKey(graph, node)
      requires AllReach(graph, grey, node)
      modifies this
      ensures Valid(grey) && Extends(old(View()), View())
      ensures Keeps(old(low), low)
      ensures node in indices && old(index) <= indices[node]
      ensures LowBound(graph, View(), |old(stack)|, node, Succ(graph, node), low[node])
      ensures if node in stack
              then low[node] < indices[node] && LowWitness(graph, View(), node, low[node])
              else stack == old(stack) && low[node] == indices[node]
      decreases Nodes(graph) - indices.Keys, 0
    {
      hide Inv, LowBound, LowWitness, Reach, AllReach, FromKey, Shape, NoDuplicates, Emitted, Succ, Nodes;
      ghost var base := |stack|;
      InvFacts(graph, grey, View());
      Push(node, grey);
      ghost var pushed := View();
      LookAtAll(node, base, grey);
      assert stack[..base] == pushed.stack[..base] == old(stack);
      assert stack[base] == pushed.stack[base] == node;
      Finish(node, base, grey);
    }
  }

  // ----- the whole search -----

  /** Longest first, then by members: the sort key of the returned list. */
  function LeqComponent(a: seq<Node>, b: seq<Node>): bool {
    |a| > |b| || (|a| == |b| && LeqStrings(a, b))
  }

  lemma ComponentOrder()
    ensures TotalOrder(LeqComponent)
  {
    StringsOrder();
  }

  /** Components that partition the nodes reachable from the keys by mutual reachability. */
  ghost predicate ExactPartition(g: Graph, components: seq<seq<Node>>) {
    && (forall c | c in components :: IsComponent(g, c))
    && (forall v :: (exists c :: c in components && v in c) <==> FromKey(g, v))
    && (forall i, j, v | 0 <= i < j < |components| && v in components[i] :: v !in components[j])
  }

  /** No component can reach one emitted after it. */
  ghost predicate SinksFirst(g: Graph, emission: seq<seq<Node>>) {
    forall i, j, u, w | 0 <= i < j < |emission| && u in emission[i] && w in emission[j] :: !Reach(g, u, w)
  }

  lemma EmptyStack(g: Graph, s: Search)
    requires Shape(s) && AllAnchored(g, {}, s)
    ensures s.stack == []
  {
    if s.stack != [] {
      NotAnchored(g, s.indices, s.stack[0]);
      assert false;
    }
  }

  lemma NotAnchored(g: Graph, indices: map<Node, nat>, x: Node)
    ensures !Anchored(g, {}, indices, x)
  {
  }

  lemma PrefixMember(result: seq<seq<Node>>, i: nat, v: Node)
    requires i <= |result|
    ensures v in Emitted(result[..i]) <==> exists k | 0 <= k < i :: v in result[k]
  {
    EmittedMember(result[..i], v);
    if k :| 0 <= k < i && v in result[k] {
      assert result[..i][k] == result[k];
    }
  }

  lemma GoodResultSinksFirst(g: Graph, result: seq<seq<Node>>)
    requires GoodResult(g, result)
    ensures SinksFirst(g, result)
    ensures forall i, j, v | 0 <= i < j < |result| && v in result[i] :: v !in result[j]
  {
    forall i, j, v | 0 <= i < j < |result| && v in result[i] ensures v !in result[j] {
      PrefixMember(result, j, v);
    }
    forall i, j, u, w | 0 <= i < j < |result| && u in result[i] && w in result[j]
      ensures !Reach(g, u, w)
    {
      var done := Emitted(result[..i + 1]);
      GoodPrefix(g, result, i + 1);
      EmittedClosed(g, result[..i + 1]);
      PrefixMember(result, i + 1, u);
      if Reach(g, u, w) {
        ReachStays(g, done, u, w);
        PrefixMember(result, i + 1, w);
        assert false;
      }
    }
  }

  lemma GoodPrefix(g: Graph, result: seq<seq<Node>>, n: nat)
    requires GoodResult(g, result) && n <= |result|
    ensures GoodResult(g, result[..n])
  {
    forall i, v | 0 <= i < n && v in result[..n][i]
      ensures v !in Emitted(result[..n][..i]) && Succ(g, v) <= Emitted(result[..n][..i + 1])
    {
      assert result[..n][..i] == result[..i] && result[..n][..i + 1] == result[..i + 1];
      assert v in result[i];
    }
  }

  /** With nothing grey, every stacked node has been emitted and the search is exact. */
  lemma SearchDone(g: Graph, s: Search)
    requires Inv(g, {}, s) && g.Keys <= s.indices.Keys
    ensures ExactPartition(g, s.result) && SinksFirst(g, s.result)
  {
    EmptyStack(g, s);
    GoodResultSinksFirst(g, s.result);
    EmittedClosed(g, s.result);
    forall v ensures (exists c :: c in s.result && v in c) <==> FromKey(g, v) {
      EmittedMember(s.result, v);
      if c :| c in s.result && v in c {
        var i :| 0 <= i < |s.result| && s.result[i] == c;
        assert v in s.indices;
      }
      if FromKey(g, v) {
        var k :| k in g && Reach(g, k, v);
        ReachStays(g, Emitted(s.result), k, v);
        var i :| 0 <= i < |s.result| && v in s.result[i];
        assert s.result[i] in s.result;
      }
    }
  }

  /** Reordering the components keeps the partition. */
  lemma PermutedPartition(g: Graph, a: seq<seq<Node>>, b: seq<seq<Node>>)
    requires ExactPartition(g, a) && multiset(a) == multiset(b)
    ensures ExactPartition(g, b)
  {
    forall c ensures c in a <==> c in b {
      assert c in a <==> c in multiset(a);
      assert c in b <==> c in multiset(b);
    }
    assert NoDuplicates(a) by {
      forall i, j | 0 <= i < j < |a| ensures a[i] != a[j] {
        assert a[i] in a;
        assert IsComponent(g, a[i]) && a[i][0] in a[i];
      }
    }
    NoDuplicatesByCount(a);
    NoDuplicatesByCount(b);
    forall i, j, v | 0 <= i < j < |b| && v in b[i] ensures v !in b[j] {
      assert b[i] in a && b[j] in a && b[i] != b[j];
      var k :| 0 <= k < |a| && a[k] == b[i];
      var m :| 0 <= m < |a| && a[m] == b[j];
    }
  }

  /** In an exact partition two nodes share a component exactly when each reaches the other. */
  lemma SharedComponent(g: Graph, components: seq<seq<Node>>, u: Node, w: Node)
    requires ExactPartition(g, components) && FromKey(g, u)
    ensures (exists c :: c in components && u in c && w in c) <==> Reach(g, u, w) && Reach(g, w, u)
  {
    var c :| c in components && u in c;
    assert IsClass(g, c);
    if d :| d in components && u in d && w in d {
      assert IsClass(g, d);
    }
    if Reach(g, u, w) && Reach(g, w, u) {
      assert c in components && u in c && w in c;
    }
  }

  /** `scc`: the components of everything reachable from the graph's keys, longest first. */
  method Scc(graph: Graph) returns (components: seq<seq<Node>>, ghost emission: seq<seq<Node>>)
    ensures ExactPartition(graph, components)
    ensures forall i, j | 0 <= i < j < |components| ::
      |components[i]| >= |components[j]| && (|components[i]| == |components[j]| ==> FirstDifference(LeqString, components[i], components[j]))
    ensures multiset(components) == multiset(emission) && SinksFirst(graph, emission)
  {
    hide Inv, FromKey, Reach;
    var t := new Tarjan(graph);
    var keys := SortedSet(graph.Keys);
    for i := 0 to |keys|
      invariant t.graph == graph && t.Valid({})
      invariant fresh(t)
      invariant forall j | 0 <= j < i :: keys[j] in t.indices
    {
      var node := keys[i];
      if node !in t.indices {
        KeyFromKey(graph, node);
        t.Visit(node, {});
      }
    }
    assert graph.Keys <= t.indices.Keys;
    emission := t.result;
    SearchDone(graph, t.View());
    components := Sort(LeqComponent, t.result);
    ComponentOrder();
    SortSorts(LeqComponent, t.result);
    forall i, j | 0 <= i < j < |components|
      ensures |components[i]| >= |components[j]| && (|components[i]| == |components[j]| ==> FirstDifference(LeqString, components[i], components[j]))
    {
      assert LeqComponent(components[i], components[j]);
      LexMeans(LeqString, components[i], components[j]);
    }
    PermutedPartition(graph, t.result, components);
  }

  lemma KeyFromKey(g: Graph, k: Node)
    requires k in g
    ensures FromKey(g, k) && k in Nodes(g)
  {
    ReachSelf(g, k);
  }
}
