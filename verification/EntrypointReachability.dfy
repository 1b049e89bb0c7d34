/** Import reachability from entry points, closed under package parents, and the attachment audit. */
module EntrypointReachability {
  import opened Graphs
  import opened Ordering

  /** A dotted module name, as the list of its parts. */
  type Module = seq<string>
  type ImportGraph = map<Module, set<Module>>

  function Dotted(m: Module): string {
    if m == [] then "" else if |m| == 1 then m[0] else m[0] + "." + Dotted(m[1..])
  }

  function LeqModule(a: Module, b: Module): bool { LeqString(Dotted(a), Dotted(b)) }

  /** The modules with their known proper package prefixes. */
  function WithPackages(modules: set<Module>, known: set<Module>): set<Module> {
    modules + set m, k | m in modules && 1 <= k < |m| && m[..k] in known :: m[..k]
  }

  /** p is a package that contains m: a non-empty proper prefix of its parts. */
  ghost predicate PackageOf(p: Module, m: Module) { p != [] && |p| < |m| && p <= m }

  /** With every module the set holds all its known packages. */
  ghost predicate HoldsPackages(s: set<Module>, known: set<Module>) {
    forall m, p | m in s && p in known && PackageOf(p, m) :: p in s
  }

  /** The least set that holds the modules and, with every member, its known packages. */
  ghost predicate LeastWithPackages(result: set<Module>, modules: set<Module>, known: set<Module>) {
    && modules <= result && HoldsPackages(result, known)
    && forall s | modules <= s && HoldsPackages(s, known) :: result <= s
  }

  lemma WithPackagesIsLeast(modules: set<Module>, known: set<Module>)
    ensures LeastWithPackages(WithPackages(modules, known), modules, known)
  {
    var result := WithPackages(modules, known);
    forall m, p | m in result && p in known && PackageOf(p, m) ensures p in result {
      PackageIncluded(modules, known, m, p);
    }
    forall s | modules <= s && HoldsPackages(s, known) ensures result <= s {
      forall x | x in result && x !in modules ensures x in s {
        var m, k :| m in modules && 1 <= k < |m| && m[..k] in known && x == m[..k];
        assert PackageOf(x, m);
      }
    }
  }

  lemma PackageIncluded(modules: set<Module>, known: set<Module>, m: Module, p: Module)
    requires m in WithPackages(modules, known) && p in known && PackageOf(p, m)
    ensures p in WithPackages(modules, known)
  {
    var base := m;
    if m !in modules {
      var b, k :| b in modules && 1 <= k < |b| && b[..k] in known && m == b[..k];
      base := b;
    }
    assert p == base[..|p|];
  }

  /** `_package_parent_closure`. */
  method PackageParentClosure(modules: set<Module>, known: set<Module>) returns (result: set<Module>)
    ensures result == WithPackages(modules, known)
    ensures LeastWithPackages(result, modules, known)
  {
    WithPackagesIsLeast(modules, known);
    hide LeastWithPackages;
    result := modules;
    var todo := modules;
    while todo != {}
      invariant todo <= modules
      invariant result == modules + set m, k | m in modules - todo && 1 <= k < |m| && m[..k] in known :: m[..k]
    {
      var m :| m in todo;
      var n := |m|;
      ghost var before := result;
      while n > 1
        invariant n <= |m|
        invariant result == before + set k | (if n < 1 then 1 else n) <= k < |m| && m[..k] in known :: m[..k]
      {
        n := n - 1;
        if m[..n] in known {
          result := result + {m[..n]};
        }
      }
      assert modules - (todo - {m}) == (modules - todo) + {m};
      todo := todo - {m};
    }
  }

  /** Imports lead only to known modules; the graph builder adds no other target. */
  ghost predicate Closed(graph: ImportGraph) {
    forall m | m in graph :: graph[m] <= graph.Keys
  }

  /** The known modules that some known root reaches. */
  ghost function Reached(graph: ImportGraph, roots: set<Module>): set<Module> {
    set m | m in graph && ReachedFrom(graph, roots, m)
  }

  ghost predicate ReachedFrom(graph: ImportGraph, roots: set<Module>, m: Module) {
    exists r :: r in roots && r in graph && Reach(graph, r, m)
  }

  ghost function Closure(graph: ImportGraph, roots: set<Module>): set<Module> {
    WithPackages(Reached(graph, roots), graph.Keys)
  }

  /** Reached is the least set of modules that holds the known roots and is closed under imports. */
  lemma ReachedIsLeast(graph: ImportGraph, roots: set<Module>, s: set<Module>)
    requires Closed(graph)
    ensures roots * graph.Keys <= Reached(graph, roots) && ClosedIn(graph, Reached(graph, roots))
    ensures roots * graph.Keys <= s && ClosedIn(graph, s) ==> Reached(graph, roots) <= s
  {
    forall r | r in roots * graph.Keys ensures r in Reached(graph, roots) {
      ReachSelf(graph, r);
    }
    forall v, w | v in Reached(graph, roots) && w in Succ(graph, v) ensures w in Reached(graph, roots) {
      var r :| r in roots && r in graph && Reach(graph, r, v);
      ReachEdge(graph, v, w);
      ReachTrans(graph, r, v, w);
    }
    if roots * graph.Keys <= s && ClosedIn(graph, s) {
      forall m | m in Reached(graph, roots) ensures m in s {
        var r :| r in roots && r in graph && Reach(graph, r, m);
        ReachStays(graph, s, r, m);
      }
    }
  }

  /** `sorted(s)`: the members of s, by their dotted names. */
  method SortedModules(s: set<Module>) returns (r: seq<Module>)
    ensures forall m :: m in r <==> m in s
  {
    var list, todo := [], s;
    while todo != {}
      invariant todo <= s && forall m :: m in list <==> m in s - todo
    {
      var m :| m in todo;
      list, todo := list + [m], todo - {m};
    }
    r := Sort(LeqModule, list);
    SortElements(LeqModule, list);
  }

  /** What has been seen is reached, and what is still to be seen is queued. */
  ghost predicate Frontier(graph: ImportGraph, roots: set<Module>, seen: set<Module>, queue: seq<Module>) {
    && seen <= Reached(graph, roots)
    && (forall m | m in queue :: m in Reached(graph, roots))
    && (forall r | r in roots && r in graph :: r in seen || r in queue)
    && (forall v, w | v in seen && w in Succ(graph, v) :: w in seen || w in queue)
  }

  lemma FrontierStep(graph: ImportGraph, roots: set<Module>, seen: set<Module>, queue: seq<Module>, more: seq<Module>)
    requires Closed(graph) && Frontier(graph, roots, seen, queue) && queue != [] && queue[0] in graph
    requires queue[0] !in seen ==> forall m :: m in more <==> m in graph[queue[0]] - (seen + {queue[0]})
    requires queue[0] in seen ==> more == []
    ensures Frontier(graph, roots, seen + {queue[0]}, queue[1..] + more)
  {
    ReachedIsLeast(graph, roots, {});
    var current := queue[0];
    assert forall m :: m in queue <==> m == current || m in queue[1..];
    forall m | m in queue[1..] + more ensures m in Reached(graph, roots) {
      if m !in queue { assert m in Succ(graph, current); }
    }
  }

  lemma FrontierDone(graph: ImportGraph, roots: set<Module>, seen: set<Module>)
    requires Closed(graph) && Frontier(graph, roots, seen, [])
    ensures seen == Reached(graph, roots)
  {
    hide Reached, Closed;
    FrontierClosed(graph, roots, seen);
    ReachedIsLeast(graph, roots, seen);
  }

  lemma FrontierClosed(graph: ImportGraph, roots: set<Module>, seen: set<Module>)
    requires Frontier(graph, roots, seen, [])
    ensures ClosedIn(graph, seen) && roots * graph.Keys <= seen <= Reached(graph, roots)
  {
    hide Reached;
    forall v | v in seen ensures Succ(graph, v) <= seen {}
  }

  /** `_reachable`: breadth first, with duplicates in the queue, then the package parents. */
  method Reachable(graph: ImportGraph, roots: set<Module>) returns (result: set<Module>)
    requires Closed(graph)
    ensures result == Closure(graph, roots)
    ensures LeastWithPackages(result, Reached(graph, roots), graph.Keys)
  {
    hide Frontier, LeastWithPackages;
    var seen: set<Module> := {};
    var queue := SortedModules(set r | r in roots && r in graph);
    FrontierStart(graph, roots, queue);
    while queue != []
      invariant seen <= graph.Keys && (forall m | m in queue :: m in graph)
      invariant Frontier(graph, roots, seen, queue)
      decreases graph.Keys - seen, |queue|
    {
      var current := queue[0];
      if current in seen {
        FrontierStep(graph, roots, seen, queue, []);
        assert seen + {current} == seen && queue[1..] + [] == queue[1..];
        queue := queue[1..];
      } else {
        var more := SortedModules(graph[current] - (seen + {current}));
        FrontierStep(graph, roots, seen, queue, more);
        seen := seen + {current};
        queue := queue[1..] + more;
      }
    }
    FrontierDone(graph, roots, seen);
    result := PackageParentClosure(seen, graph.Keys);
  }

  lemma FrontierStart(graph: ImportGraph, roots: set<Module>, queue: seq<Module>)
    requires Closed(graph) && forall m :: m in queue <==> m in roots && m in graph
    ensures Frontier(graph, roots, {}, queue)
  {
    ReachedIsLeast(graph, roots, {});
  }

  /** The closure is the reached modules with all their packages, and nothing else. */
  lemma ClosureIsLeast(graph: ImportGraph, roots: set<Module>)
    ensures LeastWithPackages(Closure(graph, roots), Reached(graph, roots), graph.Keys)
  {
    WithPackagesIsLeast(Reached(graph, roots), graph.Keys);
  }

  /** A known package of an attached module is attached, so no orphan contains an attached module. */
  lemma PackagesAttached(graph: ImportGraph, roots: set<Module>, m: Module, p: Module)
    requires m in Closure(graph, roots) && p in graph && PackageOf(p, m)
    ensures p in Closure(graph, roots)
  {
    ClosureIsLeast(graph, roots);
  }

  /** Reachability with package parents distributes over unions of root sets. */
  lemma ClosureOfUnion(graph: ImportGraph, a: set<Module>, b: set<Module>)
    ensures Closure(graph, a + b) == Closure(graph, a) + Closure(graph, b)
  {
    forall m ensures m in Reached(graph, a + b) <==> m in Reached(graph, a) + Reached(graph, b) {
      if m in graph && ReachedFrom(graph, a + b, m) {
        var r :| r in a + b && r in graph && Reach(graph, r, m);
        assert ReachedFrom(graph, a, m) || ReachedFrom(graph, b, m);
      }
      if m in graph && ReachedFrom(graph, a, m) {
        var r :| r in a && r in graph && Reach(graph, r, m);
        assert r in a + b;
      }
      if m in graph && ReachedFrom(graph, b, m) {
        var r :| r in b && r in graph && Reach(graph, r, m);
        assert r in a + b;
      }
    }
    assert Reached(graph, a + b) == Reached(graph, a) + Reached(graph, b);
  }

  // ----- the attachment audit -----

  datatype Audit = Audit(attached: set<Module>, unattached: set<Module>, externalOnly: set<Module>, orphan: set<Module>,
                         researchOnly: set<Module>, testOnly: set<Module>, extensionOnly: set<Module>)

  /** The direct import roots of the four outside groups. */
  datatype Outside = Outside(research: set<Module>, test: set<Module>, extension: set<Module>, tooling: set<Module>) {
    ghost function All(): set<Module> { research + test + extension + tooling }
  }

  /** The set algebra of `audit`. */
  method AuditAttachment(graph: ImportGraph, api: set<Module>, composition: set<Module>, entry: set<Module>, outside: Outside,
                         generated: set<Module>, metadata: set<Module>) returns (a: Audit)
    requires Closed(graph)
    ensures a.attached == Closure(graph, api + composition + entry)
    ensures LeastWithPackages(a.attached, Reached(graph, api + composition + entry), graph.Keys)
    ensures a.unattached == graph.Keys - a.attached - generated - metadata
    ensures a.externalOnly == a.unattached * Closure(graph, outside.All())
    ensures a.orphan == a.unattached - Closure(graph, outside.All())
    ensures a.researchOnly == a.unattached * Closure(graph, outside.research)
    ensures a.extensionOnly == a.unattached * Closure(graph, outside.extension) - Closure(graph, outside.research)
    ensures a.testOnly == a.unattached * Closure(graph, outside.test) - Closure(graph, outside.research) - Closure(graph, outside.extension)
  {
    ClosureIsLeast(graph, api + composition + entry);
    hide Closure, LeastWithPackages;
    var apiAttached := Reachable(graph, api);
    var compositionAttached := Reachable(graph, composition);
    var entryAttached := Reachable(graph, entry);
    var attached := apiAttached + compositionAttached + entryAttached;
    ClosureOfUnion(graph, api, composition);
    ClosureOfUnion(graph, api + composition, entry);
    var research := Reachable(graph, outside.research);
    var test := Reachable(graph, outside.test);
    var extension := Reachable(graph, outside.extension);
    var tooling := Reachable(graph, outside.tooling);
    ClosureOfUnion(graph, outside.research, outside.test);
    ClosureOfUnion(graph, outside.research + outside.test, outside.extension);
    ClosureOfUnion(graph, outside.research + outside.test + outside.extension, outside.tooling);
    var unattached := graph.Keys - attached - generated - metadata;
    var anyExternal := research + test + extension + tooling;
    a := Audit(attached, unattached, unattached * anyExternal, unattached - anyExternal,
               unattached * research, unattached * (test - research - extension), unattached * (extension - research));
  }

  /** Every module is accounted for once: attached, generated or metadata; else used from outside only, and then by
      research, extension, test or tooling in that order; else an orphan. */
  lemma AuditPartitions(graph: ImportGraph, outside: Outside, generated: set<Module>, metadata: set<Module>, a: Audit)
    requires a.unattached == graph.Keys - a.attached - generated - metadata
    requires a.externalOnly == a.unattached * Closure(graph, outside.All()) && a.orphan == a.unattached - Closure(graph, outside.All())
    requires a.researchOnly == a.unattached * Closure(graph, outside.research)
    requires a.extensionOnly == a.unattached * Closure(graph, outside.extension) - Closure(graph, outside.research)
    requires a.testOnly == a.unattached * Closure(graph, outside.test) - Closure(graph, outside.research) - Closure(graph, outside.extension)
    ensures a.unattached == a.externalOnly + a.orphan && a.externalOnly !! a.orphan
    ensures a.researchOnly !! a.testOnly && a.researchOnly !! a.extensionOnly && a.testOnly !! a.extensionOnly
    ensures a.researchOnly + a.testOnly + a.extensionOnly <= a.externalOnly
    ensures forall m | m in a.externalOnly - (a.researchOnly + a.testOnly + a.extensionOnly) :: m in Closure(graph, outside.tooling)
  {
    hide Closure;
    ClosureOfUnion(graph, outside.research, outside.test);
    ClosureOfUnion(graph, outside.research + outside.test, outside.extension);
    ClosureOfUnion(graph, outside.research + outside.test + outside.extension, outside.tooling);
  }
}
