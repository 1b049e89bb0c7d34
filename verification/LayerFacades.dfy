/** Generating layer facades: every demanded name is given one source, a member API of its layer or the facade
    of the layer below, and a name forwarded to a generated facade becomes a demand on that layer. */
module LayerFacades {
  import opened Ordering

  datatype Option<T> = None | Some(value: T)

  /** What importing a module gives: its names, each with the semantic identity of its value. */
  type Exports = map<string, string>
  type World = map<string, Exports>

  datatype Layer = Layer(facade: string, memberApis: seq<string>, lower: Option<string>)

  datatype Resolution =
    | Source(source: string)
    | Ambiguous
    | ImportError(missing: string)
    | NotExported(facade: string)
    | Unresolvable

  predicate Has(world: World, api: string, name: string) { api in world && name in world[api] }

  /** The semantic identity of a name in a module that exports it. */
  function Identity(world: World, api: string, name: string): string {
    if Has(world, api, name) then world[api][name] else ""
  }

  /** The member APIs that export the name. */
  function Candidates(world: World, apis: seq<string>, name: string): seq<string> {
    if apis == [] then []
    else
      var last := apis[|apis| - 1];
      Candidates(world, apis[..|apis| - 1], name) + if Has(world, last, name) then [last] else []
  }

  lemma {:induction false} CandidateMember(world: World, apis: seq<string>, name: string, api: string)
    ensures api in Candidates(world, apis, name) <==> api in apis && Has(world, api, name)
  {
    if apis != [] {
      CandidateMember(world, apis[..|apis| - 1], name, api);
      assert apis == apis[..|apis| - 1] + [apis[|apis| - 1]];
    }
  }

  /** One of the member APIs exports the name; among those with the same identity it is the first by name. */
  ghost predicate MemberSource(world: World, apis: seq<string>, name: string, source: string) {
    && source in apis && Has(world, source, name)
    && forall api | api in apis && Has(world, api, name) && world[api][name] == world[source][name] :: LeqString(source, api)
  }

  ghost predicate NoMember(world: World, apis: seq<string>, name: string) {
    forall api | api in apis :: !Has(world, api, name)
  }

  /** Two member APIs export different things under the name and the old facade does not decide between them. */
  ghost predicate Undecided(world: World, apis: seq<string>, name: string, prior: Option<Exports>) {
    && (exists a, b :: a in apis && b in apis && Has(world, a, name) && Has(world, b, name) && world[a][name] != world[b][name])
    && (prior.Some? && name in prior.value ==> forall a | a in apis && Has(world, a, name) :: world[a][name] != prior.value[name])
  }

  /** The source stands for what all member APIs agree on, or for what the old facade exported. */
  ghost predicate Decided(world: World, apis: seq<string>, name: string, prior: Option<Exports>, source: string) {
    || (forall api | api in apis && Has(world, api, name) :: world[api][name] == Identity(world, source, name))
    || (prior.Some? && name in prior.value && prior.value[name] == Identity(world, source, name))
  }

  /** What each outcome means. */
  ghost predicate ResolvedAs(world: World, name: string, prior: Option<Exports>, apis: seq<string>, lowerFacade: Option<string>,
                             deferred: set<string>, r: Resolution) {
    && ((exists api :: api in apis && api !in world) ==> r.ImportError?)
    && match r
       case Source(source) =>
         if NoMember(world, apis, name) then lowerFacade == Some(source) && (source in deferred || Has(world, source, name))
         else MemberSource(world, apis, name, source) && Decided(world, apis, name, prior, source)
       case Ambiguous => Undecided(world, apis, name, prior)
       case ImportError(missing) =>
         missing !in world && (missing in apis || (NoMember(world, apis, name) && lowerFacade == Some(missing) && missing !in deferred))
       case NotExported(facade) =>
         NoMember(world, apis, name) && lowerFacade == Some(facade) && facade !in deferred && !Has(world, facade, name)
       case Unresolvable => NoMember(world, apis, name) && lowerFacade.None?
  }

  /** `resolve_contract`. The cases exclude each other, so each outcome is returned exactly in its case. */
  method ResolveContract(world: World, name: string, prior: Option<Exports>, apis: seq<string>, lowerFacade: Option<string>,
                         deferred: set<string>) returns (r: Resolution)
    ensures ResolvedAs(world, name, prior, apis, lowerFacade, deferred, r)
  {
    hide MemberSource, Undecided, Decided;
    var missing, candidates := MemberCandidates(world, name, apis);
    if missing.Some? {
      return ImportError(missing.value);
    }
    if candidates != [] {
      assert candidates[0] in candidates;
      r := ChooseMember(world, name, prior, apis, candidates);
      return;
    }
    if lowerFacade.Some? {
      if lowerFacade.value !in deferred {
        if lowerFacade.value !in world {
          return ImportError(lowerFacade.value);
        }
        if name !in world[lowerFacade.value] {
          return NotExported(lowerFacade.value);
        }
      }
      return Source(lowerFacade.value);
    }
    r := Unresolvable;
  }

  /** The loop that imports the member APIs. */
  method MemberCandidates(world: World, name: string, apis: seq<string>) returns (missing: Option<string>, candidates: seq<string>)
    ensures missing.Some? ==> missing.value in apis && missing.value !in world
    ensures missing.None? ==> forall api | api in apis :: api in world
    ensures missing.None? ==> forall api :: api in candidates <==> api in apis && Has(world, api, name)
  {
    candidates := [];
    for i := 0 to |apis|
      invariant candidates == Candidates(world, apis[..i], name)
      invariant forall j | 0 <= j < i :: apis[j] in world
    {
      assert apis[..i + 1][..i] == apis[..i];
      if apis[i] !in world {
        return Some(apis[i]), candidates;
      }
      if name in world[apis[i]] {
        candidates := candidates + [apis[i]];
      }
    }
    assert apis[..|apis|] == apis;
    forall api ensures api in candidates <==> api in apis && Has(world, api, name) {
      CandidateMember(world, apis, name, api);
    }
    missing := None;
  }

  /** The choice among the member APIs that export the name. */
  method ChooseMember(world: World, name: string, prior: Option<Exports>, apis: seq<string>, candidates: seq<string>) returns (r: Resolution)
    requires candidates != [] && forall api :: api in candidates <==> api in apis && Has(world, api, name)
    ensures r.Source? || r.Ambiguous?
    ensures r.Source? ==> MemberSource(world, apis, name, r.source) && Decided(world, apis, name, prior, r.source)
    ensures r.Ambiguous? ==> Undecided(world, apis, name, prior)
  {
    hide LexLeq, MemberSource;
    var identities := set a | a in candidates :: Identity(world, a, name);
    var first := candidates[0];
    assert first in candidates && Identity(world, first, name) in identities;
    if |identities| == 1 {
      var identity := Identity(world, first, name);
      OneIdentity(identities, identity);
      var source := LeastWith(world, apis, name, candidates, identity);
      forall api | api in apis && Has(world, api, name) ensures world[api][name] == identity {
        assert api in candidates && Identity(world, api, name) in identities;
      }
      return Source(source);
    }
    if prior.Some? && name in prior.value && prior.value[name] in identities {
      var source := LeastWith(world, apis, name, candidates, prior.value[name]);
      return Source(source);
    }
    TwoIdentities(world, name, candidates, identities);
    return Ambiguous;
  }

  lemma OneIdentity(identities: set<string>, x: string)
    requires |identities| == 1 && x in identities
    ensures forall y | y in identities :: y == x
  {
    assert |identities - {x}| == 0;
  }

  lemma TwoIdentities(world: World, name: string, candidates: seq<string>, identities: set<string>)
    requires candidates != [] && identities == (set a | a in candidates :: Identity(world, a, name)) && |identities| != 1
    ensures exists a, b :: a in candidates && b in candidates && Identity(world, a, name) != Identity(world, b, name)
  {
    var first := candidates[0];
    assert first in candidates;
    if forall b | b in candidates :: Identity(world, b, name) == Identity(world, first, name) {
      SameIdentity(world, name, candidates, Identity(world, first, name));
      assert false;
    }
  }

  lemma SameIdentity(world: World, name: string, candidates: seq<string>, x: string)
    requires candidates != [] && forall b | b in candidates :: Identity(world, b, name) == x
    ensures |set a | a in candidates :: Identity(world, a, name)| == 1
  {
    assert candidates[0] in candidates;
    assert (set a | a in candidates :: Identity(world, a, name)) == {x};
  }

  /** `sorted(...)[0]` of the candidates with one identity. */
  method LeastWith(world: World, apis: seq<string>, name: string, candidates: seq<string>, identity: string) returns (source: string)
    requires forall api :: api in candidates <==> api in apis && Has(world, api, name)
    requires exists a :: a in candidates && Identity(world, a, name) == identity
    ensures MemberSource(world, apis, name, source) && Identity(world, source, name) == identity
  {
    hide LexLeq;
    var all := set a | a in candidates && Identity(world, a, name) == identity;
    var matches := SortedSet(all);
    ghost var a :| a in candidates && Identity(world, a, name) == identity;
    assert a in all && a in matches;
    source := matches[0];
    assert source in matches && source in all;
    forall api | api in apis && Has(world, api, name) && world[api][name] == identity ensures LeqString(source, api) {
      assert api in all && api in matches;
      LeastFirst(matches, api);
    }
  }

  lemma LeastFirst(r: seq<string>, x: string)
    requires Sorted(LeqString, r) && x in r
    ensures LeqString(r[0], x)
  {
    StringOrder();
    var i :| 0 <= i < |r| && r[i] == x;
    assert LeqString(x, x);
  }

  // ----- the layers -----

  /** `order` lists the generated layers as they are processed. */
  datatype Config = Config(world: World, layers: map<string, Layer>, order: seq<string>) {
    ghost predicate WellFormed() {
      && NoDuplicates(order)
      && (forall id | id in order :: id in layers)
      && (forall id | id in layers && layers[id].lower.Some? :: layers[id].lower.value in layers)
    }

    /** The facades this pass writes. */
    function Generated(): set<string>
      requires forall id | id in order :: id in layers
    {
      set id | id in order :: layers[id].facade
    }

    function LowerFacade(id: string): Option<string>
      requires id in layers && (layers[id].lower.Some? ==> layers[id].lower.value in layers)
    {
      if layers[id].lower.None? then None else Some(layers[layers[id].lower.value].facade)
    }
  }

  /** The facade of the layer as the previous pass left it, if it can be imported. */
  function Prior(cfg: Config, id: string): Option<Exports>
    requires id in cfg.layers
  {
    if cfg.layers[id].facade in cfg.world then Some(cfg.world[cfg.layers[id].facade]) else None
  }

  /** The outcome is the one for this name in this layer. */
  ghost predicate LayerResolves(cfg: Config, id: string, name: string, r: Resolution)
    requires cfg.WellFormed() && id in cfg.layers
  {
    ResolvedAs(cfg.world, name, Prior(cfg, id), cfg.layers[id].memberApis, cfg.LowerFacade(id), cfg.Generated(), r)
  }

  type Demand = map<string, set<string>>
  type Assignments = map<string, map<string, string>>

  function Wanted(demand: Demand, id: string): set<string> { if id in demand then demand[id] else {} }

  function Assigned(a: Assignments, id: string): map<string, string> { if id in a then a[id] else map[] }

  /** What the pass may give as the source of a name in a layer. */
  ghost predicate SourceOk(cfg: Config, demand: Demand, id: string, name: string, source: string)
    requires cfg.WellFormed() && id in cfg.layers
  {
    && LayerResolves(cfg, id, name, Source(source))
    && (cfg.LowerFacade(id) == Some(source) ==> name in Wanted(demand, cfg.layers[id].lower.value))
  }

  ghost predicate SourcesOk(cfg: Config, demand: Demand, a: Assignments, id: string)
    requires cfg.WellFormed() && id in cfg.layers
  {
    forall name | name in Assigned(a, id) :: SourceOk(cfg, demand, id, name, Assigned(a, id)[name])
  }

  /** The layer below each generated layer is generated later in the pass, or not at all. */
  ghost predicate TopDown(cfg: Config) {
    forall i, j | 0 <= i < |cfg.order| && 0 <= j <= i && cfg.order[i] in cfg.layers ::
      cfg.layers[cfg.order[i]].lower != Some(cfg.order[j])
  }

  datatype Outcome = Done(demand: Demand, assignments: Assignments) | Failed(layer: string, name: string, why: Resolution)

  ghost predicate Grows(d: Demand, d': Demand) {
    forall id, name | name in Wanted(d, id) :: name in Wanted(d', id)
  }

  lemma SourcesGrow(cfg: Config, d: Demand, d': Demand, a: Assignments, id: string)
    requires cfg.WellFormed() && id in cfg.layers && SourcesOk(cfg, d, a, id) && Grows(d, d')
    ensures SourcesOk(cfg, d', a, id)
  {
    forall name | name in Assigned(a, id) ensures SourceOk(cfg, d', id, name, Assigned(a, id)[name]) {
      assert SourceOk(cfg, d, id, name, Assigned(a, id)[name]);
    }
  }

  lemma SourcesUpdate(cfg: Config, d: Demand, a: Assignments, id: string, sources: map<string, string>, other: string)
    requires cfg.WellFormed() && id in cfg.layers && other in cfg.layers && SourcesOk(cfg, d, a, other)
    requires forall name | name in sources :: SourceOk(cfg, d, id, name, sources[name])
    ensures SourcesOk(cfg, d, a[id := sources], other)
  {
    hide SourceOk;
    var a' := a[id := sources];
    assert Assigned(a', other) == if other == id then sources else Assigned(a, other);
  }

  /** One layer: every name wanted at its turn gets one source; only the layer below can be asked for more. */
  method AssignLayer(cfg: Config, demand: Demand, id: string) returns (failure: Option<(string, Resolution)>, sources: map<string, string>, demand': Demand)
    requires cfg.WellFormed() && id in cfg.order
    ensures failure.Some? ==> failure.value.0 in Wanted(demand, id) && !failure.value.1.Source? && LayerResolves(cfg, id, failure.value.0, failure.value.1)
    ensures failure.None? ==> sources.Keys == Wanted(demand, id)
    ensures failure.None? ==> forall name | name in sources :: SourceOk(cfg, demand', id, name, sources[name])
    ensures failure.None? ==> Grows(demand, demand')
    ensures failure.None? ==> forall other | cfg.layers[id].lower != Some(other) :: Wanted(demand', other) == Wanted(demand, other)
  {
    hide ResolvedAs, NoDuplicates;
    sources, demand' := map[], demand;
    var layer := cfg.layers[id];
    var prior := if layer.facade in cfg.world then Some(cfg.world[layer.facade]) else None;
    assert prior == Prior(cfg, id);
    var lowerFacade := cfg.LowerFacade(id);
    var names := SortedSet(Wanted(demand, id));
    for i := 0 to |names|
      invariant forall n :: n in sources <==> n in names[..i]
      invariant forall name | name in sources :: SourceOk(cfg, demand', id, name, sources[name])
      invariant Grows(demand, demand')
      invariant forall other | layer.lower != Some(other) :: Wanted(demand', other) == Wanted(demand, other)
    {
      var name := names[i];
      assert names[..i + 1] == names[..i] + [name];
      var found := ResolveContract(cfg.world, name, prior, layer.memberApis, lowerFacade, cfg.Generated());
      if !found.Source? {
        return Some((name, found)), sources, demand';
      }
      ghost var before := demand';
      if lowerFacade.Some? && found.source == lowerFacade.value {
        var lower := layer.lower.value;
        demand' := demand'[lower := Wanted(demand', lower) + {name}];
      }
      assert Grows(before, demand');
      forall n | n in sources ensures SourceOk(cfg, demand', id, n, sources[n]) {
        assert SourceOk(cfg, before, id, n, sources[n]);
      }
      sources := sources[name := found.source];
    }
    assert names[..|names|] == names;
    assert sources.Keys == Wanted(demand, id);
    failure := None;
  }

  /** The assignment and demand loop of `main`. */
  method Generate(cfg: Config, demand: Demand) returns (r: Outcome)
    requires cfg.WellFormed()
    ensures r.Failed? ==> r.layer in cfg.order && !r.why.Source? && LayerResolves(cfg, r.layer, r.name, r.why)
    ensures r.Done? ==> Grows(demand, r.demand) && forall id | id in cfg.order :: SourcesOk(cfg, r.demand, r.assignments, id)
    ensures r.Done? ==> forall id | id in cfg.order :: Assigned(r.assignments, id).Keys <= Wanted(r.demand, id)
    ensures r.Done? && TopDown(cfg) ==> forall id | id in cfg.order :: Assigned(r.assignments, id).Keys == Wanted(r.demand, id)
  {
    hide SourceOk, NoDuplicates, LayerResolves;
    var current, assignments := demand, map[];
    for i := 0 to |cfg.order|
      invariant Grows(demand, current)
      invariant forall id | id in cfg.layers :: SourcesOk(cfg, current, assignments, id)
      invariant forall j | 0 <= j < i :: Assigned(assignments, cfg.order[j]).Keys <= Wanted(current, cfg.order[j])
      invariant TopDown(cfg) ==> forall j | 0 <= j < i :: Assigned(assignments, cfg.order[j]).Keys == Wanted(current, cfg.order[j])
    {
      var id := cfg.order[i];
      var failure, sources, next := AssignLayer(cfg, current, id);
      if failure.Some? {
        return Failed(id, failure.value.0, failure.value.1);
      }
      ghost var before := assignments;
      forall other | other in cfg.layers ensures SourcesOk(cfg, next, before, other) {
        SourcesGrow(cfg, current, next, before, other);
      }
      assignments := assignments[id := sources];
      forall other | other in cfg.layers ensures SourcesOk(cfg, next, assignments, other) {
        SourcesUpdate(cfg, next, before, id, sources, other);
      }
      LayerDone(cfg, current, next, before, sources, i);
      current := next;
    }
    forall id | id in cfg.order ensures SourcesOk(cfg, current, assignments, id) {}
    r := Done(current, assignments);
  }

  /** Processing layer i leaves the layers before it complete, if every lower layer comes later. */
  lemma LayerDone(cfg: Config, d: Demand, d': Demand, a: Assignments, sources: map<string, string>, i: nat)
    requires cfg.WellFormed() && i < |cfg.order| && Grows(d, d') && sources.Keys == Wanted(d, cfg.order[i])
    requires forall other | cfg.layers[cfg.order[i]].lower != Some(other) :: Wanted(d', other) == Wanted(d, other)
    requires forall j | 0 <= j < i :: Assigned(a, cfg.order[j]).Keys <= Wanted(d, cfg.order[j])
    requires TopDown(cfg) ==> forall j | 0 <= j < i :: Assigned(a, cfg.order[j]).Keys == Wanted(d, cfg.order[j])
    ensures var a' := a[cfg.order[i] := sources];
      && (forall j | 0 <= j < i + 1 :: Assigned(a', cfg.order[j]).Keys <= Wanted(d', cfg.order[j]))
      && (TopDown(cfg) ==> forall j | 0 <= j < i + 1 :: Assigned(a', cfg.order[j]).Keys == Wanted(d', cfg.order[j]))
  {
    var a' := a[cfg.order[i] := sources];
    forall j | 0 <= j < i + 1 ensures Assigned(a', cfg.order[j]).Keys <= Wanted(d', cfg.order[j])
      ensures TopDown(cfg) ==> Assigned(a', cfg.order[j]).Keys == Wanted(d', cfg.order[j])
    {
      if TopDown(cfg) {
        assert cfg.layers[cfg.order[i]].lower != Some(cfg.order[j]);
      }
      if j < i { assert cfg.order[j] != cfg.order[i]; }
    }
  }

  // ----- the generated facades import cleanly -----

  /** Member APIs are written by hand, and a layer's facade is generated only if the layer is. */
  ghost predicate Separate(cfg: Config)
    requires cfg.WellFormed()
  {
    && (forall id, api | id in cfg.order && api in cfg.layers[id].memberApis :: api !in cfg.Generated())
    && (forall id | id in cfg.layers && cfg.layers[id].facade in cfg.Generated() :: id in cfg.order)
  }

  /** The outcome of a successful top-down pass. */
  ghost predicate Complete(cfg: Config, demand: Demand, a: Assignments) {
    && cfg.WellFormed()
    && (forall id | id in cfg.order :: SourcesOk(cfg, demand, a, id) && Assigned(a, id).Keys == Wanted(demand, id))
  }

  /** What a module exports once the pass has written its facades. */
  ghost predicate ExportsAfter(cfg: Config, demand: Demand, api: string, name: string)
    requires cfg.WellFormed()
  {
    if api in cfg.Generated() then exists id :: id in cfg.order && cfg.layers[id].facade == api && name in Wanted(demand, id)
    else Has(cfg.world, api, name)
  }

  /** No generated import dangles: each assigned source exports the name after the pass. */
  lemma NothingDangles(cfg: Config, demand: Demand, a: Assignments, id: string, name: string)
    requires Complete(cfg, demand, a) && Separate(cfg) && id in cfg.order && name in Wanted(demand, id)
    ensures name in Assigned(a, id) && ExportsAfter(cfg, demand, Assigned(a, id)[name], name)
  {
    var source := Assigned(a, id)[name];
    assert SourcesOk(cfg, demand, a, id) && SourceOk(cfg, demand, id, name, source);
    if cfg.LowerFacade(id) == Some(source) && source in cfg.Generated() {
      assert cfg.layers[id].lower.value in cfg.order;
    }
  }

  function Position(order: seq<string>, id: string): (i: nat)
    requires id in order
    ensures i < |order| && order[i] == id
  {
    if order[0] == id then 0 else 1 + Position(order[1..], id)
  }

  lemma LowerIsLater(cfg: Config, i: nat, lower: string)
    requires cfg.WellFormed() && TopDown(cfg) && i < |cfg.order| && cfg.layers[cfg.order[i]].lower == Some(lower) && lower in cfg.order
    ensures i < Position(cfg.order, lower)
  {
    var j := Position(cfg.order, lower);
    if j <= i { assert false; }
  }

  /** One source: grounded, or the facade of a later layer that is asked for the same name. */
  lemma SourceStep(cfg: Config, demand: Demand, a: Assignments, i: nat, name: string)
    requires Complete(cfg, demand, a) && Separate(cfg) && TopDown(cfg) && i < |cfg.order| && name in Wanted(demand, cfg.order[i])
    ensures name in Assigned(a, cfg.order[i])
    ensures var source, lower := Assigned(a, cfg.order[i])[name], cfg.layers[cfg.order[i]].lower;
      if source !in cfg.Generated() then Has(cfg.world, source, name)
      else
        && lower.Some? && lower.value in cfg.order && source == cfg.layers[lower.value].facade
        && name in Wanted(demand, lower.value) && i < Position(cfg.order, lower.value)
  {
    var id := cfg.order[i];
    NothingDangles(cfg, demand, a, id, name);
    var source := Assigned(a, id)[name];
    assert SourcesOk(cfg, demand, a, id) && SourceOk(cfg, demand, id, name, source);
    if source in cfg.Generated() {
      LowerIsLater(cfg, i, cfg.layers[id].lower.value);
    }
  }

  /** A way down from layer i: different layers, each importing the name from the facade of the next, the last one from `ground`. */
  ghost predicate WayDown(cfg: Config, a: Assignments, i: nat, name: string, path: seq<string>, ground: string)
    requires cfg.WellFormed() && i < |cfg.order|
  {
    && path != [] && path[0] == cfg.order[i] && NoDuplicates(path)
    && (forall k | 0 <= k < |path| :: path[k] in cfg.order && name in Assigned(a, path[k]) && i <= Position(cfg.order, path[k]))
    && (forall k, l | 0 <= k < l < |path| && l == k + 1 :: Assigned(a, path[k])[name] == cfg.layers[path[l]].facade)
    && Assigned(a, path[|path| - 1])[name] == ground && ground !in cfg.Generated() && Has(cfg.world, ground, name)
  }

  lemma WayFrom(cfg: Config, a: Assignments, i: nat, j: nat, name: string, path: seq<string>, ground: string)
    requires cfg.WellFormed() && i < j < |cfg.order| && WayDown(cfg, a, j, name, path, ground)
    requires name in Assigned(a, cfg.order[i]) && Assigned(a, cfg.order[i])[name] == cfg.layers[cfg.order[j]].facade
    ensures WayDown(cfg, a, i, name, [cfg.order[i]] + path, ground)
  {
    hide Has, Position, Assigned;
    PositionIs(cfg.order, i);
    var longer := [cfg.order[i]] + path;
    forall k | 0 <= k < |path| ensures path[k] != cfg.order[i] {
      assert j <= Position(cfg.order, path[k]);
    }
    forall k, l | 0 <= k < l < |longer| && l == k + 1 ensures Assigned(a, longer[k])[name] == cfg.layers[longer[l]].facade {
      if k > 0 { assert longer[k] == path[k - 1] && longer[l] == path[l - 1]; }
    }
    assert longer[|longer| - 1] == path[|path| - 1];
  }

  /** Following the sources of a demanded name downwards ends, after finitely many generated facades, at a module that
      this pass does not write and that really exports the name. */
  lemma {:induction false} Grounded(cfg: Config, demand: Demand, a: Assignments, i: nat, name: string) returns (path: seq<string>, ground: string)
    requires Complete(cfg, demand, a) && Separate(cfg) && TopDown(cfg) && i < |cfg.order| && name in Wanted(demand, cfg.order[i])
    ensures WayDown(cfg, a, i, name, path, ground)
    decreases |cfg.order| - i
  {
    hide Separate, TopDown, SourcesOk, SourceOk;
    var source := Assigned(a, cfg.order[i])[name];
    SourceStep(cfg, demand, a, i, name);
    if source in cfg.Generated() {
      hide WayDown;
      var j := Position(cfg.order, cfg.layers[cfg.order[i]].lower.value);
      var rest, end := Grounded(cfg, demand, a, j, name);
      WayFrom(cfg, a, i, j, name, rest, end);
      path, ground := [cfg.order[i]] + rest, end;
    } else {
      PositionIs(cfg.order, i);
      path, ground := [cfg.order[i]], source;
    }
  }

  lemma PositionIs(order: seq<string>, i: nat)
    requires NoDuplicates(order) && i < |order|
    ensures Position(order, order[i]) == i
  {
  }
}
