/** Resolving a public name through definitions, explicit re-exports and star re-exports. Modules may
    import each other in cycles; the set of (file, name) pairs already followed cuts them. */
module SymbolResolution {
  import opened Graphs
  import opened Ordering

  datatype Option<T> = None | Some(value: T)

  type Path = string
  type Key = (Path, string)

  datatype Kind = Class | Function | AsyncFunction | Value

  /** A top-level statement, as far as it matters here. */
  datatype Stmt =
    | Define(name: string, kind: Kind)
    | Assign(targets: seq<string>)
    | ImportFrom(from: string, aliases: seq<Alias>)
    | Other

  datatype Alias = Alias(name: string, asname: Option<string>) {
    function Local(): string { if asname.Some? then asname.value else name }
  }

  datatype Reference = Reference(from: string, origin: string)

  /** What the scan of a module body collects. */
  datatype Surface = Surface(definitions: map<string, Kind>, reexports: map<string, Reference>, stars: seq<string>)

  /** Parsed files, and the file that a module reference in a file leads to. */
  datatype World = World(files: map<Path, seq<Stmt>>, sources: map<(Path, string), Path>) {
    function Source(path: Path, target: string): (r: Option<Path>)
      ensures r.Some? ==> r.value in files
    {
      if (path, target) in sources && sources[(path, target)] in files then Some(sources[(path, target)]) else None
    }

    function SurfaceOf(path: Path): Surface
      requires path in files
    {
      ScanAll(files[path])
    }
  }

  // ----- scanning one module -----

  function AddNames(definitions: map<string, Kind>, targets: seq<string>): map<string, Kind> {
    if targets == [] then definitions
    else AddNames(definitions, targets[..|targets| - 1])[targets[|targets| - 1] := Value]
  }

  function AddAlias(s: Surface, from: string, alias: Alias): Surface {
    if alias.name == "*" then s.(stars := s.stars + [from])
    else s.(reexports := s.reexports[alias.Local() := Reference(from, alias.name)])
  }

  function AddAliases(s: Surface, from: string, aliases: seq<Alias>): Surface {
    if aliases == [] then s
    else AddAlias(AddAliases(s, from, aliases[..|aliases| - 1]), from, aliases[|aliases| - 1])
  }

  function ScanStmt(s: Surface, stmt: Stmt): Surface {
    match stmt
    case Define(name, kind) => s.(definitions := s.definitions[name := kind])
    case Assign(targets) => s.(definitions := AddNames(s.definitions, targets))
    case ImportFrom(from, aliases) => AddAliases(s, from, aliases)
    case Other => s
  }

  function ScanAll(body: seq<Stmt>): Surface {
    if body == [] then Surface(map[], map[], []) else ScanStmt(ScanAll(body[..|body| - 1]), body[|body| - 1])
  }

  /** The loop over the statements of a module. */
  method Scan(body: seq<Stmt>) returns (definitions: map<string, Kind>, reexports: map<string, Reference>, stars: seq<string>)
    ensures Surface(definitions, reexports, stars) == ScanAll(body)
  {
    definitions, reexports, stars := map[], map[], [];
    for i := 0 to |body|
      invariant Surface(definitions, reexports, stars) == ScanAll(body[..i])
    {
      assert body[..i + 1][..i] == body[..i];
      ghost var before := Surface(definitions, reexports, stars);
      match body[i] {
        case Define(name, kind) => definitions := definitions[name := kind];
        case Assign(targets) =>
          for j := 0 to |targets|
            invariant definitions == AddNames(before.definitions, targets[..j])
          {
            assert targets[..j + 1][..j] == targets[..j];
            definitions := definitions[targets[j] := Value];
          }
          assert targets[..|targets|] == targets;
        case ImportFrom(from, aliases) =>
          for j := 0 to |aliases|
            invariant Surface(definitions, reexports, stars) == AddAliases(before, from, aliases[..j])
          {
            assert aliases[..j + 1][..j] == aliases[..j];
            var alias := aliases[j];
            if alias.name == "*" {
              stars := stars + [from];
            } else {
              reexports := reexports[alias.Local() := Reference(from, alias.name)];
            }
          }
          assert aliases[..|aliases|] == aliases;
        case Other =>
      }
    }
    assert body[..|body|] == body;
  }

  // ----- what the scan means, from the statements alone -----

  ghost predicate DefinesName(stmt: Stmt, name: string) {
    (stmt.Define? && stmt.name == name) || (stmt.Assign? && name in stmt.targets)
  }

  /** Statement i is the last one that defines the name. */
  ghost predicate DefinesAt(body: seq<Stmt>, i: int, name: string) {
    0 <= i < |body| && DefinesName(body[i], name) && forall j | i < j < |body| :: !DefinesName(body[j], name)
  }

  /** Of all statements that define the name the last one gives its kind. */
  ghost predicate LastDefinition(body: seq<Stmt>, name: string, kind: Kind) {
    exists i :: DefinesAt(body, i, name) && kind == if body[i].Define? then body[i].kind else Value
  }

  /** The import binds the name: under its new name if it has one, else under its own. */
  ghost predicate Binds(alias: Alias, name: string) {
    alias.name != "*" && (alias.asname == Some(name) || (alias.asname.None? && alias.name == name))
  }

  ghost predicate ImportsName(stmt: Stmt, name: string) {
    stmt.ImportFrom? && exists k | 0 <= k < |stmt.aliases| :: Binds(stmt.aliases[k], name)
  }

  ghost predicate LastAlias(aliases: seq<Alias>, k: int, name: string) {
    0 <= k < |aliases| && Binds(aliases[k], name) && forall l | k < l < |aliases| :: !Binds(aliases[l], name)
  }

  /** Alias k of statement i is the last one that binds the name. */
  ghost predicate ImportsAt(body: seq<Stmt>, i: int, k: int, name: string) {
    && 0 <= i < |body| && body[i].ImportFrom? && LastAlias(body[i].aliases, k, name)
    && forall j | i < j < |body| :: !ImportsName(body[j], name)
  }

  /** Of all imports that bind the name the last one is what it refers to. */
  ghost predicate LastImport(body: seq<Stmt>, name: string, ref: Reference) {
    exists i, k :: ImportsAt(body, i, k, name) && ref == Reference(body[i].from, body[i].aliases[k].name)
  }

  lemma {:induction false} NamesAdded(definitions: map<string, Kind>, targets: seq<string>, name: string)
    ensures var d := AddNames(definitions, targets);
      if name in targets then name in d && d[name] == Value
      else (name in d <==> name in definitions) && (name in d ==> d[name] == definitions[name])
  {
    if targets != [] {
      NamesAdded(definitions, targets[..|targets| - 1], name);
      assert targets == targets[..|targets| - 1] + [targets[|targets| - 1]];
    }
  }

  lemma AliasAdded(s: Surface, from: string, alias: Alias, name: string)
    ensures var r := AddAlias(s, from, alias);
      && r.definitions == s.definitions
      && if Binds(alias, name) then name in r.reexports && r.reexports[name] == Reference(from, alias.name)
         else (name in r.reexports <==> name in s.reexports) && (name in r.reexports ==> r.reexports[name] == s.reexports[name])
  {
  }

  lemma {:induction false} AliasesKeep(s: Surface, from: string, aliases: seq<Alias>, name: string)
    ensures var r := AddAliases(s, from, aliases);
      && r.definitions == s.definitions
      && ((forall k | 0 <= k < |aliases| :: !Binds(aliases[k], name)) ==>
           (name in r.reexports <==> name in s.reexports) && (name in r.reexports ==> r.reexports[name] == s.reexports[name]))
  {
    hide AddAlias, Binds;
    if aliases != [] {
      var n := |aliases| - 1;
      AliasesKeep(s, from, aliases[..n], name);
      AliasAdded(AddAliases(s, from, aliases[..n]), from, aliases[n], name);
      if forall k | 0 <= k < |aliases| :: !Binds(aliases[k], name) {
        assert !Binds(aliases[n], name);
        forall k | 0 <= k < n ensures !Binds(aliases[..n][k], name) { assert !Binds(aliases[k], name); }
      }
    }
  }

  lemma {:induction false} AliasesLast(s: Surface, from: string, aliases: seq<Alias>, k: int, name: string)
    requires LastAlias(aliases, k, name)
    ensures var r := AddAliases(s, from, aliases); name in r.reexports && r.reexports[name] == Reference(from, aliases[k].name)
    decreases |aliases|
  {
    hide AddAlias, Binds;
    var n := |aliases| - 1;
    AliasAdded(AddAliases(s, from, aliases[..n]), from, aliases[n], name);
    if k < n {
      forall l | k < l < n ensures !Binds(aliases[..n][l], name) { assert !Binds(aliases[l], name); }
      AliasesLast(s, from, aliases[..n], k, name);
    }
  }

  lemma AliasesAdded(s: Surface, from: string, aliases: seq<Alias>, name: string)
    ensures var r := AddAliases(s, from, aliases);
      && r.definitions == s.definitions
      && (forall k :: LastAlias(aliases, k, name) ==> name in r.reexports && r.reexports[name] == Reference(from, aliases[k].name))
      && ((forall k | 0 <= k < |aliases| :: !Binds(aliases[k], name)) ==>
           (name in r.reexports <==> name in s.reexports) && (name in r.reexports ==> r.reexports[name] == s.reexports[name]))
  {
    hide AddAliases, Binds;
    AliasesKeep(s, from, aliases, name);
    forall k | LastAlias(aliases, k, name)
      ensures var r := AddAliases(s, from, aliases); name in r.reexports && r.reexports[name] == Reference(from, aliases[k].name)
    {
      AliasesLast(s, from, aliases, k, name);
    }
  }

  /** Some alias binds the name exactly when there is a last one that does. */
  lemma {:induction false} SomeLastAlias(aliases: seq<Alias>, name: string)
    ensures (exists k | 0 <= k < |aliases| :: Binds(aliases[k], name)) ==> exists k :: LastAlias(aliases, k, name)
  {
    if aliases != [] {
      var n := |aliases| - 1;
      if Binds(aliases[n], name) {
        assert LastAlias(aliases, n, name);
      } else if k :| 0 <= k < |aliases| && Binds(aliases[k], name) {
        assert Binds(aliases[..n][k], name);
        SomeLastAlias(aliases[..n], name);
        var l :| LastAlias(aliases[..n], l, name);
        assert LastAlias(aliases, l, name);
      }
    }
  }

  /** The scanned definition of a name is its last one. */
  lemma {:induction false} ScannedDefinition(body: seq<Stmt>, name: string, kind: Kind)
    ensures var d := ScanAll(body).definitions; name in d && d[name] == kind <==> LastDefinition(body, name, kind)
  {
    if body != [] {
      var n := |body| - 1;
      var stmt, before := body[n], ScanAll(body[..n]);
      ScannedDefinition(body[..n], name, kind);
      if stmt.Assign? { NamesAdded(before.definitions, stmt.targets, name); }
      if stmt.ImportFrom? { AliasesAdded(before, stmt.from, stmt.aliases, name); }
      hide AddNames, AddAliases;
      if DefinesName(stmt, name) {
        assert DefinesAt(body, n, name);
        if i :| DefinesAt(body, i, name) && kind == if body[i].Define? then body[i].kind else Value { assert i == n; }
      } else {
        LastDefinitionBefore(body, name, kind);
      }
    }
  }

  lemma DefinesBefore(body: seq<Stmt>, i: int, name: string)
    requires body != [] && !DefinesName(body[|body| - 1], name)
    ensures DefinesAt(body, i, name) <==> DefinesAt(body[..|body| - 1], i, name)
  {
    var n := |body| - 1;
    assert forall j | 0 <= j < n :: body[..n][j] == body[j];
    if DefinesAt(body[..n], i, name) {
      forall j | i < j < |body| ensures !DefinesName(body[j], name) {
        if j < n { assert !DefinesName(body[..n][j], name); }
      }
    }
  }

  lemma LastDefinitionBefore(body: seq<Stmt>, name: string, kind: Kind)
    requires body != [] && !DefinesName(body[|body| - 1], name)
    ensures LastDefinition(body, name, kind) <==> LastDefinition(body[..|body| - 1], name, kind)
  {
    var init := body[..|body| - 1];
    assert forall j | 0 <= j < |init| :: init[j] == body[j];
    if i :| DefinesAt(body, i, name) && kind == if body[i].Define? then body[i].kind else Value {
      DefinesBefore(body, i, name);
    }
    if i :| DefinesAt(init, i, name) && kind == if init[i].Define? then init[i].kind else Value {
      DefinesBefore(body, i, name);
    }
  }

  /** The scanned re-export of a name is its last import. */
  lemma {:induction false} ScannedImport(body: seq<Stmt>, name: string, ref: Reference)
    ensures var r := ScanAll(body).reexports; name in r && r[name] == ref <==> LastImport(body, name, ref)
  {
    if body != [] {
      var n := |body| - 1;
      var stmt, before := body[n], ScanAll(body[..n]);
      ScannedImport(body[..n], name, ref);
      hide AddNames, AddAliases;
      if ImportsName(stmt, name) {
        ScannedHere(body, name, ref);
      } else {
        if stmt.ImportFrom? { AliasesAdded(before, stmt.from, stmt.aliases, name); }
        hide LastImport;
        LastImportBefore(body, name, ref);
      }
    }
  }

  lemma ScannedHere(body: seq<Stmt>, name: string, ref: Reference)
    requires body != [] && ImportsName(body[|body| - 1], name)
    ensures var r := ScanAll(body).reexports; name in r && r[name] == ref <==> LastImport(body, name, ref)
  {
    var n := |body| - 1;
    var stmt := body[n];
    AliasesAdded(ScanAll(body[..n]), stmt.from, stmt.aliases, name);
    SomeLastAlias(stmt.aliases, name);
    hide AddAliases, Binds;
    var k :| LastAlias(stmt.aliases, k, name);
    assert ImportsAt(body, n, k, name);
    if i, l :| ImportsAt(body, i, l, name) && ref == Reference(body[i].from, body[i].aliases[l].name) {
      LastImportUnique(body, i, l, n, k, name);
    }
  }

  lemma LastImportUnique(body: seq<Stmt>, i: int, k: int, j: int, l: int, name: string)
    requires ImportsAt(body, i, k, name) && ImportsAt(body, j, l, name)
    ensures i == j && k == l
  {
    assert ImportsName(body[i], name) && ImportsName(body[j], name);
  }

  lemma ImportsBefore(body: seq<Stmt>, i: int, k: int, name: string)
    requires body != [] && !ImportsName(body[|body| - 1], name)
    ensures ImportsAt(body, i, k, name) <==> ImportsAt(body[..|body| - 1], i, k, name)
  {
    hide Binds;
    var n := |body| - 1;
    assert forall j | 0 <= j < n :: body[..n][j] == body[j];
    if ImportsAt(body, i, k, name) {
      assert ImportsName(body[i], name);
    }
    if ImportsAt(body[..n], i, k, name) {
      hide ImportsName;
      forall j | i < j < |body| ensures !ImportsName(body[j], name) {
        if j < n { assert !ImportsName(body[..n][j], name); }
      }
    }
  }

  lemma LastImportBefore(body: seq<Stmt>, name: string, ref: Reference)
    requires body != [] && !ImportsName(body[|body| - 1], name)
    ensures LastImport(body, name, ref) <==> LastImport(body[..|body| - 1], name, ref)
  {
    hide ImportsName, Binds;
    var init := body[..|body| - 1];
    assert forall j | 0 <= j < |init| :: init[j] == body[j];
    if i, k :| ImportsAt(body, i, k, name) && ref == Reference(body[i].from, body[i].aliases[k].name) {
      ImportsBefore(body, i, k, name);
    }
    if i, k :| ImportsAt(init, i, k, name) && ref == Reference(init[i].from, init[i].aliases[k].name) {
      ImportsBefore(body, i, k, name);
    }
  }

  /** Alias k of statement i is a star. */
  ghost predicate StarAt(body: seq<Stmt>, i: int, k: int) {
    0 <= i < |body| && body[i].ImportFrom? && 0 <= k < |body[i].aliases| && body[i].aliases[k].name == "*"
  }

  ghost predicate Earlier(a: (int, int), b: (int, int)) { a.0 < b.0 || (a.0 == b.0 && a.1 < b.1) }

  /** These are all the star imports of the body, in its order, and the modules they name. */
  ghost predicate StarsInOrder(body: seq<Stmt>, at: seq<(int, int)>, stars: seq<string>) {
    && |at| == |stars|
    && (forall n | 0 <= n < |at| :: StarAt(body, at[n].0, at[n].1) && stars[n] == body[at[n].0].from)
    && (forall m, n | 0 <= m < n < |at| :: Earlier(at[m], at[n]))
    && (forall i, k | StarAt(body, i, k) :: (i, k) in at)
  }

  /** The star aliases of one import, as positions in statement i. */
  ghost function StarAliases(i: int, aliases: seq<Alias>): (at: seq<(int, int)>)
    ensures forall n | 0 <= n < |at| :: at[n].0 == i && 0 <= at[n].1 < |aliases| && aliases[at[n].1].name == "*"
    ensures forall m, n | 0 <= m < n < |at| :: at[m].1 < at[n].1
    ensures forall k | 0 <= k < |aliases| && aliases[k].name == "*" :: (i, k) in at
  {
    if aliases == [] then []
    else
      var n := |aliases| - 1;
      StarAliases(i, aliases[..n]) + if aliases[n].name == "*" then [(i, n)] else []
  }

  lemma {:induction false} StarsAdded(s: Surface, from: string, i: int, aliases: seq<Alias>)
    ensures AddAliases(s, from, aliases).stars == s.stars + seq(|StarAliases(i, aliases)|, n => from)
  {
    if aliases != [] { StarsAdded(s, from, i, aliases[..|aliases| - 1]); }
  }

  /** The star aliases of the last statement, and the module each of them names. */
  ghost function MoreStars(body: seq<Stmt>): seq<(int, int)>
    requires body != []
  {
    var n := |body| - 1;
    if body[n].ImportFrom? then StarAliases(n, body[n].aliases) else []
  }

  ghost function MoreNames(body: seq<Stmt>): seq<string>
    requires body != []
  {
    var n := |body| - 1;
    if body[n].ImportFrom? then seq(|StarAliases(n, body[n].aliases)|, k => body[n].from) else []
  }

  lemma MoreAreLast(body: seq<Stmt>)
    requires body != []
    ensures LastStars(body, MoreStars(body), MoreNames(body))
  {
    var n := |body| - 1;
    var stmt := body[n];
    if stmt.ImportFrom? {
      var more := StarAliases(n, stmt.aliases);
      hide StarAliases;
      forall k | 0 <= k < |more| ensures more[k].0 == n && StarAt(body, more[k].0, more[k].1) {}
      forall i, k | StarAt(body, i, k) && i == n ensures (i, k) in more {}
    }
  }

  lemma StarsGrow(body: seq<Stmt>)
    requires body != []
    ensures ScanAll(body).stars == ScanAll(body[..|body| - 1]).stars + MoreNames(body)
  {
    hide StarAliases;
    var n := |body| - 1;
    if body[n].ImportFrom? { StarsAdded(ScanAll(body[..n]), body[n].from, n, body[n].aliases); }
    else { assert ScanAll(body[..n]).stars + [] == ScanAll(body[..n]).stars; }
  }

  /** The scanned stars are all the star imports, in order. */
  lemma {:induction false} ScannedStars(body: seq<Stmt>) returns (at: seq<(int, int)>)
    ensures StarsInOrder(body, at, ScanAll(body).stars)
  {
    if body == [] {
      at := [];
    } else {
      hide StarsInOrder, LastStars, ScanAll, MoreStars, MoreNames;
      var before := ScannedStars(body[..|body| - 1]);
      at := before + MoreStars(body);
      MoreAreLast(body);
      StarsGrow(body);
      StarsNext(body, before, MoreStars(body), ScanAll(body[..|body| - 1]).stars, MoreNames(body));
    }
  }

  /** All the star aliases of the last statement. */
  ghost predicate LastStars(body: seq<Stmt>, more: seq<(int, int)>, names: seq<string>) {
    && body != [] && |names| == |more|
    && (forall n | 0 <= n < |more| :: more[n].0 == |body| - 1 && StarAt(body, more[n].0, more[n].1) && names[n] == body[|body| - 1].from)
    && (forall m, n | 0 <= m < n < |more| :: more[m].1 < more[n].1)
    && (forall i, k | StarAt(body, i, k) && i == |body| - 1 :: (i, k) in more)
  }

  lemma StarBefore(body: seq<Stmt>, i: int, k: int)
    requires body != []
    ensures StarAt(body[..|body| - 1], i, k) <==> StarAt(body, i, k) && i < |body| - 1
  {
  }

  lemma StarsNext(body: seq<Stmt>, before: seq<(int, int)>, more: seq<(int, int)>, stars: seq<string>, names: seq<string>)
    requires LastStars(body, more, names) && StarsInOrder(body[..|body| - 1], before, stars)
    ensures StarsInOrder(body, before + more, stars + names)
  {
    hide StarAt;
    var last := |body| - 1;
    var at, all := before + more, stars + names;
    forall n | 0 <= n < |at| ensures StarAt(body, at[n].0, at[n].1) && 0 <= at[n].0 < |body| && body[at[n].0].ImportFrom? && all[n] == body[at[n].0].from {
      StarThere(body, before, more, stars, names, n);
    }
    forall m, n | 0 <= m < n < |at| ensures Earlier(at[m], at[n]) {
      if m < |before| <= n { StarThere(body, before, more, stars, names, m); }
    }
    forall i, k | StarAt(body, i, k) ensures (i, k) in at {
      StarBefore(body, i, k);
      if i != last { StarInside(body, i, k); }
    }
  }

  lemma StarInside(body: seq<Stmt>, i: int, k: int)
    requires StarAt(body, i, k)
    ensures 0 <= i < |body| && body[i].ImportFrom?
  {
  }

  lemma StarThere(body: seq<Stmt>, before: seq<(int, int)>, more: seq<(int, int)>, stars: seq<string>, names: seq<string>, n: nat)
    requires LastStars(body, more, names) && StarsInOrder(body[..|body| - 1], before, stars) && n < |before + more|
    ensures var p := (before + more)[n];
      && StarAt(body, p.0, p.1) && 0 <= p.0 < |body| && body[p.0].ImportFrom? && (stars + names)[n] == body[p.0].from
      && (n < |before| ==> p.0 < |body| - 1)
  {
    var p := (before + more)[n];
    if n < |before| { StarBefore(body, p.0, p.1); }
  }

  // ----- resolution -----

  datatype Symbol =
    | Defined(name: string, kind: Kind)
    | Reexport(name: string, from: string, origin: string, resolved: Option<Symbol>)
    | Unknown(name: string)

  /** Every name that some explicit re-export refers to. */
  function Origins(w: World): set<string> {
    set p, n | p in w.files && n in w.SurfaceOf(p).reexports :: w.SurfaceOf(p).reexports[n].origin
  }

  /** The pairs that a resolution of these names can still follow. */
  function Unfollowed(w: World, names: set<string>, seen: set<Key>): set<Key> {
    (set p, n | p in w.files && n in Origins(w) + names :: (p, n)) - seen
  }

  lemma FollowShrinks(w: World, name: string, next: string, source: Path, seen: set<Key>)
    requires source in w.files && (source, next) !in seen && (next == name || next in Origins(w))
    ensures Unfollowed(w, {next}, seen + {(source, next)}) < Unfollowed(w, {name}, seen)
  {
    assert (source, next) in Unfollowed(w, {name}, seen);
    assert (source, next) !in Unfollowed(w, {next}, seen + {(source, next)});
  }

  /** The row for one name: a definition wins over an explicit re-export, which wins over star re-exports. */
  function Resolve(w: World, path: Path, name: string, seen: set<Key>): Symbol
    requires path in w.files
    decreases Unfollowed(w, {name}, seen), 1, 0
  {
    var s := w.SurfaceOf(path);
    if name in s.definitions then Defined(name, s.definitions[name])
    else if name in s.reexports then
      var ref := s.reexports[name];
      var source := w.Source(path, ref.from);
      if source.Some? && (source.value, ref.origin) !in seen then
        FollowShrinks(w, name, ref.origin, source.value, seen);
        Reexport(name, ref.from, ref.origin, Some(Resolve(w, source.value, ref.origin, seen + {(source.value, ref.origin)})))
      else Reexport(name, ref.from, ref.origin, None)
    else ResolveStars(w, path, name, s.stars, seen)
  }

  /** The first star import through which the name is known. */
  function ResolveStars(w: World, path: Path, name: string, stars: seq<string>, seen: set<Key>): Symbol
    requires path in w.files
    decreases Unfollowed(w, {name}, seen), 0, |stars|
  {
    if stars == [] then Unknown(name)
    else
      var source := w.Source(path, stars[0]);
      if source.None? || (source.value, name) in seen then ResolveStars(w, path, name, stars[1..], seen)
      else
        FollowShrinks(w, name, name, source.value, seen);
        var candidate := Resolve(w, source.value, name, seen + {(source.value, name)});
        if candidate.Unknown? then ResolveStars(w, path, name, stars[1..], seen)
        else Reexport(name, stars[0], name, Some(candidate))
  }

  lemma UnfollowedOf(w: World, names: set<string>, name: string, seen: set<Key>)
    requires name in names
    ensures Unfollowed(w, {name}, seen) <= Unfollowed(w, names, seen)
  {
  }

  /** `_symbols`: one row per name, on every import graph. */
  method Symbols(w: World, path: Path, names: seq<string>, seen: set<Key>) returns (rows: seq<Symbol>)
    requires path in w.files
    ensures |rows| == |names| && forall i | 0 <= i < |names| :: rows[i] == Resolve(w, path, names[i], seen)
    ensures forall i | 0 <= i < |names| :: Describes(w, path, names[i], seen, rows[i])
    decreases Unfollowed(w, Elements(names), seen)
  {
    hide Unfollowed, Origins;
    var definitions, reexports, stars := Scan(w.files[path]);
    rows := [];
    for i := 0 to |names|
      invariant |rows| == i && forall j | 0 <= j < i :: rows[j] == Resolve(w, path, names[j], seen)
    {
      var name := names[i];
      UnfollowedOf(w, Elements(names), name, seen);
      if name in definitions {
        rows := rows + [Defined(name, definitions[name])];
      } else if name in reexports {
        var ref := reexports[name];
        var source := w.Source(path, ref.from);
        var resolved := None;
        if source.Some? && (source.value, ref.origin) !in seen {
          OriginKnown(w, path, name);
          FollowShrinks(w, name, ref.origin, source.value, seen);
          assert Elements([ref.origin]) == {ref.origin};
          var inner := Symbols(w, source.value, [ref.origin], seen + {(source.value, ref.origin)});
          resolved := Some(inner[0]);
        }
        rows := rows + [Reexport(name, ref.from, ref.origin, resolved)];
      } else {
        var star := None;
        var k := 0;
        while k < |stars| && star.None?
          invariant k <= |stars|
          invariant star.None? ==> ResolveStars(w, path, name, stars, seen) == ResolveStars(w, path, name, stars[k..], seen)
          invariant star.Some? ==> ResolveStars(w, path, name, stars, seen) == star.value
          decreases |stars| - k, star.None?
        {
          var source := w.Source(path, stars[k]);
          assert stars[k..][1..] == stars[k + 1..];
          if !(source.None? || (source.value, name) in seen) {
            FollowShrinks(w, name, name, source.value, seen);
            assert Elements([name]) == {name};
            var candidate := Symbols(w, source.value, [name], seen + {(source.value, name)});
            if !candidate[0].Unknown? {
              star := Some(Reexport(name, stars[k], name, Some(candidate[0])));
            }
          }
          k := k + 1;
        }
        rows := rows + [if star.Some? then star.value else Unknown(name)];
      }
    }
    forall i | 0 <= i < |names| ensures Describes(w, path, names[i], seen, rows[i]) {
      ResolveDescribes(w, path, names[i], seen);
    }
  }

  lemma OriginKnown(w: World, path: Path, name: string)
    requires path in w.files && name in w.SurfaceOf(path).reexports
    ensures w.SurfaceOf(path).reexports[name].origin in Origins(w)
  {
  }

  // ----- when a name is known -----

  /** Star imports between files. */
  ghost function StarGraph(w: World): map<Path, set<Path>> {
    map p | p in w.files :: StarTargets(w, p)
  }

  ghost function StarTargets(w: World, p: Path): set<Path>
    requires p in w.files
  {
    set q | q in w.files && exists m :: m in w.SurfaceOf(p).stars && w.Source(p, m) == Some(q)
  }

  /** The file itself defines the name or explicitly re-exports it. */
  ghost predicate Provides(w: World, p: Path, name: string) {
    p in w.files && (name in w.SurfaceOf(p).definitions || name in w.SurfaceOf(p).reexports)
  }

  /** A star path to a provider whose later files have not been followed for this name. */
  ghost predicate FreshPath(w: World, p: seq<Path>, name: string, seen: set<Key>) {
    && IsPath(StarGraph(w), p) && Provides(w, p[|p| - 1], name)
    && forall i | 1 <= i < |p| :: (p[i], name) !in seen
  }

  ghost predicate Reachable(w: World, path: Path, name: string, seen: set<Key>) {
    exists p :: FreshPath(w, p, name, seen) && p[0] == path
  }

  /** Star resolution succeeds exactly when some unfollowed star import knows the name. */
  lemma {:induction false} StarsKnown(w: World, path: Path, name: string, stars: seq<string>, seen: set<Key>)
    requires path in w.files
    ensures !ResolveStars(w, path, name, stars, seen).Unknown? <==>
      exists m :: m in stars && KnownThrough(w, path, name, m, seen)
  {
    if stars != [] {
      StarsKnown(w, path, name, stars[1..], seen);
      assert !ResolveStars(w, path, name, stars, seen).Unknown? <==>
        KnownThrough(w, path, name, stars[0], seen) || !ResolveStars(w, path, name, stars[1..], seen).Unknown?;
      assert forall m :: m in stars <==> m == stars[0] || m in stars[1..];
    }
  }

  ghost predicate KnownThrough(w: World, path: Path, name: string, m: string, seen: set<Key>)
    requires path in w.files
  {
    var source := w.Source(path, m);
    source.Some? && (source.value, name) !in seen && !Resolve(w, source.value, name, seen + {(source.value, name)}).Unknown?
  }

  lemma ExtendPath(w: World, path: Path, m: string, q: seq<Path>, name: string, seen: set<Key>)
    requires path in w.files && m in w.SurfaceOf(path).stars && w.Source(path, m).Some? && q != [] && q[0] == w.Source(path, m).value
    requires (q[0], name) !in seen && FreshPath(w, q, name, seen + {(q[0], name)})
    ensures FreshPath(w, [path] + q, name, seen)
  {
    var p := [path] + q;
    assert q[0] in Succ(StarGraph(w), path);
    forall i, j | 0 <= i < j < |p| && j == i + 1 ensures p[j] in Succ(StarGraph(w), p[i]) {
      if i > 0 { assert p[i] == q[i - 1] && p[j] == q[j - 1]; }
    }
    forall i | 1 <= i < |p| ensures (p[i], name) !in seen {
      assert p[i] == q[i - 1];
    }
  }

  /** The part of a path after the last visit to its second file does not visit that file again. */
  lemma AfterLastVisit(w: World, p: seq<Path>, name: string, seen: set<Key>) returns (q: seq<Path>)
    requires FreshPath(w, p, name, seen) && |p| > 1
    ensures q != [] && q[0] == p[1] && FreshPath(w, q, name, seen + {(p[1], name)})
  {
    var j := |p| - 1;
    while p[j] != p[1]
      invariant 1 <= j < |p| && forall i | j < i < |p| :: p[i] != p[1]
      decreases j
    {
      j := j - 1;
    }
    q := p[j..];
    forall i, k | 0 <= i < k < |q| && k == i + 1 ensures q[k] in Succ(StarGraph(w), q[i]) {
      assert q[i] == p[j + i] && q[k] == p[j + k];
    }
  }

  /** A resolution is not "unknown" exactly when a fresh star path leads to a provider. */
  lemma {:induction false} KnownExactly(w: World, path: Path, name: string, seen: set<Key>)
    requires path in w.files
    ensures !Resolve(w, path, name, seen).Unknown? <==> Reachable(w, path, name, seen)
    decreases Unfollowed(w, {name}, seen)
  {
    hide Unfollowed, Origins;
    if Provides(w, path, name) {
      ProvidesIsKnown(w, path, name, seen);
    } else {
      var stars := w.SurfaceOf(path).stars;
      StarsKnown(w, path, name, stars, seen);
      assert Resolve(w, path, name, seen) == ResolveStars(w, path, name, stars, seen);
      if m :| m in stars && KnownThrough(w, path, name, m, seen) {
        var source := w.Source(path, m).value;
        FollowShrinks(w, name, name, source, seen);
        KnownExactly(w, source, name, seen + {(source, name)});
        var q :| FreshPath(w, q, name, seen + {(source, name)}) && q[0] == source;
        ExtendPath(w, path, m, q, name, seen);
        assert FreshPath(w, [path] + q, name, seen);
      }
      if Reachable(w, path, name, seen) {
        var p :| FreshPath(w, p, name, seen) && p[0] == path;
        var q := AfterLastVisit(w, p, name, seen);
        assert p[1] in Succ(StarGraph(w), p[0]);
        var m :| m in stars && w.Source(path, m) == Some(p[1]);
        FollowShrinks(w, name, name, p[1], seen);
        KnownExactly(w, p[1], name, seen + {(p[1], name)});
        assert KnownThrough(w, path, name, m, seen);
      }
    }
  }

  lemma ProvidesIsKnown(w: World, path: Path, name: string, seen: set<Key>)
    requires Provides(w, path, name)
    ensures !Resolve(w, path, name, seen).Unknown? && Reachable(w, path, name, seen)
  {
    assert IsPath(StarGraph(w), [path]);
    assert FreshPath(w, [path], name, seen);
  }

  /** A top-level call reports a name as known exactly when the module, or a module reachable through star
      imports, cyclic or not, defines or explicitly re-exports it. */
  lemma TopLevelExact(w: World, path: Path, name: string)
    requires path in w.files
    ensures !Resolve(w, path, name, {}).Unknown? <==>
      exists q :: Reach(StarGraph(w), path, q) && Provides(w, q, name)
  {
    KnownExactly(w, path, name, {});
    if Reachable(w, path, name, {}) {
      var p :| FreshPath(w, p, name, {}) && p[0] == path;
      assert Reach(StarGraph(w), path, p[|p| - 1]);
    }
    if q :| Reach(StarGraph(w), path, q) && Provides(w, q, name) {
      var p :| IsPath(StarGraph(w), p) && p[0] == path && p[|p| - 1] == q;
      assert FreshPath(w, p, name, {});
    }
  }

  // ----- what a row holds -----

  /** The star import leads to an unfollowed file from which the name is known. */
  ghost predicate StarKnows(w: World, path: Path, m: string, name: string, seen: set<Key>) {
    var source := w.Source(path, m);
    source.Some? && (source.value, name) !in seen && Reachable(w, source.value, name, seen + {(source.value, name)})
  }

  /** What the row for a name must be, from the statements of the files: its last definition; else its last import, followed exactly
      when there is a file to follow that has not been followed for that name; else the first star import that knows it; else
      unknown. */
  ghost predicate Describes(w: World, path: Path, name: string, seen: set<Key>, row: Symbol)
    decreases row
  {
    && path in w.files
    && var body := w.files[path];
    if row.Defined? then row.name == name && LastDefinition(body, name, row.kind)
    else if row.Unknown? then
      && row.name == name && Undefined(body, name) && Unimported(body, name)
      && forall m | m in w.SurfaceOf(path).stars :: !StarKnows(w, path, m, name, seen)
    else
      && row.name == name && Undefined(body, name)
      && var source := w.Source(path, row.from);
      && (row.resolved.Some? ==> source.Some? && Describes(w, source.value, row.origin, seen + {(source.value, row.origin)}, row.resolved.value))
      && if !Unimported(body, name) then
           && LastImport(body, name, Reference(row.from, row.origin))
           && (row.resolved.Some? <==> source.Some? && (source.value, row.origin) !in seen)
         else
           && row.origin == name && row.resolved.Some? && FirstKnowing(w, path, row.from, name, seen)
  }

  ghost predicate Undefined(body: seq<Stmt>, name: string) { forall i | 0 <= i < |body| :: !DefinesName(body[i], name) }

  ghost predicate Unimported(body: seq<Stmt>, name: string) { forall i | 0 <= i < |body| :: !ImportsName(body[i], name) }

  /** Of the star imports of the file, in order, this is the first that knows the name. */
  ghost predicate FirstKnowing(w: World, path: Path, m: string, name: string, seen: set<Key>)
    requires path in w.files
  {
    var stars := w.SurfaceOf(path).stars;
    exists k | 0 <= k < |stars| ::
      && stars[k] == m && StarKnows(w, path, stars[k], name, seen)
      && forall j | 0 <= j < k :: !StarKnows(w, path, stars[j], name, seen)
  }

  lemma {:induction false} SomeLastDefinition(body: seq<Stmt>, name: string)
    ensures Undefined(body, name) <==> name !in ScanAll(body).definitions
    ensures Unimported(body, name) <==> name !in ScanAll(body).reexports
  {
    var s := ScanAll(body);
    if name in s.definitions {
      ScannedDefinition(body, name, s.definitions[name]);
      var i :| DefinesAt(body, i, name);
    } else {
      NoDefinition(body, name);
    }
    if name in s.reexports {
      ScannedImport(body, name, s.reexports[name]);
      var i, k :| ImportsAt(body, i, k, name);
      assert ImportsName(body[i], name);
    } else {
      NoImport(body, name);
    }
  }

  lemma {:induction false} NoDefinition(body: seq<Stmt>, name: string)
    requires name !in ScanAll(body).definitions
    ensures Undefined(body, name)
  {
    if body != [] {
      var n := |body| - 1;
      var stmt, before := body[n], ScanAll(body[..n]);
      if stmt.Assign? { NamesAdded(before.definitions, stmt.targets, name); }
      if stmt.ImportFrom? { AliasesAdded(before, stmt.from, stmt.aliases, name); }
      NoDefinition(body[..n], name);
      forall i | 0 <= i < |body| ensures !DefinesName(body[i], name) {
        if i < n { assert body[..n][i] == body[i]; }
      }
    }
  }

  lemma {:induction false} NoImport(body: seq<Stmt>, name: string)
    requires name !in ScanAll(body).reexports
    ensures Unimported(body, name)
  {
    if body != [] {
      var n := |body| - 1;
      var stmt, before := body[n], ScanAll(body[..n]);
      if stmt.ImportFrom? {
        AliasesAdded(before, stmt.from, stmt.aliases, name);
        SomeLastAlias(stmt.aliases, name);
      }
      hide AddAliases, AddNames;
      NoImport(body[..n], name);
      forall i | 0 <= i < |body| ensures !ImportsName(body[i], name) {
        if i < n { assert body[..n][i] == body[i]; }
      }
    }
  }

  /** Every row of the resolution is what the statements say. */
  lemma {:induction false} ResolveDescribes(w: World, path: Path, name: string, seen: set<Key>)
    requires path in w.files
    ensures Describes(w, path, name, seen, Resolve(w, path, name, seen))
    decreases Unfollowed(w, {name}, seen)
  {
    hide Unfollowed, Origins, LastDefinition, LastImport, Undefined, Unimported, Reachable;
    var s := w.SurfaceOf(path);
    SomeLastDefinition(w.files[path], name);
    if name in s.definitions {
      ScannedDefinition(w.files[path], name, s.definitions[name]);
    } else if name in s.reexports {
      var ref := s.reexports[name];
      ScannedImport(w.files[path], name, ref);
      var source := w.Source(path, ref.from);
      if source.Some? && (source.value, ref.origin) !in seen {
        OriginKnown(w, path, name);
        FollowShrinks(w, name, ref.origin, source.value, seen);
        ResolveDescribes(w, source.value, ref.origin, seen + {(source.value, ref.origin)});
      }
    } else {
      StarsDescribe(w, path, name, s.stars, seen);
      var row := ResolveStars(w, path, name, s.stars, seen);
      if row.Reexport? {
        var source := w.Source(path, row.from).value;
        FollowShrinks(w, name, name, source, seen);
        ResolveDescribes(w, source, name, seen + {(source, name)});
      }
    }
  }

  lemma {:induction false} StarsDescribe(w: World, path: Path, name: string, stars: seq<string>, seen: set<Key>)
    requires path in w.files
    ensures var row := ResolveStars(w, path, name, stars, seen);
      if row.Reexport? then
        && row.name == name == row.origin && w.Source(path, row.from).Some? && (w.Source(path, row.from).value, name) !in seen
        && row.resolved == Some(Resolve(w, w.Source(path, row.from).value, name, seen + {(w.Source(path, row.from).value, name)}))
        && exists k | 0 <= k < |stars| :: stars[k] == row.from && StarKnows(w, path, stars[k], name, seen)
                                          && forall j | 0 <= j < k :: !StarKnows(w, path, stars[j], name, seen)
      else row == Unknown(name) && forall m | m in stars :: !StarKnows(w, path, m, name, seen)
  {
    hide Unfollowed, Origins, Reachable, Resolve;
    if stars != [] {
      var rest, row := ResolveStars(w, path, name, stars[1..], seen), ResolveStars(w, path, name, stars, seen);
      StarsDescribe(w, path, name, stars[1..], seen);
      StarKnowsIff(w, path, stars[0], name, seen);
      assert stars == [stars[0]] + stars[1..];
      if StarKnows(w, path, stars[0], name, seen) {
        assert stars[0] == row.from;
      } else if row.Reexport? {
        var k :| 0 <= k < |stars[1..]| && stars[1..][k] == row.from && StarKnows(w, path, stars[1..][k], name, seen)
          && forall j | 0 <= j < k :: !StarKnows(w, path, stars[1..][j], name, seen);
        assert stars[k + 1] == stars[1..][k];
        forall j | 0 <= j < k + 1 ensures !StarKnows(w, path, stars[j], name, seen) {
          if j > 0 { assert stars[j] == stars[1..][j - 1]; }
        }
      }
    }
  }

  lemma StarKnowsIff(w: World, path: Path, m: string, name: string, seen: set<Key>)
    requires path in w.files
    ensures StarKnows(w, path, m, name, seen) <==> KnownThrough(w, path, name, m, seen)
  {
    var source := w.Source(path, m);
    if source.Some? && (source.value, name) !in seen { KnownExactly(w, source.value, name, seen + {(source.value, name)}); }
  }

  // ----- chains of explicit re-exports -----

  /** Where the explicit re-export of a name in a file leads. */
  ghost predicate LeadsTo(w: World, a: Key, b: Key) {
    && a.0 in w.files && b.0 in w.files && Undefined(w.files[a.0], a.1)
    && exists ref :: LastImport(w.files[a.0], a.1, ref) && w.Source(a.0, ref.from) == Some(b.0) && ref.origin == b.1
  }

  /** A chain of explicit re-exports that ends at a definition. */
  ghost predicate Chain(w: World, chain: seq<Key>, kind: Kind) {
    && chain != [] && (forall i | 0 <= i < |chain| :: chain[i].0 in w.files)
    && (forall i, j | 0 <= i < j < |chain| && j == i + 1 :: LeadsTo(w, chain[i], chain[j]))
    && var end := chain[|chain| - 1];
    LastDefinition(w.files[end.0], end.1, kind)
  }

  function Innermost(row: Symbol): Symbol {
    if row.Reexport? && row.resolved.Some? then Innermost(row.resolved.value) else row
  }

  lemma LeadsOneWay(w: World, a: Key, b: Key, c: Key)
    requires LeadsTo(w, a, b) && LeadsTo(w, a, c)
    ensures b == c
  {
    var body := w.files[a.0];
    var r :| LastImport(body, a.1, r) && w.Source(a.0, r.from) == Some(b.0) && r.origin == b.1;
    var q :| LastImport(body, a.1, q) && w.Source(a.0, q.from) == Some(c.0) && q.origin == c.1;
    ScannedImport(body, a.1, r);
    ScannedImport(body, a.1, q);
  }

  /** A chain that ends never comes back: the next pair is determined, and an end has no next. */
  lemma {:induction false} ChainNeverReturns(w: World, chain: seq<Key>, kind: Kind, i: nat, j: nat)
    requires Chain(w, chain, kind) && i < j < |chain|
    ensures chain[i] != chain[j]
    decreases |chain| - j
  {
    hide LeadsTo;
    if chain[i] == chain[j] {
      if j == |chain| - 1 {
        assert LeadsTo(w, chain[i], chain[i + 1]);
        EndLeadsNowhere(w, chain[j], chain[i + 1], kind);
      } else {
        assert LeadsTo(w, chain[i], chain[i + 1]) && LeadsTo(w, chain[j], chain[j + 1]);
        LeadsOneWay(w, chain[i], chain[i + 1], chain[j + 1]);
        ChainNeverReturns(w, chain, kind, i + 1, j + 1);
      }
      assert false;
    }
  }

  lemma EndLeadsNowhere(w: World, a: Key, b: Key, kind: Kind)
    requires a.0 in w.files && LastDefinition(w.files[a.0], a.1, kind)
    ensures !LeadsTo(w, a, b)
  {
    var i :| DefinesAt(w.files[a.0], i, a.1);
  }

  /** Following from inside: nothing left on the chain has been followed. */
  lemma {:induction false} ChainFollowed(w: World, chain: seq<Key>, kind: Kind, seen: set<Key>)
    requires Chain(w, chain, kind) && forall i | 1 <= i < |chain| :: chain[i] !in seen
    ensures Innermost(Resolve(w, chain[0].0, chain[0].1, seen)) == Defined(chain[|chain| - 1].1, kind)
    decreases |chain|
  {
    var (path, name) := chain[0];
    if |chain| == 1 {
      ScannedDefinition(w.files[path], name, kind);
    } else {
      assert LeadsTo(w, chain[0], chain[1]);
      LeadFollowed(w, chain[0], chain[1], seen);
      var rest := chain[1..];
      forall i, j | 0 <= i < j < |rest| && j == i + 1 ensures LeadsTo(w, rest[i], rest[j]) {
        assert rest[i] == chain[i + 1] && rest[j] == chain[j + 1];
      }
      forall i | 1 <= i < |rest| ensures rest[i] !in seen + {chain[1]} {
        ChainNeverReturns(w, chain, kind, 1, i + 1);
      }
      ChainFollowed(w, rest, kind, seen + {chain[1]});
    }
  }

  lemma LeadFollowed(w: World, a: Key, b: Key, seen: set<Key>)
    requires LeadsTo(w, a, b) && b !in seen
    ensures var row := Resolve(w, a.0, a.1, seen); row.Reexport? && row.resolved == Some(Resolve(w, b.0, b.1, seen + {b}))
  {
    var body := w.files[a.0];
    var ref :| LastImport(body, a.1, ref) && w.Source(a.0, ref.from) == Some(b.0) && ref.origin == b.1;
    ScannedImport(body, a.1, ref);
    SomeLastDefinition(body, a.1);
    assert (b.0, b.1) == b;
  }

  /** From a top-level call, a chain of explicit re-exports that ends at a definition is followed to the end: the innermost row is that
      definition, with its kind. */
  lemma ChainEnds(w: World, chain: seq<Key>, kind: Kind)
    requires Chain(w, chain, kind)
    ensures Innermost(Resolve(w, chain[0].0, chain[0].1, {})) == Defined(chain[|chain| - 1].1, kind)
  {
    ChainFollowed(w, chain, kind, {});
  }
}
