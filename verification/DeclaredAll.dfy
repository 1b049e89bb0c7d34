/** The static `__all__` evaluator, against an execution of the same straight-line module. */
module DeclaredAll {
  import opened Ordering

  datatype Option<T> = None | Some(value: T)

  type Path = string

  const ALL := "__all__"

  // ----- syntax -----

  datatype Operand = Var(id: string) | Text(text: string) | Constant(number: int) | Complex

  /** The conditions of a comprehension. */
  datatype Cond =
    | Or(conds: seq<Cond>)
    | And(conds: seq<Cond>)
    | Not(cond: Cond)
    | Affix(receiver: string, atEnd: bool, affixes: Option<seq<string>>)
    | Compare(equal: bool, left: Operand, right: Operand)
    | Unsupported

  datatype Form = ListForm | TupleForm | SetForm

  datatype Expr =
    | Name(id: string)
    | Display(form: Form, elts: seq<Elt>)
    | Add(left: Expr, right: Expr)
    | Call(func: string, args: seq<Expr>, keywords: bool)
    | Comprehension(isList: bool, overGlobals: bool, variable: string, conds: seq<Cond>)
    | Literal(text: string)
    | OtherExpr(result: Value) // anything else, with its value; a list is not one that another name of the module holds

  /** A value, as far as its strings are known. Sets and everything else are opaque. */
  datatype Value = Tup(items: seq<string>) | Lst(items: seq<string>) | Gen(items: seq<string>) | Opaque

  datatype Elt = Item(text: string) | Star(expr: Expr) | NonString

  datatype ImportAlias = ImportAlias(parts: seq<string>, asname: Option<string>)
  datatype FromAlias = FromAlias(name: string, asname: Option<string>, starNames: seq<string>)

  /** Loading a submodule sets its name in the package that contains it. When the importing file is that package, `submodules` lists
      these names, apart from those the import itself binds; a plain module has none. */
  datatype Stmt =
    | Define(name: string)
    | Import(aliases: seq<ImportAlias>, submodules: seq<string>)
    | ImportFrom(future: bool, file: Option<Path>, names: seq<FromAlias>, submodules: seq<string>)
    | Assign(targets: seq<string>, value: Expr)
    | AugAssign(target: string, add: bool, value: Expr)
    | Mutate(append: bool, args: seq<Expr>)
    | Other(touched: seq<string>) // anything else, with the names it binds or changes

  type Files = map<Path, seq<Stmt>>

  // ----- `_safe_name_predicate` -----

  predicate StartsWith(s: string, affix: string) { affix <= s }

  predicate EndsWith(s: string, affix: string) { |affix| <= |s| && s[|s| - |affix|..] == affix }

  predicate AnyAffix(s: string, affixes: seq<string>, atEnd: bool) {
    exists a | a in affixes :: if atEnd then EndsWith(s, a) else StartsWith(s, a)
  }

  function OperandValue(o: Operand, variable: string, value: string): Option<Operand> {
    match o
    case Var(id) => if id == variable then Some(Text(value)) else None
    case Complex => None
    case _ => Some(o)
  }

  /** Evaluates every part of a condition; any unsupported part fails the whole. */
  function SafePredicate(c: Cond, variable: string, value: string): Option<bool>
    decreases c
  {
    match c
    case Or(conds) =>
      var rows := SafeRows(conds, variable, value);
      if rows.None? then None else Some(true in rows.value)
    case And(conds) =>
      var rows := SafeRows(conds, variable, value);
      if rows.None? then None else Some(false !in rows.value)
    case Not(cond) =>
      var row := SafePredicate(cond, variable, value);
      if row.None? then None else Some(!row.value)
    case Affix(receiver, atEnd, affixes) =>
      if receiver != variable || affixes.None? then None else Some(AnyAffix(value, affixes.value, atEnd))
    case Compare(equal, left, right) =>
      var l, r := OperandValue(left, variable, value), OperandValue(right, variable, value);
      if l.None? || r.None? then None else Some(equal == (l.value == r.value))
    case Unsupported => None
  }

  function SafeRows(conds: seq<Cond>, variable: string, value: string): Option<seq<bool>>
    decreases conds
  {
    if conds == [] then Some([])
    else
      var first, rest := SafePredicate(conds[0], variable, value), SafeRows(conds[1..], variable, value);
      if first.None? || rest.None? then None else Some([first.value] + rest.value)
  }

  /** What Python computes: `or` and `and` stop early. */
  function EvalCond(c: Cond, variable: string, value: string): Option<bool>
    decreases c
  {
    match c
    case Or(conds) => EvalChain(conds, variable, value, true)
    case And(conds) => EvalChain(conds, variable, value, false)
    case Not(cond) =>
      var row := EvalCond(cond, variable, value);
      if row.None? then None else Some(!row.value)
    case Affix(receiver, atEnd, affixes) =>
      if receiver != variable || affixes.None? then None else Some(AnyAffix(value, affixes.value, atEnd))
    case Compare(equal, left, right) =>
      var l, r := OperandValue(left, variable, value), OperandValue(right, variable, value);
      if l.None? || r.None? then None else Some(equal == (l.value == r.value))
    case Unsupported => None
  }

  /** Evaluates left to right and stops at the first operand equal to `stop`. */
  function EvalChain(conds: seq<Cond>, variable: string, value: string, stop: bool): Option<bool>
    decreases conds
  {
    if conds == [] then Some(!stop)
    else
      var first := EvalCond(conds[0], variable, value);
      if first.None? then None
      else if first.value == stop then Some(stop)
      else EvalChain(conds[1..], variable, value, stop)
  }

  lemma {:induction false} SafeIsEval(c: Cond, variable: string, value: string)
    requires SafePredicate(c, variable, value).Some?
    ensures EvalCond(c, variable, value) == SafePredicate(c, variable, value)
    decreases c
  {
    match c
    case Or(conds) => SafeRowsChain(conds, variable, value, true);
    case And(conds) => SafeRowsChain(conds, variable, value, false);
    case Not(cond) => SafeIsEval(cond, variable, value);
    case _ =>
  }

  lemma {:induction false} SafeRowsChain(conds: seq<Cond>, variable: string, value: string, stop: bool)
    requires SafeRows(conds, variable, value).Some?
    ensures EvalChain(conds, variable, value, stop) == Some((stop in SafeRows(conds, variable, value).value) == stop)
    decreases conds
  {
    if conds != [] {
      SafeIsEval(conds[0], variable, value);
      SafeRowsChain(conds[1..], variable, value, stop);
    }
  }

  /** `all(...)` over the conditions of a generator. */
  function Accepts(conds: seq<Cond>, variable: string, value: string): Option<bool> {
    if conds == [] then Some(true)
    else
      var first := SafePredicate(conds[0], variable, value);
      if first.None? then None
      else if !first.value then Some(false)
      else Accepts(conds[1..], variable, value)
  }

  lemma {:induction false} AcceptsIsEval(conds: seq<Cond>, variable: string, value: string)
    requires Accepts(conds, variable, value).Some?
    ensures EvalChain(conds, variable, value, false) == Accepts(conds, variable, value)
    decreases |conds|
  {
    if conds != [] {
      SafeIsEval(conds[0], variable, value);
      if SafePredicate(conds[0], variable, value).value { AcceptsIsEval(conds[1..], variable, value); }
    }
  }

  // ----- `_string_sequence` -----

  type Sequences = map<string, seq<string>>

  function FilterNames(conds: seq<Cond>, variable: string, scope: seq<string>): Option<seq<string>> {
    if scope == [] then Some([])
    else
      var rest, last := FilterNames(conds, variable, scope[..|scope| - 1]), scope[|scope| - 1];
      var accepts := Accepts(conds, variable, last);
      if rest.None? || accepts.None? then None else Some(rest.value + if accepts.value then [last] else [])
  }

  function StringSequence(e: Expr, seqs: Sequences, scope: seq<string>): Option<seq<string>>
    decreases e
  {
    match e
    case Name(id) => if id in seqs then Some(seqs[id]) else None
    case Display(_, elts) => StringElements(elts, seqs, scope)
    case Add(left, right) =>
      var l, r := StringSequence(left, seqs, scope), StringSequence(right, seqs, scope);
      if l.None? || r.None? then None else Some(l.value + r.value)
    case Call(func, args, keywords) =>
      if !(func == "tuple" || func == "list") || |args| != 1 || keywords then None
      else StringSequence(args[0], seqs, scope)
    case Comprehension(_, overGlobals, variable, conds) =>
      if overGlobals then FilterNames(conds, variable, scope) else None
    case Literal(_) => None
    case OtherExpr(_) => None
  }

  function StringElements(elts: seq<Elt>, seqs: Sequences, scope: seq<string>): Option<seq<string>>
    decreases elts
  {
    if elts == [] then Some([])
    else
      var first, rest := StringElement(elts[0], seqs, scope), StringElements(elts[1..], seqs, scope);
      if first.None? || rest.None? then None else Some(first.value + rest.value)
  }

  function StringElement(elt: Elt, seqs: Sequences, scope: seq<string>): Option<seq<string>>
    decreases elt
  {
    match elt
    case Item(text) => Some([text])
    case Star(expr) => StringSequence(expr, seqs, scope)
    case NonString => None
  }

  lemma {:induction false} FilterFails(conds: seq<Cond>, variable: string, scope: seq<string>, n: nat)
    requires n <= |scope| && FilterNames(conds, variable, scope[..n]) == None
    ensures FilterNames(conds, variable, scope) == None
    decreases |scope|
  {
    if n < |scope| {
      assert scope[..|scope| - 1][..n] == scope[..n];
      FilterFails(conds, variable, scope[..|scope| - 1], n);
    } else {
      assert scope[..n] == scope;
    }
  }

  function After(rows: seq<string>, rest: Option<seq<string>>): (r: Option<seq<string>>)
    ensures rows == [] ==> r == rest
  {
    if rest.None? then None
    else
      assert rows == [] ==> rows + rest.value == rest.value;
      Some(rows + rest.value)
  }

  /** The evaluator itself: rows collected in loops, and the first part that cannot be resolved gives up the whole. */
  method ResolveSequence(e: Expr, seqs: Sequences, scope: seq<string>) returns (r: Option<seq<string>>)
    ensures r == StringSequence(e, seqs, scope)
    decreases e
  {
    match e
    case Name(id) => return if id in seqs then Some(seqs[id]) else None;
    case Display(_, elts) =>
      var rows := [];
      assert elts[0..] == elts;
      for i := 0 to |elts|
        invariant StringElements(elts, seqs, scope) == After(rows, StringElements(elts[i..], seqs, scope))
      {
        assert elts[i..][1..] == elts[i + 1..];
        ghost var rest := StringElements(elts[i + 1..], seqs, scope);
        ghost var element := StringElement(elts[i], seqs, scope);
        if rest.Some? && element.Some? {
          assert rows + (element.value + rest.value) == (rows + element.value) + rest.value;
        }
        match elts[i]
        case Star(inner) =>
          var row := ResolveSequence(inner, seqs, scope);
          if row.None? { return None; }
          rows := rows + row.value;
        case Item(text) => rows := rows + [text];
        case NonString => return None;
      }
      assert elts[|elts|..] == [] && rows + [] == rows;
      return Some(rows);
    case Add(left, right) =>
      var l := ResolveSequence(left, seqs, scope);
      if l.None? { return None; }
      var r' := ResolveSequence(right, seqs, scope);
      return if r'.None? then None else Some(l.value + r'.value);
    case Call(func, args, keywords) =>
      if !(func == "tuple" || func == "list") || |args| != 1 || keywords { return None; }
      r := ResolveSequence(args[0], seqs, scope);
    case Comprehension(_, overGlobals, variable, conds) =>
      if !overGlobals { return None; }
      var rows := [];
      for i := 0 to |scope|
        invariant FilterNames(conds, variable, scope[..i]) == Some(rows)
      {
        assert scope[..i + 1][..i] == scope[..i];
        var accepts := Accepts(conds, variable, scope[i]);
        if accepts.None? {
          FilterFails(conds, variable, scope, i + 1);
          return None;
        }
        assert rows + [] == rows;
        if accepts.value { rows := rows + [scope[i]]; }
      }
      assert scope[..|scope|] == scope;
      return Some(rows);
    case _ => return None;
  }

  // ----- first occurrences -----

  /** `dict.fromkeys`: later duplicates dropped. */
  function Dedupe(s: seq<string>): seq<string> {
    if s == [] then []
    else
      var d, last := Dedupe(s[..|s| - 1]), s[|s| - 1];
      if last in d then d else d + [last]
  }

  lemma {:induction false} DedupeMember(s: seq<string>, x: string)
    ensures x in Dedupe(s) <==> x in s
  {
    if s != [] {
      DedupeMember(s[..|s| - 1], x);
      DedupeMember(s[..|s| - 1], s[|s| - 1]);
      assert s == s[..|s| - 1] + [s[|s| - 1]];
    }
  }

  /** The list with the members of `known` left out and duplicates dropped. */
  function News(known: seq<string>, s: seq<string>): seq<string> {
    if s == [] then []
    else
      var d, last := News(known, s[..|s| - 1]), s[|s| - 1];
      if last in d || last in known then d else d + [last]
  }

  lemma {:induction false} DedupeConcat(a: seq<string>, b: seq<string>)
    ensures Dedupe(a + b) == Dedupe(a) + News(Dedupe(a), b)
  {
    if b == [] {
      assert a + b == a;
    } else {
      var n := |b| - 1;
      DedupeConcat(a, b[..n]);
      assert (a + b)[..|a + b| - 1] == a + b[..n];
    }
  }

  lemma {:induction false} NewsOfDedupe(known: seq<string>, s: seq<string>)
    ensures News(known, s) == News(known, Dedupe(s))
    ensures forall x :: x in News(known, s) <==> x in s && x !in known
  {
    if s != [] {
      var n := |s| - 1;
      NewsOfDedupe(known, s[..n]);
      DedupeMember(s[..n], s[n]);
      assert s == s[..n] + [s[n]];
      if s[n] !in Dedupe(s[..n]) {
        assert Dedupe(s)[..|Dedupe(s)| - 1] == Dedupe(s[..n]);
      }
    }
  }

  /** Equal up to later duplicates. */
  ghost predicate Same(a: seq<string>, b: seq<string>) { Dedupe(a) == Dedupe(b) }

  lemma SameConcat(a: seq<string>, a': seq<string>, b: seq<string>, b': seq<string>)
    requires Same(a, a') && Same(b, b')
    ensures Same(a + b, a' + b')
  {
    DedupeConcat(a, b);
    DedupeConcat(a', b');
    NewsOfDedupe(Dedupe(a), b);
    NewsOfDedupe(Dedupe(a), b');
  }

  lemma {:induction false} DedupeTwice(s: seq<string>)
    ensures Dedupe(Dedupe(s)) == Dedupe(s)
  {
    if s != [] {
      DedupeTwice(s[..|s| - 1]);
      var d, last := Dedupe(s[..|s| - 1]), s[|s| - 1];
      if last !in d { assert (d + [last])[..|d|] == d; }
    }
  }

  // ----- `_declared_all`: the statement loop -----

  /** The evaluator's variables, and three observations about the run so far: on which names the static scope and the real
      one may differ, whether nothing has gone stale or restarted, and whether every `__all__` write was resolved. */
  datatype Static = Static(seqs: Sequences, scope: seq<string>, sawAll: bool, unsure: set<string>, clean: bool, resolved: bool)

  datatype Declared = NoAll | Names(names: seq<string>) | Unresolvable

  function Remember(scope: seq<string>, name: string): seq<string> {
    if name in scope then scope else scope + [name]
  }

  function RememberAll(scope: seq<string>, names: seq<string>): seq<string> {
    if names == [] then scope else Remember(RememberAll(scope, names[..|names| - 1]), names[|names| - 1])
  }

  /** The name `_scope_name_from_alias` gives, and the one Python binds. */
  function LocalName(a: ImportAlias): string {
    if a.asname.Some? then a.asname.value else if a.parts == [] then "" else a.parts[|a.parts| - 1]
  }

  function BoundName(a: ImportAlias): string {
    if a.asname.Some? then a.asname.value else if a.parts == [] then "" else a.parts[0]
  }

  function FromName(a: FromAlias): string { if a.asname.Some? then a.asname.value else a.name }

  function RemoveKey(seqs: Sequences, name: string): Sequences { map k | k in seqs && k != name :: seqs[k] }

  /** Names bound or changed where the evaluator does not look. */
  function Touched(st: Static, names: seq<string>): Static {
    st.(clean := st.clean && (forall n | n in names :: n !in st.seqs), unsure := st.unsure + Elements(names))
  }

  /** Binding by anything but a plain assignment must not touch a name the evaluator still believes in. */
  function StaticImport(st: Static, a: ImportAlias): Static {
    var local, bound := LocalName(a), BoundName(a);
    st.(scope := Remember(st.scope, local), clean := st.clean && local !in st.seqs && bound !in st.seqs,
        unsure := if local == bound then st.unsure else st.unsure + {local, bound})
  }

  function StaticImports(st: Static, aliases: seq<ImportAlias>): Static {
    if aliases == [] then st else StaticImport(StaticImports(st, aliases[..|aliases| - 1]), aliases[|aliases| - 1])
  }

  function StaticFrom(st: Static, future: bool, imported: Declared, importedClean: bool, a: FromAlias): Static {
    if a.name == "*" then
      st.(clean := st.clean && (forall n | n in a.starNames :: n !in st.seqs), unsure := st.unsure + Elements(a.starNames))
    else
      var local := FromName(a);
      if future then st.(clean := st.clean && local !in st.seqs, unsure := st.unsure + {local})
      else
        var seen := st.(scope := Remember(st.scope, local));
        if a.name == ALL && imported.Names? then seen.(seqs := st.seqs[local := imported.names], clean := st.clean && importedClean)
        else seen.(clean := st.clean && local !in st.seqs)
  }

  function StaticFroms(st: Static, future: bool, imported: Declared, importedClean: bool, names: seq<FromAlias>): Static {
    if names == [] then st
    else StaticFrom(StaticFroms(st, future, imported, importedClean, names[..|names| - 1]), future, imported, importedClean, names[|names| - 1])
  }

  /** Every comprehension in the expression rejects these names. */
  ghost predicate Rejects(e: Expr, names: set<string>)
    decreases e
  {
    match e
    case Display(_, elts) => forall i | 0 <= i < |elts| :: elts[i].Star? ==> Rejects(elts[i].expr, names)
    case Add(left, right) => Rejects(left, names) && Rejects(right, names)
    case Call(_, args, _) => forall i | 0 <= i < |args| :: Rejects(args[i], names)
    case Comprehension(_, _, variable, conds) => forall n | n in names :: Accepts(conds, variable, n) == Some(false)
    case _ => true
  }

  ghost function AssignTargets(st: Static, targets: seq<string>, value: Option<seq<string>>): Static {
    if targets == [] then st
    else
      var before, target := AssignTargets(st, targets[..|targets| - 1], value), targets[|targets| - 1];
      before.(seqs := if value.Some? then before.seqs[target := value.value] else RemoveKey(before.seqs, target),
              sawAll := before.sawAll || target == ALL)
  }

  function OtherTargets(targets: seq<string>): seq<string> {
    if targets == [] then []
    else OtherTargets(targets[..|targets| - 1]) + if targets[|targets| - 1] == ALL then [] else [targets[|targets| - 1]]
  }

  /** A write that extends `__all__`; from a missing entry it restarts with the extension alone. */
  ghost function Extend(st: Static, extension: Option<seq<string>>): Static {
    if extension.None? then st.(seqs := RemoveKey(st.seqs, ALL), sawAll := true, resolved := false)
    else st.(seqs := st.seqs[ALL := (if ALL in st.seqs then st.seqs[ALL] else []) + extension.value], sawAll := true,
             clean := st.clean && ALL in st.seqs)
  }

  /** The operand of `__all__.append(...)` or `__all__.extend(...)`. */
  function MutateOperand(append: bool, args: seq<Expr>, seqs: Sequences, scope: seq<string>): Option<seq<string>> {
    if |args| != 1 then None
    else if append then (if args[0].Literal? then Some([args[0].text]) else None)
    else StringSequence(args[0], seqs, scope)
  }

  ghost function StaticStep(files: Files, path: Path, seen: set<Path>, st: Static, stmt: Stmt): Static
    requires path in files
    decreases files.Keys - seen, path in seen, 0, 0
  {
    match stmt
    case Define(name) => st.(scope := Remember(st.scope, name), clean := st.clean && name !in st.seqs)
    case Import(aliases, submodules) => StaticImports(Touched(st, submodules), aliases)
    case ImportFrom(future, file, names, submodules) =>
      if !future && file.Some? && file.value in files && file.value !in seen then
        var sub := StaticFile(files, file.value, seen + {path});
        StaticFroms(Touched(st, submodules), false, Result(sub), sub.clean, names)
      else StaticFroms(Touched(st, submodules), future, NoAll, true, names)
    case Assign(targets, value) =>
      var named := st.(scope := RememberAll(st.scope, OtherTargets(targets)));
      var resolved := StringSequence(value, named.seqs, named.scope);
      AssignTargets(named, targets, resolved).(clean := st.clean && (resolved.Some? ==> Rejects(value, st.unsure + Elements(targets))),
                                               resolved := st.resolved && (ALL in targets ==> resolved.Some?))
    case AugAssign(target, add, value) =>
      if target == ALL && add then
        var extension := StringSequence(value, st.seqs, st.scope);
        var next := Extend(st, extension);
        next.(clean := next.clean && (extension.Some? ==> Rejects(value, st.unsure)))
      else st.(clean := st.clean && target !in st.seqs && target != ALL)
    case Mutate(append, args) =>
      var extension := MutateOperand(append, args, st.seqs, st.scope);
      var next := Extend(st, extension);
      next.(clean := next.clean && (extension.Some? ==> forall i | 0 <= i < |args| :: Rejects(args[i], st.unsure)))
    case Other(touched) => Touched(st, touched)
  }

  ghost function StaticBody(files: Files, path: Path, seen: set<Path>, st: Static, body: seq<Stmt>): Static
    requires path in files
    decreases files.Keys - seen, path in seen, 1, |body|
  {
    if body == [] then st
    else StaticStep(files, path, seen, StaticBody(files, path, seen, st, body[..|body| - 1]), body[|body| - 1])
  }

  /** The names every module has before its first statement, and `__all__`, are never in the static scope. */
  const FIRST: seq<string> := ["__name__", "__doc__", "__package__", "__loader__", "__spec__"]
  const LAST: seq<string> := ["__file__", "__cached__", "__builtins__"]
  const PACKAGE_PATH := "__path__"

  /** A package, and only a package, has a search path. */
  function Implicit(path: Path): seq<string> {
    FIRST + (if EndsWith(path, "__init__.py") then [PACKAGE_PATH] else []) + LAST
  }

  const START := Static(map[], [], false, Elements(FIRST) + Elements(LAST) + {PACKAGE_PATH, ALL}, true, true)

  /** The whole evaluation of a file. The seen set need not grow on the first hop; then the file was in it already. */
  ghost function StaticFile(files: Files, path: Path, seen: set<Path>): Static
    requires path in files
    decreases files.Keys - seen, path in seen, 2, 0
  {
    StaticBody(files, path, seen, START, files[path])
  }

  ghost function Result(st: Static): Declared {
    if !st.sawAll then NoAll else if ALL in st.seqs then Names(Dedupe(st.seqs[ALL])) else Unresolvable
  }

  // ----- execution -----

  datatype Env = Env(vars: map<string, Value>, order: seq<string>)

  function Bind(env: Env, name: string, v: Value): Env {
    Env(env.vars[name := v], Remember(env.order, name))
  }

  function BindAll(env: Env, names: seq<string>, v: Value): Env {
    if names == [] then env else Bind(BindAll(env, names[..|names| - 1], v), names[|names| - 1], v)
  }

  function FilterGlobals(conds: seq<Cond>, variable: string, order: seq<string>): Option<seq<string>> {
    if order == [] then Some([])
    else
      var rest, last := FilterGlobals(conds, variable, order[..|order| - 1]), order[|order| - 1];
      var accepts := EvalChain(conds, variable, last, false);
      if rest.None? || accepts.None? then None else Some(rest.value + if accepts.value then [last] else [])
  }

  /** None when evaluation raises. */
  function EvalExpr(e: Expr, env: Env): Option<Value>
    decreases e
  {
    match e
    case Name(id) => if id in env.vars then Some(env.vars[id]) else None
    case Display(form, elts) =>
      var items := EvalElements(elts, env);
      if items.None? || items.value.Opaque? then items
      else if form.SetForm? then Some(Opaque)
      else if form.ListForm? then Some(Lst(items.value.items)) else items
    case Add(left, right) =>
      var l, r := EvalExpr(left, env), EvalExpr(right, env);
      if l.None? || r.None? then None
      else if l.value.Opaque? || r.value.Opaque? then Some(Opaque)
      else if l.value.Tup? && r.value.Tup? then Some(Tup(l.value.items + r.value.items))
      else if l.value.Lst? && r.value.Lst? then Some(Lst(l.value.items + r.value.items))
      else None
    case Call(func, args, keywords) =>
      if !(func == "tuple" || func == "list") || |args| != 1 || keywords || func in env.vars then Some(Opaque)
      else
        var v := EvalExpr(args[0], env);
        if v.None? || v.value.Opaque? then v
        else if func == "tuple" then Some(Tup(v.value.items)) else Some(Lst(v.value.items))
    case Comprehension(isList, overGlobals, variable, conds) =>
      if !overGlobals || "globals" in env.vars then Some(Opaque)
      else
        var items := FilterGlobals(conds, variable, env.order);
        if items.None? then None else if isList then Some(Lst(items.value)) else Some(Gen(items.value))
    case Literal(_) => Some(Opaque)
    case OtherExpr(result) => Some(result)
  }

  /** The collected elements, as a tuple value. */
  function EvalElements(elts: seq<Elt>, env: Env): (r: Option<Value>)
    ensures r.Some? ==> r.value.Tup? || r.value.Opaque?
    decreases elts
  {
    if elts == [] then Some(Tup([]))
    else
      var first, rest := EvalElement(elts[0], env), EvalElements(elts[1..], env);
      if first.None? || rest.None? then None
      else if first.value.Opaque? || rest.value.Opaque? then Some(Opaque)
      else Some(Tup(first.value.items + rest.value.items))
  }

  function EvalElement(elt: Elt, env: Env): Option<Value>
    decreases elt
  {
    match elt
    case Item(text) => Some(Tup([text]))
    case Star(expr) => EvalExpr(expr, env)
    case NonString => Some(Opaque)
  }

  /** `current += v` and `current.extend(v)`. A tuple only takes a tuple, and has no extend. */
  function Extended(current: Value, v: Value, inPlace: bool): Option<Value> {
    if current.Opaque? || (v.Opaque? && !current.Gen?) then Some(Opaque)
    else if current.Lst? then Some(Lst(current.items + v.items))
    else if current.Tup? && v.Tup? && !inPlace then Some(Tup(current.items + v.items))
    else None
  }

  /** Plain assignment. `__all__` may not come to share a list with another name: extending it would change the other, too. */
  function ExecAssign(env: Env, targets: seq<string>, value: Expr): Option<Env> {
    var v := EvalExpr(value, env);
    if v.None? || v.value.Gen? then None
    else if v.value.Lst? && ((ALL in targets && (targets != [ALL] || value.Name?)) || value == Name(ALL)) then None
    else Some(BindAll(env, targets, v.value))
  }

  function ExecFrom(env: Env, future: bool, imported: Option<Value>, a: FromAlias): Option<Env> {
    if a.name == "*" then Some(BindAll(env, a.starNames, Opaque))
    else
      var local := FromName(a);
      if future || a.name != ALL then Some(Bind(env, local, Opaque))
      else if imported.None? || imported.value.Gen? || (imported.value.Lst? && local == ALL) then None
      else Some(Bind(env, local, imported.value))
  }

  function ExecFroms(env: Env, future: bool, imported: Option<Value>, names: seq<FromAlias>): Option<Env> {
    if names == [] then Some(env)
    else
      var before := ExecFroms(env, future, imported, names[..|names| - 1]);
      if before.None? then None else ExecFrom(before.value, future, imported, names[|names| - 1])
  }

  function ExecImports(env: Env, aliases: seq<ImportAlias>): Env {
    if aliases == [] then env
    else Bind(ExecImports(env, aliases[..|aliases| - 1]), BoundName(aliases[|aliases| - 1]), Opaque)
  }

  /** None when the statement raises, or shares a list between names, which this semantics leaves open. */
  function ExecStep(files: Files, path: Path, seen: set<Path>, env: Env, stmt: Stmt): Option<Env>
    requires path in files
    decreases files.Keys - seen, path in seen, 0, 0
  {
    match stmt
    case Define(name) => Some(Bind(env, name, Opaque))
    case Import(aliases, submodules) => Some(ExecImports(BindAll(env, submodules, Opaque), aliases))
    case ImportFrom(future, file, names, submodules) =>
      // A module that is still being imported has an unknown `__all__`.
      var imported :=
        if !future && file.Some? && file.value in files && file.value !in seen then ExportedAll(files, file.value, seen + {path})
        else Some(Opaque);
      ExecFroms(BindAll(env, submodules, Opaque), future, imported, names)
    case Assign(targets, value) => ExecAssign(env, targets, value)
    case AugAssign(target, add, value) =>
      var v := EvalExpr(value, env);
      if v.None? || target !in env.vars then None
      else if target == ALL && add then
        var next := Extended(env.vars[ALL], v.value, false);
        if next.None? then None else Some(Bind(env, ALL, next.value))
      // A list is changed in place, under all its names.
      else if env.vars[target].Lst? then None
      else Some(Bind(env, target, Opaque))
    case Mutate(append, args) =>
      if |args| != 1 || ALL !in env.vars then None
      else
        var v := if append then Some(if args[0].Literal? then Tup([args[0].text]) else Opaque) else EvalExpr(args[0], env);
        if v.None? then None
        else
          var next := Extended(env.vars[ALL], v.value, true);
          if next.None? then None else Some(Bind(env, ALL, next.value))
    case Other(touched) => Some(BindAll(env, touched, Opaque))
  }

  function ExecBody(files: Files, path: Path, seen: set<Path>, env: Env, body: seq<Stmt>): Option<Env>
    requires path in files
    decreases files.Keys - seen, path in seen, 1, |body|
  {
    if body == [] then Some(env)
    else
      var before := ExecBody(files, path, seen, env, body[..|body| - 1]);
      if before.None? then None else ExecStep(files, path, seen, before.value, body[|body| - 1])
  }

  function Fresh(path: Path): Env { Env(map[], Implicit(path)) }

  function ExecFile(files: Files, path: Path, seen: set<Path>): Option<Env>
    requires path in files
    decreases files.Keys - seen, path in seen, 2, 0
  {
    ExecBody(files, path, seen, Fresh(path), files[path])
  }

  /** What `from ... import __all__` gets. */
  function ExportedAll(files: Files, path: Path, seen: set<Path>): Option<Value>
    requires path in files
    decreases files.Keys - seen, path in seen, 3, 0
  {
    var env := ExecFile(files, path, seen);
    if env.None? || ALL !in env.value.vars then None else Some(env.value.vars[ALL])
  }

  // ----- static scope and real scope -----

  ghost function Visible(s: seq<string>, unsure: set<string>): seq<string> {
    if s == [] then []
    else Visible(s[..|s| - 1], unsure) + if s[|s| - 1] in unsure then [] else [s[|s| - 1]]
  }

  lemma {:induction false} VisibleMember(s: seq<string>, unsure: set<string>, x: string)
    ensures x in Visible(s, unsure) <==> x in s && x !in unsure
  {
    if s != [] {
      VisibleMember(s[..|s| - 1], unsure, x);
      assert s == s[..|s| - 1] + [s[|s| - 1]];
    }
  }

  lemma {:induction false} VisibleAgain(s: seq<string>, u: set<string>, u': set<string>)
    requires u <= u'
    ensures Visible(Visible(s, u), u') == Visible(s, u')
  {
    if s != [] {
      var n := |s| - 1;
      VisibleAgain(s[..n], u, u');
      if s[n] !in u {
        assert (Visible(s[..n], u) + [s[n]])[..|Visible(s[..n], u)|] == Visible(s[..n], u);
      } else {
        assert Visible(s[..n], u) + [] == Visible(s[..n], u);
      }
    }
  }

  lemma RememberVisible(scope: seq<string>, order: seq<string>, u: set<string>, name: string)
    requires Visible(scope, u) == Visible(order, u)
    ensures Visible(Remember(scope, name), u) == Visible(Remember(order, name), u)
  {
    VisibleMember(scope, u, name);
    VisibleMember(order, u, name);
    assert (scope + [name])[..|scope|] == scope && (order + [name])[..|order|] == order;
  }

  lemma UnsureVisible(scope: seq<string>, u: set<string>, name: string)
    requires name in u
    ensures Visible(Remember(scope, name), u) == Visible(scope, u)
  {
    assert (scope + [name])[..|scope|] == scope;
  }

  lemma MoreUnsure(scope: seq<string>, order: seq<string>, u: set<string>, u': set<string>)
    requires Visible(scope, u) == Visible(order, u) && u <= u'
    ensures Visible(scope, u') == Visible(order, u')
  {
    VisibleAgain(scope, u, u');
    VisibleAgain(order, u, u');
  }

  lemma {:induction false} RememberAllUnsure(scope: seq<string>, names: seq<string>, u: set<string>)
    requires forall n | n in names :: n in u
    ensures Visible(RememberAll(scope, names), u) == Visible(scope, u)
  {
    if names != [] {
      RememberAllUnsure(scope, names[..|names| - 1], u);
      UnsureVisible(RememberAll(scope, names[..|names| - 1]), u, names[|names| - 1]);
    }
  }

  /** Rejected names do not show in a filter. */
  lemma {:induction false} FilterVisible(conds: seq<Cond>, variable: string, scope: seq<string>, u: set<string>)
    requires forall n | n in u :: Accepts(conds, variable, n) == Some(false)
    ensures FilterNames(conds, variable, scope) == FilterNames(conds, variable, Visible(scope, u))
  {
    if scope != [] {
      var n := |scope| - 1;
      FilterVisible(conds, variable, scope[..n], u);
      var v := Visible(scope[..n], u);
      if scope[n] !in u {
        assert (v + [scope[n]])[..|v|] == v;
      } else {
        assert v + [] == v;
        var rest := FilterNames(conds, variable, scope[..n]);
        if rest.Some? { assert rest.value + [] == rest.value; }
      }
    }
  }

  lemma {:induction false} FilterGlobalsVisible(conds: seq<Cond>, variable: string, order: seq<string>, u: set<string>)
    requires forall n | n in u :: Accepts(conds, variable, n) == Some(false)
    ensures FilterGlobals(conds, variable, order) == FilterGlobals(conds, variable, Visible(order, u))
  {
    if order != [] {
      var n := |order| - 1;
      FilterGlobalsVisible(conds, variable, order[..n], u);
      var v := Visible(order[..n], u);
      if order[n] !in u {
        assert (v + [order[n]])[..|v|] == v;
      } else {
        AcceptsIsEval(conds, variable, order[n]);
        assert v + [] == v;
        var rest := FilterGlobals(conds, variable, order[..n]);
        if rest.Some? { assert rest.value + [] == rest.value; }
      }
    }
  }

  lemma {:induction false} FiltersAgree(conds: seq<Cond>, variable: string, names: seq<string>)
    requires FilterNames(conds, variable, names).Some?
    ensures FilterGlobals(conds, variable, names) == FilterNames(conds, variable, names)
  {
    if names != [] {
      FiltersAgree(conds, variable, names[..|names| - 1]);
      AcceptsIsEval(conds, variable, names[|names| - 1]);
    }
  }

  /** A resolved comprehension over the globals selects what execution selects. */
  lemma ComprehensionAgrees(conds: seq<Cond>, variable: string, scope: seq<string>, order: seq<string>, u: set<string>)
    requires Visible(scope, u) == Visible(order, u) && forall n | n in u :: Accepts(conds, variable, n) == Some(false)
    requires FilterNames(conds, variable, scope).Some?
    ensures FilterGlobals(conds, variable, order) == FilterNames(conds, variable, scope)
  {
    FilterVisible(conds, variable, scope, u);
    FilterGlobalsVisible(conds, variable, order, u);
    FiltersAgree(conds, variable, Visible(scope, u));
  }

  lemma {:induction false} FilterMember(conds: seq<Cond>, variable: string, order: seq<string>, x: string)
    requires FilterGlobals(conds, variable, order).Some?
    ensures x in FilterGlobals(conds, variable, order).value <==> x in order && EvalChain(conds, variable, x, false) == Some(true)
  {
    if order != [] {
      FilterMember(conds, variable, order[..|order| - 1], x);
      assert order == order[..|order| - 1] + [order[|order| - 1]];
    }
  }

  lemma FilterSnoc(conds: seq<Cond>, variable: string, order: seq<string>, x: string)
    ensures var rest, accepts := FilterGlobals(conds, variable, order), EvalChain(conds, variable, x, false);
      FilterGlobals(conds, variable, order + [x]) ==
        if rest.None? || accepts.None? then None else if accepts.value then Some(rest.value + [x]) else rest
  {
    hide EvalChain;
    assert (order + [x])[..|order|] == order;
    var rest := FilterGlobals(conds, variable, order);
    if rest.Some? { assert rest.value + [] == rest.value; }
  }

  lemma {:induction false} FilterDrops(conds: seq<Cond>, variable: string, order: seq<string>, u: set<string>)
    requires forall n | n in order && n in u :: EvalChain(conds, variable, n, false) == Some(false)
    ensures FilterGlobals(conds, variable, order) == FilterGlobals(conds, variable, Visible(order, u))
  {
    hide EvalChain, FilterGlobals;
    if order != [] {
      var n := |order| - 1;
      assert order == order[..n] + [order[n]] && order[n] in order && forall m | m in order[..n] :: m in order;
      FilterDrops(conds, variable, order[..n], u);
      FilterSnoc(conds, variable, order[..n], order[n]);
      var v := Visible(order[..n], u);
      if order[n] !in u { FilterSnoc(conds, variable, v, order[n]); } else { assert v + [] == v; }
    }
  }

  lemma {:induction false} AllVisible(s: seq<string>, u: set<string>)
    requires forall n | n in s :: n !in u
    ensures Visible(s, u) == s
  {
    if s != [] {
      var n := |s| - 1;
      assert s == s[..n] + [s[n]] && s[n] in s && forall m | m in s[..n] :: m in s;
      AllVisible(s[..n], u);
    }
  }

  /** Where the static scope only misses names, a resolved comprehension is right exactly when it rejects all that were missed. */
  lemma ComprehensionExact(conds: seq<Cond>, variable: string, scope: seq<string>, order: seq<string>, u: set<string>)
    requires Visible(scope, u) == Visible(order, u) && forall n | n in scope :: n !in u
    requires FilterNames(conds, variable, scope).Some? && FilterGlobals(conds, variable, order).Some?
    ensures FilterGlobals(conds, variable, order) == FilterNames(conds, variable, scope) <==>
            forall n | n in order && n in u :: EvalChain(conds, variable, n, false) == Some(false)
  {
    hide FilterNames, FilterGlobals, EvalChain, Visible;
    AllVisible(scope, u);
    FiltersAgree(conds, variable, scope);
    if forall n | n in order && n in u :: EvalChain(conds, variable, n, false) == Some(false) {
      FilterDrops(conds, variable, order, u);
    } else {
      var n :| n in order && n in u && EvalChain(conds, variable, n, false) != Some(false);
      FilterDefined(conds, variable, order, n);
      FilterMember(conds, variable, order, n);
      FilterMember(conds, variable, scope, n);
      assert EvalChain(conds, variable, n, false).value;
      assert n in FilterGlobals(conds, variable, order).value && n !in FilterNames(conds, variable, scope).value;
    }
  }

  lemma {:induction false} FilterDefined(conds: seq<Cond>, variable: string, order: seq<string>, x: string)
    requires FilterGlobals(conds, variable, order).Some? && x in order
    ensures EvalChain(conds, variable, x, false).Some?
  {
    var n := |order| - 1;
    assert order == order[..n] + [order[n]];
    if x in order[..n] { FilterDefined(conds, variable, order[..n], x); }
  }

  // ----- expressions -----

  /** The executed value holds these strings, up to later duplicates, or is not known to this semantics. */
  ghost predicate Holds(v: Value, names: seq<string>) {
    v.Opaque? || Same(v.items, names)
  }

  ghost predicate SeqsHold(seqs: Sequences, env: Env) {
    forall n | n in seqs :: n in env.vars && !env.vars[n].Gen? && Holds(env.vars[n], seqs[n])
  }

  lemma {:induction false} ExprAgrees(e: Expr, seqs: Sequences, scope: seq<string>, env: Env, u: set<string>)
    requires SeqsHold(seqs, env) && Visible(scope, u) == Visible(env.order, u) && Rejects(e, u)
    requires StringSequence(e, seqs, scope).Some? && EvalExpr(e, env).Some?
    ensures Holds(EvalExpr(e, env).value, StringSequence(e, seqs, scope).value)
    decreases e
  {
    match e
    case Name(id) =>
    case Display(_, elts) => ElementsAgree(elts, seqs, scope, env, u);
    case Add(left, right) =>
      ExprAgrees(left, seqs, scope, env, u);
      ExprAgrees(right, seqs, scope, env, u);
      var l, r := EvalExpr(left, env).value, EvalExpr(right, env).value;
      if !l.Opaque? && !r.Opaque? {
        SameConcat(l.items, StringSequence(left, seqs, scope).value, r.items, StringSequence(right, seqs, scope).value);
      }
    case Call(func, args, _) =>
      if func !in env.vars { ExprAgrees(args[0], seqs, scope, env, u); }
    case Comprehension(_, _, variable, conds) =>
      ComprehensionAgrees(conds, variable, scope, env.order, u);
    case _ =>
  }

  lemma {:induction false} ElementsAgree(elts: seq<Elt>, seqs: Sequences, scope: seq<string>, env: Env, u: set<string>)
    requires SeqsHold(seqs, env) && Visible(scope, u) == Visible(env.order, u)
    requires forall i | 0 <= i < |elts| :: elts[i].Star? ==> Rejects(elts[i].expr, u)
    requires StringElements(elts, seqs, scope).Some? && EvalElements(elts, env).Some?
    ensures Holds(EvalElements(elts, env).value, StringElements(elts, seqs, scope).value)
    decreases elts
  {
    if elts != [] {
      ElementsAgree(elts[1..], seqs, scope, env, u);
      ElementAgrees(elts[0], seqs, scope, env, u);
      var first, rest := EvalElement(elts[0], env).value, EvalElements(elts[1..], env).value;
      if !first.Opaque? && !rest.Opaque? {
        SameConcat(first.items, StringElement(elts[0], seqs, scope).value, rest.items, StringElements(elts[1..], seqs, scope).value);
      }
    }
  }

  lemma {:induction false} ElementAgrees(elt: Elt, seqs: Sequences, scope: seq<string>, env: Env, u: set<string>)
    requires SeqsHold(seqs, env) && Visible(scope, u) == Visible(env.order, u)
    requires elt.Star? ==> Rejects(elt.expr, u)
    requires StringElement(elt, seqs, scope).Some? && EvalElement(elt, env).Some?
    ensures Holds(EvalElement(elt, env).value, StringElement(elt, seqs, scope).value)
    decreases elt
  {
    if elt.Star? { ExprAgrees(elt.expr, seqs, scope, env, u); }
  }

  // ----- statements -----

  /** The evaluator's beliefs hold in the executed module. */
  ghost predicate Believed(st: Static, env: Env) {
    && SeqsHold(st.seqs, env) && ALL in st.unsure && Visible(st.scope, st.unsure) == Visible(env.order, st.unsure)
    && forall n | n in env.vars :: n in env.order
  }

  lemma BindOpaque(st: Static, env: Env, name: string)
    requires Believed(st, env) && name !in st.seqs
    ensures Believed(st.(scope := Remember(st.scope, name)), Bind(env, name, Opaque))
  {
    RememberVisible(st.scope, env.order, st.unsure, name);
  }

  /** A binding the static scope does not see, or sees under another name. */
  lemma BindHidden(st: Static, env: Env, name: string, u: set<string>)
    requires Believed(st, env) && name !in st.seqs && name in u && st.unsure <= u
    ensures Believed(st.(unsure := u), Bind(env, name, Opaque))
  {
    MoreUnsure(st.scope, env.order, st.unsure, u);
    UnsureVisible(env.order, u, name);
  }

  lemma {:induction false} BindHiddenAll(st: Static, env: Env, names: seq<string>)
    requires Believed(st, env) && forall n | n in names :: n !in st.seqs
    ensures Believed(st.(unsure := st.unsure + Elements(names)), BindAll(env, names, Opaque))
  {
    if names == [] {
      assert st.unsure + Elements(names) == st.unsure;
    } else {
      var n := |names| - 1;
      assert forall x | x in names[..n] :: x in names;
      BindHiddenAll(st, env, names[..n]);
      assert names == names[..n] + [names[n]];
      var u := st.unsure + Elements(names[..n]);
      assert u + {names[n]} == st.unsure + Elements(names);
      BindHidden(st.(unsure := u), BindAll(env, names[..n], Opaque), names[n], u + {names[n]});
    }
  }

  lemma ImportKeeps(st: Static, env: Env, a: ImportAlias)
    requires Believed(st, env) && StaticImport(st, a).clean
    ensures Believed(StaticImport(st, a), Bind(env, BoundName(a), Opaque)) && st.clean
  {
    var local, bound := LocalName(a), BoundName(a);
    if local == bound {
      BindOpaque(st, env, local);
    } else {
      var u := st.unsure + {local, bound};
      BindHidden(st, env, bound, u);
      UnsureVisible(st.scope, u, local);
    }
  }

  lemma {:induction false} ImportsKeep(st: Static, env: Env, aliases: seq<ImportAlias>)
    requires Believed(st, env) && StaticImports(st, aliases).clean
    ensures Believed(StaticImports(st, aliases), ExecImports(env, aliases)) && st.clean
  {
    if aliases != [] {
      var n := |aliases| - 1;
      assert StaticImports(st, aliases[..n]).clean;
      ImportsKeep(st, env, aliases[..n]);
      ImportKeeps(StaticImports(st, aliases[..n]), ExecImports(env, aliases[..n]), aliases[n]);
    }
  }

  /** What an imported `__all__` must satisfy. */
  ghost predicate ImportHolds(imported: Declared, clean: bool, value: Option<Value>) {
    imported.Names? && clean && value.Some? && !value.value.Gen? ==> Holds(value.value, imported.names)
  }

  lemma FromKeeps(st: Static, env: Env, future: bool, imported: Declared, clean: bool, value: Option<Value>, a: FromAlias)
    requires Believed(st, env) && ImportHolds(imported, clean, value)
    requires StaticFrom(st, future, imported, clean, a).clean && ExecFrom(env, future, value, a).Some?
    ensures Believed(StaticFrom(st, future, imported, clean, a), ExecFrom(env, future, value, a).value) && st.clean
  {
    hide Believed, ImportHolds, Remember;
    var local, st' := FromName(a), StaticFrom(st, future, imported, clean, a);
    if a.name == "*" {
      BindHiddenAll(st, env, a.starNames);
      ForgetFlags(st.(unsure := st.unsure + Elements(a.starNames)), st', BindAll(env, a.starNames, Opaque));
    } else if future {
      BindHidden(st, env, local, st.unsure + {local});
      ForgetFlags(st.(unsure := st.unsure + {local}), st', Bind(env, local, Opaque));
    } else if a.name == ALL && imported.Names? {
      BindImported(st, env, local, imported, clean, value);
      ForgetFlags(st.(scope := Remember(st.scope, local), seqs := st.seqs[local := imported.names]), st', Bind(env, local, value.value));
    } else {
      BindUnknown(st, env, local, if a.name == ALL then value.value else Opaque);
      ForgetFlags(st.(scope := Remember(st.scope, local)), st', ExecFrom(env, future, value, a).value);
    }
  }

  lemma BindImported(st: Static, env: Env, local: string, imported: Declared, clean: bool, value: Option<Value>)
    requires Believed(st, env) && ImportHolds(imported, clean, value) && imported.Names? && clean && value.Some? && !value.value.Gen?
    ensures Believed(st.(scope := Remember(st.scope, local), seqs := st.seqs[local := imported.names]), Bind(env, local, value.value))
  {
    hide Visible, Same;
    RememberVisible(st.scope, env.order, st.unsure, local);
  }

  lemma BindUnknown(st: Static, env: Env, local: string, v: Value)
    requires Believed(st, env) && local !in st.seqs
    ensures Believed(st.(scope := Remember(st.scope, local)), Bind(env, local, v))
  {
    hide Visible, Same;
    RememberVisible(st.scope, env.order, st.unsure, local);
  }

  lemma {:induction false} FromsKeep(st: Static, env: Env, future: bool, imported: Declared, clean: bool, value: Option<Value>, names: seq<FromAlias>)
    requires Believed(st, env) && ImportHolds(imported, clean, value)
    requires StaticFroms(st, future, imported, clean, names).clean && ExecFroms(env, future, value, names).Some?
    ensures Believed(StaticFroms(st, future, imported, clean, names), ExecFroms(env, future, value, names).value) && st.clean
  {
    if names != [] {
      var n := |names| - 1;
      var before, entered := StaticFroms(st, future, imported, clean, names[..n]), ExecFroms(env, future, value, names[..n]);
      assert before.clean;
      FromsKeep(st, env, future, imported, clean, value, names[..n]);
      FromKeeps(before, entered.value, future, imported, clean, value, names[n]);
    }
  }

  lemma {:induction false} OtherTargetsMember(targets: seq<string>, x: string)
    ensures x in OtherTargets(targets) <==> x in targets && x != ALL
  {
    if targets != [] {
      OtherTargetsMember(targets[..|targets| - 1], x);
      assert targets == targets[..|targets| - 1] + [targets[|targets| - 1]];
    }
  }

  /** Binding the targets one by one, in the evaluator and in the module. */
  lemma {:induction false} TargetsHold(st: Static, env: Env, targets: seq<string>, value: Option<seq<string>>, v: Value)
    requires SeqsHold(st.seqs, env) && !v.Gen? && (value.Some? ==> Holds(v, value.value))
    ensures SeqsHold(AssignTargets(st, targets, value).seqs, BindAll(env, targets, v))
    ensures AssignTargets(st, targets, value).scope == st.scope && AssignTargets(st, targets, value).unsure == st.unsure
    ensures BindAll(env, targets, v).order == RememberAll(env.order, targets)
    ensures (forall n | n in env.vars :: n in env.order) ==> forall n | n in BindAll(env, targets, v).vars :: n in BindAll(env, targets, v).order
  {
    if targets != [] {
      TargetsHold(st, env, targets[..|targets| - 1], value, v);
    }
  }

  lemma {:induction false} RememberSameVisible(scope: seq<string>, order: seq<string>, targets: seq<string>, u: set<string>)
    requires Visible(scope, u) == Visible(order, u) && ALL in u
    ensures Visible(RememberAll(scope, OtherTargets(targets)), u) == Visible(RememberAll(order, targets), u)
  {
    if targets != [] {
      var n := |targets| - 1;
      RememberSameVisible(scope, order, targets[..n], u);
      var s, o := RememberAll(scope, OtherTargets(targets[..n])), RememberAll(order, targets[..n]);
      if targets[n] == ALL {
        UnsureVisible(o, u, ALL);
        assert OtherTargets(targets[..n]) + [] == OtherTargets(targets[..n]);
      } else {
        RememberVisible(s, o, u, targets[n]);
        var all := OtherTargets(targets[..n]) + [targets[n]];
        assert all[..|all| - 1] == OtherTargets(targets[..n]);
      }
    }
  }

  lemma AssignKeeps(st: Static, env: Env, targets: seq<string>, value: Expr)
    requires Believed(st, env) && ExecAssign(env, targets, value).Some?
    requires var named := st.(scope := RememberAll(st.scope, OtherTargets(targets)));
      StringSequence(value, named.seqs, named.scope).Some? ==> Rejects(value, st.unsure + Elements(targets))
    ensures var named := st.(scope := RememberAll(st.scope, OtherTargets(targets)));
      Believed(AssignTargets(named, targets, StringSequence(value, named.seqs, named.scope)), ExecAssign(env, targets, value).value)
  {
    var named := st.(scope := RememberAll(st.scope, OtherTargets(targets)));
    var resolved := StringSequence(value, named.seqs, named.scope);
    var v := EvalExpr(value, env).value;
    var u := st.unsure + Elements(targets);
    if resolved.Some? {
      forall n | n in OtherTargets(targets) ensures n in u { OtherTargetsMember(targets, n); }
      RememberAllUnsure(st.scope, OtherTargets(targets), u);
      MoreUnsure(st.scope, env.order, st.unsure, u);
      ExprAgrees(value, named.seqs, named.scope, env, u);
    }
    TargetsHold(named, env, targets, resolved, v);
    RememberSameVisible(st.scope, env.order, targets, st.unsure);
  }

  lemma ExtendKeeps(st: Static, env: Env, extension: Option<seq<string>>, v: Value, inPlace: bool)
    requires Believed(st, env) && ALL in env.vars && Extend(st, extension).clean && (extension.Some? ==> Holds(v, extension.value))
    requires Extended(env.vars[ALL], v, inPlace).Some?
    ensures Believed(Extend(st, extension), Bind(env, ALL, Extended(env.vars[ALL], v, inPlace).value)) && st.clean
  {
    UnsureVisible(env.order, st.unsure, ALL);
    var current, next := env.vars[ALL], Extended(env.vars[ALL], v, inPlace).value;
    if extension.Some? && !next.Opaque? {
      SameConcat(current.items, st.seqs[ALL], v.items, extension.value);
    }
  }

  // ----- whole modules -----

  lemma {:induction false} StepKeeps(files: Files, path: Path, seen: set<Path>, st: Static, env: Env, stmt: Stmt)
    requires path in files && Believed(st, env)
    requires StaticStep(files, path, seen, st, stmt).clean && ExecStep(files, path, seen, env, stmt).Some?
    ensures Believed(StaticStep(files, path, seen, st, stmt), ExecStep(files, path, seen, env, stmt).value) && st.clean
    decreases files.Keys - seen, path in seen, 0, 0
  {
    hide Believed, StringSequence, EvalExpr, Extend, Extended, StaticFroms, ExecFroms, ExecAssign, AssignTargets;
    match stmt
    case Define(name) => BindOpaque(st, env, name); ForgetFlags(st.(scope := Remember(st.scope, name)), StaticStep(files, path, seen, st, stmt), Bind(env, name, Opaque));
    case Import(aliases, submodules) =>
      CleanBefore(files, path, seen, st, stmt);
      TouchKeeps(st, env, submodules);
      ImportsKeep(Touched(st, submodules), BindAll(env, submodules, Opaque), aliases);
    case ImportFrom(future, file, names, submodules) =>
      CleanBefore(files, path, seen, st, stmt);
      TouchKeeps(st, env, submodules);
      var st', env' := Touched(st, submodules), BindAll(env, submodules, Opaque);
      if !future && file.Some? && file.value in files && file.value !in seen {
        var sub, value := StaticFile(files, file.value, seen + {path}), ExportedAll(files, file.value, seen + {path});
        if value.Some? && sub.clean {
          FileKeeps(files, file.value, seen + {path});
          if Result(sub).Names? { ResultHolds(sub, ExecFile(files, file.value, seen + {path}).value); }
        }
        FromsKeep(st', env', false, Result(sub), sub.clean, value, names);
      } else {
        FromsKeep(st', env', future, NoAll, true, Some(Opaque), names);
      }
    case Assign(targets, value) =>
      AssignKeeps(st, env, targets, value);
      var named := st.(scope := RememberAll(st.scope, OtherTargets(targets)));
      ForgetFlags(AssignTargets(named, targets, StringSequence(value, named.seqs, named.scope)),
                  StaticStep(files, path, seen, st, stmt), ExecAssign(env, targets, value).value);
    case AugAssign(target, add, value) => AugKeeps(files, path, seen, st, env, target, add, value);
    case Mutate(append, args) => MutateKeeps(files, path, seen, st, env, append, args);
    case Other(touched) => TouchKeeps(st, env, touched);
  }

  lemma TouchKeeps(st: Static, env: Env, names: seq<string>)
    requires Believed(st, env) && Touched(st, names).clean
    ensures Believed(Touched(st, names), BindAll(env, names, Opaque))
  {
    hide Believed;
    BindHiddenAll(st, env, names);
    ForgetFlags(st.(unsure := st.unsure + Elements(names)), Touched(st, names), BindAll(env, names, Opaque));
  }

  /** Belief does not depend on the flags. */
  lemma ForgetFlags(st: Static, st': Static, env: Env)
    requires Believed(st, env) && st'.seqs == st.seqs && st'.scope == st.scope && st'.unsure == st.unsure
    ensures Believed(st', env)
  {
  }

  lemma AugKeeps(files: Files, path: Path, seen: set<Path>, st: Static, env: Env, target: string, add: bool, value: Expr)
    requires path in files && Believed(st, env)
    requires var stmt := AugAssign(target, add, value);
      StaticStep(files, path, seen, st, stmt).clean && ExecStep(files, path, seen, env, stmt).Some?
    ensures var stmt := AugAssign(target, add, value);
      Believed(StaticStep(files, path, seen, st, stmt), ExecStep(files, path, seen, env, stmt).value) && st.clean
  {
    hide StringSequence, EvalExpr;
    var v := EvalExpr(value, env).value;
    if target == ALL && add {
      var extension := StringSequence(value, st.seqs, st.scope);
      if extension.Some? { ExprAgrees(value, st.seqs, st.scope, env, st.unsure); }
      ExtendKeeps(st, env, extension, v, false);
    } else {
      assert target in env.vars;
      RebindOpaque(st, env, target);
    }
  }

  /** A target of an augmented assignment is bound already; its place in the scope may be unknown. */
  lemma RebindOpaque(st: Static, env: Env, name: string)
    requires Believed(st, env) && name !in st.seqs && name in env.vars && name in env.order
    ensures Believed(st, Bind(env, name, Opaque))
  {
  }

  lemma MutateKeeps(files: Files, path: Path, seen: set<Path>, st: Static, env: Env, append: bool, args: seq<Expr>)
    requires path in files && Believed(st, env)
    requires var stmt := Mutate(append, args);
      StaticStep(files, path, seen, st, stmt).clean && ExecStep(files, path, seen, env, stmt).Some?
    ensures var stmt := Mutate(append, args);
      Believed(StaticStep(files, path, seen, st, stmt), ExecStep(files, path, seen, env, stmt).value) && st.clean
  {
    hide StringSequence, EvalExpr;
    var extension := MutateOperand(append, args, st.seqs, st.scope);
    var v := if append then (if args[0].Literal? then Tup([args[0].text]) else Opaque) else EvalExpr(args[0], env).value;
    if extension.Some? && !append { ExprAgrees(args[0], st.seqs, st.scope, env, st.unsure); }
    ExtendKeeps(st, env, extension, v, true);
  }

  lemma {:induction false} BodyKeeps(files: Files, path: Path, seen: set<Path>, st: Static, env: Env, body: seq<Stmt>)
    requires path in files && Believed(st, env)
    requires StaticBody(files, path, seen, st, body).clean && ExecBody(files, path, seen, env, body).Some?
    ensures Believed(StaticBody(files, path, seen, st, body), ExecBody(files, path, seen, env, body).value) && st.clean
    decreases files.Keys - seen, path in seen, 1, |body|
  {
    hide Believed, StaticStep, ExecStep;
    if body != [] {
      var n := |body| - 1;
      var before, entered := StaticBody(files, path, seen, st, body[..n]), ExecBody(files, path, seen, env, body[..n]).value;
      CleanBefore(files, path, seen, before, body[n]);
      BodyKeeps(files, path, seen, st, env, body[..n]);
      StepKeeps(files, path, seen, before, entered, body[n]);
    }
  }

  lemma CleanBefore(files: Files, path: Path, seen: set<Path>, st: Static, stmt: Stmt)
    requires path in files && StaticStep(files, path, seen, st, stmt).clean
    ensures st.clean && (stmt.Import? || stmt.ImportFrom? ==> Touched(st, stmt.submodules).clean)
  {
    match stmt
    case Import(aliases, submodules) => CleanImports(Touched(st, submodules), aliases);
    case ImportFrom(future, file, names, submodules) =>
      if !future && file.Some? && file.value in files && file.value !in seen {
        var sub := StaticFile(files, file.value, seen + {path});
        CleanFroms(Touched(st, submodules), false, Result(sub), sub.clean, names);
      } else {
        CleanFroms(Touched(st, submodules), future, NoAll, true, names);
      }
    case _ =>
  }

  lemma {:induction false} CleanImports(st: Static, aliases: seq<ImportAlias>)
    requires StaticImports(st, aliases).clean
    ensures st.clean
  {
    if aliases != [] { CleanImports(st, aliases[..|aliases| - 1]); }
  }

  lemma {:induction false} CleanFroms(st: Static, future: bool, imported: Declared, clean: bool, names: seq<FromAlias>)
    requires StaticFroms(st, future, imported, clean, names).clean
    ensures st.clean
  {
    if names != [] { CleanFroms(st, future, imported, clean, names[..|names| - 1]); }
  }

  lemma StartBelieved(path: Path)
    ensures Believed(START, Fresh(path))
  {
    forall n | n in Implicit(path) ensures n in START.unsure {}
    NothingVisible(Implicit(path), START.unsure);
  }

  lemma {:induction false} NothingVisible(s: seq<string>, u: set<string>)
    requires forall n | n in s :: n in u
    ensures Visible(s, u) == []
  {
    if s != [] {
      assert forall n | n in s[..|s| - 1] :: n in s;
      NothingVisible(s[..|s| - 1], u);
    }
  }

  /** If nothing went stale, what the evaluator believes about a file holds in its execution. */
  lemma {:induction false} FileKeeps(files: Files, path: Path, seen: set<Path>)
    requires path in files && StaticFile(files, path, seen).clean && ExecFile(files, path, seen).Some?
    ensures Believed(StaticFile(files, path, seen), ExecFile(files, path, seen).value)
    decreases files.Keys - seen, path in seen, 2, 0
  {
    StartBelieved(path);
    BodyKeeps(files, path, seen, START, Fresh(path), files[path]);
  }

  lemma ResultHolds(st: Static, env: Env)
    requires Believed(st, env) && Result(st).Names? && ALL in env.vars
    ensures Holds(env.vars[ALL], Result(st).names)
  {
    DedupeTwice(st.seqs[ALL]);
  }

  /** Soundness: for a module that executes, and in whose evaluation nothing went stale or restarted, the declared names are the
      executed `__all__` with later duplicates dropped. */
  lemma DeclaredIsExecuted(files: Files, path: Path, seen: set<Path>)
    requires path in files && StaticFile(files, path, seen).clean && ExecFile(files, path, seen).Some?
    requires var env := ExecFile(files, path, seen).value; ALL in env.vars && !env.vars[ALL].Opaque?
    requires Result(StaticFile(files, path, seen)).Names?
    ensures Result(StaticFile(files, path, seen)).names == Dedupe(ExecFile(files, path, seen).value.vars[ALL].items)
  {
    var st, env := StaticFile(files, path, seen), ExecFile(files, path, seen).value;
    FileKeeps(files, path, seen);
    assert Holds(env.vars[ALL], st.seqs[ALL]);
  }

  // ----- when there is a declaration at all -----

  /** A write to `__all__` that the evaluator recognises. */
  predicate Writes(stmt: Stmt) {
    match stmt
    case Assign(targets, _) => ALL in targets
    case AugAssign(target, add, _) => target == ALL && add
    case Mutate(_, _) => true
    case _ => false
  }

  lemma {:induction false} TargetFacts(st: Static, targets: seq<string>, value: Option<seq<string>>)
    ensures AssignTargets(st, targets, value).sawAll == (st.sawAll || ALL in targets)
    ensures ALL in AssignTargets(st, targets, value).seqs <==> if ALL in targets then value.Some? else ALL in st.seqs
  {
    if targets != [] {
      TargetFacts(st, targets[..|targets| - 1], value);
      assert targets == targets[..|targets| - 1] + [targets[|targets| - 1]];
    }
  }

  lemma {:induction false} ImportFacts(st: Static, aliases: seq<ImportAlias>)
    ensures var r := StaticImports(st, aliases); r.sawAll == st.sawAll && r.resolved == st.resolved && r.seqs == st.seqs
  {
    if aliases != [] { ImportFacts(st, aliases[..|aliases| - 1]); }
  }

  lemma {:induction false} FromFacts(st: Static, future: bool, imported: Declared, clean: bool, names: seq<FromAlias>)
    ensures var r := StaticFroms(st, future, imported, clean, names);
      r.sawAll == st.sawAll && r.resolved == st.resolved && (ALL in st.seqs ==> ALL in r.seqs)
  {
    if names != [] { FromFacts(st, future, imported, clean, names[..|names| - 1]); }
  }

  lemma StepFacts(files: Files, path: Path, seen: set<Path>, st: Static, stmt: Stmt)
    requires path in files
    ensures var r := StaticStep(files, path, seen, st, stmt);
      && r.sawAll == (st.sawAll || Writes(stmt))
      && ((st.sawAll && st.resolved ==> ALL in st.seqs) ==> (r.sawAll && r.resolved ==> ALL in r.seqs))
      && (r.resolved ==> st.resolved)
  {
    hide StringSequence;
    match stmt
    case Import(aliases, submodules) => ImportFacts(Touched(st, submodules), aliases);
    case ImportFrom(future, file, names, submodules) =>
      if !future && file.Some? && file.value in files && file.value !in seen {
        var sub := StaticFile(files, file.value, seen + {path});
        FromFacts(Touched(st, submodules), false, Result(sub), sub.clean, names);
      } else {
        FromFacts(Touched(st, submodules), future, NoAll, true, names);
      }
    case Assign(targets, value) =>
      var named := st.(scope := RememberAll(st.scope, OtherTargets(targets)));
      TargetFacts(named, targets, StringSequence(value, named.seqs, named.scope));
    case _ =>
  }

  lemma {:induction false} BodyFacts(files: Files, path: Path, seen: set<Path>, body: seq<Stmt>)
    requires path in files
    ensures var r := StaticBody(files, path, seen, START, body);
      && (r.sawAll <==> exists stmt :: stmt in body && Writes(stmt))
      && (r.sawAll && r.resolved ==> ALL in r.seqs)
  {
    hide StaticStep;
    if body != [] {
      var n := |body| - 1;
      BodyFacts(files, path, seen, body[..n]);
      StepFacts(files, path, seen, StaticBody(files, path, seen, START, body[..n]), body[n]);
      assert body == body[..n] + [body[n]];
    }
  }

  /** Completeness: there is no declaration exactly when nothing writes `__all__`, and if every write has a resolvable operand the
      declaration resolves. */
  lemma DeclaredWhen(files: Files, path: Path, seen: set<Path>)
    requires path in files
    ensures var st := StaticFile(files, path, seen);
      && (Result(st).NoAll? <==> !exists stmt :: stmt in files[path] && Writes(stmt))
      && (st.resolved ==> !Result(st).Unresolvable?)
  {
    BodyFacts(files, path, seen, files[path]);
  }

  // ----- plain modules -----

  /** The names a statement binds by plain assignment, or imports as another module's `__all__`. */
  function Assigned(stmt: Stmt): set<string> {
    match stmt
    case Assign(targets, _) => Elements(targets)
    case ImportFrom(future, _, names, _) => if future then {} else set a | a in names && a.name == ALL :: FromName(a)
    case _ => {}
  }

  /** The names a statement binds where the static scope misses them, or sees them under another name. */
  function Missed(stmt: Stmt): set<string> {
    match stmt
    case Import(aliases, submodules) =>
      Elements(submodules) +
      (set a | a in aliases && LocalName(a) != BoundName(a) :: LocalName(a)) +
      set a | a in aliases && LocalName(a) != BoundName(a) :: BoundName(a)
    case ImportFrom(future, _, names, submodules) =>
      Elements(submodules) +
      (set a, n | a in names && a.name == "*" && n in a.starNames :: n) +
      if future then set a | a in names && a.name != "*" :: FromName(a) else {}
    case Other(touched) => Elements(touched)
    case _ => {}
  }

  function AssignedNames(body: seq<Stmt>): set<string> { set stmt, n | stmt in body && n in Assigned(stmt) :: n }

  function MissedNames(body: seq<Stmt>): set<string> { START.unsure + set stmt, n | stmt in body && n in Missed(stmt) :: n }

  ghost predicate PlainFrom(a: FromAlias, future: bool, bound: set<string>) {
    if a.name == "*" then forall n | n in a.starNames :: n !in bound
    else (!future && a.name == ALL) || FromName(a) !in bound
  }

  /** Names in `bound` are bound in no other way, and comprehensions reject the names in `missed`. */
  ghost predicate BindsPlainly(stmt: Stmt, bound: set<string>, missed: set<string>) {
    match stmt
    case Define(name) => name !in bound
    case Import(aliases, submodules) =>
      && (forall n | n in submodules :: n !in bound)
      && (forall a | a in aliases :: LocalName(a) !in bound && BoundName(a) !in bound)
    case ImportFrom(future, _, names, submodules) =>
      && (forall n | n in submodules :: n !in bound)
      && (forall a | a in names :: PlainFrom(a, future, bound))
    case Assign(targets, value) => Rejects(value, missed + Elements(targets))
    case AugAssign(target, add, value) => if target == ALL && add then Rejects(value, missed) else target !in bound
    case Mutate(_, args) => forall i | 0 <= i < |args| :: Rejects(args[i], missed)
    case Other(touched) => forall n | n in touched :: n !in bound
  }

  /** The statement imports another module's `__all__`. */
  ghost predicate ImportsAll(stmt: Stmt) {
    stmt.ImportFrom? && !stmt.future && exists a | a in stmt.names :: a.name == ALL
  }

  /** Plain, and every `__all__` that is imported comes from a file of which the same is true. */
  ghost predicate PlainStep(files: Files, path: Path, seen: set<Path>, stmt: Stmt, bound: set<string>, missed: set<string>)
    requires path in files
    decreases files.Keys - seen, path in seen, 0
  {
    && BindsPlainly(stmt, bound, missed)
    && (ImportsAll(stmt) ==>
          && stmt.file.Some? && stmt.file.value in files && stmt.file.value !in seen
          && PlainFile(files, stmt.file.value, seen + {path}))
  }

  /** A module that declares `__all__`, whose helper sequences are bound only by plain assignment and whose `__all__` writes all have
      resolvable operands. */
  ghost predicate PlainFile(files: Files, path: Path, seen: set<Path>)
    requires path in files
    decreases files.Keys - seen, path in seen, 1
  {
    && StaticFile(files, path, seen).resolved && (exists stmt :: stmt in files[path] && Writes(stmt))
    && forall stmt | stmt in files[path] ::
         PlainStep(files, path, seen, stmt, {ALL} + AssignedNames(files[path]), MissedNames(files[path]))
  }

  lemma {:induction false} RejectsFewer(e: Expr, u: set<string>, u': set<string>)
    requires Rejects(e, u') && u <= u'
    ensures Rejects(e, u)
    decreases e
  {
    match e
    case Display(_, elts) =>
      forall i | 0 <= i < |elts| && elts[i].Star? ensures Rejects(elts[i].expr, u) { RejectsFewer(elts[i].expr, u, u'); }
    case Add(left, right) => RejectsFewer(left, u, u'); RejectsFewer(right, u, u');
    case Call(_, args, _) => forall i | 0 <= i < |args| ensures Rejects(args[i], u) { RejectsFewer(args[i], u, u'); }
    case _ =>
  }

  /** What the run of a plain module keeps. */
  ghost predicate PlainSoFar(st: Static, env: Env, bound: set<string>, missed: set<string>) {
    st.clean && ALL in bound && st.seqs.Keys <= bound && st.unsure <= missed && (ALL in env.vars ==> ALL in st.seqs)
  }

  lemma {:induction false} PlainImports(st: Static, env: Env, aliases: seq<ImportAlias>, bound: set<string>, missed: set<string>)
    requires PlainSoFar(st, env, bound, missed) && Missed(Import(aliases, [])) <= missed
    requires forall a | a in aliases :: LocalName(a) !in bound && BoundName(a) !in bound
    ensures PlainSoFar(StaticImports(st, aliases), ExecImports(env, aliases), bound, missed)
  {
    if aliases != [] {
      var n := |aliases| - 1;
      assert aliases[n] in aliases && forall a | a in aliases[..n] :: a in aliases;
      PlainImports(st, env, aliases[..n], bound, missed);
    }
  }

  lemma {:induction false} BindAllVars(env: Env, names: seq<string>, v: Value, x: string)
    ensures x in BindAll(env, names, v).vars <==> x in env.vars || x in names
  {
    if names != [] {
      BindAllVars(env, names[..|names| - 1], v, x);
      assert names == names[..|names| - 1] + [names[|names| - 1]];
    }
  }

  lemma PlainFromKeeps(st: Static, env: Env, future: bool, imported: Declared, clean: bool, value: Option<Value>, a: FromAlias, bound: set<string>, missed: set<string>)
    requires PlainSoFar(st, env, bound, missed) && ExecFrom(env, future, value, a).Some? && PlainFrom(a, future, bound)
    requires !future && a.name == ALL ==> clean && imported.Names? && FromName(a) in bound
    requires if a.name == "*" then Elements(a.starNames) <= missed else future ==> FromName(a) in missed
    ensures PlainSoFar(StaticFrom(st, future, imported, clean, a), ExecFrom(env, future, value, a).value, bound, missed)
  {
    if a.name == "*" { BindAllVars(env, a.starNames, Opaque, ALL); }
  }

  lemma {:induction false} PlainFroms(st: Static, env: Env, future: bool, imported: Declared, clean: bool, value: Option<Value>, names: seq<FromAlias>, bound: set<string>, missed: set<string>)
    requires PlainSoFar(st, env, bound, missed) && ExecFroms(env, future, value, names).Some?
    requires forall a | a in names :: PlainFrom(a, future, bound) && (!future && a.name == ALL ==> clean && imported.Names? && FromName(a) in bound)
    requires forall a | a in names :: if a.name == "*" then Elements(a.starNames) <= missed else future ==> FromName(a) in missed
    ensures PlainSoFar(StaticFroms(st, future, imported, clean, names), ExecFroms(env, future, value, names).value, bound, missed)
  {
    hide PlainSoFar, PlainFrom;
    if names != [] {
      var n := |names| - 1;
      assert names[n] in names && forall a | a in names[..n] :: a in names;
      PlainFroms(st, env, future, imported, clean, value, names[..n], bound, missed);
      PlainFromKeeps(StaticFroms(st, future, imported, clean, names[..n]), ExecFroms(env, future, value, names[..n]).value,
                     future, imported, clean, value, names[n], bound, missed);
    }
  }

  lemma {:induction false} TargetKeys(st: Static, targets: seq<string>, value: Option<seq<string>>)
    ensures var r := AssignTargets(st, targets, value); r.seqs.Keys <= st.seqs.Keys + Elements(targets) && r.unsure == st.unsure
  {
    if targets != [] {
      TargetKeys(st, targets[..|targets| - 1], value);
      assert targets == targets[..|targets| - 1] + [targets[|targets| - 1]];
    }
  }

  lemma PlainAssign(files: Files, path: Path, seen: set<Path>, st: Static, env: Env, targets: seq<string>, value: Expr, bound: set<string>, missed: set<string>)
    requires path in files && PlainSoFar(st, env, bound, missed) && Elements(targets) <= bound && Rejects(value, missed + Elements(targets))
    requires StaticStep(files, path, seen, st, Assign(targets, value)).resolved && ExecAssign(env, targets, value).Some?
    ensures PlainSoFar(StaticStep(files, path, seen, st, Assign(targets, value)), ExecAssign(env, targets, value).value, bound, missed)
  {
    hide StringSequence, EvalExpr, Rejects;
    RejectsFewer(value, st.unsure + Elements(targets), missed + Elements(targets));
    var named := st.(scope := RememberAll(st.scope, OtherTargets(targets)));
    var resolved := StringSequence(value, named.seqs, named.scope);
    TargetKeys(named, targets, resolved);
    TargetFacts(named, targets, resolved);
    BindAllVars(env, targets, EvalExpr(value, env).value, ALL);
  }

  lemma PlainExtend(files: Files, path: Path, seen: set<Path>, st: Static, env: Env, stmt: Stmt, bound: set<string>, missed: set<string>)
    requires path in files && PlainSoFar(st, env, bound, missed) && (stmt.AugAssign? || stmt.Mutate?)
    requires PlainStep(files, path, seen, stmt, bound, missed)
    requires StaticStep(files, path, seen, st, stmt).resolved && ExecStep(files, path, seen, env, stmt).Some?
    ensures PlainSoFar(StaticStep(files, path, seen, st, stmt), ExecStep(files, path, seen, env, stmt).value, bound, missed)
  {
    hide StringSequence, EvalExpr, Rejects, Extended;
    if stmt.Mutate? {
      forall i | 0 <= i < |stmt.args| ensures Rejects(stmt.args[i], st.unsure) { RejectsFewer(stmt.args[i], st.unsure, missed); }
    } else if stmt.target == ALL && stmt.add {
      RejectsFewer(stmt.value, st.unsure, missed);
    }
  }

  lemma {:induction false} PlainStepKeeps(files: Files, path: Path, seen: set<Path>, st: Static, env: Env, stmt: Stmt, bound: set<string>, missed: set<string>)
    requires path in files && PlainSoFar(st, env, bound, missed) && PlainStep(files, path, seen, stmt, bound, missed)
    requires Assigned(stmt) <= bound && Missed(stmt) <= missed
    requires StaticStep(files, path, seen, st, stmt).resolved && ExecStep(files, path, seen, env, stmt).Some?
    ensures PlainSoFar(StaticStep(files, path, seen, st, stmt), ExecStep(files, path, seen, env, stmt).value, bound, missed)
    decreases files.Keys - seen, path in seen, 0, 1
  {
    match stmt
    case Import(aliases, submodules) =>
      PlainTouch(st, env, submodules, bound, missed);
      PlainImports(Touched(st, submodules), BindAll(env, submodules, Opaque), aliases, bound, missed);
    case ImportFrom(_, _, _, _) => PlainFromStep(files, path, seen, st, env, stmt, bound, missed);
    case Assign(targets, value) => PlainAssign(files, path, seen, st, env, targets, value, bound, missed);
    case AugAssign(_, _, _) => PlainExtend(files, path, seen, st, env, stmt, bound, missed);
    case Mutate(_, _) => PlainExtend(files, path, seen, st, env, stmt, bound, missed);
    case Other(touched) => PlainTouch(st, env, touched, bound, missed);
    case _ =>
  }

  lemma PlainTouch(st: Static, env: Env, names: seq<string>, bound: set<string>, missed: set<string>)
    requires PlainSoFar(st, env, bound, missed) && Elements(names) <= missed && forall n | n in names :: n !in bound
    ensures PlainSoFar(Touched(st, names), BindAll(env, names, Opaque), bound, missed)
  {
    BindAllVars(env, names, Opaque, ALL);
  }

  lemma {:induction false} PlainFromStep(files: Files, path: Path, seen: set<Path>, st: Static, env: Env, stmt: Stmt, bound: set<string>, missed: set<string>)
    requires stmt.ImportFrom? && path in files && PlainSoFar(st, env, bound, missed) && PlainStep(files, path, seen, stmt, bound, missed)
    requires Assigned(stmt) <= bound && Missed(stmt) <= missed && ExecStep(files, path, seen, env, stmt).Some?
    ensures PlainSoFar(StaticStep(files, path, seen, st, stmt), ExecStep(files, path, seen, env, stmt).value, bound, missed)
    decreases files.Keys - seen, path in seen, 0, 0
  {
    hide PlainSoFar, PlainFrom, StaticFroms, PlainFile, Touched;
    var future, file, names := stmt.future, stmt.file, stmt.names;
    PlainTouch(st, env, stmt.submodules, bound, missed);
    var st', env' := Touched(st, stmt.submodules), BindAll(env, stmt.submodules, Opaque);
    forall a | a in names ensures if a.name == "*" then Elements(a.starNames) <= missed else future ==> FromName(a) in missed {
      if a.name == "*" { forall n | n in a.starNames ensures n in missed { assert n in Missed(stmt); } }
      else if future { assert FromName(a) in Missed(stmt); }
    }
    forall a | a in names && !future && a.name == ALL ensures FromName(a) in bound { assert FromName(a) in Assigned(stmt); }
    if !future && file.Some? && file.value in files && file.value !in seen {
      var sub, value := StaticFile(files, file.value, seen + {path}), ExportedAll(files, file.value, seen + {path});
      if a :| a in names && a.name == ALL {
        NeedsImport(env', value, names, a);
        PlainIsClean(files, file.value, seen + {path});
      }
      PlainFroms(st', env', false, Result(sub), sub.clean, value, names, bound, missed);
    } else {
      PlainFroms(st', env', future, NoAll, true, Some(Opaque), names, bound, missed);
    }
  }

  /** Importing a name a module does not have raises. */
  lemma {:induction false} NeedsImport(env: Env, value: Option<Value>, names: seq<FromAlias>, a: FromAlias)
    requires a in names && a.name == ALL && ExecFroms(env, false, value, names).Some?
    ensures value.Some?
  {
    var n := |names| - 1;
    assert names == names[..n] + [names[n]];
    if a in names[..n] { NeedsImport(env, value, names[..n], a); }
  }

  lemma {:induction false} PlainBody(files: Files, path: Path, seen: set<Path>, body: seq<Stmt>, bound: set<string>, missed: set<string>)
    requires path in files && ALL in bound && START.unsure <= missed
    requires forall stmt | stmt in body :: PlainStep(files, path, seen, stmt, bound, missed) && Assigned(stmt) <= bound && Missed(stmt) <= missed
    requires StaticBody(files, path, seen, START, body).resolved && ExecBody(files, path, seen, Fresh(path), body).Some?
    ensures PlainSoFar(StaticBody(files, path, seen, START, body), ExecBody(files, path, seen, Fresh(path), body).value, bound, missed)
    decreases files.Keys - seen, path in seen, 1, |body|
  {
    hide StaticStep, ExecStep, PlainStep, Assigned, Missed;
    if body != [] {
      var n := |body| - 1;
      assert body[n] in body && forall stmt | stmt in body[..n] :: stmt in body;
      var before := StaticBody(files, path, seen, START, body[..n]);
      StepFacts(files, path, seen, before, body[n]);
      PlainBody(files, path, seen, body[..n], bound, missed);
      PlainStepKeeps(files, path, seen, before, ExecBody(files, path, seen, Fresh(path), body[..n]).value, body[n], bound, missed);
    }
  }

  lemma {:induction false} PlainIsClean(files: Files, path: Path, seen: set<Path>)
    requires path in files && PlainFile(files, path, seen) && ExecFile(files, path, seen).Some?
    ensures StaticFile(files, path, seen).clean && Result(StaticFile(files, path, seen)).Names?
    decreases files.Keys - seen, path in seen, 2, 0
  {
    DeclaredWhen(files, path, seen);
    hide PlainStep, Assigned, Missed;
    var body := files[path];
    var bound, missed := {ALL} + AssignedNames(body), MissedNames(body);
    PlainBody(files, path, seen, body, bound, missed);
  }

  /** For every plain module that executes, `__all__` exists and the declaration is its value with later duplicates dropped. */
  lemma PlainIsExecuted(files: Files, path: Path, seen: set<Path>)
    requires path in files && PlainFile(files, path, seen) && ExecFile(files, path, seen).Some?
    ensures var env := ExecFile(files, path, seen).value;
      && ALL in env.vars
      && (env.vars[ALL].Opaque? || Result(StaticFile(files, path, seen)) == Names(Dedupe(env.vars[ALL].items)))
  {
    PlainIsClean(files, path, seen);
    FileKeeps(files, path, seen);
    var st, env := StaticFile(files, path, seen), ExecFile(files, path, seen).value;
    assert Result(st).Names? && ALL in st.seqs;
    if !env.vars[ALL].Opaque? { DeclaredIsExecuted(files, path, seen); }
  }

  // ----- what the evaluator must resolve -----

  predicate SupportedOperand(o: Operand, variable: string) {
    match o
    case Var(id) => id == variable
    case Complex => false
    case _ => true
  }

  /** Conditions made of `or`, `and`, `not`, prefix and suffix tests with literals, and comparisons with literals. */
  predicate SupportedCond(c: Cond, variable: string)
    decreases c
  {
    match c
    case Or(conds) => forall i | 0 <= i < |conds| :: SupportedCond(conds[i], variable)
    case And(conds) => forall i | 0 <= i < |conds| :: SupportedCond(conds[i], variable)
    case Not(cond) => SupportedCond(cond, variable)
    case Affix(receiver, _, affixes) => receiver == variable && affixes.Some?
    case Compare(_, left, right) => SupportedOperand(left, variable) && SupportedOperand(right, variable)
    case Unsupported => false
  }

  /** Expressions made of known names, displays of strings with starred parts, `+`, `tuple(...)` and `list(...)`, and comprehensions over
      the globals with supported conditions. */
  predicate Supported(e: Expr, known: set<string>)
    decreases e
  {
    match e
    case Name(id) => id in known
    case Display(_, elts) => forall i | 0 <= i < |elts| :: elts[i].Item? || (elts[i].Star? && Supported(elts[i].expr, known))
    case Add(left, right) => Supported(left, known) && Supported(right, known)
    case Call(func, args, keywords) => (func == "tuple" || func == "list") && |args| == 1 && !keywords && Supported(args[0], known)
    case Comprehension(_, overGlobals, variable, conds) => overGlobals && forall i | 0 <= i < |conds| :: SupportedCond(conds[i], variable)
    case _ => false
  }

  lemma {:induction false} SupportedCondHolds(c: Cond, variable: string, value: string)
    requires SupportedCond(c, variable)
    ensures SafePredicate(c, variable, value).Some?
    decreases c
  {
    match c
    case Or(conds) => SupportedRows(conds, variable, value);
    case And(conds) => SupportedRows(conds, variable, value);
    case Not(cond) => SupportedCondHolds(cond, variable, value);
    case _ =>
  }

  lemma {:induction false} SupportedRows(conds: seq<Cond>, variable: string, value: string)
    requires forall i | 0 <= i < |conds| :: SupportedCond(conds[i], variable)
    ensures SafeRows(conds, variable, value).Some? && Accepts(conds, variable, value).Some?
    decreases conds
  {
    if conds != [] {
      SupportedCondHolds(conds[0], variable, value);
      SupportedRows(conds[1..], variable, value);
    }
  }

  lemma {:induction false} SupportedFilter(conds: seq<Cond>, variable: string, scope: seq<string>)
    requires forall i | 0 <= i < |conds| :: SupportedCond(conds[i], variable)
    ensures FilterNames(conds, variable, scope).Some?
  {
    hide Accepts;
    if scope != [] {
      SupportedFilter(conds, variable, scope[..|scope| - 1]);
      SupportedRows(conds, variable, scope[|scope| - 1]);
    }
  }

  /** Completeness for expressions: every supported expression over known names resolves. */
  lemma {:induction false} SupportedResolves(e: Expr, seqs: Sequences, scope: seq<string>, known: set<string>)
    requires Supported(e, known) && known <= seqs.Keys
    ensures StringSequence(e, seqs, scope).Some?
    decreases e
  {
    match e
    case Display(_, elts) => SupportedElements(elts, seqs, scope, known);
    case Add(left, right) => SupportedResolves(left, seqs, scope, known); SupportedResolves(right, seqs, scope, known);
    case Call(_, args, _) => SupportedResolves(args[0], seqs, scope, known);
    case Comprehension(_, _, variable, conds) => SupportedFilter(conds, variable, scope);
    case _ =>
  }

  lemma {:induction false} SupportedElements(elts: seq<Elt>, seqs: Sequences, scope: seq<string>, known: set<string>)
    requires known <= seqs.Keys && forall i | 0 <= i < |elts| :: elts[i].Item? || (elts[i].Star? && Supported(elts[i].expr, known))
    ensures StringElements(elts, seqs, scope).Some?
    decreases elts
  {
    if elts != [] {
      SupportedElement(elts[0], seqs, scope, known);
      SupportedElements(elts[1..], seqs, scope, known);
    }
  }

  lemma {:induction false} SupportedElement(elt: Elt, seqs: Sequences, scope: seq<string>, known: set<string>)
    requires known <= seqs.Keys && (elt.Item? || (elt.Star? && Supported(elt.expr, known)))
    ensures StringElement(elt, seqs, scope).Some?
    decreases elt
  {
    if elt.Star? { SupportedResolves(elt.expr, seqs, scope, known); }
  }

  /** The operand of a write to `__all__` is supported. */
  predicate SupportedWrite(stmt: Stmt, known: set<string>) {
    match stmt
    case Assign(_, value) => Supported(value, known)
    case AugAssign(_, _, value) => Supported(value, known)
    case Mutate(append, args) => |args| == 1 && if append then args[0].Literal? else Supported(args[0], known)
    case _ => true
  }

  /** The names known to hold string sequences after a statement, from the syntax alone. */
  ghost function KnownAfter(files: Files, path: Path, seen: set<Path>, known: set<string>, stmt: Stmt): set<string>
    requires path in files
    decreases files.Keys - seen, path in seen, 0, 0
  {
    match stmt
    case Assign(targets, value) => if Supported(value, known) then known + Elements(targets) else known - Elements(targets)
    case AugAssign(target, add, _) => if target != ALL || !add then known else if SupportedWrite(stmt, known) then known + {ALL} else known - {ALL}
    case Mutate(_, _) => if SupportedWrite(stmt, known) then known + {ALL} else known - {ALL}
    case ImportFrom(future, file, names, _) =>
      if !future && file.Some? && file.value in files && file.value !in seen && Declares(files[file.value])
         && SupportedFile(files, file.value, seen + {path})
      then known + set a | a in names && a.name == ALL :: FromName(a)
      else known
    case _ => known
  }

  ghost function KnownBody(files: Files, path: Path, seen: set<Path>, body: seq<Stmt>): set<string>
    requires path in files
    decreases files.Keys - seen, path in seen, 1, |body|
  {
    if body == [] then {} else KnownAfter(files, path, seen, KnownBody(files, path, seen, body[..|body| - 1]), body[|body| - 1])
  }

  ghost predicate Declares(body: seq<Stmt>) { exists stmt :: stmt in body && Writes(stmt) }

  /** Every write to `__all__` has a supported operand where it stands. */
  ghost predicate SupportedBody(files: Files, path: Path, seen: set<Path>, body: seq<Stmt>)
    requires path in files
    decreases files.Keys - seen, path in seen, 2, |body|
  {
    body != [] ==>
      var n := |body| - 1;
      && SupportedBody(files, path, seen, body[..n])
      && (Writes(body[n]) ==> SupportedWrite(body[n], KnownBody(files, path, seen, body[..n])))
  }

  ghost predicate SupportedFile(files: Files, path: Path, seen: set<Path>)
    requires path in files
    decreases files.Keys - seen, path in seen, 3, 0
  {
    SupportedBody(files, path, seen, files[path])
  }

  lemma {:induction false} KnownTargets(st: Static, targets: seq<string>, value: Option<seq<string>>)
    ensures AssignTargets(st, targets, value).seqs.Keys ==
            if value.Some? then st.seqs.Keys + Elements(targets) else st.seqs.Keys - Elements(targets)
  {
    if targets != [] {
      var n := |targets| - 1;
      KnownTargets(st, targets[..n], value);
      assert targets == targets[..n] + [targets[n]];
    } else {
      assert st.seqs.Keys + Elements(targets) == st.seqs.Keys;
    }
  }

  lemma {:induction false} KnownFroms(st: Static, imported: Declared, clean: bool, names: seq<FromAlias>)
    ensures st.seqs.Keys <= StaticFroms(st, false, imported, clean, names).seqs.Keys
    ensures imported.Names? ==> forall a | a in names && a.name == ALL :: FromName(a) in StaticFroms(st, false, imported, clean, names).seqs
  {
    if names != [] {
      var n := |names| - 1;
      KnownFroms(st, imported, clean, names[..n]);
      assert names == names[..n] + [names[n]];
    }
  }

  lemma KnownAssign(files: Files, path: Path, seen: set<Path>, st: Static, known: set<string>, targets: seq<string>, value: Expr)
    requires path in files && known <= st.seqs.Keys
    ensures var next, stmt := StaticStep(files, path, seen, st, Assign(targets, value)), Assign(targets, value);
      && KnownAfter(files, path, seen, known, stmt) <= next.seqs.Keys
      && (st.resolved && (Writes(stmt) ==> SupportedWrite(stmt, known)) ==> next.resolved)
  {
    hide StringSequence, Supported, Rejects, AssignTargets;
    var named := st.(scope := RememberAll(st.scope, OtherTargets(targets)));
    if Supported(value, known) { SupportedResolves(value, named.seqs, named.scope, known); }
    KnownTargets(named, targets, StringSequence(value, named.seqs, named.scope));
  }

  lemma KnownWrite(files: Files, path: Path, seen: set<Path>, st: Static, known: set<string>, stmt: Stmt)
    requires path in files && known <= st.seqs.Keys && (stmt.AugAssign? || stmt.Mutate?)
    ensures var next := StaticStep(files, path, seen, st, stmt);
      && KnownAfter(files, path, seen, known, stmt) <= next.seqs.Keys
      && (st.resolved && (Writes(stmt) ==> SupportedWrite(stmt, known)) ==> next.resolved)
  {
    hide StringSequence, Supported, Rejects;
    if SupportedWrite(stmt, known) {
      if stmt.AugAssign? { SupportedResolves(stmt.value, st.seqs, st.scope, known); }
      else if !stmt.append { SupportedResolves(stmt.args[0], st.seqs, st.scope, known); }
    }
  }

  lemma {:induction false} KnownStep(files: Files, path: Path, seen: set<Path>, st: Static, known: set<string>, stmt: Stmt)
    requires path in files && known <= st.seqs.Keys
    ensures var next := StaticStep(files, path, seen, st, stmt);
      && KnownAfter(files, path, seen, known, stmt) <= next.seqs.Keys
      && (st.resolved && (Writes(stmt) ==> SupportedWrite(stmt, known)) ==> next.resolved)
    decreases files.Keys - seen, path in seen, 0
  {
    hide Supported, StringSequence, Rejects, StaticFroms, StaticImports, Extend, AssignTargets;
    match stmt
    case Assign(targets, value) => KnownAssign(files, path, seen, st, known, targets, value);
    case AugAssign(_, _, _) => KnownWrite(files, path, seen, st, known, stmt);
    case Mutate(_, _) => KnownWrite(files, path, seen, st, known, stmt);
    case Import(aliases, submodules) => ImportFacts(Touched(st, submodules), aliases);
    case ImportFrom(future, file, names, submodules) =>
      var st' := Touched(st, submodules);
      if future {
        FutureFroms(st', names);
        FromFacts(st', true, NoAll, true, names);
      } else if file.Some? && file.value in files && file.value !in seen {
        var sub := StaticFile(files, file.value, seen + {path});
        FromFacts(st', false, Result(sub), sub.clean, names);
        KnownFroms(st', Result(sub), sub.clean, names);
        if Declares(files[file.value]) && SupportedFile(files, file.value, seen + {path}) {
          SupportedIsResolved(files, file.value, seen + {path});
          DeclaredWhen(files, file.value, seen + {path});
        }
      } else {
        FromFacts(st', false, NoAll, true, names);
        KnownFroms(st', NoAll, true, names);
      }
    case _ =>
  }

  lemma {:induction false} KnownInBody(files: Files, path: Path, seen: set<Path>, body: seq<Stmt>)
    requires path in files
    ensures KnownBody(files, path, seen, body) <= StaticBody(files, path, seen, START, body).seqs.Keys
    ensures SupportedBody(files, path, seen, body) ==> StaticBody(files, path, seen, START, body).resolved
    decreases files.Keys - seen, path in seen, 1, |body|
  {
    hide StaticStep, KnownAfter, SupportedWrite, Writes;
    if body != [] {
      var n := |body| - 1;
      KnownInBody(files, path, seen, body[..n]);
      KnownStep(files, path, seen, StaticBody(files, path, seen, START, body[..n]), KnownBody(files, path, seen, body[..n]), body[n]);
    }
  }

  /** Completeness for files: if every write to `__all__` has a supported operand, the evaluator resolves every write. */
  lemma {:induction false} SupportedIsResolved(files: Files, path: Path, seen: set<Path>)
    requires path in files && SupportedFile(files, path, seen)
    ensures StaticFile(files, path, seen).resolved && !Result(StaticFile(files, path, seen)).Unresolvable?
    decreases files.Keys - seen, path in seen, 2
  {
    KnownInBody(files, path, seen, files[path]);
    DeclaredWhen(files, path, seen);
  }

  // ----- ordinary modules: a condition on syntax and execution alone -----

  ghost predicate OrdinaryStep(files: Files, path: Path, seen: set<Path>, stmt: Stmt, bound: set<string>, missed: set<string>)
    requires path in files
    decreases files.Keys - seen, path in seen, 0
  {
    && BindsPlainly(stmt, bound, missed)
    && (ImportsAll(stmt) ==>
          && stmt.file.Some? && stmt.file.value in files && stmt.file.value !in seen
          && OrdinaryFile(files, stmt.file.value, seen + {path}))
  }

  /** A module that declares `__all__` by supported operands only, whose helper sequences are bound only by plain assignment. */
  ghost predicate OrdinaryFile(files: Files, path: Path, seen: set<Path>)
    requires path in files
    decreases files.Keys - seen, path in seen, 1
  {
    && SupportedFile(files, path, seen) && Declares(files[path])
    && forall stmt | stmt in files[path] ::
         OrdinaryStep(files, path, seen, stmt, {ALL} + AssignedNames(files[path]), MissedNames(files[path]))
  }

  lemma {:induction false} OrdinaryIsPlain(files: Files, path: Path, seen: set<Path>)
    requires path in files && OrdinaryFile(files, path, seen)
    ensures PlainFile(files, path, seen)
    decreases files.Keys - seen, path in seen
  {
    hide BindsPlainly, AssignedNames, MissedNames;
    SupportedIsResolved(files, path, seen);
    var bound, missed := {ALL} + AssignedNames(files[path]), MissedNames(files[path]);
    forall stmt | stmt in files[path] ensures PlainStep(files, path, seen, stmt, bound, missed) {
      assert OrdinaryStep(files, path, seen, stmt, bound, missed);
      if ImportsAll(stmt) { OrdinaryIsPlain(files, stmt.file.value, seen + {path}); }
    }
  }

  /** For every ordinary module that executes, the evaluator succeeds, and what it declares is the executed `__all__` with later
      duplicates dropped. */
  lemma OrdinaryIsExecuted(files: Files, path: Path, seen: set<Path>)
    requires path in files && OrdinaryFile(files, path, seen) && ExecFile(files, path, seen).Some?
    ensures var env := ExecFile(files, path, seen).value;
      && ALL in env.vars && Result(StaticFile(files, path, seen)).Names?
      && (env.vars[ALL].Opaque? || Result(StaticFile(files, path, seen)) == Names(Dedupe(env.vars[ALL].items)))
  {
    hide OrdinaryFile, PlainFile;
    OrdinaryIsPlain(files, path, seen);
    PlainIsClean(files, path, seen);
    PlainIsExecuted(files, path, seen);
  }

  // ----- the restart -----

  lemma {:induction false} DedupeDistinct(s: seq<string>)
    ensures NoDuplicates(Dedupe(s))
  {
    if s != [] { DedupeDistinct(s[..|s| - 1]); }
  }

  lemma {:induction false} NewsKnown(d: seq<string>, s: seq<string>)
    requires forall x | x in s :: x in d
    ensures News(d, s) == []
  {
    if s != [] {
      assert forall x | x in s[..|s| - 1] :: x in s;
      NewsKnown(d, s[..|s| - 1]);
    }
  }

  lemma {:induction false} NewsAfter(d: seq<string>, t: seq<string>)
    requires NoDuplicates(d + t)
    ensures News(d, d + t) == t
  {
    if t == [] {
      assert d + t == d;
      NewsKnown(d, d);
    } else {
      var n := |t| - 1;
      assert (d + t)[..|d + t| - 1] == d + t[..n];
      assert forall i | 0 <= i < |d| + n :: (d + t[..n])[i] == (d + t)[i];
      NewsAfter(d, t[..n]);
      assert (d + t)[|d| + n] == t[n];
      assert t[n] !in d + t[..n];
      assert t == t[..n] + [t[n]];
    }
  }

  /** What came first is lost without harm exactly when the rest begins with it. */
  lemma PrefixLost(a: seq<string>, b: seq<string>)
    ensures Same(a + b, b) <==> Dedupe(a) <= Dedupe(b)
  {
    hide Dedupe, News, NoDuplicates;
    DedupeConcat(a, b);
    if Dedupe(a) <= Dedupe(b) {
      var d, t := Dedupe(a), Dedupe(b)[|Dedupe(a)|..];
      assert Dedupe(b) == d + t;
      DedupeDistinct(b);
      NewsOfDedupe(d, b);
      NewsAfter(d, t);
    }
  }

  /** The step itself: extending from a missing entry is right exactly when the executed list so far, without later duplicates,
      begins the extension without later duplicates. */
  lemma RestartStep(st: Static, extension: seq<string>, current: Value, v: Value, inPlace: bool)
    requires ALL !in st.seqs && !current.Opaque? && !v.Opaque? && Same(v.items, extension)
    requires Extended(current, v, inPlace).Some?
    ensures Holds(Extended(current, v, inPlace).value, Extend(st, Some(extension)).seqs[ALL]) <==>
            Dedupe(current.items) <= Dedupe(extension)
  {
    assert [] + extension == extension;
    PrefixLost(current.items, v.items);
  }

  /** The expression does not read `__all__`. */
  predicate Silent(e: Expr)
    decreases e
  {
    match e
    case Name(id) => id != ALL
    case Display(_, elts) => forall i | 0 <= i < |elts| :: elts[i].Star? ==> Silent(elts[i].expr)
    case Add(left, right) => Silent(left) && Silent(right)
    case Call(_, args, _) => forall i | 0 <= i < |args| :: Silent(args[i])
    case _ => true
  }

  /** The statement leaves `__all__` alone, or extends it by something that does not depend on it. */
  predicate OnlyExtends(stmt: Stmt) {
    match stmt
    case Define(name) => name != ALL
    case Import(aliases, submodules) => ALL !in submodules && forall a | a in aliases :: LocalName(a) != ALL && BoundName(a) != ALL
    case ImportFrom(_, _, names, submodules) =>
      ALL !in submodules && forall a | a in names :: if a.name == "*" then ALL !in a.starNames else FromName(a) != ALL
    case Assign(targets, value) => ALL !in targets && Silent(value)
    case AugAssign(target, add, value) => (target == ALL ==> add) && Silent(value)
    case Mutate(_, args) => forall i | 0 <= i < |args| :: Silent(args[i])
    case Other(touched) => ALL !in touched
  }

  // The real run after the lost write, beside one in which `__all__` was emptied there.

  /** The sequences agree except that `__all__` may still be missing where the other run has it empty. */
  ghost predicate Follows(q: Sequences, q0: Sequences) {
    ALL in q0 && (q == q0 || (q0[ALL] == [] && q == RemoveKey(q0, ALL)))
  }

  ghost predicate StaticFollows(st: Static, st0: Static) {
    Follows(st.seqs, st0.seqs) && st.scope == st0.scope
  }

  /** One value is the other with the lost names in front. */
  ghost predicate Ahead(v: Value, v0: Value, lost: seq<string>) {
    || (v.Opaque? && v0.Opaque?)
    || (v.Lst? && v0.Lst? && v.items == lost + v0.items)
    || (v.Tup? && v0.Tup? && v.items == lost + v0.items)
  }

  ghost predicate ExecFollows(env: Env, env0: Env, lost: seq<string>) {
    && ALL in env.vars && ALL in env0.vars && Ahead(env.vars[ALL], env0.vars[ALL], lost)
    && env.order == env0.order && env0.vars == env.vars[ALL := env0.vars[ALL]]
  }

  lemma {:induction false} SilentStatic(e: Expr, q: Sequences, q0: Sequences, scope: seq<string>)
    requires Silent(e) && Follows(q, q0)
    ensures StringSequence(e, q, scope) == StringSequence(e, q0, scope)
    decreases e
  {
    match e
    case Display(_, elts) => SilentElements(elts, q, q0, scope);
    case Add(left, right) => SilentStatic(left, q, q0, scope); SilentStatic(right, q, q0, scope);
    case Call(_, args, _) => if |args| == 1 { SilentStatic(args[0], q, q0, scope); }
    case _ =>
  }

  lemma {:induction false} SilentElements(elts: seq<Elt>, q: Sequences, q0: Sequences, scope: seq<string>)
    requires Follows(q, q0) && forall i | 0 <= i < |elts| :: elts[i].Star? ==> Silent(elts[i].expr)
    ensures StringElements(elts, q, scope) == StringElements(elts, q0, scope)
    decreases elts
  {
    if elts != [] {
      SilentElement(elts[0], q, q0, scope);
      SilentElements(elts[1..], q, q0, scope);
    }
  }

  lemma {:induction false} SilentElement(elt: Elt, q: Sequences, q0: Sequences, scope: seq<string>)
    requires Follows(q, q0) && (elt.Star? ==> Silent(elt.expr))
    ensures StringElement(elt, q, scope) == StringElement(elt, q0, scope)
    decreases elt
  {
    if elt.Star? { SilentStatic(elt.expr, q, q0, scope); }
  }

  lemma {:induction false} SilentExec(e: Expr, env: Env, env0: Env, lost: seq<string>)
    requires Silent(e) && ExecFollows(env, env0, lost)
    ensures EvalExpr(e, env) == EvalExpr(e, env0)
    decreases e
  {
    match e
    case Display(_, elts) => SilentExecElements(elts, env, env0, lost);
    case Add(left, right) => SilentExec(left, env, env0, lost); SilentExec(right, env, env0, lost);
    case Call(_, args, _) => if |args| == 1 { SilentExec(args[0], env, env0, lost); }
    case _ =>
  }

  lemma {:induction false} SilentExecElements(elts: seq<Elt>, env: Env, env0: Env, lost: seq<string>)
    requires ExecFollows(env, env0, lost) && forall i | 0 <= i < |elts| :: elts[i].Star? ==> Silent(elts[i].expr)
    ensures EvalElements(elts, env) == EvalElements(elts, env0)
    decreases elts
  {
    if elts != [] {
      SilentExecElement(elts[0], env, env0, lost);
      SilentExecElements(elts[1..], env, env0, lost);
    }
  }

  lemma {:induction false} SilentExecElement(elt: Elt, env: Env, env0: Env, lost: seq<string>)
    requires ExecFollows(env, env0, lost) && (elt.Star? ==> Silent(elt.expr))
    ensures EvalElement(elt, env) == EvalElement(elt, env0)
    decreases elt
  {
    if elt.Star? { SilentExec(elt.expr, env, env0, lost); }
  }

  // ----- the two evaluations side by side -----

  lemma {:induction false} FollowImports(st: Static, st0: Static, aliases: seq<ImportAlias>)
    requires StaticFollows(st, st0)
    ensures StaticFollows(StaticImports(st, aliases), StaticImports(st0, aliases))
  {
    if aliases != [] { FollowImports(st, st0, aliases[..|aliases| - 1]); }
  }

  lemma {:induction false} FollowFroms(st: Static, st0: Static, future: bool, imported: Declared, clean: bool, names: seq<FromAlias>)
    requires StaticFollows(st, st0) && OnlyExtends(ImportFrom(future, None, names, []))
    ensures StaticFollows(StaticFroms(st, future, imported, clean, names), StaticFroms(st0, future, imported, clean, names))
  {
    if names != [] {
      var n := |names| - 1;
      assert names[n] in names && forall a | a in names[..n] :: a in names;
      FollowFroms(st, st0, future, imported, clean, names[..n]);
      FollowFrom(StaticFroms(st, future, imported, clean, names[..n]), StaticFroms(st0, future, imported, clean, names[..n]),
                 future, imported, clean, names[n]);
    }
  }

  lemma FollowFrom(st: Static, st0: Static, future: bool, imported: Declared, clean: bool, a: FromAlias)
    requires StaticFollows(st, st0) && (a.name != "*" ==> FromName(a) != ALL)
    ensures StaticFollows(StaticFrom(st, future, imported, clean, a), StaticFrom(st0, future, imported, clean, a))
  {
    if a.name == ALL && !future && imported.Names? { FollowUpdate(st.seqs, st0.seqs, FromName(a), imported.names); }
  }

  lemma FollowUpdate(q: Sequences, q0: Sequences, name: string, value: seq<string>)
    requires Follows(q, q0) && name != ALL
    ensures Follows(q[name := value], q0[name := value]) && Follows(RemoveKey(q, name), RemoveKey(q0, name))
  {
    if q != q0 {
      assert q[name := value] == RemoveKey(q0[name := value], ALL);
      assert RemoveKey(q, name) == RemoveKey(RemoveKey(q0, name), ALL);
    }
  }

  lemma {:induction false} FollowTargets(st: Static, st0: Static, targets: seq<string>, value: Option<seq<string>>)
    requires StaticFollows(st, st0) && ALL !in targets
    ensures StaticFollows(AssignTargets(st, targets, value), AssignTargets(st0, targets, value))
  {
    if targets != [] {
      var n := |targets| - 1;
      FollowTargets(st, st0, targets[..n], value);
      FollowUpdate(AssignTargets(st, targets[..n], value).seqs, AssignTargets(st0, targets[..n], value).seqs, targets[n],
                   if value.Some? then value.value else []);
    }
  }

  lemma FollowExtend(st: Static, st0: Static, extension: seq<string>)
    requires StaticFollows(st, st0)
    ensures StaticFollows(Extend(st, Some(extension)), Extend(st0, Some(extension)))
  {
    assert Extend(st, Some(extension)).seqs == Extend(st0, Some(extension)).seqs;
  }

  lemma FollowStatic(files: Files, path: Path, seen: set<Path>, st: Static, st0: Static, stmt: Stmt)
    requires path in files && StaticFollows(st, st0) && OnlyExtends(stmt)
    requires StaticStep(files, path, seen, st0, stmt).resolved
    ensures StaticFollows(StaticStep(files, path, seen, st, stmt), StaticStep(files, path, seen, st0, stmt))
  {
    hide StringSequence, Rejects, StaticFollows, Extend, StaticFroms, StaticImports, AssignTargets;
    match stmt
    case Import(aliases, submodules) =>
      FollowFlags(st, st0);
      FollowImports(Touched(st, submodules), Touched(st0, submodules), aliases);
    case ImportFrom(future, file, names, submodules) =>
      FollowFlags(st, st0);
      var st', st0' := Touched(st, submodules), Touched(st0, submodules);
      assert StaticFollows(st', st0');
      if !future && file.Some? && file.value in files && file.value !in seen {
        var sub := StaticFile(files, file.value, seen + {path});
        FollowFroms(st', st0', false, Result(sub), sub.clean, names);
      } else {
        FollowFroms(st', st0', future, NoAll, true, names);
      }
    case Assign(targets, value) => FollowAssign(files, path, seen, st, st0, targets, value);
    case AugAssign(target, _, value) => if target == ALL { FollowWrite(files, path, seen, st, st0, stmt); } else { FollowFlags(st, st0); }
    case Mutate(_, _) => FollowWrite(files, path, seen, st, st0, stmt);
    case Define(name) => FollowFlags(st, st0);
    case Other(_) => FollowFlags(st, st0);
  }

  lemma FollowFlags(st: Static, st0: Static)
    requires StaticFollows(st, st0)
    ensures Follows(st.seqs, st0.seqs) && st.scope == st0.scope
    ensures forall x: Static, y: Static {:trigger StaticFollows(x, y)} ::
      x.seqs == st.seqs && y.seqs == st0.seqs && x.scope == y.scope ==> StaticFollows(x, y)
  {
  }

  lemma FollowAssign(files: Files, path: Path, seen: set<Path>, st: Static, st0: Static, targets: seq<string>, value: Expr)
    requires path in files && StaticFollows(st, st0) && ALL !in targets && Silent(value)
    ensures StaticFollows(StaticStep(files, path, seen, st, Assign(targets, value)), StaticStep(files, path, seen, st0, Assign(targets, value)))
  {
    hide StringSequence, Rejects, Silent;
    var named, named0 := st.(scope := RememberAll(st.scope, OtherTargets(targets))), st0.(scope := RememberAll(st0.scope, OtherTargets(targets)));
    SilentStatic(value, named.seqs, named0.seqs, named.scope);
    FollowTargets(named, named0, targets, StringSequence(value, named.seqs, named.scope));
  }

  lemma FollowWrite(files: Files, path: Path, seen: set<Path>, st: Static, st0: Static, stmt: Stmt)
    requires path in files && StaticFollows(st, st0) && OnlyExtends(stmt) && Writes(stmt) && !stmt.Assign?
    requires StaticStep(files, path, seen, st0, stmt).resolved
    ensures StaticFollows(StaticStep(files, path, seen, st, stmt), StaticStep(files, path, seen, st0, stmt))
  {
    hide StringSequence, Rejects, Silent;
    var e := if stmt.AugAssign? then [stmt.value] else stmt.args;
    if |e| == 1 { SilentStatic(e[0], st.seqs, st0.seqs, st.scope); }
    var extension := if stmt.AugAssign? then StringSequence(stmt.value, st0.seqs, st0.scope) else MutateOperand(stmt.append, stmt.args, st0.seqs, st0.scope);
    assert extension.Some?;
    FollowExtend(st, st0, extension.value);
  }

  // ----- the two executions side by side -----

  lemma FollowBind(env: Env, env0: Env, lost: seq<string>, name: string, v: Value)
    requires ExecFollows(env, env0, lost) && name != ALL
    ensures ExecFollows(Bind(env, name, v), Bind(env0, name, v), lost)
  {
    assert Bind(env0, name, v).vars == Bind(env, name, v).vars[ALL := env0.vars[ALL]];
  }

  lemma {:induction false} FollowBindAll(env: Env, env0: Env, lost: seq<string>, names: seq<string>, v: Value)
    requires ExecFollows(env, env0, lost) && ALL !in names
    ensures ExecFollows(BindAll(env, names, v), BindAll(env0, names, v), lost)
  {
    if names != [] {
      var n := |names| - 1;
      FollowBindAll(env, env0, lost, names[..n], v);
      FollowBind(BindAll(env, names[..n], v), BindAll(env0, names[..n], v), lost, names[n], v);
    }
  }

  lemma {:induction false} FollowExecImports(env: Env, env0: Env, lost: seq<string>, aliases: seq<ImportAlias>)
    requires ExecFollows(env, env0, lost) && forall a | a in aliases :: BoundName(a) != ALL
    ensures ExecFollows(ExecImports(env, aliases), ExecImports(env0, aliases), lost)
  {
    if aliases != [] {
      var n := |aliases| - 1;
      assert aliases[n] in aliases && forall a | a in aliases[..n] :: a in aliases;
      FollowExecImports(env, env0, lost, aliases[..n]);
      FollowBind(ExecImports(env, aliases[..n]), ExecImports(env0, aliases[..n]), lost, BoundName(aliases[n]), Opaque);
    }
  }

  lemma {:induction false} FollowExecFroms(env: Env, env0: Env, lost: seq<string>, future: bool, imported: Option<Value>, names: seq<FromAlias>)
    requires ExecFollows(env, env0, lost) && OnlyExtends(ImportFrom(future, None, names, [])) && ExecFroms(env, future, imported, names).Some?
    ensures ExecFroms(env0, future, imported, names).Some?
    ensures ExecFollows(ExecFroms(env, future, imported, names).value, ExecFroms(env0, future, imported, names).value, lost)
  {
    hide ExecFollows;
    if names != [] {
      var n := |names| - 1;
      var a := names[n];
      assert a in names && forall x | x in names[..n] :: x in names;
      FollowExecFroms(env, env0, lost, future, imported, names[..n]);
      var before, before0 := ExecFroms(env, future, imported, names[..n]).value, ExecFroms(env0, future, imported, names[..n]).value;
      if a.name == "*" {
        FollowBindAll(before, before0, lost, a.starNames, Opaque);
      } else {
        FollowBind(before, before0, lost, FromName(a), if future || a.name != ALL then Opaque else imported.value);
      }
    }
  }

  lemma FollowExtended(v: Value, v0: Value, lost: seq<string>, w: Value, inPlace: bool)
    requires Ahead(v, v0, lost) && Extended(v, w, inPlace).Some?
    ensures Extended(v0, w, inPlace).Some? && Ahead(Extended(v, w, inPlace).value, Extended(v0, w, inPlace).value, lost)
  {
    if !v.Opaque? && !w.Opaque? { assert lost + v0.items + w.items == lost + (v0.items + w.items); }
  }

  lemma FollowExecWrite(env: Env, env0: Env, lost: seq<string>, w: Value, inPlace: bool)
    requires ExecFollows(env, env0, lost) && Extended(env.vars[ALL], w, inPlace).Some?
    ensures Extended(env0.vars[ALL], w, inPlace).Some?
    ensures ExecFollows(Bind(env, ALL, Extended(env.vars[ALL], w, inPlace).value), Bind(env0, ALL, Extended(env0.vars[ALL], w, inPlace).value), lost)
  {
    FollowExtended(env.vars[ALL], env0.vars[ALL], lost, w, inPlace);
  }

  lemma FollowExec(files: Files, path: Path, seen: set<Path>, env: Env, env0: Env, lost: seq<string>, stmt: Stmt)
    requires path in files && ExecFollows(env, env0, lost) && OnlyExtends(stmt) && ExecStep(files, path, seen, env, stmt).Some?
    ensures ExecStep(files, path, seen, env0, stmt).Some?
    ensures ExecFollows(ExecStep(files, path, seen, env, stmt).value, ExecStep(files, path, seen, env0, stmt).value, lost)
  {
    hide EvalExpr, Extended, ExecFroms, Silent, Ahead;
    match stmt
    case Define(name) => FollowBind(env, env0, lost, name, Opaque);
    case Import(aliases, submodules) =>
      FollowBindAll(env, env0, lost, submodules, Opaque);
      FollowExecImports(BindAll(env, submodules, Opaque), BindAll(env0, submodules, Opaque), lost, aliases);
    case ImportFrom(future, file, names, submodules) =>
      FollowBindAll(env, env0, lost, submodules, Opaque);
      var imported :=
        if !future && file.Some? && file.value in files && file.value !in seen then ExportedAll(files, file.value, seen + {path})
        else Some(Opaque);
      FollowExecFroms(BindAll(env, submodules, Opaque), BindAll(env0, submodules, Opaque), lost, future, imported, names);
    case Assign(targets, value) =>
      SilentExec(value, env, env0, lost);
      FollowBindAll(env, env0, lost, targets, EvalExpr(value, env).value);
    case AugAssign(target, _, value) =>
      SilentExec(value, env, env0, lost);
      if target == ALL { FollowExecWrite(env, env0, lost, EvalExpr(value, env).value, false); }
      else { FollowBind(env, env0, lost, target, Opaque); }
    case Mutate(append, args) =>
      SilentExec(args[0], env, env0, lost);
      var v := if append then (if args[0].Literal? then Tup([args[0].text]) else Opaque) else EvalExpr(args[0], env).value;
      FollowExecWrite(env, env0, lost, v, true);
    case Other(touched) => FollowBindAll(env, env0, lost, touched, Opaque);
  }

  lemma {:induction false} FollowBody(files: Files, path: Path, seen: set<Path>, st: Static, st0: Static, env: Env, env0: Env, lost: seq<string>, body: seq<Stmt>)
    requires path in files && StaticFollows(st, st0) && ExecFollows(env, env0, lost) && forall stmt | stmt in body :: OnlyExtends(stmt)
    requires StaticBody(files, path, seen, st0, body).resolved && ExecBody(files, path, seen, env, body).Some?
    ensures StaticFollows(StaticBody(files, path, seen, st, body), StaticBody(files, path, seen, st0, body))
    ensures ExecBody(files, path, seen, env0, body).Some?
    ensures ExecFollows(ExecBody(files, path, seen, env, body).value, ExecBody(files, path, seen, env0, body).value, lost)
  {
    hide StaticStep, ExecStep, OnlyExtends, StaticFollows, ExecFollows;
    if body != [] {
      var n := |body| - 1;
      assert body[n] in body && forall stmt | stmt in body[..n] :: stmt in body;
      var before0 := StaticBody(files, path, seen, st0, body[..n]);
      StepFacts(files, path, seen, before0, body[n]);
      FollowBody(files, path, seen, st, st0, env, env0, lost, body[..n]);
      FollowStatic(files, path, seen, StaticBody(files, path, seen, st, body[..n]), before0, body[n]);
      FollowExec(files, path, seen, ExecBody(files, path, seen, env, body[..n]).value, ExecBody(files, path, seen, env0, body[..n]).value, lost, body[n]);
    }
  }

  // ----- exactly when a restart does no harm -----

  lemma {:induction false} BodyConcat(files: Files, path: Path, seen: set<Path>, st: Static, env: Env, pre: seq<Stmt>, post: seq<Stmt>)
    requires path in files
    ensures StaticBody(files, path, seen, st, pre + post) == StaticBody(files, path, seen, StaticBody(files, path, seen, st, pre), post)
    ensures ExecBody(files, path, seen, env, pre + post) ==
      var before := ExecBody(files, path, seen, env, pre);
      if before.None? then None else ExecBody(files, path, seen, before.value, post)
    decreases |post|
  {
    hide StaticStep, ExecStep;
    if post == [] {
      assert pre + post == pre;
    } else {
      var n := |post| - 1;
      assert (pre + post)[..|pre + post| - 1] == pre + post[..n];
      BodyConcat(files, path, seen, st, env, pre, post[..n]);
    }
  }

  /** The evaluation as if `__all__` had been emptied instead of lost. */
  ghost function Emptied(st: Static): Static {
    st.(seqs := st.seqs[ALL := []], clean := true, resolved := true)
  }

  /** A file whose first part ends with `__all__` lost by an unresolvable write, and whose second part only extends it, by operands
      that all resolve. */
  ghost predicate Restarts(files: Files, path: Path, seen: set<Path>, pre: seq<Stmt>, post: seq<Stmt>) {
    && path in files && files[path] == pre + post
    && var st := StaticBody(files, path, seen, START, pre);
    && st.clean && ALL !in st.seqs
    && (forall stmt | stmt in post :: OnlyExtends(stmt)) && (exists stmt :: stmt in post && Writes(stmt))
    && StaticBody(files, path, seen, Emptied(st), post).clean && StaticBody(files, path, seen, Emptied(st), post).resolved
  }

  lemma EmptiedBelieved(st: Static, env: Env, empty: Value)
    requires Believed(st, env) && ALL !in st.seqs && ALL in env.vars && (empty == Lst([]) || empty == Tup([]))
    ensures Believed(Emptied(st), env.(vars := env.vars[ALL := empty]))
    ensures StaticFollows(st, Emptied(st))
  {
    assert RemoveKey(st.seqs[ALL := []], ALL) == st.seqs;
  }

  /** An extension that resolves leaves an entry, and no later extension loses it. */
  lemma {:induction false} EntryStays(files: Files, path: Path, seen: set<Path>, st: Static, st0: Static, body: seq<Stmt>)
    requires path in files && StaticFollows(st, st0) && forall stmt | stmt in body :: OnlyExtends(stmt)
    requires StaticBody(files, path, seen, st0, body).resolved
    ensures StaticFollows(StaticBody(files, path, seen, st, body), StaticBody(files, path, seen, st0, body))
    ensures (exists stmt :: stmt in body && Writes(stmt)) ==> ALL in StaticBody(files, path, seen, st, body).seqs
  {
    hide StaticStep, OnlyExtends, StaticFollows, Writes;
    if body != [] {
      var n := |body| - 1;
      assert body[n] in body && forall stmt | stmt in body[..n] :: stmt in body;
      var before, before0 := StaticBody(files, path, seen, st, body[..n]), StaticBody(files, path, seen, st0, body[..n]);
      StepFacts(files, path, seen, before0, body[n]);
      EntryStays(files, path, seen, st, st0, body[..n]);
      FollowStatic(files, path, seen, before, before0, body[n]);
      EntryStep(files, path, seen, before, before0, body[n]);
      assert body == body[..n] + [body[n]];
    }
  }

  lemma EntryStep(files: Files, path: Path, seen: set<Path>, st: Static, st0: Static, stmt: Stmt)
    requires path in files && StaticFollows(st, st0) && OnlyExtends(stmt) && StaticStep(files, path, seen, st0, stmt).resolved
    ensures Writes(stmt) || ALL in st.seqs ==> ALL in StaticStep(files, path, seen, st, stmt).seqs
  {
    hide StringSequence, Rejects, Silent;
    match stmt
    case Import(aliases, submodules) => ImportFacts(Touched(st, submodules), aliases);
    case ImportFrom(future, file, names, submodules) =>
      if !future && file.Some? && file.value in files && file.value !in seen {
        var sub := StaticFile(files, file.value, seen + {path});
        FromFacts(Touched(st, submodules), false, Result(sub), sub.clean, names);
      } else {
        FromFacts(Touched(st, submodules), future, NoAll, true, names);
      }
    case Assign(targets, value) =>
      var named := st.(scope := RememberAll(st.scope, OtherTargets(targets)));
      TargetFacts(named, targets, StringSequence(value, named.seqs, named.scope));
    case AugAssign(_, _, value) => SilentStatic(value, st.seqs, st0.seqs, st.scope);
    case Mutate(_, args) => if |args| == 1 { SilentStatic(args[0], st.seqs, st0.seqs, st.scope); }
    case _ =>
  }

  /** The operands of all extensions in the second part, in order. */
  ghost function Operands(files: Files, path: Path, seen: set<Path>, pre: seq<Stmt>, post: seq<Stmt>): (r: seq<string>)
    requires Restarts(files, path, seen, pre, post)
  {
    var end := StaticBody(files, path, seen, Emptied(StaticBody(files, path, seen, START, pre)), post);
    if ALL in end.seqs then end.seqs[ALL] else []
  }

  /** Exactly when a restart does no harm. The declared names are always the operands of the later extensions; they are the executed
      names exactly when these operands begin with what was executed before, later duplicates dropped everywhere. */
  lemma RestartExact(files: Files, path: Path, seen: set<Path>, pre: seq<Stmt>, post: seq<Stmt>)
    requires Restarts(files, path, seen, pre, post) && ExecFile(files, path, seen).Some?
    requires var before := ExecBody(files, path, seen, Fresh(path), pre);
      before.Some? && ALL in before.value.vars && (before.value.vars[ALL].Lst? || before.value.vars[ALL].Tup?)
    ensures ALL in ExecFile(files, path, seen).value.vars && Result(StaticFile(files, path, seen)).Names?
    ensures Result(StaticFile(files, path, seen)).names == Dedupe(Operands(files, path, seen, pre, post))
    ensures var lost := ExecBody(files, path, seen, Fresh(path), pre).value.vars[ALL].items;
      var executed, declared := ExecFile(files, path, seen).value.vars[ALL], Result(StaticFile(files, path, seen)).names;
      executed.Opaque? || (declared == Dedupe(executed.items) <==> Dedupe(lost) <= Dedupe(Operands(files, path, seen, pre, post)))
  {
    hide StaticBody, ExecBody, OnlyExtends, Believed, Visible;
    BodyConcat(files, path, seen, START, Fresh(path), pre, post);
    var st, env := StaticBody(files, path, seen, START, pre), ExecBody(files, path, seen, Fresh(path), pre).value;
    StartBelieved(path);
    BodyKeeps(files, path, seen, START, Fresh(path), pre);
    var empty := if env.vars[ALL].Lst? then Lst([]) else Tup([]);
    var env0 := env.(vars := env.vars[ALL := empty]);
    var lost := env.vars[ALL].items;
    EmptiedBelieved(st, env, empty);
    assert lost + [] == lost;
    FollowBody(files, path, seen, st, Emptied(st), env, env0, lost, post);
    EntryStays(files, path, seen, st, Emptied(st), post);
    BodyKeeps(files, path, seen, Emptied(st), env0, post);
    RestartResult(files, path, seen, lost, StaticBody(files, path, seen, Emptied(st), post), ExecBody(files, path, seen, env0, post).value);
  }

  lemma RestartResult(files: Files, path: Path, seen: set<Path>, lost: seq<string>, st0: Static, env0: Env)
    requires path in files && ExecFile(files, path, seen).Some?
    requires StaticFollows(StaticFile(files, path, seen), st0) && ExecFollows(ExecFile(files, path, seen).value, env0, lost)
    requires Believed(st0, env0) && ALL in StaticFile(files, path, seen).seqs && (exists stmt :: stmt in files[path] && Writes(stmt))
    ensures ALL in ExecFile(files, path, seen).value.vars && Result(StaticFile(files, path, seen)).Names?
    ensures ALL in st0.seqs && Result(StaticFile(files, path, seen)).names == Dedupe(st0.seqs[ALL])
    ensures var executed, declared := ExecFile(files, path, seen).value.vars[ALL], Result(StaticFile(files, path, seen)).names;
      executed.Opaque? || (declared == Dedupe(executed.items) <==> Dedupe(lost) <= Dedupe(st0.seqs[ALL]))
  {
    hide StaticFile, ExecFile, Visible;
    DeclaredWhen(files, path, seen);
    var st, executed := StaticFile(files, path, seen), ExecFile(files, path, seen).value.vars[ALL];
    if !executed.Opaque? {
      assert Holds(env0.vars[ALL], st0.seqs[ALL]) && st.seqs[ALL] == st0.seqs[ALL];
      PrefixLost(lost, env0.vars[ALL].items);
    }
  }

  /** `__all__ = sorted(...)`, which cannot be resolved statically and yields ["a"], then `__all__ += ["b"]`, which can. */
  const UNRESOLVED := Assign([ALL], OtherExpr(Lst(["a"])))
  const RESTART := AugAssign(ALL, true, Display(ListForm, [Item("b")]))
  const RESTARTING: seq<Stmt> := [UNRESOLVED, RESTART]

  lemma {:induction false} SplitBody(files: Files, path: Path, body: seq<Stmt>, stmt: Stmt)
    requires path in files
    ensures StaticBody(files, path, {}, START, body + [stmt]) == StaticStep(files, path, {}, StaticBody(files, path, {}, START, body), stmt)
    ensures var before := ExecBody(files, path, {}, Fresh(path), body);
      before.Some? ==> ExecBody(files, path, {}, Fresh(path), body + [stmt]) == ExecStep(files, path, {}, before.value, stmt)
  {
    assert (body + [stmt])[..|body|] == body;
  }

  lemma ExtensionValue(seqs: Sequences, scope: seq<string>, env: Env)
    ensures StringSequence(RESTART.value, seqs, scope) == Some(["b"]) && EvalExpr(RESTART.value, env) == Some(Lst(["b"]))
  {
    var elts := [Item("b")];
    assert elts[1..] == [] && ["b"] + [] == ["b"];
    assert StringElements(elts[1..], seqs, scope) == Some([]) && EvalElements(elts[1..], env) == Some(Tup([]));
    assert StringElement(elts[0], seqs, scope) == Some(["b"]) && EvalElement(elts[0], env) == Some(Tup(["b"]));
    assert StringElements(elts, seqs, scope) == Some(["b"]) && EvalElements(elts, env) == Some(Tup(["b"]));
  }

  /** The evaluator restarts from the extension alone: it declares only "b" where execution has "a" too. */
  lemma RestartIsUnsound(files: Files, path: Path)
    requires path in files && files[path] == RESTARTING
    ensures Result(StaticFile(files, path, {})) == Names(["b"])
    ensures var env := ExecFile(files, path, {}); env.Some? && ALL in env.value.vars && env.value.vars[ALL] == Lst(["a", "b"])
  {
    hide StaticStep, ExecStep;
    SplitBody(files, path, [], UNRESOLVED);
    SplitBody(files, path, [] + [UNRESOLVED], RESTART);
    assert [] + [UNRESOLVED] + [RESTART] == RESTARTING;
    UnresolvedStep(files, path, START);
    ExtendStep(files, path, StaticStep(files, path, {}, START, UNRESOLVED));
    RestartExec(files, path);
  }

  lemma UnresolvedStep(files: Files, path: Path, st: Static)
    requires path in files && st.seqs == map[]
    ensures var next := StaticStep(files, path, {}, st, UNRESOLVED); next.seqs == map[] && next.clean == st.clean
  {
    hide Rejects;
    assert [ALL][..0] == [];
    assert OtherTargets([ALL]) == [];
    assert AssignTargets(st, [ALL], None).seqs == map[];
  }

  lemma ExtendStep(files: Files, path: Path, st: Static)
    requires path in files && st.seqs == map[]
    ensures Result(StaticStep(files, path, {}, st, RESTART)) == Names(["b"])
  {
    hide StringSequence, Rejects;
    ExtensionValue(st.seqs, st.scope, Fresh(path));
    assert [] + ["b"] == ["b"];
    OneName("b");
  }

  lemma RestartExec(files: Files, path: Path)
    requires path in files
    ensures var env := Bind(Fresh(path), ALL, Lst(["a"]));
      && ExecStep(files, path, {}, Fresh(path), UNRESOLVED) == Some(env)
      && ExecStep(files, path, {}, env, RESTART) == Some(Bind(env, ALL, Lst(["a", "b"])))
  {
    hide EvalExpr, BindAll, Implicit;
    var env := Bind(Fresh(path), ALL, Lst(["a"]));
    OneBinding(Fresh(path), ALL, Lst(["a"]));
    UnresolvedValue(Fresh(path));
    ExtensionValue(map[], [], env);
    assert ["a"] + ["b"] == ["a", "b"];
  }

  lemma UnresolvedValue(env: Env)
    ensures EvalExpr(UNRESOLVED.value, env) == Some(Lst(["a"]))
  {
  }

  /** This module is one to which the exact condition applies. */
  lemma RestartingRestarts(files: Files, path: Path)
    requires path in files && files[path] == RESTARTING
    ensures Restarts(files, path, {}, [UNRESOLVED], [RESTART])
  {
    hide StaticStep;
    SplitBody(files, path, [], UNRESOLVED);
    assert [] + [UNRESOLVED] == [UNRESOLVED];
    UnresolvedStep(files, path, START);
    var st := StaticStep(files, path, {}, START, UNRESOLVED);
    assert [RESTART][..0] == [];
    assert StaticBody(files, path, {}, Emptied(st), [RESTART]) == StaticStep(files, path, {}, Emptied(st), RESTART);
    EmptiedExtends(files, path, Emptied(st));
    assert RESTARTING == [UNRESOLVED] + [RESTART];
    assert RESTART in [RESTART] && Writes(RESTART);
  }

  lemma EmptiedExtends(files: Files, path: Path, st: Static)
    requires path in files && ALL in st.seqs && st.clean && st.resolved
    ensures var next := StaticStep(files, path, {}, st, RESTART); next.clean && next.resolved
  {
    hide StringSequence;
    ExtensionValue(st.seqs, st.scope, Fresh(path));
  }

  /** `def f`, then `__all__ = [n for n in globals()]`: every write resolves, yet the names every module has are missed. */
  const EVERY_NAME := Comprehension(true, true, "n", [])
  const UNFILTERED: seq<Stmt> := [Define("f"), Assign([ALL], EVERY_NAME)]

  lemma GlobalsAreMissed(files: Files, path: Path)
    requires path in files && files[path] == UNFILTERED
    ensures Result(StaticFile(files, path, {})) == Names(["f"]) && StaticFile(files, path, {}).resolved
    ensures var env := ExecFile(files, path, {}); env.Some? && ALL in env.value.vars && env.value.vars[ALL] == Lst(Implicit(path) + ["f"])
  {
    hide StaticStep, ExecStep;
    SplitBody(files, path, [], UNFILTERED[0]);
    SplitBody(files, path, [] + [UNFILTERED[0]], UNFILTERED[1]);
    assert [] + [UNFILTERED[0]] + [UNFILTERED[1]] == UNFILTERED;
    EveryNameStatic(files, path);
    EveryNameExec(files, path);
  }

  lemma EveryNameStatic(files: Files, path: Path)
    requires path in files
    ensures var st := StaticStep(files, path, {}, StaticStep(files, path, {}, START, Define("f")), Assign([ALL], EVERY_NAME));
      Result(st) == Names(["f"]) && st.resolved
  {
    hide Rejects, StringSequence, AssignTargets, RememberAll, OtherTargets, Dedupe;
    var st := StaticStep(files, path, {}, START, Define("f"));
    assert st.scope == ["f"] && st.seqs == map[];
    OnlyAll(st, ["f"]);
    EveryNameResolves();
    OneName("f");
  }

  lemma EveryNameResolves()
    ensures StringSequence(EVERY_NAME, map[], ["f"]) == Some(["f"])
  {
    assert ["f"][..0] == [] && ["f"][0] == "f";
    assert FilterNames([], "n", ["f"][..0]) == Some([]) && [] + ["f"] == ["f"];
  }

  lemma OneName(name: string)
    ensures Dedupe([name]) == [name]
  {
    assert [name][..0] == [];
  }

  /** What a plain assignment to `__all__` alone does. */
  lemma OnlyAll(st: Static, names: seq<string>)
    ensures RememberAll(st.scope, OtherTargets([ALL])) == st.scope
    ensures var r := AssignTargets(st, [ALL], Some(names)); r.seqs == st.seqs[ALL := names] && r.sawAll
  {
    assert [ALL][..0] == [];
    assert OtherTargets([ALL]) == [];
  }

  lemma EveryNameExec(files: Files, path: Path)
    requires path in files
    ensures ExecStep(files, path, {}, Fresh(path), Define("f")) == Some(Bind(Fresh(path), "f", Opaque))
    ensures var env := ExecStep(files, path, {}, Bind(Fresh(path), "f", Opaque), Assign([ALL], EVERY_NAME));
      env.Some? && ALL in env.value.vars && env.value.vars[ALL] == Lst(Implicit(path) + ["f"])
  {
    hide FilterGlobals;
    var env := Bind(Fresh(path), "f", Opaque);
    assert env.order == Implicit(path) + ["f"];
    NoCondition(env.order);
    assert [ALL][..0] == [];
    assert BindAll(env, [ALL][..0], Lst(env.order)) == env;
  }

  lemma {:induction false} NoCondition(order: seq<string>)
    ensures FilterGlobals([], "n", order) == Some(order)
  {
    if order != [] {
      NoCondition(order[..|order| - 1]);
      assert order == order[..|order| - 1] + [order[|order| - 1]];
    }
  }

  /** A package that imports "A" from its submodule "contracts", then `__all__ = tuple(n for n in globals() if not
      n.startswith("_"))`. Every write resolves, yet loading the submodule has set its name in the package. */
  const PUBLIC: seq<Cond> := [Not(Affix("n", false, Some(["_"])))]
  const PUBLIC_NAMES := Call("tuple", [Comprehension(false, true, "n", PUBLIC)], false)

  function Reexports(file: Option<Path>): seq<Stmt> {
    [ImportFrom(false, file, [FromAlias("A", None, [])], ["contracts"]), Assign([ALL], PUBLIC_NAMES)]
  }

  lemma SubmodulesAreMissed(files: Files, path: Path, file: Option<Path>)
    requires path in files && files[path] == Reexports(file)
    ensures Result(StaticFile(files, path, {})) == Names(["A"]) && StaticFile(files, path, {}).resolved
    ensures var env := ExecFile(files, path, {}); env.Some? && ALL in env.value.vars && env.value.vars[ALL] == Tup(["contracts", "A"])
  {
    hide StaticStep, ExecStep;
    var body := Reexports(file);
    SplitBody(files, path, [], body[0]);
    SplitBody(files, path, [] + [body[0]], body[1]);
    assert [] + [body[0]] + [body[1]] == body;
    ReexportImports(files, path, file);
    NotUnderscored();
    PublicStatic(files, path, StaticStep(files, path, {}, START, body[0]), "A");
    PublicExec(files, path);
  }

  lemma ReexportImports(files: Files, path: Path, file: Option<Path>)
    requires path in files
    ensures var st := StaticStep(files, path, {}, START, Reexports(file)[0]); st.scope == ["A"] && st.seqs == map[] && st.resolved
    ensures ExecStep(files, path, {}, Fresh(path), Reexports(file)[0]) == Some(Bind(Bind(Fresh(path), "contracts", Opaque), "A", Opaque))
  {
    hide StaticFile, ExportedAll, StaticFroms, ExecFroms, BindAll, Result;
    var a := FromAlias("A", None, []);
    OneFrom(Touched(START, ["contracts"]), BindAll(Fresh(path), ["contracts"], Opaque), a);
    OneBinding(Fresh(path), "contracts", Opaque);
    assert a.name != ALL && [] + ["A"] == ["A"];
  }

  lemma OneBinding(env: Env, name: string, v: Value)
    ensures BindAll(env, [name], v) == Bind(env, name, v)
  {
    assert [name][..0] == [];
    assert BindAll(env, [name][..0], v) == env;
  }

  /** A single name other than `__all__` or a star, imported from anywhere. */
  lemma OneFrom(st: Static, env: Env, a: FromAlias)
    requires a.name != ALL && a.name != "*"
    ensures forall imported, clean ::
      StaticFroms(st, false, imported, clean, [a]) ==
        st.(scope := Remember(st.scope, FromName(a)), clean := st.clean && FromName(a) !in st.seqs)
    ensures forall value :: ExecFroms(env, false, value, [a]) == Some(Bind(env, FromName(a), Opaque))
  {
    assert [a][..0] == [] && [a][0] == a;
    forall imported, clean
      ensures StaticFroms(st, false, imported, clean, [a]) ==
        st.(scope := Remember(st.scope, FromName(a)), clean := st.clean && FromName(a) !in st.seqs)
    {
      assert StaticFroms(st, false, imported, clean, [a][..0]) == st;
    }
    forall value ensures ExecFroms(env, false, value, [a]) == Some(Bind(env, FromName(a), Opaque)) {
      assert ExecFroms(env, false, value, [a][..0]) == Some(env);
    }
  }

  lemma Underscored(path: Path)
    ensures forall n | n in Implicit(path) :: StartsWith(n, "_")
  {
  }

  lemma NotUnderscored()
    ensures !StartsWith("A", "_") && !StartsWith("contracts", "_") && "A" != "contracts"
  {
    assert "_"[0] == '_' && "A"[0] == 'A' && "contracts"[0] == 'c';
  }

  /** The names that do not start with an underscore. */
  function Public(names: seq<string>): seq<string> {
    if names == [] then []
    else Public(names[..|names| - 1]) + if StartsWith(names[|names| - 1], "_") then [] else [names[|names| - 1]]
  }

  lemma PublicAccepts(name: string)
    ensures Accepts(PUBLIC, "n", name) == Some(!StartsWith(name, "_")) && EvalChain(PUBLIC, "n", name, false) == Some(!StartsWith(name, "_"))
  {
    assert AnyAffix(name, ["_"], false) == StartsWith(name, "_") by { assert "_" in ["_"]; }
    assert SafePredicate(PUBLIC[0], "n", name) == Some(!StartsWith(name, "_")) == EvalCond(PUBLIC[0], "n", name);
    assert PUBLIC[1..] == [];
    assert Accepts([], "n", name) == Some(true) == EvalChain([], "n", name, false);
  }

  lemma {:induction false} PublicFilter(names: seq<string>)
    ensures FilterNames(PUBLIC, "n", names) == Some(Public(names)) && FilterGlobals(PUBLIC, "n", names) == Some(Public(names))
  {
    hide Accepts, EvalChain;
    if names != [] {
      PublicFilter(names[..|names| - 1]);
      PublicAccepts(names[|names| - 1]);
    }
  }

  lemma {:induction false} NonePublic(names: seq<string>)
    requires forall n | n in names :: StartsWith(n, "_")
    ensures Public(names) == []
  {
    if names != [] {
      assert names[|names| - 1] in names && forall n | n in names[..|names| - 1] :: n in names;
      NonePublic(names[..|names| - 1]);
    }
  }

  lemma PublicSnoc(names: seq<string>, name: string)
    requires !StartsWith(name, "_")
    ensures Public(names + [name]) == Public(names) + [name]
  {
    assert (names + [name])[..|names|] == names;
  }

  lemma PublicStatic(files: Files, path: Path, st: Static, name: string)
    requires path in files && st.scope == [name] && st.seqs == map[] && st.resolved && !StartsWith(name, "_")
    ensures var next := StaticStep(files, path, {}, st, Assign([ALL], PUBLIC_NAMES)); Result(next) == Names([name]) && next.resolved
  {
    hide Rejects, StringSequence, AssignTargets, RememberAll, OtherTargets, Dedupe, StartsWith;
    PublicResolves(name);
    OnlyAll(st, [name]);
    OneName(name);
  }

  lemma PublicResolves(name: string)
    requires !StartsWith(name, "_")
    ensures StringSequence(PUBLIC_NAMES, map[], [name]) == Some([name])
  {
    hide FilterNames, FilterGlobals, Public, StartsWith;
    PublicFilter([name]);
    NonePublic([]);
    PublicSnoc([], name);
    assert [] + [name] == [name];
    assert StringSequence(Comprehension(false, true, "n", PUBLIC), map[], [name]) == Some([name]);
  }

  /** `import a.b`, then the public names: the evaluator records "b", Python binds "a". */
  const DOTTED_IMPORT: seq<Stmt> := [Import([ImportAlias(["a", "b"], None)], []), Assign([ALL], PUBLIC_NAMES)]

  lemma DottedImportsDiffer(files: Files, path: Path)
    requires path in files && files[path] == DOTTED_IMPORT
    ensures Result(StaticFile(files, path, {})) == Names(["b"])
    ensures var env := ExecFile(files, path, {}); env.Some? && ALL in env.value.vars && env.value.vars[ALL] == Tup(["a"])
  {
    hide StaticStep, ExecStep, StartsWith;
    SplitBody(files, path, [], DOTTED_IMPORT[0]);
    SplitBody(files, path, [] + [DOTTED_IMPORT[0]], DOTTED_IMPORT[1]);
    assert [] + [DOTTED_IMPORT[0]] + [DOTTED_IMPORT[1]] == DOTTED_IMPORT;
    LettersPublic();
    DottedImport(files, path);
    PublicStatic(files, path, StaticStep(files, path, {}, START, DOTTED_IMPORT[0]), "b");
    PublicLetter(files, path);
  }

  lemma LettersPublic()
    ensures !StartsWith("a", "_") && !StartsWith("b", "_")
  {
    assert "_"[0] == '_' && "a"[0] == 'a' && "b"[0] == 'b';
  }

  lemma DottedImport(files: Files, path: Path)
    requires path in files
    ensures var st := StaticStep(files, path, {}, START, DOTTED_IMPORT[0]); st.scope == ["b"] && st.seqs == map[] && st.resolved
    ensures ExecStep(files, path, {}, Fresh(path), DOTTED_IMPORT[0]) == Some(Bind(Fresh(path), "a", Opaque))
  {
    hide Implicit;
    var alias := ImportAlias(["a", "b"], None);
    assert [alias][..0] == [] && [alias][0] == alias;
    var st := Touched(START, []);
    assert StaticImports(st, [alias][..0]) == st && ExecImports(Fresh(path), [alias][..0]) == Fresh(path);
    assert BindAll(Fresh(path), [], Opaque) == Fresh(path);
    assert [] + ["b"] == ["b"];
  }

  lemma PublicLetter(files: Files, path: Path)
    requires path in files
    ensures var env := Bind(Fresh(path), "a", Opaque);
      ExecStep(files, path, {}, env, Assign([ALL], PUBLIC_NAMES)) == Some(Bind(env, ALL, Tup(["a"])))
  {
    hide EvalExpr, BindAll, Implicit, StartsWith;
    var env := Bind(Fresh(path), "a", Opaque);
    Underscored(path);
    LettersPublic();
    assert env.order == Implicit(path) + ["a"];
    LetterValue(env, path);
    OneBinding(env, ALL, Tup(["a"]));
  }

  lemma LetterValue(env: Env, path: Path)
    requires env.order == Implicit(path) + ["a"] && env.vars.Keys == {"a"}
    ensures EvalExpr(PUBLIC_NAMES, env) == Some(Tup(["a"]))
  {
    hide FilterGlobals, FilterNames, Public, Implicit, StartsWith;
    Underscored(path);
    LettersPublic();
    PublicFilter(env.order);
    NonePublic(Implicit(path));
    PublicSnoc(Implicit(path), "a");
    assert [] + ["a"] == ["a"];
    assert "globals"[0] == 'g' && "tuple"[0] == 't' && "a"[0] == 'a';
    assert EvalExpr(Comprehension(false, true, "n", PUBLIC), env) == Some(Gen(["a"]));
  }

  lemma PublicExec(files: Files, path: Path)
    requires path in files
    ensures var env := Bind(Bind(Fresh(path), "contracts", Opaque), "A", Opaque);
      ExecStep(files, path, {}, env, Assign([ALL], PUBLIC_NAMES)) == Some(Bind(env, ALL, Tup(["contracts", "A"])))
  {
    hide EvalExpr, BindAll, Implicit;
    var env := Bind(Bind(Fresh(path), "contracts", Opaque), "A", Opaque);
    PublicOrder(path);
    PublicValue(env, path);
    OneBinding(env, ALL, Tup(["contracts", "A"]));
  }

  lemma PublicOrder(path: Path)
    ensures Bind(Bind(Fresh(path), "contracts", Opaque), "A", Opaque).order == Implicit(path) + ["contracts"] + ["A"]
  {
    hide Implicit, StartsWith;
    Underscored(path);
    NotUnderscored();
  }

  lemma PublicValue(env: Env, path: Path)
    requires env.order == Implicit(path) + ["contracts"] + ["A"] && env.vars.Keys == {"contracts", "A"}
    ensures EvalExpr(PUBLIC_NAMES, env) == Some(Tup(["contracts", "A"]))
  {
    hide FilterGlobals, FilterNames, Public, Implicit, StartsWith;
    Underscored(path);
    NotUnderscored();
    PublicFilter(env.order);
    NonePublic(Implicit(path));
    PublicSnoc(Implicit(path), "contracts");
    PublicSnoc(Implicit(path) + ["contracts"], "A");
    assert [] + ["contracts"] + ["A"] == ["contracts", "A"];
    assert "globals"[0] == 'g' && "tuple"[0] == 't' && "A"[0] == 'A' && "contracts"[0] == 'c';
    assert EvalExpr(Comprehension(false, true, "n", PUBLIC), env) == Some(Gen(["contracts", "A"]));
  }

  // ----- the statement loop itself -----

  method RememberImports(scope: seq<string>, aliases: seq<ImportAlias>, ghost st: Static) returns (grown: seq<string>)
    requires scope == st.scope
    ensures grown == StaticImports(st, aliases).scope
  {
    grown := scope;
    for i := 0 to |aliases|
      invariant grown == StaticImports(st, aliases[..i]).scope
    {
      assert aliases[..i + 1][..i] == aliases[..i];
      if LocalName(aliases[i]) !in grown { grown := grown + [LocalName(aliases[i])]; }
    }
    assert aliases[..|aliases|] == aliases;
  }

  method BindFroms(seqs: Sequences, scope: seq<string>, imported: Declared, names: seq<FromAlias>, ghost st: Static, ghost clean: bool)
    returns (bound: Sequences, grown: seq<string>)
    requires seqs == st.seqs && scope == st.scope
    ensures var r := StaticFroms(st, false, imported, clean, names); bound == r.seqs && grown == r.scope
  {
    bound, grown := seqs, scope;
    for i := 0 to |names|
      invariant var r := StaticFroms(st, false, imported, clean, names[..i]); bound == r.seqs && grown == r.scope
    {
      assert names[..i + 1][..i] == names[..i];
      if names[i].name != "*" {
        var local := FromName(names[i]);
        if local !in grown { grown := grown + [local]; }
        if names[i].name == ALL && imported.Names? { bound := bound[local := imported.names]; }
      }
    }
    assert names[..|names|] == names;
  }

  method RememberTargets(scope: seq<string>, targets: seq<string>) returns (grown: seq<string>)
    ensures grown == RememberAll(scope, OtherTargets(targets))
  {
    grown := scope;
    for i := 0 to |targets|
      invariant grown == RememberAll(scope, OtherTargets(targets[..i]))
    {
      assert targets[..i + 1][..i] == targets[..i];
      var others := OtherTargets(targets[..i]);
      if targets[i] != ALL {
        assert (others + [targets[i]])[..|others|] == others;
        if targets[i] !in grown { grown := grown + [targets[i]]; }
      } else {
        assert others + [] == others;
      }
    }
    assert targets[..|targets|] == targets;
  }

  method BindTargets(seqs: Sequences, sawAll: bool, targets: seq<string>, value: Option<seq<string>>, ghost st: Static)
    returns (bound: Sequences, saw: bool)
    requires seqs == st.seqs && sawAll == st.sawAll
    ensures var r := AssignTargets(st, targets, value); bound == r.seqs && saw == r.sawAll && r.scope == st.scope
  {
    bound, saw := seqs, sawAll;
    for i := 0 to |targets|
      invariant var r := AssignTargets(st, targets[..i], value); bound == r.seqs && saw == r.sawAll && r.scope == st.scope
    {
      assert targets[..i + 1][..i] == targets[..i];
      if value.Some? { bound := bound[targets[i] := value.value]; } else { bound := RemoveKey(bound, targets[i]); }
      if targets[i] == ALL { saw := true; }
    }
    assert targets[..|targets|] == targets;
  }

  lemma {:induction false} FutureFroms(st: Static, names: seq<FromAlias>)
    ensures var r := StaticFroms(st, true, NoAll, true, names); r.seqs == st.seqs && r.scope == st.scope && r.sawAll == st.sawAll
  {
    if names != [] { FutureFroms(st, names[..|names| - 1]); }
  }

  /** `_declared_all`: on every file map, cyclic imports included. */
  method DeclaredAllOf(files: Files, path: Path, seen: set<Path>) returns (r: Declared)
    requires path in files
    ensures r == Result(StaticFile(files, path, seen))
    decreases files.Keys - seen, path in seen, 1
  {
    hide StaticStep;
    var seqs: Sequences, scope: seq<string>, sawAll := map[], [], false;
    ghost var st := START;
    var body := files[path];
    for i := 0 to |body|
      invariant st == StaticBody(files, path, seen, START, body[..i])
      invariant seqs == st.seqs && scope == st.scope && sawAll == st.sawAll
    {
      assert body[..i + 1][..i] == body[..i];
      seqs, scope, sawAll := Evaluate(files, path, seen, seqs, scope, sawAll, body[i], st);
      st := StaticStep(files, path, seen, st, body[i]);
    }
    assert body[..|body|] == body;
    if !sawAll { return NoAll; }
    return if ALL in seqs then Names(Dedupe(seqs[ALL])) else Unresolvable;
  }

  /** The body of the statement loop. */
  method Evaluate(files: Files, path: Path, seen: set<Path>, seqs: Sequences, scope: seq<string>, sawAll: bool, stmt: Stmt, ghost st: Static)
    returns (seqs': Sequences, scope': seq<string>, sawAll': bool)
    requires path in files && seqs == st.seqs && scope == st.scope && sawAll == st.sawAll
    ensures var next := StaticStep(files, path, seen, st, stmt); seqs' == next.seqs && scope' == next.scope && sawAll' == next.sawAll
    decreases files.Keys - seen, path in seen, 0
  {
    hide StringSequence, Rejects, AssignTargets, StaticFroms, StaticImports, Extend;
    seqs', scope', sawAll' := seqs, scope, sawAll;
    match stmt {
      case Define(name) => if name !in scope { scope' := scope + [name]; }
      case Import(aliases, submodules) =>
        ImportFacts(Touched(st, submodules), aliases);
        scope' := RememberImports(scope, aliases, Touched(st, submodules));
      case ImportFrom(future, file, names, submodules) =>
        ghost var touched := Touched(st, submodules);
        if future {
          FutureFroms(touched, names);
        } else if file.Some? && file.value in files && file.value !in seen {
          var imported := DeclaredAllOf(files, file.value, seen + {path});
          ghost var sub := StaticFile(files, file.value, seen + {path});
          FromFacts(touched, false, imported, sub.clean, names);
          seqs', scope' := BindFroms(seqs, scope, imported, names, touched, sub.clean);
        } else {
          FromFacts(touched, false, NoAll, true, names);
          seqs', scope' := BindFroms(seqs, scope, NoAll, names, touched, true);
        }
      case Assign(targets, value) =>
        scope' := RememberTargets(scope, targets);
        var resolved := ResolveSequence(value, seqs, scope');
        seqs', sawAll' := BindTargets(seqs, sawAll, targets, resolved, st.(scope := scope'));
      case AugAssign(target, add, value) =>
        if target == ALL && add {
          var extension := ResolveSequence(value, seqs, scope);
          seqs', sawAll' := ExtendAll(seqs, extension, st), true;
        }
      case Mutate(append, args) =>
        var extension := None;
        if |args| == 1 {
          if append {
            extension := if args[0].Literal? then Some([args[0].text]) else None;
          } else {
            extension := ResolveSequence(args[0], seqs, scope);
          }
        }
        seqs', sawAll' := ExtendAll(seqs, extension, st), true;
      case Other(_) =>
    }
  }

  /** `sequences["__all__"]` after an extension; a missing entry counts as empty. */
  function ExtendAll(seqs: Sequences, extension: Option<seq<string>>, ghost st: Static): (r: Sequences)
    requires seqs == st.seqs
    ensures var next := Extend(st, extension); r == next.seqs && next.sawAll && next.scope == st.scope
  {
    if extension.None? then RemoveKey(seqs, ALL)
    else seqs[ALL := (if ALL in seqs then seqs[ALL] else []) + extension.value]
  }
}
