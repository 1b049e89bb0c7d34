/** Consolidating the system registry: rows that are not retained are folded into the retained row
    that owns them, and dependencies, capabilities and parents are rewritten onto owners. */
module RegistryConsolidation {
  import opened Graphs
  import opened Ordering

  datatype Option<T> = None | Some(value: T)

  /** `needs` is the row's "requires" and `offers` its "provides"; fields that are only copied are kept in `rest`. */
  datatype Row = Row(parent: Option<string>, kind: string, canonical: Option<string>, needs: seq<string>,
                     offers: seq<string>, components: seq<string>, rest: string)

  type Rows = map<string, Row>

  /** `parent.replace(".", "/")`. */
  function Slashed(s: string): (r: string)
    ensures |r| == |s| && forall i | 0 <= i < |s| :: r[i] == if s[i] == '.' then '/' else s[i]
  {
    seq(|s|, i requires 0 <= i < |s| => if s[i] == '.' then '/' else s[i])
  }

  /** `_load`. */
  function Load(file: Rows): Rows {
    map k | k in file :: file[k].(parent := if file[k].parent.Some? then Some(Slashed(file[k].parent.value)) else None)
  }

  predicate Retains(row: Row) {
    row.parent.None? || row.kind == "authority" || row.kind == "provider"
  }

  function Retained(rows: Rows): set<string> {
    set k | k in rows && Retains(rows[k])
  }

  // ----- the parent chain -----

  /** The n-th parent of k, while the chain stays inside the registry. */
  ghost function Up(rows: Rows, k: string, n: nat): Option<string> {
    if n == 0 then Some(k)
    else
      var q := Up(rows, k, n - 1);
      if q.Some? && q.value in rows then rows[q.value].parent else None
  }

  /** The first n - 1 parents exist, are rows and are not retained. */
  ghost predicate Open(rows: Rows, k: string, n: nat) {
    forall m | 1 <= m < n :: Up(rows, k, m).Some? && Up(rows, k, m).value in rows && Up(rows, k, m).value !in Retained(rows)
  }

  /** o is the nearest retained proper ancestor of k, n steps up. */
  ghost predicate Nearest(rows: Rows, k: string, n: nat, o: string) {
    n >= 1 && Open(rows, k, n) && Up(rows, k, n) == Some(o) && o in Retained(rows)
  }

  ghost predicate HasNearest(rows: Rows, k: string, o: string) {
    exists n: nat :: Nearest(rows, k, n, o)
  }

  /** Who owns k: itself, its retained canonical authority, or its nearest retained ancestor. */
  ghost predicate IsOwner(rows: Rows, k: string, o: string) {
    k in rows &&
    if k in Retained(rows) then o == k
    else if rows[k].canonical.Some? && rows[k].canonical.value in Retained(rows) then o == rows[k].canonical.value
    else HasNearest(rows, k, o)
  }

  lemma {:induction false} UpAdds(rows: Rows, k: string, m: nat, x: string, n: nat)
    requires Up(rows, k, m) == Some(x)
    ensures Up(rows, k, m + n) == Up(rows, x, n)
  {
    if n > 0 { UpAdds(rows, k, m, x, n - 1); }
  }

  lemma NearestUnique(rows: Rows, k: string, m: nat, a: string, n: nat, b: string)
    requires Nearest(rows, k, m, a) && Nearest(rows, k, n, b)
    ensures m == n && a == b
  {
    if m < n { assert false; }
    if n < m { assert false; }
  }

  lemma OwnerUnique(rows: Rows, k: string, a: string, b: string)
    requires IsOwner(rows, k, a) && IsOwner(rows, k, b)
    ensures a == b && a in Retained(rows)
  {
    if HasNearest(rows, k, a) && HasNearest(rows, k, b) {
      var m: nat :| Nearest(rows, k, m, a);
      var n: nat :| Nearest(rows, k, n, b);
      NearestUnique(rows, k, m, a, n, b);
    }
  }

  // ----- `_owner` -----

  datatype OwnerResult = Owner(owner: string) | ParentCycle | MissingRow(key: string) | NoOwner

  /** The chain repeats, so it never ends and never meets a retained row. */
  lemma {:induction false} RepeatedOpen(rows: Rows, k: string, i: nat, j: nat, n: nat)
    requires i < j && Up(rows, k, i).Some? && Up(rows, k, i) == Up(rows, k, j) && Open(rows, k, j) && Up(rows, k, i).value in rows
    requires i >= 1 || k !in Retained(rows)
    ensures Open(rows, k, n)
    decreases n
  {
    if n > j {
      RepeatedOpen(rows, k, i, j, n - 1);
      var x := Up(rows, k, i).value;
      UpAdds(rows, k, i, x, n - 1 - j);
      UpAdds(rows, k, j, x, n - 1 - j);
      if i + (n - 1 - j) >= 1 {
        assert Up(rows, k, i + (n - 1 - j)) == Up(rows, k, n - 1);
      }
    }
  }

  lemma OpenNext(rows: Rows, k: string, n: nat)
    requires n >= 1 && Open(rows, k, n) && Up(rows, k, n).Some? && Up(rows, k, n).value in rows && Up(rows, k, n).value !in Retained(rows)
    ensures Open(rows, k, n + 1)
  {
  }

  /** What each outcome of the walk from an unretained key without a retained canonical authority means. */
  ghost predicate WalkMeans(rows: Rows, key: string, r: OwnerResult) {
    match r
    case Owner(o) => HasNearest(rows, key, o)
    case ParentCycle => forall n: nat :: Open(rows, key, n)
    case MissingRow(m) => m !in rows && exists n: nat :: n >= 1 && Open(rows, key, n) && Up(rows, key, n) == Some(m)
    case NoOwner => exists n: nat :: n >= 1 && Open(rows, key, n) && Up(rows, key, n) == None
  }

  /** `_owner`: always terminates, finds the owner if there is one, and says why not otherwise. */
  method FindOwner(key: string, rows: Rows, retained: set<string>) returns (r: OwnerResult)
    requires key in rows && retained == Retained(rows)
    ensures r.Owner? ==> IsOwner(rows, key, r.owner)
    ensures !r.Owner? ==> key !in retained && !(rows[key].canonical.Some? && rows[key].canonical.value in retained)
    ensures !r.Owner? ==> WalkMeans(rows, key, r) && forall o :: !IsOwner(rows, key, o)
  {
    if key in retained {
      return Owner(key);
    }
    var canonical := rows[key].canonical;
    if canonical.Some? && canonical.value in retained {
      return Owner(canonical.value);
    }
    var parent := rows[key].parent;
    var seen := {key};
    ghost var n: nat := 1;
    assert OnChain(rows, key, 1, key) by { assert Up(rows, key, 0) == Some(key); }
    while parent.Some?
      invariant n >= 1 && parent == Up(rows, key, n) && Open(rows, key, n)
      invariant seen <= rows.Keys && forall x | x in seen :: OnChain(rows, key, n, x)
      decreases rows.Keys - seen, if parent.Some? then 1 else 0
    {
      if parent.value in seen {
        r := ParentCycle;
        CycleFound(rows, key, n);
        NoOwnerWithout(rows, key, r);
        return;
      }
      ChainGrows(rows, key, n, seen);
      seen := seen + {parent.value};
      if parent.value in retained {
        assert Nearest(rows, key, n, parent.value);
        return Owner(parent.value);
      }
      if parent.value !in rows {
        r := MissingRow(parent.value);
        NoOwnerWithout(rows, key, r);
        return;
      }
      OpenNext(rows, key, n);
      parent := rows[parent.value].parent;
      n := n + 1;
    }
    r := NoOwner;
    NoOwnerWithout(rows, key, r);
  }

  /** A row without a parent is retained, so a chain cannot simply run out. */
  lemma ChainNeverRunsOut(rows: Rows, key: string)
    requires key in rows && key !in Retained(rows)
    ensures !WalkMeans(rows, key, NoOwner)
  {
    if WalkMeans(rows, key, NoOwner) {
      var n: nat :| n >= 1 && Open(rows, key, n) && Up(rows, key, n) == None;
      var x := Up(rows, key, n - 1);
      assert n == 1 || (x.Some? && x.value in rows && x.value !in Retained(rows));
      assert Retains(rows[x.value]);
      assert false;
    }
  }

  ghost predicate OnChain(rows: Rows, key: string, n: nat, x: string) {
    exists i: nat :: i < n && Up(rows, key, i) == Some(x)
  }

  lemma ChainGrows(rows: Rows, key: string, n: nat, seen: set<string>)
    requires Up(rows, key, n).Some? && forall x | x in seen :: OnChain(rows, key, n, x)
    ensures forall x | x in seen + {Up(rows, key, n).value} :: OnChain(rows, key, n + 1, x)
  {
    forall x | x in seen + {Up(rows, key, n).value} ensures OnChain(rows, key, n + 1, x) {
      if x in seen {
        var i: nat :| i < n && Up(rows, key, i) == Some(x);
        assert i < n + 1;
      } else {
        assert n < n + 1;
      }
    }
  }

  lemma CycleFound(rows: Rows, key: string, n: nat)
    requires key in rows && key !in Retained(rows) && n >= 1 && Open(rows, key, n) && Up(rows, key, n).Some?
    requires OnChain(rows, key, n, Up(rows, key, n).value)
    ensures forall m: nat :: Open(rows, key, m)
  {
    var i: nat :| i < n && Up(rows, key, i) == Up(rows, key, n);
    forall m: nat ensures Open(rows, key, m) {
      RepeatedOpen(rows, key, i, n, m);
    }
  }

  lemma NoOwnerWithout(rows: Rows, key: string, r: OwnerResult)
    requires key in rows && WalkMeans(rows, key, r) && !r.Owner?
    requires key !in Retained(rows) && !(rows[key].canonical.Some? && rows[key].canonical.value in Retained(rows))
    ensures forall o :: !IsOwner(rows, key, o)
  {
    forall o ensures !HasNearest(rows, key, o) {
      forall m: nat ensures !Nearest(rows, key, m, o) {
        match r
        case ParentCycle => assert Open(rows, key, m + 1);
        case MissingRow(missing) =>
          var n: nat :| n >= 1 && Open(rows, key, n) && Up(rows, key, n) == Some(missing);
          NotNearest(rows, key, n, m, o);
        case NoOwner =>
          var n: nat :| n >= 1 && Open(rows, key, n) && Up(rows, key, n) == None;
          NotNearest(rows, key, n, m, o);
      }
    }
  }

  lemma NotNearest(rows: Rows, key: string, n: nat, m: nat, o: string)
    requires n >= 1 && Open(rows, key, n) && (Up(rows, key, n).None? || Up(rows, key, n).value !in rows)
    ensures !Nearest(rows, key, m, o)
  {
  }

  // ----- what consolidation must produce -----

  /** Every row has its owner. */
  ghost predicate OwnersOk(rows: Rows, owners: map<string, string>) {
    owners.Keys == rows.Keys && forall k | k in rows :: IsOwner(rows, k, owners[k])
  }

  ghost function Owned(owners: map<string, string>, a: string): set<string> {
    set x | x in owners && owners[x] == a
  }

  /** Some row in s needs a row owned by b, and b is not a itself. */
  ghost predicate NeedsWithin(rows: Rows, owners: map<string, string>, a: string, s: set<string>, b: string) {
    b != a && exists x, y :: x in s && x in rows && y in rows[x].needs && y in owners && owners[y] == b
  }

  ghost predicate OffersWithin(rows: Rows, s: set<string>, c: string) {
    exists x :: x in s && x in rows && c in rows[x].offers
  }

  ghost predicate NeedsOk(rows: Rows, owners: map<string, string>, a: string, s: set<string>, list: seq<string>) {
    NoDuplicates(list) && forall b :: b in list <==> NeedsWithin(rows, owners, a, s, b)
  }

  /** The row's own capabilities with their multiplicity, and each further one of s once. */
  ghost predicate OffersOk(rows: Rows, a: string, s: set<string>, list: seq<string>)
    requires a in rows
  {
    forall c :: multiset(list)[c] ==
      if c in rows[a].offers then multiset(rows[a].offers)[c] else if OffersWithin(rows, s, c) then 1 else 0
  }

  ghost predicate ComponentsOk(rows: Rows, a: string, s: set<string>, list: seq<string>)
    requires a in rows
  {
    forall c :: c in list <==> c in rows[a].components || (c in s && c != a)
  }

  function NewParent(rows: Rows, owners: map<string, string>, a: string): Option<string>
    requires a in rows
  {
    var p := rows[a].parent;
    if p.Some? && p.value !in Retained(rows) && p.value in owners then Some(owners[p.value]) else p
  }

  /** The consolidated row of a retained key: dependencies, capabilities and components of everything it owns. */
  ghost predicate RowOk(rows: Rows, owners: map<string, string>, a: string, row: Row)
    requires a in rows
  {
    var s := Owned(owners, a);
    && row.kind == rows[a].kind && row.canonical == rows[a].canonical && row.rest == rows[a].rest
    && row.parent == NewParent(rows, owners, a)
    && Sorted(LeqString, row.needs) && NeedsOk(rows, owners, a, s, row.needs)
    && Sorted(LeqString, row.offers) && OffersOk(rows, a, s, row.offers)
    && Sorted(LeqString, row.components) && NoDuplicates(row.components) && ComponentsOk(rows, a, s, row.components)
  }

  datatype Doc = Doc(system: string, row: Row)

  /** Every key lands in exactly one output: retained keys in the registry, the others as documented components. */
  ghost predicate Consolidated(rows: Rows, owners: map<string, string>, registry: Rows, docs: map<string, Doc>) {
    && OwnersOk(rows, owners)
    && registry.Keys == Retained(rows) && docs.Keys == rows.Keys - Retained(rows)
    && (forall a | a in registry :: RowOk(rows, owners, a, registry[a]))
    && (forall k | k in docs :: docs[k] == Doc(owners[k], rows[k]))
  }

  /** Consolidation succeeds exactly on these registries. */
  ghost predicate Consolidable(rows: Rows) {
    && (forall k | k in rows :: HasOwner(rows, k))
    && (forall k, d | k in rows && d in rows[k].needs :: d in rows)
    && (forall k | k in Retained(rows) && rows[k].parent.Some? :: rows[k].parent.value in rows)
  }

  ghost predicate HasOwner(rows: Rows, k: string) {
    exists o :: IsOwner(rows, k, o)
  }

  datatype Failure = Unowned(key: string, why: OwnerResult) | MissingDependency(key: string) | MissingParent(key: string)
  datatype Outcome = Written(registry: Rows, docs: map<string, Doc>) | Failed(failure: Failure)

  // ----- `consolidate` -----

  method CollectOwners(rows: Rows, retained: set<string>) returns (failure: Option<Failure>, owners: map<string, string>)
    requires retained == Retained(rows)
    ensures failure.None? ==> OwnersOk(rows, owners)
    ensures failure.Some? ==> exists k :: k in rows && !HasOwner(rows, k)
  {
    hide IsOwner, WalkMeans, Retained;
    owners := map[];
    var todo := rows.Keys;
    while todo != {}
      invariant todo <= rows.Keys && owners.Keys == rows.Keys - todo
      invariant forall k | k in owners :: IsOwner(rows, k, owners[k])
    {
      var key :| key in todo;
      var found := FindOwner(key, rows, retained);
      if !found.Owner? {
        return Some(Unowned(key, found)), owners;
      }
      owners := owners[key := found.owner];
      todo := todo - {key};
    }
    failure := None;
  }

  /** Adds the owner of each dependency, except the key itself and those already listed. */
  method AddTargets(key: string, list: seq<string>, needs: seq<string>, owners: map<string, string>, retained: set<string>)
    returns (list': seq<string>, missing: Option<string>)
    requires NoDuplicates(list) && forall k | k in retained :: k in owners && owners[k] == k
    ensures missing.Some? ==> missing.value in needs && missing.value !in owners
    ensures missing.None? ==> NoDuplicates(list') && (forall d | d in needs :: d in owners)
    ensures missing.None? ==> forall b :: b in list' <==> b in list || (b != key && exists d :: d in needs && d in owners && owners[d] == b)
  {
    list' := list;
    for i := 0 to |needs|
      invariant NoDuplicates(list') && forall d | d in needs[..i] :: d in owners
      invariant forall b :: b in list' <==> b in list || (b != key && exists d :: d in needs[..i] && d in owners && owners[d] == b)
    {
      var dependency := needs[i];
      assert needs[..i + 1] == needs[..i] + [dependency];
      if dependency !in retained && dependency !in owners {
        return list', Some(dependency);
      }
      var target := if dependency in retained then dependency else owners[dependency];
      if target != key && target !in list' {
        list' := list' + [target];
      }
    }
    assert needs[..|needs|] == needs;
    missing := None;
  }

  /** Appends the capabilities that are not listed yet. */
  method AddOffers(list: seq<string>, offers: seq<string>) returns (list': seq<string>)
    ensures forall c :: multiset(list')[c] == if c in list then multiset(list)[c] else if c in offers then 1 else 0
  {
    list' := list;
    for i := 0 to |offers|
      invariant forall c :: multiset(list')[c] == if c in list then multiset(list)[c] else if c in offers[..i] then 1 else 0
    {
      assert offers[..i + 1] == offers[..i] + [offers[i]];
      assert offers[i] in list' <==> multiset(list')[offers[i]] > 0;
      assert offers[i] in list <==> multiset(list)[offers[i]] > 0;
      if offers[i] !in list' {
        list' := list' + [offers[i]];
      }
    }
    assert offers[..|offers|] == offers;
  }

  lemma NeedsGrow(rows: Rows, owners: map<string, string>, a: string, s: set<string>, x: string, list: seq<string>, list': seq<string>)
    requires x in rows && NeedsOk(rows, owners, a, s, list) && NoDuplicates(list')
    requires forall b :: b in list' <==> b in list || (b != a && exists d :: d in rows[x].needs && d in owners && owners[d] == b)
    ensures NeedsOk(rows, owners, a, s + {x}, list')
  {
    forall b ensures b in list' <==> NeedsWithin(rows, owners, a, s + {x}, b) {
      if NeedsWithin(rows, owners, a, s + {x}, b) {
        var z, y :| z in s + {x} && z in rows && y in rows[z].needs && y in owners && owners[y] == b;
        if z != x { assert NeedsWithin(rows, owners, a, s, b); }
      }
      if b in list' {
        if b in list {
          assert NeedsWithin(rows, owners, a, s, b);
          var z, y :| z in s && z in rows && y in rows[z].needs && y in owners && owners[y] == b;
          assert z in s + {x};
        } else {
          var d :| d in rows[x].needs && d in owners && owners[d] == b;
          assert x in s + {x};
        }
      }
    }
  }

  lemma OffersGrow(rows: Rows, a: string, s: set<string>, x: string, list: seq<string>, list': seq<string>)
    requires a in rows && x in rows && OffersOk(rows, a, s, list)
    requires forall c :: multiset(list')[c] == if c in list then multiset(list)[c] else if c in rows[x].offers then 1 else 0
    ensures OffersOk(rows, a, s + {x}, list')
  {
    forall c ensures multiset(list')[c] ==
        if c in rows[a].offers then multiset(rows[a].offers)[c] else if OffersWithin(rows, s + {x}, c) then 1 else 0
    {
      assert c in list <==> multiset(list)[c] > 0;
      assert c in rows[a].offers <==> multiset(rows[a].offers)[c] > 0;
      if c in rows[x].offers { assert x in s + {x}; }
      if OffersWithin(rows, s, c) {
        var z :| z in s && z in rows && c in rows[z].offers;
        assert z in s + {x};
      }
      if OffersWithin(rows, s + {x}, c) && c !in rows[x].offers {
        var z :| z in s + {x} && z in rows && c in rows[z].offers;
        assert z in s;
      }
    }
  }

  lemma OwnOffers(rows: Rows, a: string)
    requires a in rows
    ensures OffersOk(rows, a, {a}, rows[a].offers)
  {
    forall c ensures multiset(rows[a].offers)[c] ==
        if c in rows[a].offers then multiset(rows[a].offers)[c] else if OffersWithin(rows, {a}, c) then 1 else 0
    {
      assert c in rows[a].offers <==> multiset(rows[a].offers)[c] > 0;
    }
  }

  lemma NothingNeeded(rows: Rows, owners: map<string, string>, a: string)
    ensures NeedsOk(rows, owners, a, {}, [])
  {
  }

  lemma RetainedOwnThemselves(rows: Rows, owners: map<string, string>)
    requires OwnersOk(rows, owners)
    ensures forall k | k in Retained(rows) :: k in owners && owners[k] == k
  {
    forall k | k in Retained(rows) ensures k in owners && owners[k] == k {
      assert IsOwner(rows, k, owners[k]);
    }
  }

  lemma FinishRow(rows: Rows, owners: map<string, string>, a: string, s: set<string>, needs: seq<string>, offers: seq<string>,
                  components: seq<string>, sortedComponents: seq<string>, row: Row)
    requires a in rows && s == Owned(owners, a)
    requires NeedsOk(rows, owners, a, s, needs) && OffersOk(rows, a, s, offers) && ComponentsOk(rows, a, s, components)
    requires Sorted(LeqString, sortedComponents) && NoDuplicates(sortedComponents)
    requires forall c :: c in sortedComponents <==> c in components
    requires row == rows[a].(parent := NewParent(rows, owners, a), needs := Sort(LeqString, needs),
                             offers := Sort(LeqString, offers), components := sortedComponents)
    ensures RowOk(rows, owners, a, row)
  {
    hide NeedsOk, OffersOk, Sort, Sorted, NoDuplicates;
    SortedLists(rows, owners, a, s, needs, offers);
  }

  lemma SortedLists(rows: Rows, owners: map<string, string>, a: string, s: set<string>, needs: seq<string>, offers: seq<string>)
    requires a in rows && NeedsOk(rows, owners, a, s, needs) && OffersOk(rows, a, s, offers)
    ensures Sorted(LeqString, Sort(LeqString, needs)) && NeedsOk(rows, owners, a, s, Sort(LeqString, needs))
    ensures Sorted(LeqString, Sort(LeqString, offers)) && OffersOk(rows, a, s, Sort(LeqString, offers))
  {
    hide NeedsWithin, OffersWithin, Sort, Sorted;
    StringOrderWeak();
    SortSorts(LeqString, needs);
    SortSorts(LeqString, offers);
    SortElements(LeqString, needs);
    SortNoDuplicates(LeqString, needs);
    assert multiset(Sort(LeqString, offers)) == multiset(offers);
  }

  lemma StringOrderWeak()
    ensures TotalPreorder(LeqString)
  {
    StringOrder();
  }

  /** One retained row of the result. */
  method ConsolidateRow(key: string, rows: Rows, retained: set<string>, owners: map<string, string>)
    returns (row: Row, failure: Option<Failure>)
    requires retained == Retained(rows) && OwnersOk(rows, owners) && key in retained
    ensures failure.None? ==> RowOk(rows, owners, key, row)
    ensures failure.None? ==> rows[key].parent.Some? ==> rows[key].parent.value in rows
    ensures failure.None? ==> forall x, d | x in Owned(owners, key) && x in rows && d in rows[x].needs :: d in rows
    ensures failure.Some? ==> !Consolidable(rows)
  {
    hide NeedsOk, OffersOk, RowOk, IsOwner, Sort, NoDuplicates;
    RetainedOwnThemselves(rows, owners);
    row := rows[key];
    var parent := row.parent;
    if parent.Some? && parent.value !in retained {
      if parent.value !in owners {
        return row, Some(MissingParent(parent.value));
      }
      row := row.(parent := Some(owners[parent.value]));
    }
    assert row.parent == NewParent(rows, owners, key);
    NothingNeeded(rows, owners, key);
    EmptyDistinct();
    var needs, missing := AddTargets(key, [], row.needs, owners, retained);
    if missing.Some? {
      return row, Some(MissingDependency(missing.value));
    }
    NeedsGrow(rows, owners, key, {}, key, [], needs);
    assert {} + {key} == {key};
    OwnOffers(rows, key);
    var offers, components := row.offers, row.components;
    ghost var done := {key};
    var todo := owners.Keys;
    while todo != {}
      invariant todo <= owners.Keys && key in done
      invariant forall x :: x in done <==> x == key || (x in owners && x !in todo && x !in retained && owners[x] == key)
      invariant NoDuplicates(needs) && NeedsOk(rows, owners, key, done, needs)
      invariant OffersOk(rows, key, done, offers) && ComponentsOk(rows, key, done, components)
      invariant forall x, d | x in done && x in rows && d in rows[x].needs :: d in rows
    {
      var component :| component in todo;
      todo := todo - {component};
      if component in retained || owners[component] != key {
        continue;
      }
      if component !in components {
        components := components + [component];
      }
      var more, gone := AddTargets(key, needs, rows[component].needs, owners, retained);
      if gone.Some? {
        return row, Some(MissingDependency(gone.value));
      }
      NeedsGrow(rows, owners, key, done, component, needs, more);
      var offered := AddOffers(offers, rows[component].offers);
      OffersGrow(rows, key, done, component, offers, offered);
      needs, offers, done := more, offered, done + {component};
    }
    assert done == Owned(owners, key);
    var listed := SortedSet(set c | c in components);
    row := row.(needs := Sort(LeqString, needs), offers := Sort(LeqString, offers), components := listed);
    FinishRow(rows, owners, key, done, needs, offers, components, listed, row);
    failure := None;
  }

  lemma EmptyDistinct()
    ensures NoDuplicates<string>([])
  {
  }

  /** `consolidate`, from the registry file to the two files it writes. */
  method Consolidate(file: Rows) returns (r: Outcome, ghost owners: map<string, string>)
    ensures r.Written? <==> Consolidable(Load(file))
    ensures r.Written? ==> Consolidated(Load(file), owners, r.registry, r.docs)
  {
    hide RowOk, IsOwner, Consolidable;
    var rows := Load(file);
    var retained := Retained(rows);
    var failure, owned := CollectOwners(rows, retained);
    owners := owned;
    if failure.Some? {
      UnownedFails(rows);
      return Failed(failure.value), owners;
    }
    RetainedOwnThemselves(rows, owned);
    var docs: map<string, Doc> := map k | k in rows && k !in retained :: Doc(owned[k], rows[k]);
    var registry: Rows := map[];
    var todo := retained;
    while todo != {}
      invariant todo <= retained && registry.Keys == retained - todo
      invariant forall a | a in registry :: RowOk(rows, owned, a, registry[a])
      invariant forall a | a in registry && rows[a].parent.Some? :: rows[a].parent.value in rows
      invariant forall a, x, d | a in registry && x in Owned(owned, a) && x in rows && d in rows[x].needs :: d in rows
    {
      var key :| key in todo;
      var row, failed := ConsolidateRow(key, rows, retained, owned);
      if failed.Some? {
        return Failed(failed.value), owners;
      }
      registry := registry[key := row];
      todo := todo - {key};
    }
    Succeeds(rows, owned);
    r := Written(registry, docs);
  }

  lemma UnownedFails(rows: Rows)
    requires exists k :: k in rows && !HasOwner(rows, k)
    ensures !Consolidable(rows)
  {
  }

  lemma Succeeds(rows: Rows, owners: map<string, string>)
    requires OwnersOk(rows, owners)
    requires forall a | a in Retained(rows) && rows[a].parent.Some? :: rows[a].parent.value in rows
    requires forall a, x, d | a in Retained(rows) && x in Owned(owners, a) && x in rows && d in rows[x].needs :: d in rows
    ensures Consolidable(rows)
  {
    forall k | k in rows ensures HasOwner(rows, k) && owners[k] in Retained(rows) && k in Owned(owners, owners[k]) {
      assert IsOwner(rows, k, owners[k]);
      OwnerUnique(rows, k, owners[k], owners[k]);
    }
  }

  // ----- consolidation is the exact quotient of the dependency graph -----

  ghost function NeedsGraph(rows: Rows): map<string, set<string>> {
    map k | k in rows :: Elements(rows[k].needs)
  }

  /** The original dependencies, with free moves between rows of the same owner. */
  ghost function MergedGraph(rows: Rows, owners: map<string, string>): map<string, set<string>>
    requires owners.Keys == rows.Keys
  {
    map k | k in rows :: Elements(rows[k].needs) + Owned(owners, owners[k])
  }

  /** Which file a row goes to: roots, authorities and providers stay in the registry, every other row becomes a documented component. */
  lemma WhereRowsGo(file: Rows, owners: map<string, string>, registry: Rows, docs: map<string, Doc>, k: string)
    requires Consolidated(Load(file), owners, registry, docs) && k in file
    ensures k in registry <==> file[k].parent.None? || file[k].kind == "authority" || file[k].kind == "provider"
    ensures k in docs <==> k !in registry
    ensures k in docs ==> docs[k].row.kind == file[k].kind && docs[k].row.needs == file[k].needs && docs[k].row.offers == file[k].offers
  {
    hide RowOk, IsOwner;
  }

  /** a requires b in the result exactly when, a and b being different, something a owns required something b owns. */
  lemma QuotientEdge(rows: Rows, owners: map<string, string>, registry: Rows, docs: map<string, Doc>, a: string, b: string)
    requires Consolidated(rows, owners, registry, docs) && a in registry
    ensures b in registry[a].needs <==>
      a != b && exists x, y :: x in rows && y in rows && owners[x] == a && owners[y] == b && y in rows[x].needs
  {
    hide OffersOk, ComponentsOk, IsOwner;
    assert RowOk(rows, owners, a, registry[a]);
    if b in registry[a].needs {
      assert NeedsWithin(rows, owners, a, Owned(owners, a), b);
    }
    if a != b && exists x, y :: x in rows && y in rows && owners[x] == a && owners[y] == b && y in rows[x].needs {
      var x, y :| x in rows && y in rows && owners[x] == a && owners[y] == b && y in rows[x].needs;
      assert x in Owned(owners, a);
      assert NeedsWithin(rows, owners, a, Owned(owners, a), b);
    }
  }

  lemma OwnersAreKeys(rows: Rows, owners: map<string, string>, registry: Rows, docs: map<string, Doc>, x: string)
    requires Consolidated(rows, owners, registry, docs) && x in rows
    ensures owners[x] in registry
  {
    assert IsOwner(rows, x, owners[x]);
    OwnerUnique(rows, x, owners[x], owners[x]);
  }

  ghost predicate NeedsKnown(rows: Rows) {
    forall k, d | k in rows && d in rows[k].needs :: d in rows
  }

  lemma {:induction false} PathDown(rows: Rows, owners: map<string, string>, registry: Rows, docs: map<string, Doc>, p: seq<string>)
    requires Consolidated(rows, owners, registry, docs) && NeedsKnown(rows)
    requires IsPath(MergedGraph(rows, owners), p) && p[0] in rows
    ensures p[|p| - 1] in rows && Reach(NeedsGraph(registry), owners[p[0]], owners[p[|p| - 1]])
  {
    hide Consolidated;
    assert OwnersOk(rows, owners) by { ConsolidatedFacts(rows, owners, registry, docs); }
    if |p| == 1 {
      ReachSelf(NeedsGraph(registry), owners[p[0]]);
    } else {
      assert p[1] in Succ(MergedGraph(rows, owners), p[0]);
      PathDown(rows, owners, registry, docs, p[1..]);
      var a, b, c := owners[p[0]], owners[p[1]], owners[p[|p| - 1]];
      if a != b {
        assert p[1] in rows[p[0]].needs;
        OwnersAreKeys(rows, owners, registry, docs, p[0]);
        QuotientEdge(rows, owners, registry, docs, a, b);
        ReachEdge(NeedsGraph(registry), a, b);
        ReachTrans(NeedsGraph(registry), a, b, c);
      }
    }
  }

  lemma ConsolidatedFacts(rows: Rows, owners: map<string, string>, registry: Rows, docs: map<string, Doc>)
    requires Consolidated(rows, owners, registry, docs)
    ensures OwnersOk(rows, owners) && registry.Keys == Retained(rows)
  {
  }

  lemma {:induction false} PathUp(rows: Rows, owners: map<string, string>, registry: Rows, docs: map<string, Doc>, p: seq<string>, x: string, y: string)
    requires Consolidated(rows, owners, registry, docs) && x in rows && y in rows
    requires IsPath(NeedsGraph(registry), p) && p[0] == owners[x] && p[|p| - 1] == owners[y]
    ensures Reach(MergedGraph(rows, owners), x, y)
  {
    hide Consolidated;
    assert OwnersOk(rows, owners) by { ConsolidatedFacts(rows, owners, registry, docs); }
    var m := MergedGraph(rows, owners);
    if |p| == 1 {
      assert y in Succ(m, x);
      ReachEdge(m, x, y);
    } else {
      var a, b := p[0], p[1];
      assert b in Succ(NeedsGraph(registry), a);
      QuotientEdge(rows, owners, registry, docs, a, b);
      var z, w :| z in rows && w in rows && owners[z] == a && owners[w] == b && w in rows[z].needs;
      PathUp(rows, owners, registry, docs, p[1..], w, y);
      assert z in Succ(m, x) && w in Succ(m, z);
      ReachEdge(m, x, z);
      ReachEdge(m, z, w);
      ReachTrans(m, x, z, w);
      ReachTrans(m, x, w, y);
    }
  }

  /** Reachability in the result is exactly reachability in the original graph with each owner's rows merged. */
  lemma QuotientReach(rows: Rows, owners: map<string, string>, registry: Rows, docs: map<string, Doc>, x: string, y: string)
    requires Consolidated(rows, owners, registry, docs) && NeedsKnown(rows) && x in rows && y in rows
    ensures Reach(MergedGraph(rows, owners), x, y) <==> Reach(NeedsGraph(registry), owners[x], owners[y])
  {
    hide Consolidated;
    ConsolidatedFacts(rows, owners, registry, docs);
    if Reach(MergedGraph(rows, owners), x, y) {
      var p :| IsPath(MergedGraph(rows, owners), p) && p[0] == x && p[|p| - 1] == y;
      PathDown(rows, owners, registry, docs, p);
    }
    if Reach(NeedsGraph(registry), owners[x], owners[y]) {
      var p :| IsPath(NeedsGraph(registry), p) && p[0] == owners[x] && p[|p| - 1] == owners[y];
      PathUp(rows, owners, registry, docs, p, x, y);
    }
  }

  /** In particular every original dependency path survives between the owners. */
  lemma ReachSurvives(rows: Rows, owners: map<string, string>, registry: Rows, docs: map<string, Doc>, x: string, y: string)
    requires Consolidated(rows, owners, registry, docs) && NeedsKnown(rows) && x in rows
    requires Reach(NeedsGraph(rows), x, y)
    ensures y in rows && Reach(NeedsGraph(registry), owners[x], owners[y])
  {
    hide Consolidated;
    ConsolidatedFacts(rows, owners, registry, docs);
    var p :| IsPath(NeedsGraph(rows), p) && p[0] == x && p[|p| - 1] == y;
    var m := MergedGraph(rows, owners);
    forall i, j | 0 <= i < j < |p| && j == i + 1 ensures p[j] in Succ(m, p[i]) {
      assert p[j] in Succ(NeedsGraph(rows), p[i]);
    }
    PathDown(rows, owners, registry, docs, p);
  }

  /** Capabilities are conserved per owner. */
  lemma OffersConserved(rows: Rows, owners: map<string, string>, registry: Rows, docs: map<string, Doc>, a: string, c: string)
    requires Consolidated(rows, owners, registry, docs) && a in registry
    ensures c in registry[a].offers <==> exists x :: x in rows && owners[x] == a && c in rows[x].offers
  {
    hide NeedsOk, ComponentsOk, IsOwner;
    assert RowOk(rows, owners, a, registry[a]);
    RetainedOwnThemselves(rows, owners);
    assert c in registry[a].offers <==> multiset(registry[a].offers)[c] > 0;
    assert c in rows[a].offers <==> multiset(rows[a].offers)[c] > 0;
    if x :| x in rows && owners[x] == a && c in rows[x].offers {
      assert x in Owned(owners, a);
      assert OffersWithin(rows, Owned(owners, a), c);
    }
    if OffersWithin(rows, Owned(owners, a), c) {
      var x :| x in Owned(owners, a) && x in rows && c in rows[x].offers;
      assert x in rows && owners[x] == a;
    }
  }

  // ----- running it again -----

  /** No row's parent holds a dot, so that loading the file changes nothing. */
  ghost predicate DotFree(rows: Rows) {
    forall k | k in rows && rows[k].parent.Some? :: '.' !in rows[k].parent.value
  }

  lemma SlashedSame(s: string)
    ensures Slashed(s) == s <==> '.' !in s
  {
    if '.' in s {
      var i :| 0 <= i < |s| && s[i] == '.';
      assert Slashed(s)[i] != s[i];
    }
  }

  lemma LoadSame(rows: Rows)
    requires DotFree(rows)
    ensures Load(rows) == rows
  {
    forall k | k in rows ensures Load(rows)[k] == rows[k] {
      if rows[k].parent.Some? { SlashedSame(rows[k].parent.value); }
    }
  }

  /** A consolidated registry: all rows retained, all references inside, all lists sorted. */
  ghost predicate Settled(rows: Rows) {
    && Retained(rows) == rows.Keys && NeedsKnown(rows)
    && (forall k | k in rows && rows[k].parent.Some? :: rows[k].parent.value in rows)
    && (forall k | k in rows :: Sorted(LeqString, rows[k].needs) && NoDuplicates(rows[k].needs) && k !in rows[k].needs)
    && (forall k | k in rows :: Sorted(LeqString, rows[k].offers))
    && (forall k | k in rows :: Sorted(LeqString, rows[k].components) && NoDuplicates(rows[k].components))
  }

  lemma NewParentRetained(rows: Rows, owners: map<string, string>, a: string)
    requires OwnersOk(rows, owners) && Consolidable(rows) && a in Retained(rows)
    ensures var p := NewParent(rows, owners, a); (p.Some? <==> rows[a].parent.Some?) && (p.Some? ==> p.value in Retained(rows))
  {
    var p := rows[a].parent;
    if p.Some? && p.value !in Retained(rows) {
      assert IsOwner(rows, p.value, owners[p.value]);
      OwnerUnique(rows, p.value, owners[p.value], owners[p.value]);
    }
  }

  lemma ResultSettled(rows: Rows, owners: map<string, string>, registry: Rows, docs: map<string, Doc>)
    requires Consolidated(rows, owners, registry, docs) && Consolidable(rows)
    ensures Settled(registry)
  {
    forall a | a in registry
      ensures Retains(registry[a]) && a !in registry[a].needs
      ensures registry[a].parent.Some? ==> registry[a].parent.value in registry
      ensures forall d | d in registry[a].needs :: d in registry
      ensures Sorted(LeqString, registry[a].needs) && NoDuplicates(registry[a].needs) && Sorted(LeqString, registry[a].offers)
      ensures Sorted(LeqString, registry[a].components) && NoDuplicates(registry[a].components)
    {
      hide OffersOk, ComponentsOk, IsOwner, Consolidable, NeedsWithin, Sorted, NoDuplicates;
      assert RowOk(rows, owners, a, registry[a]);
      NewParentRetained(rows, owners, a);
      forall d | d in registry[a].needs ensures d in registry && d != a {
        QuotientEdge(rows, owners, registry, docs, a, d);
        var x, y :| x in rows && y in rows && owners[x] == a && owners[y] == d && y in rows[x].needs;
        OwnersAreKeys(rows, owners, registry, docs, y);
      }
    }
  }

  lemma SettledOwners(rows: Rows, owners: map<string, string>)
    requires Settled(rows) && OwnersOk(rows, owners)
    ensures forall k | k in rows :: owners[k] == k && Owned(owners, k) == {k}
  {
    RetainedOwnThemselves(rows, owners);
  }

  lemma SettledRow(rows: Rows, owners: map<string, string>, a: string, row: Row)
    requires Settled(rows) && OwnersOk(rows, owners) && a in rows && RowOk(rows, owners, a, row)
    ensures row == rows[a]
  {
    SettledOwners(rows, owners);
    StringOrder();
    assert row.parent == rows[a].parent;
    SameNeeds(rows, owners, a, row.needs);
    SameOffers(rows, a, row.offers);
    SortedSetUnique(LeqString, row.components, rows[a].components);
  }

  lemma SameNeeds(rows: Rows, owners: map<string, string>, a: string, needs: seq<string>)
    requires Settled(rows) && owners.Keys == rows.Keys && (forall k | k in rows :: owners[k] == k) && a in rows
    requires Sorted(LeqString, needs) && NeedsOk(rows, owners, a, {a}, needs)
    ensures needs == rows[a].needs
  {
    forall b ensures b in needs <==> b in rows[a].needs {
      if b in rows[a].needs {
        assert a in {a} && b in owners && owners[b] == b;
        assert NeedsWithin(rows, owners, a, {a}, b);
      }
      if b in needs { assert NeedsWithin(rows, owners, a, {a}, b); }
    }
    StringOrder();
    SortedSetUnique(LeqString, needs, rows[a].needs);
  }

  lemma SameOffers(rows: Rows, a: string, offers: seq<string>)
    requires Settled(rows) && a in rows && Sorted(LeqString, offers) && OffersOk(rows, a, {a}, offers)
    ensures offers == rows[a].offers
  {
    forall c ensures multiset(offers)[c] == multiset(rows[a].offers)[c] {
      assert c in rows[a].offers <==> multiset(rows[a].offers)[c] > 0;
    }
    assert multiset(offers) == multiset(rows[a].offers);
    StringOrder();
    SortedUnique(LeqString, offers, rows[a].offers);
  }

  /** A second run on settled rows succeeds and gives them back, with nothing left to document. */
  lemma SettledAgain(rows: Rows, owners: map<string, string>, registry: Rows, docs: map<string, Doc>)
    requires Settled(rows)
    ensures Consolidable(rows)
    ensures Consolidated(rows, owners, registry, docs) ==> registry == rows && docs == map[]
  {
    forall k | k in rows ensures HasOwner(rows, k) {
      assert IsOwner(rows, k, k);
    }
    if Consolidated(rows, owners, registry, docs) {
      forall a | a in rows ensures registry[a] == rows[a] {
        SettledRow(rows, owners, a, registry[a]);
      }
    }
  }

  /** Running consolidation on its own output leaves the registry alone exactly when no output parent holds a dot: loading turns such
      a parent into a different key. It leaves both files alone exactly when, in addition, there was no component to document: a
      second run finds none and documents none. */
  lemma RunAgain(rows: Rows, owners: map<string, string>, registry: Rows, docs: map<string, Doc>,
                 owners2: map<string, string>, registry2: Rows, docs2: map<string, Doc>)
    requires Consolidated(rows, owners, registry, docs) && Consolidable(rows)
    requires Consolidable(Load(registry)) ==> Consolidated(Load(registry), owners2, registry2, docs2)
    ensures Consolidable(Load(registry)) && registry2 == registry <==> DotFree(registry)
    ensures Consolidable(Load(registry)) && registry2 == registry && docs2 == docs <==> DotFree(registry) && docs == map[]
  {
    hide Consolidated, Consolidable;
    ResultSettled(rows, owners, registry, docs);
    if DotFree(registry) {
      LoadSame(registry);
      SettledAgain(registry, owners2, registry2, docs2);
    } else if Consolidable(Load(registry)) {
      DottedChanges(registry, owners2, registry2, docs2);
    }
  }

  /** No unretained parent of a retained row has a retained canonical authority with a dot in its key. */
  ghost predicate PlainCanonicals(rows: Rows) {
    forall b | b in Retained(rows) && rows[b].parent.Some? && rows[b].parent.value in rows && rows[b].parent.value !in Retained(rows) ::
      var canonical := rows[rows[b].parent.value].canonical;
      canonical.Some? && canonical.value in Retained(rows) ==> '.' !in canonical.value
  }

  lemma LoadedAncestors(file: Rows, k: string, n: nat)
    requires n >= 1 && Up(Load(file), k, n).Some?
    ensures '.' !in Up(Load(file), k, n).value
  {
    var x := Up(Load(file), k, n - 1).value;
    assert Load(file)[x].parent == Some(Slashed(file[x].parent.value));
  }

  /** Loading has removed the dots from all parents, so only a canonical authority can bring one back. */
  lemma DotsFromCanonicals(file: Rows, owners: map<string, string>, registry: Rows, docs: map<string, Doc>)
    requires Consolidated(Load(file), owners, registry, docs) && Consolidable(Load(file))
    ensures DotFree(registry) <==> PlainCanonicals(Load(file))
  {
    var rows := Load(file);
    forall b | b in registry && rows[b].parent.Some?
      ensures registry[b].parent.Some?
      ensures var p := rows[b].parent.value;
        if p in Retained(rows) || !(rows[p].canonical.Some? && rows[p].canonical.value in Retained(rows))
        then '.' !in registry[b].parent.value
        else registry[b].parent == rows[p].canonical
    {
      hide NeedsOk, OffersOk, ComponentsOk;
      var p := rows[b].parent.value;
      assert p in rows && RowOk(rows, owners, b, registry[b]);
      if p in Retained(rows) {
        assert rows[b].parent == Some(Slashed(file[b].parent.value));
      } else {
        assert IsOwner(rows, p, owners[p]);
        if !(rows[p].canonical.Some? && rows[p].canonical.value in Retained(rows)) {
          var n: nat :| Nearest(rows, p, n, owners[p]);
          LoadedAncestors(file, p, n);
        }
      }
    }
    forall b | b in registry && registry[b].parent.Some? ensures rows[b].parent.Some? {
      NewParentRetained(rows, owners, b);
      assert RowOk(rows, owners, b, registry[b]);
    }
    if !PlainCanonicals(rows) {
      var b :| b in Retained(rows) && rows[b].parent.Some? && rows[b].parent.value in rows && rows[b].parent.value !in Retained(rows)
        && var canonical := rows[rows[b].parent.value].canonical;
           canonical.Some? && canonical.value in Retained(rows) && '.' in canonical.value;
      assert b in registry;
    }
  }

  /** For every registry file that consolidates: a second run leaves the result unchanged exactly when no unretained parent of a
      retained row has a retained canonical authority with a dot in its key; and it leaves the components file unchanged, too, exactly
      when moreover every row was retained already. */
  lemma RunAgainIff(file: Rows, owners: map<string, string>, registry: Rows, docs: map<string, Doc>,
                    owners2: map<string, string>, registry2: Rows, docs2: map<string, Doc>)
    requires Consolidated(Load(file), owners, registry, docs) && Consolidable(Load(file))
    requires Consolidable(Load(registry)) ==> Consolidated(Load(registry), owners2, registry2, docs2)
    ensures Consolidable(Load(registry)) && registry2 == registry <==> PlainCanonicals(Load(file))
    ensures Consolidable(Load(registry)) && registry2 == registry && docs2 == docs <==>
            PlainCanonicals(Load(file)) && Retained(Load(file)) == Load(file).Keys
  {
    hide Consolidated, Consolidable, DotFree, PlainCanonicals;
    NothingDocumented(Load(file), owners, registry, docs);
    DotsFromCanonicals(file, owners, registry, docs);
    RunAgain(Load(file), owners, registry, docs, owners2, registry2, docs2);
  }

  lemma NothingDocumented(rows: Rows, owners: map<string, string>, registry: Rows, docs: map<string, Doc>)
    requires Consolidated(rows, owners, registry, docs)
    ensures docs == map[] <==> Retained(rows) == rows.Keys
  {
    hide RowOk, IsOwner;
    if Retained(rows) == rows.Keys { assert docs.Keys == {}; }
    if docs == map[] {
      forall k | k in rows ensures k in Retained(rows) { assert k !in docs; }
    }
  }

  /** One system with one component. */
  const OWNED: Rows := map[
    "a" := Row(None, "system", None, [], [], [], ""),
    "x" := Row(Some("a"), "component", None, [], [], [], "")]

  /** The second run leaves this registry alone and yet loses its documented component. */
  lemma SecondRunForgets(owners: map<string, string>, registry: Rows, docs: map<string, Doc>,
                         owners2: map<string, string>, registry2: Rows, docs2: map<string, Doc>)
    requires Consolidated(Load(OWNED), owners, registry, docs)
    requires Consolidable(Load(registry)) ==> Consolidated(Load(registry), owners2, registry2, docs2)
    ensures Consolidable(Load(OWNED)) && Consolidable(Load(registry)) && registry2 == registry && docs2 != docs
  {
    hide Consolidated;
    OwnedFacts();
    RunAgainIff(OWNED, owners, registry, docs, owners2, registry2, docs2);
  }

  lemma OwnedFacts()
    ensures Load(OWNED) == OWNED && Consolidable(OWNED) && PlainCanonicals(OWNED) && Retained(OWNED) != OWNED.Keys
  {
    var rows := OWNED;
    LoadSame(rows);
    assert "a" in Retained(rows) && "x" in rows.Keys && "x" !in Retained(rows);
    assert Up(rows, "x", 0) == Some("x");
    assert Up(rows, "x", 1) == Some("a");
    assert Nearest(rows, "x", 1, "a");
    assert IsOwner(rows, "a", "a") && IsOwner(rows, "x", "a");
  }

  /** The authority "c" under a component whose canonical authority is "a.b". */
  const DOTTED: Rows := map[
    "a" := Row(None, "system", None, [], [], [], ""),
    "a.b" := Row(None, "system", None, [], [], [], ""),
    "x" := Row(Some("a"), "component", Some("a.b"), [], [], [], ""),
    "c" := Row(Some("x"), "authority", None, [], [], [], "")]

  /** Consolidation accepts this registry, and a second run does not leave its result alone. */
  lemma DottedRunsDiffer(owners: map<string, string>, registry: Rows, docs: map<string, Doc>,
                         owners2: map<string, string>, registry2: Rows, docs2: map<string, Doc>)
    requires Consolidated(Load(DOTTED), owners, registry, docs)
    requires Consolidable(Load(registry)) ==> Consolidated(Load(registry), owners2, registry2, docs2)
    ensures Consolidable(Load(DOTTED)) && !(Consolidable(Load(registry)) && registry2 == registry)
  {
    hide Consolidated;
    DottedFacts();
    RunAgainIff(DOTTED, owners, registry, docs, owners2, registry2, docs2);
  }

  lemma DottedFacts()
    ensures Load(DOTTED) == DOTTED && Consolidable(DOTTED) && !PlainCanonicals(DOTTED)
  {
    var rows := DOTTED;
    LoadSame(rows);
    assert "a" in Retained(rows) && "a.b" in Retained(rows) && "c" in Retained(rows) && "x" !in Retained(rows);
    assert IsOwner(rows, "a", "a") && IsOwner(rows, "a.b", "a.b") && IsOwner(rows, "c", "c") && IsOwner(rows, "x", "a.b");
    assert "a.b"[1] == '.';
  }

  lemma DottedChanges(registry: Rows, owners2: map<string, string>, registry2: Rows, docs2: map<string, Doc>)
    requires Settled(registry) && !DotFree(registry)
    requires Consolidable(Load(registry)) && Consolidated(Load(registry), owners2, registry2, docs2)
    ensures registry2 != registry
  {
    var rows := Load(registry);
    var k :| k in registry && registry[k].parent.Some? && '.' in registry[k].parent.value;
    SlashedSame(registry[k].parent.value);
    var p := Slashed(registry[k].parent.value);
    forall x ensures x in rows <==> x in Retained(rows) {
      if x in registry { assert Retains(registry[x]); }
    }
    assert rows[k].parent == Some(p) && p in rows;
    assert RowOk(rows, owners2, k, registry2[k]);
    assert registry2[k].parent == Some(p);
  }

  // ----- ancestors -----

  ghost predicate Ancestor(rows: Rows, a: string, b: string) {
    exists n: nat :: n >= 1 && Up(rows, b, n) == Some(a)
  }

  /** Parents are rows and no row is its own ancestor. */
  ghost predicate Forest(rows: Rows) {
    && (forall k | k in rows && rows[k].parent.Some? :: rows[k].parent.value in rows)
    && (forall k | k in rows :: !Ancestor(rows, k, k))
  }

  /** For retained rows with an unretained parent: the parent's owner is their nearest retained ancestor. */
  ghost predicate ParentsNearest(rows: Rows, owners: map<string, string>) {
    forall b | b in Retained(rows) && rows[b].parent.Some? && rows[b].parent.value !in Retained(rows) ::
      rows[b].parent.value in owners && HasNearest(rows, b, owners[rows[b].parent.value])
  }

  lemma AncestorTrans(rows: Rows, a: string, b: string, c: string)
    requires Ancestor(rows, a, b) && Ancestor(rows, b, c)
    ensures Ancestor(rows, a, c)
  {
    var m: nat :| m >= 1 && Up(rows, b, m) == Some(a);
    var n: nat :| n >= 1 && Up(rows, c, n) == Some(b);
    UpAdds(rows, c, n, b, m);
    assert n + m >= 1 && Up(rows, c, n + m) == Some(a);
  }

  lemma {:induction false} UpInRows(rows: Rows, k: string, n: nat)
    requires Forest(rows) && k in rows
    ensures Up(rows, k, n).Some? ==> Up(rows, k, n).value in rows
  {
    if n > 0 { UpInRows(rows, k, n - 1); }
  }

  /** The rows met in the first n + 1 steps of a chain that has not ended are all different. */
  lemma {:induction false} ChainSet(rows: Rows, k: string, n: nat) returns (met: set<string>)
    requires Forest(rows) && k in rows && Up(rows, k, n).Some?
    ensures |met| == n + 1 && met <= rows.Keys
    ensures forall x | x in met :: x == Up(rows, k, n).value || Ancestor(rows, Up(rows, k, n).value, x)
  {
    UpInRows(rows, k, n);
    if n == 0 {
      met := {k};
    } else {
      var prior := ChainSet(rows, k, n - 1);
      var q, x := Up(rows, k, n - 1).value, Up(rows, k, n).value;
      UpInRows(rows, k, n - 1);
      assert Ancestor(rows, x, q) by { assert Up(rows, q, 0) == Some(q); assert Up(rows, q, 1) == Some(x); }
      forall y | y in prior ensures Ancestor(rows, x, y) {
        if y != q { AncestorTrans(rows, x, q, y); }
      }
      assert x !in prior;
      met := prior + {x};
    }
  }

  /** In a forest every chain ends, so an unretained row, or a retained one with a parent, has a nearest retained ancestor. */
  lemma NearestExists(rows: Rows, k: string) returns (n: nat, o: string)
    requires Forest(rows) && k in rows && rows[k].parent.Some?
    ensures Nearest(rows, k, n, o)
  {
    n := 1;
    while !(Up(rows, k, n).Some? && Up(rows, k, n).value in Retained(rows))
      invariant n >= 1 && Open(rows, k, n) && Up(rows, k, n).Some?
      decreases |rows| + 1 - n
    {
      ghost var met := ChainSet(rows, k, n);
      assert |met| <= |rows.Keys| by { SubsetSize(met, rows.Keys); }
      UpInRows(rows, k, n);
      OpenNext(rows, k, n);
      var x := Up(rows, k, n).value;
      assert !Retains(rows[x]);
      n := n + 1;
    }
    o := Up(rows, k, n).value;
  }

  lemma {:induction false} SubsetSize(a: set<string>, b: set<string>)
    requires a <= b
    ensures |a| <= |b|
  {
    if a != {} {
      var x :| x in a;
      SubsetSize(a - {x}, b - {x});
    }
  }

  /** On a forest `_owner` never fails. */
  lemma ForestOwned(rows: Rows, k: string)
    requires Forest(rows) && k in rows
    ensures HasOwner(rows, k)
  {
    if k in Retained(rows) {
      assert IsOwner(rows, k, k);
    } else if rows[k].canonical.Some? && rows[k].canonical.value in Retained(rows) {
      assert IsOwner(rows, k, rows[k].canonical.value);
    } else {
      var n, o := NearestExists(rows, k);
      assert HasNearest(rows, k, o);
      assert IsOwner(rows, k, o);
    }
  }

  /** On an unretained chain that never ends there is no owner: `_owner` raises, as FindOwner says. */
  lemma CyclicUnowned(rows: Rows, k: string)
    requires k in rows && k !in Retained(rows) && !(rows[k].canonical.Some? && rows[k].canonical.value in Retained(rows))
    requires forall n: nat :: Open(rows, k, n)
    ensures !HasOwner(rows, k)
  {
    assert WalkMeans(rows, k, ParentCycle);
    NoOwnerWithout(rows, k, ParentCycle);
  }

  /** The rewritten parent of b in the result is its nearest retained ancestor. */
  lemma ParentIsNearest(rows: Rows, owners: map<string, string>, registry: Rows, docs: map<string, Doc>, b: string)
    requires Consolidated(rows, owners, registry, docs) && Forest(rows) && ParentsNearest(rows, owners) && b in registry
    ensures registry[b].parent.Some? <==> rows[b].parent.Some?
    ensures registry[b].parent.Some? ==> HasNearest(rows, b, registry[b].parent.value)
  {
    hide NeedsOk, OffersOk, ComponentsOk, OwnersOk, HasNearest;
    assert RowOk(rows, owners, b, registry[b]);
    if rows[b].parent.Some? {
      var p := rows[b].parent.value;
      if p in Retained(rows) {
        OneStepNearest(rows, b, p);
      }
    }
  }

  lemma OneStepNearest(rows: Rows, b: string, p: string)
    requires b in rows && rows[b].parent == Some(p) && p in Retained(rows)
    ensures HasNearest(rows, b, p)
  {
    assert Up(rows, b, 0) == Some(b);
    assert Nearest(rows, b, 1, p);
  }

  lemma {:induction false} DownToRows(rows: Rows, owners: map<string, string>, registry: Rows, docs: map<string, Doc>, b: string, n: nat)
    requires Consolidated(rows, owners, registry, docs) && Forest(rows) && ParentsNearest(rows, owners) && b in registry && n >= 1
    requires Up(registry, b, n).Some?
    ensures Up(registry, b, n).value in registry && Ancestor(rows, Up(registry, b, n).value, b)
  {
    hide Consolidated, Forest, ParentsNearest, Ancestor, HasNearest;
    assert Up(registry, b, 0) == Some(b);
    var c := Up(registry, b, n - 1).value;
    if n > 1 { DownToRows(rows, owners, registry, docs, b, n - 1); }
    ParentIsNearest(rows, owners, registry, docs, c);
    var a := Up(registry, b, n).value;
    assert registry[c].parent == Some(a);
    NearestIsAncestor(rows, c, a);
    ConsolidatedFacts(rows, owners, registry, docs);
    if n > 1 { AncestorTrans(rows, a, c, b); }
  }

  lemma NearestIsAncestor(rows: Rows, k: string, o: string)
    requires HasNearest(rows, k, o)
    ensures Ancestor(rows, o, k) && o in Retained(rows)
  {
  }

  lemma AncestorStep(rows: Rows, a: string, p: string, b: string)
    requires b in rows && rows[b].parent == Some(p) && (a == p || Ancestor(rows, a, p))
    ensures Ancestor(rows, a, b)
  {
    assert Up(rows, b, 0) == Some(b);
    assert Up(rows, b, 1) == Some(p);
    if a != p { assert Ancestor(rows, p, b); AncestorTrans(rows, a, p, b); }
  }

  lemma {:induction false} UpFromRows(rows: Rows, owners: map<string, string>, registry: Rows, docs: map<string, Doc>, a: string, b: string, n: nat)
    requires Consolidated(rows, owners, registry, docs) && Forest(rows) && ParentsNearest(rows, owners) && b in registry && a in registry
    requires n >= 1 && Up(rows, b, n) == Some(a)
    ensures Ancestor(registry, a, b)
    decreases n
  {
    hide Consolidated, Forest, ParentsNearest;
    ConsolidatedFacts(rows, owners, registry, docs);
    ParentIsNearest(rows, owners, registry, docs, b);
    assert rows[b].parent.Some? by { ChainStarts(rows, b, n); }
    var p := registry[b].parent.value;
    var j: nat :| Nearest(rows, b, j, p);
    if n < j { assert false; }
    UpAdds(rows, b, j, p, n - j);
    if n > j {
      UpFromRows(rows, owners, registry, docs, a, p, n - j);
    }
    AncestorStep(registry, a, p, b);
  }

  lemma {:induction false} ChainStarts(rows: Rows, b: string, n: nat)
    requires b in rows && n >= 1 && Up(rows, b, n).Some?
    ensures rows[b].parent.Some?
  {
    assert Up(rows, b, 0) == Some(b);
    if n > 1 {
      ChainStarts(rows, b, n - 1);
    }
  }

  ghost predicate AncestorsKept(rows: Rows, registry: Rows) {
    forall a, b | a in registry && b in registry :: Ancestor(registry, a, b) <==> Ancestor(rows, a, b)
  }

  /** With the parents' owners nearest, the rewritten parents keep the ancestor relation between retained rows, both ways. */
  lemma KeepsAncestors(rows: Rows, owners: map<string, string>, registry: Rows, docs: map<string, Doc>)
    requires Consolidated(rows, owners, registry, docs) && Forest(rows) && ParentsNearest(rows, owners)
    ensures AncestorsKept(rows, registry)
  {
    hide Consolidated, Forest, ParentsNearest;
    forall a, b | a in registry && b in registry ensures Ancestor(registry, a, b) <==> Ancestor(rows, a, b) {
      if Ancestor(registry, a, b) {
        var n: nat :| n >= 1 && Up(registry, b, n) == Some(a);
        DownToRows(rows, owners, registry, docs, b, n);
      }
      if Ancestor(rows, a, b) {
        var n: nat :| n >= 1 && Up(rows, b, n) == Some(a);
        UpFromRows(rows, owners, registry, docs, a, b, n);
      }
    }
  }

  /** No unretained parent of a retained row has a retained canonical authority other than that row's
      nearest retained ancestor. */
  ghost predicate NoOverride(rows: Rows) {
    forall b | b in Retained(rows) && rows[b].parent.Some? && rows[b].parent.value in rows && rows[b].parent.value !in Retained(rows) ::
      var canonical := rows[rows[b].parent.value].canonical;
      canonical.Some? && canonical.value in Retained(rows) ==> HasNearest(rows, b, canonical.value)
  }

  lemma NearestBelow(rows: Rows, b: string, u: string, o: string)
    requires b in rows && rows[b].parent == Some(u) && u in rows && u !in Retained(rows) && HasNearest(rows, u, o)
    ensures HasNearest(rows, b, o)
  {
    var n: nat :| Nearest(rows, u, n, o);
    assert Up(rows, b, 0) == Some(b);
    assert Up(rows, b, 1) == Some(u);
    UpAdds(rows, b, 1, u, n);
    forall m | 1 <= m < n + 1
      ensures Up(rows, b, m).Some? && Up(rows, b, m).value in rows && Up(rows, b, m).value !in Retained(rows)
    {
      UpAdds(rows, b, 1, u, m - 1);
    }
    assert Nearest(rows, b, n + 1, o);
  }

  lemma OverrideMeans(rows: Rows, owners: map<string, string>)
    requires OwnersOk(rows, owners) && Forest(rows)
    ensures NoOverride(rows) <==> ParentsNearest(rows, owners)
  {
    forall b | b in Retained(rows) && rows[b].parent.Some? && rows[b].parent.value !in Retained(rows)
      ensures rows[b].parent.value in owners && rows[b].parent.value in rows
      ensures var u := rows[b].parent.value;
        HasNearest(rows, b, owners[u]) <==>
        (rows[u].canonical.Some? && rows[u].canonical.value in Retained(rows) ==> HasNearest(rows, b, rows[u].canonical.value))
    {
      var u := rows[b].parent.value;
      assert u in rows && IsOwner(rows, u, owners[u]);
      if !(rows[u].canonical.Some? && rows[u].canonical.value in Retained(rows)) {
        NearestBelow(rows, b, u, owners[u]);
      }
    }
  }

  /** On a forest the ancestor relation between retained rows survives, in both directions, exactly when
      nothing overrides a nearest retained ancestor. */
  lemma AncestorsKeptIff(rows: Rows, owners: map<string, string>, registry: Rows, docs: map<string, Doc>)
    requires Consolidated(rows, owners, registry, docs) && Forest(rows)
    ensures AncestorsKept(rows, registry) <==> NoOverride(rows)
  {
    hide Consolidated, Forest, HasNearest, Ancestor, NoOverride;
    ConsolidatedFacts(rows, owners, registry, docs);
    OverrideMeans(rows, owners);
    if ParentsNearest(rows, owners) {
      KeepsAncestors(rows, owners, registry, docs);
    }
    if AncestorsKept(rows, registry) {
      forall b | b in Retained(rows) && rows[b].parent.Some? && rows[b].parent.value !in Retained(rows)
        ensures rows[b].parent.value in owners && HasNearest(rows, b, owners[rows[b].parent.value])
      {
        KeptNeedsNearest(rows, owners, registry, docs, b);
      }
    }
  }

  lemma KeptNeedsNearest(rows: Rows, owners: map<string, string>, registry: Rows, docs: map<string, Doc>, b: string)
    requires Consolidated(rows, owners, registry, docs) && Forest(rows) && AncestorsKept(rows, registry)
    requires b in Retained(rows) && rows[b].parent.Some? && rows[b].parent.value !in Retained(rows)
    ensures rows[b].parent.value in owners && HasNearest(rows, b, owners[rows[b].parent.value])
  {
    hide NeedsOk, OffersOk, ComponentsOk, IsOwner, HasNearest, Ancestor;
    var u := rows[b].parent.value;
    assert RowOk(rows, owners, b, registry[b]);
    assert registry[b].parent == Some(owners[u]);
    var c := owners[u];
    OwnersAreKeys(rows, owners, registry, docs, u);
    AncestorStep(registry, c, c, b);
    var n, o := NearestExists(rows, b);
    NearestHolds(rows, b, n, o);
    NearestIsAncestor(rows, b, o);
    if c != o {
      AncestorAbove(rows, b, n, o, c);
      assert Ancestor(registry, c, o) && Ancestor(registry, o, b);
      ThroughParent(registry, o, c, b);
      assert Ancestor(rows, o, c);
      AncestorTrans(rows, o, c, o);
      assert false;
    }
  }

  lemma NearestHolds(rows: Rows, b: string, n: nat, o: string)
    requires Nearest(rows, b, n, o)
    ensures HasNearest(rows, b, o)
  {
  }

  /** A retained ancestor other than the nearest lies above it. */
  lemma AncestorAbove(rows: Rows, b: string, n: nat, o: string, c: string)
    requires Nearest(rows, b, n, o) && c in Retained(rows) && c != o && Ancestor(rows, c, b)
    ensures Ancestor(rows, c, o)
  {
    var m: nat :| m >= 1 && Up(rows, b, m) == Some(c);
    if m < n { assert false; }
    UpAdds(rows, b, n, o, m - n);
    assert m - n >= 1;
  }

  /** An ancestor of b other than its parent is an ancestor of the parent. */
  lemma ThroughParent(rows: Rows, o: string, c: string, b: string)
    requires b in rows && rows[b].parent == Some(c) && Ancestor(rows, o, b) && o != c
    ensures Ancestor(rows, o, c)
  {
    var m: nat :| m >= 1 && Up(rows, b, m) == Some(o);
    assert Up(rows, b, 0) == Some(b);
    assert Up(rows, b, 1) == Some(c);
    UpAdds(rows, b, 1, c, m - 1);
    assert m - 1 >= 1;
  }
}
