/** Building a shard plan from the test inventory, and checking a plan against the inventory. */
module ShardPlan {
  import opened Ordering
  import opened ShardGroups

  datatype Shard = Shard(index: int, files: seq<File>, isolation: string) {
    predicate ParallelSafe() { isolation != "exclusive" }
  }

  datatype Item = Item(file: File, isolation: string)

  const PARALLEL := "parallel-safe"
  const PROCESS := "process-isolated"
  const EXCLUSIVE := "exclusive"
  const EXCLUSIVE_TARGET_SECONDS := 20.0

  /** All files of a plan, shard after shard. */
  function Files(plan: seq<Shard>): seq<File> {
    if plan == [] then [] else Files(plan[..|plan| - 1]) + plan[|plan| - 1].files
  }

  /** The inventory as a dictionary: a later entry for the same file wins. */
  function Expected(inventory: seq<Item>): map<File, string> {
    if inventory == [] then map[]
    else
      var last := inventory[|inventory| - 1];
      Expected(inventory[..|inventory| - 1])[last.file := last.isolation]
  }

  ghost predicate DistinctIndexes(plan: seq<Shard>) {
    forall i, j | 0 <= i < j < |plan| :: plan[i].index != plan[j].index
  }

  /** Every shard's files are expected to have that shard's isolation class. */
  ghost predicate SameIsolation(plan: seq<Shard>, expected: map<File, string>) {
    forall s, f | s in plan && f in s.files :: f in expected && expected[f] == s.isolation
  }

  /** The plan is an exact partition of the inventory, class by class. */
  ghost predicate PlanMatches(plan: seq<Shard>, inventory: seq<Item>) {
    && DistinctIndexes(plan)
    && NoDuplicates(Files(plan))
    && (forall f | f in Expected(inventory) :: f in Files(plan))
    && SameIsolation(plan, Expected(inventory))
  }

  datatype Verdict =
    | Accepted
    | DuplicateIndex(index: int)
    | DuplicateFile(file: File)
    | Omits(file: File)
    | Unknown(file: File)
    | Drift(file: File, planned: string, expected: string)

  // ----- checking -----

  ghost predicate SharedIndex(plan: seq<Shard>, index: int) {
    exists i, j :: 0 <= i < j < |plan| && plan[i].index == plan[j].index == index
  }

  lemma {:induction false} FilesMember(plan: seq<Shard>, f: File)
    ensures f in Files(plan) <==> exists s :: s in plan && f in s.files
  {
    if plan != [] {
      var n := |plan| - 1;
      FilesMember(plan[..n], f);
      assert plan == plan[..n] + [plan[n]];
    }
  }

  lemma FilesSnoc(plan: seq<Shard>, k: nat)
    requires k < |plan|
    ensures Files(plan[..k + 1]) == Files(plan[..k]) + plan[k].files
  {
    assert plan[..k + 1][..k] == plan[..k];
  }

  lemma {:induction false} FilesPrefix(plan: seq<Shard>, k: nat)
    requires k <= |plan|
    ensures Files(plan[..k]) <= Files(plan)
  {
    if k == |plan| {
      assert plan[..k] == plan;
    } else {
      FilesPrefix(plan[..|plan| - 1], k);
      assert plan[..|plan| - 1][..k] == plan[..k];
    }
  }

  /** The dictionary after reading the shards `done` and the files `part` of the next one. */
  ghost predicate Observes(observed: map<File, string>, done: seq<Shard>, part: seq<File>, isolation: string) {
    && NoDuplicates(Files(done) + part)
    && (forall f :: f in observed <==> f in Files(done) || f in part)
    && (forall s, f | s in done && f in s.files :: f in observed && observed[f] == s.isolation)
    && (forall f | f in part :: observed[f] == isolation)
  }

  /** The dictionary of a whole plan. */
  ghost predicate ReadsAs(observed: map<File, string>, plan: seq<Shard>) {
    && (forall f :: f in observed <==> f in Files(plan))
    && (forall s, f | s in plan && f in s.files :: f in observed && observed[f] == s.isolation)
  }

  ghost predicate Repeated<T>(s: seq<T>, x: T) {
    exists i, j :: 0 <= i < j < |s| && s[i] == s[j] == x
  }

  lemma RepeatedNotDistinct<T>(s: seq<T>, x: T)
    requires Repeated(s, x)
    ensures !NoDuplicates(s)
  {
  }

  lemma ObserveFile(observed: map<File, string>, plan: seq<Shard>, k: nat, j: nat)
    requires k < |plan| && j < |plan[k].files|
    requires Observes(observed, plan[..k], plan[k].files[..j], plan[k].isolation)
    ensures var f := plan[k].files[j];
      if f in observed then Repeated(Files(plan), f)
      else Observes(observed[f := plan[k].isolation], plan[..k], plan[k].files[..j + 1], plan[k].isolation)
  {
    var f, read := plan[k].files[j], Files(plan[..k]) + plan[k].files[..j];
    assert plan[k].files[..j + 1] == plan[k].files[..j] + [f];
    assert Files(plan[..k]) + plan[k].files[..j + 1] == read + [f];
    if f in observed {
      FilesSnoc(plan, k);
      FilesPrefix(plan, k + 1);
      assert f in read;
      var i :| 0 <= i < |read| && read[i] == f;
      assert Files(plan)[|read|] == f && Files(plan)[i] == f;
    } else {
      forall s, g | s in plan[..k] && g in s.files
        ensures g != f
      {
        FilesMember(plan[..k], g);
      }
    }
  }

  lemma ObserveShard(observed: map<File, string>, done: seq<Shard>, shard: Shard, isolation: string)
    requires Observes(observed, done, shard.files, shard.isolation)
    ensures Observes(observed, done + [shard], [], isolation)
  {
    assert (done + [shard])[..|done|] == done;
    assert Files(done + [shard]) + [] == Files(done) + shard.files;
  }

  lemma ObserveNext(observed: map<File, string>, done: seq<Shard>, isolation: string, next: string)
    requires Observes(observed, done, [], isolation)
    ensures Observes(observed, done, [], next) && ReadsAs(observed, done) && NoDuplicates(Files(done))
  {
    assert Files(done) + [] == Files(done);
  }

  /** Reads the plan into a dictionary, stopping at a repeated shard index or file. */
  method ObservePlan(plan: seq<Shard>) returns (failure: Verdict, observed: map<File, string>)
    ensures failure.Accepted? || failure.DuplicateIndex? || failure.DuplicateFile?
    ensures failure.Accepted? <==> DistinctIndexes(plan) && NoDuplicates(Files(plan))
    ensures failure.DuplicateIndex? ==> SharedIndex(plan, failure.index)
    ensures failure.DuplicateFile? ==> Repeated(Files(plan), failure.file)
    ensures failure.Accepted? ==> ReadsAs(observed, plan)
  {
    hide Observes, Files, ReadsAs, NoDuplicates, Repeated;
    observed := map[];
    var indexes: set<int> := {};
    ObservesNone();
    assert plan[..0] == [];
    for k := 0 to |plan|
      invariant forall x :: x in indexes <==> exists i | 0 <= i < k :: plan[i].index == x
      invariant forall i, j | 0 <= i < j < k :: plan[i].index != plan[j].index
      invariant Observes(observed, plan[..k], [], "")
    {
      var shard := plan[k];
      if shard.index in indexes {
        return DuplicateIndex(shard.index), observed;
      }
      indexes := indexes + {shard.index};
      ObserveNext(observed, plan[..k], "", shard.isolation);
      assert shard.files[..0] == [];
      for j := 0 to |shard.files|
        invariant Observes(observed, plan[..k], shard.files[..j], shard.isolation)
      {
        var file := shard.files[j];
        ObserveFile(observed, plan, k, j);
        if file in observed {
          RepeatedNotDistinct(Files(plan), file);
          return DuplicateFile(file), observed;
        }
        observed := observed[file := shard.isolation];
      }
      assert shard.files[..|shard.files|] == shard.files;
      ObserveShard(observed, plan[..k], shard, "");
      assert plan[..k + 1] == plan[..k] + [shard];
    }
    assert plan[..|plan|] == plan;
    ObserveNext(observed, plan, "", "");
    failure := Accepted;
  }

  lemma ObservesNone()
    ensures Observes(map[], [], [], "")
  {
  }

  lemma MatchNeeds(plan: seq<Shard>, inventory: seq<Item>)
    ensures PlanMatches(plan, inventory) ==> DistinctIndexes(plan) && NoDuplicates(Files(plan))
  {
  }

  /** A duplicate-free plan matches exactly when it reads as the inventory's own dictionary. */
  lemma ReadMatches(plan: seq<Shard>, inventory: seq<Item>, observed: map<File, string>)
    requires DistinctIndexes(plan) && NoDuplicates(Files(plan)) && ReadsAs(observed, plan)
    ensures PlanMatches(plan, inventory) <==> observed == Expected(inventory)
    ensures observed.Keys == Elements(Files(plan))
  {
    var expected := Expected(inventory);
    if PlanMatches(plan, inventory) {
      forall f ensures f in observed <==> f in expected
        ensures f in observed && f in expected ==> observed[f] == expected[f]
      {
        FilesMember(plan, f);
      }
    }
  }

  /** `_validate_plan_against_inventory`: accepts exactly the plans that partition the inventory
      with the right classes; an omitted or unknown file is named in sorted order. */
  method ValidatePlan(plan: seq<Shard>, inventory: seq<Item>) returns (r: Verdict)
    ensures r.Accepted? <==> PlanMatches(plan, inventory)
    ensures r.DuplicateIndex? ==> SharedIndex(plan, r.index)
    ensures r.DuplicateFile? ==> Repeated(Files(plan), r.file)
    ensures r.Omits? ==> IsLeast(Expected(inventory).Keys - Elements(Files(plan)), r.file)
    ensures r.Unknown? ==> IsLeast(Elements(Files(plan)) - Expected(inventory).Keys, r.file)
    ensures r.Drift? ==> r.file in Expected(inventory) && Expected(inventory)[r.file] == r.expected != r.planned
    ensures r.Drift? ==> exists s :: s in plan && r.file in s.files && s.isolation == r.planned
  {
    hide Files, NoDuplicates, DistinctIndexes, Repeated, SharedIndex, Expected, LexLeq, PlanMatches;
    var expected := Expected(inventory);
    var failure, observed := ObservePlan(plan);
    if !failure.Accepted? {
      MatchNeeds(plan, inventory);
      return failure;
    }
    ReadMatches(plan, inventory, observed);
    var missing := SortedSet(expected.Keys - observed.Keys);
    var extra := SortedSet(observed.Keys - expected.Keys);
    if missing != [] {
      LeastOfSorted(missing, expected.Keys - observed.Keys);
      return Omits(missing[0]);
    }
    if extra != [] {
      LeastOfSorted(extra, observed.Keys - expected.Keys);
      FilesMember(plan, extra[0]);
      return Unknown(extra[0]);
    }
    assert expected.Keys == observed.Keys by {
      assert |expected.Keys - observed.Keys| == 0 && |observed.Keys - expected.Keys| == 0;
    }
    var todo := expected.Keys;
    while todo != {}
      invariant todo <= expected.Keys && forall f | f in expected && f !in todo :: observed[f] == expected[f]
    {
      var f :| f in todo;
      if observed[f] != expected[f] {
        FilesMember(plan, f);
        return Drift(f, observed[f], expected[f]);
      }
      todo := todo - {f};
    }
    r := Accepted;
  }

  ghost predicate IsLeast(s: set<File>, f: File) {
    f in s && forall g | g in s :: LeqString(f, g)
  }

  lemma LeastOfSorted(r: seq<File>, s: set<File>)
    requires r != [] && Sorted(LeqString, r) && forall f :: f in r <==> f in s
    ensures IsLeast(s, r[0])
  {
    StringOrder();
    assert r[0] in r;
    forall g | g in s ensures LeqString(r[0], g) {
      var i :| 0 <= i < |r| && r[i] == g;
      assert LeqString(g, g);
    }
  }

  // ----- building -----

  function FilesOf(inventory: seq<Item>, isolation: string): seq<File> {
    if inventory == [] then []
    else
      var last := inventory[|inventory| - 1];
      FilesOf(inventory[..|inventory| - 1], isolation) + if last.isolation == isolation then [last.file] else []
  }

  /** One shard per group, numbered from `start`. */
  function Numbered(groups: seq<seq<File>>, start: int, isolation: string): (r: seq<Shard>)
    ensures |r| == |groups|
    ensures forall i | 0 <= i < |groups| :: r[i] == Shard(start + i, groups[i], isolation)
  {
    seq(|groups|, i requires 0 <= i < |groups| => Shard(start + i, groups[i], isolation))
  }

  ghost predicate DistinctFiles(inventory: seq<Item>) {
    forall i, j | 0 <= i < j < |inventory| :: inventory[i].file != inventory[j].file
  }

  predicate KnownClass(isolation: string) {
    isolation in [PARALLEL, PROCESS, EXCLUSIVE]
  }

  ghost predicate KnownClasses(inventory: seq<Item>) {
    forall item | item in inventory :: KnownClass(item.isolation)
  }

  /** Shards are numbered 1, 2, 3, ..., none is empty, and each class keeps its own limits. */
  ghost predicate WellBuilt(plan: seq<Shard>, size: nat, est: File -> real) {
    && (forall i | 0 <= i < |plan| :: plan[i].index == i + 1 && plan[i].files != [] && KnownClass(plan[i].isolation))
    && (forall s | s in plan && s.ParallelSafe() :: |s.files| <= PARALLEL_SHARD_SIZE)
    && (forall s | s in plan && !s.ParallelSafe() :: Fits(est, size, EXCLUSIVE_TARGET_SECONDS, s.files))
  }

  /** The plan made of three lists of groups, one per class. */
  ghost predicate Assembled(plan: seq<Shard>, a: seq<seq<File>>, b: seq<seq<File>>, c: seq<seq<File>>) {
    plan == Numbered(a, 1, PARALLEL) + Numbered(b, |a| + 1, PROCESS) + Numbered(c, |a| + |b| + 1, EXCLUSIVE)
  }

  lemma NumberedLast(groups: seq<seq<File>>, start: int, isolation: string)
    requires groups != []
    ensures var n := |groups| - 1;
      Numbered(groups, start, isolation) == Numbered(groups[..n], start, isolation) + [Shard(start + n, groups[n], isolation)]
  {
  }

  lemma FilesAppend(plan: seq<Shard>, s: Shard)
    ensures Files(plan + [s]) == Files(plan) + s.files
  {
    assert (plan + [s])[..|plan|] == plan;
  }

  lemma {:induction false} FilesNumbered(plan: seq<Shard>, groups: seq<seq<File>>, start: int, isolation: string)
    ensures Files(plan + Numbered(groups, start, isolation)) == Files(plan) + Flatten(groups)
  {
    var n := |groups| - 1;
    hide Files, Numbered;
    if groups == [] {
      assert plan + Numbered(groups, start, isolation) == plan;
    } else {
      FilesNumbered(plan, groups[..n], start, isolation);
      NumberedLast(groups, start, isolation);
      FilesAppend(plan + Numbered(groups[..n], start, isolation), Shard(start + n, groups[n], isolation));
      assert plan + Numbered(groups, start, isolation) ==
             plan + Numbered(groups[..n], start, isolation) + [Shard(start + n, groups[n], isolation)];
    }
  }

  lemma NoFiles()
    ensures Files([]) == []
  {
  }

  lemma AssembledFiles(plan: seq<Shard>, a: seq<seq<File>>, b: seq<seq<File>>, c: seq<seq<File>>)
    requires Assembled(plan, a, b, c)
    ensures Files(plan) == Flatten(a) + Flatten(b) + Flatten(c)
  {
    hide Numbered, Flatten, Files;
    var pa := Numbered(a, 1, PARALLEL);
    var pb := pa + Numbered(b, |a| + 1, PROCESS);
    NoFiles();
    assert [] + pa == pa && [] + Flatten(a) == Flatten(a);
    FilesNumbered([], a, 1, PARALLEL);
    FilesNumbered(pa, b, |a| + 1, PROCESS);
    FilesNumbered(pb, c, |a| + |b| + 1, EXCLUSIVE);
  }

  lemma AssembledShard(plan: seq<Shard>, a: seq<seq<File>>, b: seq<seq<File>>, c: seq<seq<File>>, i: nat)
    requires Assembled(plan, a, b, c) && i < |plan|
    ensures plan[i].index == i + 1
    ensures plan[i] == if i < |a| then Shard(i + 1, a[i], PARALLEL)
                       else if i < |a| + |b| then Shard(i + 1, b[i - |a|], PROCESS)
                       else Shard(i + 1, c[i - |a| - |b|], EXCLUSIVE)
  {
  }

  lemma {:induction false} FilesOfMember(inventory: seq<Item>, isolation: string, f: File)
    ensures f in FilesOf(inventory, isolation) <==> Item(f, isolation) in inventory
  {
    if inventory != [] {
      var n := |inventory| - 1;
      FilesOfMember(inventory[..n], isolation, f);
      assert inventory == inventory[..n] + [inventory[n]];
    }
  }

  lemma {:induction false} FilesOfDistinct(inventory: seq<Item>, isolation: string)
    requires DistinctFiles(inventory)
    ensures NoDuplicates(FilesOf(inventory, isolation))
  {
    if inventory != [] {
      var n := |inventory| - 1;
      FilesOfDistinct(inventory[..n], isolation);
      FilesOfMember(inventory[..n], isolation, inventory[n].file);
    }
  }

  lemma {:induction false} ExpectedMember(inventory: seq<Item>, f: File)
    ensures f in Expected(inventory) <==> exists item :: item in inventory && item.file == f
    ensures f in Expected(inventory) ==> Item(f, Expected(inventory)[f]) in inventory
  {
    if inventory != [] {
      var n := |inventory| - 1;
      ExpectedMember(inventory[..n], f);
      assert inventory == inventory[..n] + [inventory[n]];
    }
  }

  lemma ExpectedOf(inventory: seq<Item>, f: File, isolation: string)
    requires DistinctFiles(inventory)
    ensures Item(f, isolation) in inventory <==> f in Expected(inventory) && Expected(inventory)[f] == isolation
  {
    ExpectedMember(inventory, f);
    if Item(f, isolation) in inventory {
      var i :| 0 <= i < |inventory| && inventory[i] == Item(f, isolation);
      var j :| 0 <= j < |inventory| && inventory[j] == Item(f, Expected(inventory)[f]);
      assert i == j;
    }
  }

  lemma DisjointConcat(a: seq<File>, b: seq<File>)
    requires NoDuplicates(a) && NoDuplicates(b) && forall f | f in a :: f !in b
    ensures NoDuplicates(a + b)
  {
    forall i, j | 0 <= i < j < |a + b| ensures (a + b)[i] != (a + b)[j] {
      if i < |a| <= j { assert (a + b)[i] in a && (a + b)[j] in b; }
    }
  }

  lemma PermutedDistinct(a: seq<File>, b: seq<File>)
    requires multiset(a) == multiset(b) && NoDuplicates(b)
    ensures NoDuplicates(a) && forall f :: f in a <==> f in b
  {
    NoDuplicatesByCount(a);
    NoDuplicatesByCount(b);
    forall f ensures f in a <==> f in b {
      assert f in a <==> f in multiset(a);
      assert f in b <==> f in multiset(b);
    }
  }

  /** Each class's groups hold that class's files. */
  ghost predicate ClassGroups(inventory: seq<Item>, groups: seq<seq<File>>, isolation: string) {
    multiset(Flatten(groups)) == multiset(FilesOf(inventory, isolation))
  }

  lemma ClassMember(inventory: seq<Item>, groups: seq<seq<File>>, isolation: string)
    requires DistinctFiles(inventory) && ClassGroups(inventory, groups, isolation)
    ensures NoDuplicates(Flatten(groups))
    ensures forall f :: f in Flatten(groups) <==> f in Expected(inventory) && Expected(inventory)[f] == isolation
  {
    FilesOfDistinct(inventory, isolation);
    PermutedDistinct(Flatten(groups), FilesOf(inventory, isolation));
    forall f ensures f in Flatten(groups) <==> f in Expected(inventory) && Expected(inventory)[f] == isolation {
      FilesOfMember(inventory, isolation, f);
      ExpectedOf(inventory, f, isolation);
    }
  }

  lemma AssembledIsolation(plan: seq<Shard>, a: seq<seq<File>>, b: seq<seq<File>>, c: seq<seq<File>>, s: Shard, f: File)
    requires Assembled(plan, a, b, c) && s in plan && f in s.files
    ensures (s.isolation == PARALLEL && f in Flatten(a)) || (s.isolation == PROCESS && f in Flatten(b))
            || (s.isolation == EXCLUSIVE && f in Flatten(c))
  {
    var i :| 0 <= i < |plan| && plan[i] == s;
    AssembledShard(plan, a, b, c, i);
    FlattenMember(a, f);
    FlattenMember(b, f);
    FlattenMember(c, f);
  }

  /** A plan assembled from a duplicate-free inventory passes the check exactly when every class is known. */
  lemma AssembledMatches(inventory: seq<Item>, plan: seq<Shard>, a: seq<seq<File>>, b: seq<seq<File>>, c: seq<seq<File>>)
    requires DistinctFiles(inventory) && Assembled(plan, a, b, c)
    requires ClassGroups(inventory, a, PARALLEL) && ClassGroups(inventory, b, PROCESS) && ClassGroups(inventory, c, EXCLUSIVE)
    ensures PlanMatches(plan, inventory) <==> KnownClasses(inventory)
  {
    hide Assembled, ClassGroups, DistinctFiles, Files, Flatten, Expected;
    var expected := Expected(inventory);
    AssembledFiles(plan, a, b, c);
    ClassMember(inventory, a, PARALLEL);
    ClassMember(inventory, b, PROCESS);
    ClassMember(inventory, c, EXCLUSIVE);
    DisjointConcat(Flatten(a), Flatten(b));
    DisjointConcat(Flatten(a) + Flatten(b), Flatten(c));
    forall s, f | s in plan && f in s.files ensures f in expected && expected[f] == s.isolation {
      AssembledIsolation(plan, a, b, c, s, f);
    }
    forall i, j | 0 <= i < j < |plan| ensures plan[i].index != plan[j].index {
      AssembledShard(plan, a, b, c, i);
      AssembledShard(plan, a, b, c, j);
    }
    forall f | f in expected ensures f in Files(plan) <==> KnownClass(expected[f]) {}
    assert DistinctIndexes(plan) && SameIsolation(plan, expected) && NoDuplicates(Files(plan));
    KnownExpected(inventory);
  }

  lemma KnownExpected(inventory: seq<Item>)
    requires DistinctFiles(inventory)
    ensures KnownClasses(inventory) <==> AllKnown(Expected(inventory))
  {
    var expected := Expected(inventory);
    if KnownClasses(inventory) {
      forall f | f in expected ensures KnownClass(expected[f]) {
        ExpectedMember(inventory, f);
        assert KnownClass(Item(f, expected[f]).isolation);
      }
    }
    if AllKnown(expected) {
      forall item | item in inventory ensures KnownClass(item.isolation) {
        ExpectedOf(inventory, item.file, item.isolation);
        assert KnownClass(expected[item.file]);
      }
    }
  }

  ghost predicate AllKnown(expected: map<File, string>) {
    forall f | f in expected :: KnownClass(expected[f])
  }

  lemma AssembledWellBuilt(inventory: seq<Item>, plan: seq<Shard>, a: seq<seq<File>>, b: seq<seq<File>>, c: seq<seq<File>>,
                           size: nat, est: File -> real)
    requires Assembled(plan, a, b, c)
    requires EvenGroups(FilesOf(inventory, PARALLEL), a) && EvenGroups(FilesOf(inventory, PROCESS), b)
    requires ValidSplit(est, size, EXCLUSIVE_TARGET_SECONDS, FilesOf(inventory, EXCLUSIVE), c)
    ensures WellBuilt(plan, size, est)
  {
    forall i | 0 <= i < |plan|
      ensures plan[i].index == i + 1 && plan[i].files != [] && KnownClass(plan[i].isolation)
      ensures if plan[i].ParallelSafe() then |plan[i].files| <= PARALLEL_SHARD_SIZE
              else Fits(est, size, EXCLUSIVE_TARGET_SECONDS, plan[i].files)
    {
      AssembledShard(plan, a, b, c, i);
      if i >= |a| + |b| {
        assert c[i - |a| - |b|] in c;
      }
    }
  }

  /** The file groups of the shards of one class, in plan order. */
  function GroupsOf(plan: seq<Shard>, isolation: string): seq<seq<File>> {
    if plan == [] then []
    else
      var last := plan[|plan| - 1];
      GroupsOf(plan[..|plan| - 1], isolation) + if last.isolation == isolation then [last.files] else []
  }

  /** What the plan makes of each class: the exclusive files in inventory order, split into as few admissible shards as any split needs;
      the files of the other two classes in evenly sized and balanced shards. */
  ghost predicate GroupedAs(plan: seq<Shard>, inventory: seq<Item>, est: File -> real, size: nat) {
    var exclusive, parallel, process := FilesOf(inventory, EXCLUSIVE), FilesOf(inventory, PARALLEL), FilesOf(inventory, PROCESS);
    && ValidSplit(est, size, EXCLUSIVE_TARGET_SECONDS, exclusive, GroupsOf(plan, EXCLUSIVE))
    && (NonNegative(est, exclusive) ==> Minimal(est, size, EXCLUSIVE_TARGET_SECONDS, exclusive, |GroupsOf(plan, EXCLUSIVE)|))
    && EvenGroups(parallel, GroupsOf(plan, PARALLEL)) && EvenGroups(process, GroupsOf(plan, PROCESS))
    && (NonNegative(est, parallel) ==> NearBalanced(est, |parallel|, GroupsOf(plan, PARALLEL)))
    && (NonNegative(est, process) ==> NearBalanced(est, |process|, GroupsOf(plan, PROCESS)))
  }

  lemma {:induction false} GroupsAppended(plan: seq<Shard>, groups: seq<seq<File>>, start: int, own: string, isolation: string)
    ensures GroupsOf(plan + Numbered(groups, start, own), isolation) ==
            GroupsOf(plan, isolation) + Only(own, isolation, groups)
  {
    hide Numbered;
    if groups == [] {
      assert plan + Numbered(groups, start, own) == plan;
      assert GroupsOf(plan, isolation) + [] == GroupsOf(plan, isolation);
    } else {
      var n := |groups| - 1;
      GroupsAppended(plan, groups[..n], start, own, isolation);
      NumberedLast(groups, start, own);
      var before, last := plan + Numbered(groups[..n], start, own), Shard(start + n, groups[n], own);
      assert plan + Numbered(groups, start, own) == before + [last];
      assert (before + [last])[..|before|] == before;
      assert groups == groups[..n] + [groups[n]];
    }
  }

  lemma NoGroups(isolation: string)
    ensures GroupsOf([], isolation) == []
  {
  }

  function Only(own: string, isolation: string, groups: seq<seq<File>>): seq<seq<File>> { if own == isolation then groups else [] }

  lemma GroupsOfClass(a: seq<seq<File>>, b: seq<seq<File>>, c: seq<seq<File>>, isolation: string)
    ensures GroupsOf(Numbered(a, 1, PARALLEL) + Numbered(b, |a| + 1, PROCESS) + Numbered(c, |a| + |b| + 1, EXCLUSIVE), isolation) ==
            Only(PARALLEL, isolation, a) + Only(PROCESS, isolation, b) + Only(EXCLUSIVE, isolation, c)
  {
    hide Numbered, GroupsOf;
    var pa, pb := Numbered(a, 1, PARALLEL), Numbered(b, |a| + 1, PROCESS);
    assert [] + pa == pa && [] + Only(PARALLEL, isolation, a) == Only(PARALLEL, isolation, a);
    NoGroups(isolation);
    GroupsAppended([], a, 1, PARALLEL, isolation);
    GroupsAppended(pa, b, |a| + 1, PROCESS, isolation);
    GroupsAppended(pa + pb, c, |a| + |b| + 1, EXCLUSIVE, isolation);
  }

  lemma AssembledGroups(plan: seq<Shard>, a: seq<seq<File>>, b: seq<seq<File>>, c: seq<seq<File>>)
    requires Assembled(plan, a, b, c)
    ensures GroupsOf(plan, PARALLEL) == a && GroupsOf(plan, PROCESS) == b && GroupsOf(plan, EXCLUSIVE) == c
  {
    hide Numbered, GroupsOf;
    GroupsOfClass(a, b, c, PARALLEL);
    GroupsOfClass(a, b, c, PROCESS);
    GroupsOfClass(a, b, c, EXCLUSIVE);
    assert a + [] + [] == a && [] + b + [] == b && [] + [] + c == c;
  }

  /** FilesOf keeps the inventory's order: these are the positions of the class, in order, and all of them. */
  lemma {:induction false} FilesInOrder(inventory: seq<Item>, isolation: string) returns (at: seq<int>)
    ensures |at| == |FilesOf(inventory, isolation)| && Increasing(at, |inventory|)
    ensures forall k | 0 <= k < |at| :: inventory[at[k]] == Item(FilesOf(inventory, isolation)[k], isolation)
    ensures forall i | 0 <= i < |inventory| && inventory[i].isolation == isolation :: i in at
  {
    if inventory == [] {
      at := [];
    } else {
      var n := |inventory| - 1;
      var before := FilesInOrder(inventory[..n], isolation);
      at := if inventory[n].isolation == isolation then before + [n] else before;
    }
  }

  /** In plan order, the shards of a class have these groups. */
  lemma {:induction false} GroupsInOrder(plan: seq<Shard>, isolation: string) returns (at: seq<int>)
    ensures |at| == |GroupsOf(plan, isolation)| && Increasing(at, |plan|)
    ensures forall k | 0 <= k < |at| :: plan[at[k]].isolation == isolation && plan[at[k]].files == GroupsOf(plan, isolation)[k]
    ensures forall i | 0 <= i < |plan| && plan[i].isolation == isolation :: i in at
  {
    if plan == [] {
      at := [];
    } else {
      var n := |plan| - 1;
      var before := GroupsInOrder(plan[..n], isolation);
      at := if plan[n].isolation == isolation then before + [n] else before;
    }
  }

  datatype BuildResult = Built(plan: seq<Shard>) | SizeNotPositive

  /** Appends one shard per group, numbering on from `index`. */
  method AppendShards(plan: seq<Shard>, index: int, groups: seq<seq<File>>, isolation: string) returns (plan': seq<Shard>, index': int)
    ensures plan' == plan + Numbered(groups, index, isolation) && index' == index + |groups|
  {
    plan', index' := plan, index;
    assert groups[..0] == [];
    for i := 0 to |groups|
      invariant index' == index + i && plan' == plan + Numbered(groups[..i], index, isolation)
    {
      assert Numbered(groups[..i + 1], index, isolation) == Numbered(groups[..i], index, isolation) + [Shard(index', groups[i], isolation)];
      plan' := plan' + [Shard(index', groups[i], isolation)];
      index' := index' + 1;
    }
    assert groups[..|groups|] == groups;
  }

  /** `_build_shard_plan`: for a duplicate-free inventory the plan passes ValidatePlan exactly when
      the inventory uses only the three known classes. */
  method BuildShardPlan(inventory: seq<Item>, est: File -> real, size: int) returns (r: BuildResult)
    ensures r.SizeNotPositive? <==> size <= 0
    ensures r.Built? ==> WellBuilt(r.plan, size, est)
    ensures r.Built? ==> GroupedAs(r.plan, inventory, est, size)
    ensures r.Built? && DistinctFiles(inventory) ==> (PlanMatches(r.plan, inventory) <==> KnownClasses(inventory))
  {
    hide EvenGroups, ValidSplit, WellBuilt, PlanMatches, DistinctFiles, KnownClasses, FilesOf, NearBalanced, Minimal, NonNegative, GroupsOf;
    var a := BalancedParallelGroups(FilesOf(inventory, PARALLEL), est);
    var plan, index := AppendShards([], 1, a, PARALLEL);
    var b := BalancedParallelGroups(FilesOf(inventory, PROCESS), est);
    plan, index := AppendShards(plan, index, b, PROCESS);
    var split := BoundedExclusiveGroups(FilesOf(inventory, EXCLUSIVE), est, size, EXCLUSIVE_TARGET_SECONDS);
    if split.SizeNotPositive? {
      return BuildResult.SizeNotPositive;
    }
    var c := split.groups;
    plan, index := AppendShards(plan, index, c, EXCLUSIVE);
    assert [] + Numbered(a, 1, PARALLEL) == Numbered(a, 1, PARALLEL);
    assert Assembled(plan, a, b, c);
    AssembledWellBuilt(inventory, plan, a, b, c, size, est);
    AssembledGroups(plan, a, b, c);
    GroupsHoldClasses(inventory, a, b, c, size, est);
    if DistinctFiles(inventory) {
      AssembledMatches(inventory, plan, a, b, c);
    }
    r := Built(plan);
  }

  lemma GroupsHoldClasses(inventory: seq<Item>, a: seq<seq<File>>, b: seq<seq<File>>, c: seq<seq<File>>, size: nat, est: File -> real)
    requires EvenGroups(FilesOf(inventory, PARALLEL), a) && EvenGroups(FilesOf(inventory, PROCESS), b)
    requires ValidSplit(est, size, EXCLUSIVE_TARGET_SECONDS, FilesOf(inventory, EXCLUSIVE), c)
    ensures ClassGroups(inventory, a, PARALLEL) && ClassGroups(inventory, b, PROCESS) && ClassGroups(inventory, c, EXCLUSIVE)
  {
  }
}
