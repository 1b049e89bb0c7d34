/** Grouping test files into shards: the greedy contiguous splitter for exclusive files and the
    capped longest-first balancer for parallel-safe files. Estimates are exact reals. */
module ShardGroups {
  import opened Ordering

  type File = string

  /** The summed estimate of a list of files. */
  function Load(est: File -> real, files: seq<File>): real {
    if files == [] then 0.0 else Load(est, files[..|files| - 1]) + est(files[|files| - 1])
  }

  function Flatten<T>(groups: seq<seq<T>>): seq<T> {
    if groups == [] then [] else Flatten(groups[..|groups| - 1]) + groups[|groups| - 1]
  }

  ghost predicate NonNegative(est: File -> real, files: seq<File>) {
    forall f | f in files :: est(f) >= 0.0
  }

  lemma {:induction false} LoadAppend(est: File -> real, a: seq<File>, b: seq<File>)
    ensures Load(est, a + b) == Load(est, a) + Load(est, b)
  {
    if b == [] {
      assert a + b == a;
    } else {
      assert (a + b)[..|a + b| - 1] == a + b[..|b| - 1];
      LoadAppend(est, a, b[..|b| - 1]);
    }
  }

  lemma LoadSnoc(est: File -> real, a: seq<File>, f: File)
    ensures Load(est, a + [f]) == Load(est, a) + est(f)
  {
    assert (a + [f])[..|a|] == a;
  }

  lemma {:induction false} LoadNonNegative(est: File -> real, a: seq<File>)
    requires NonNegative(est, a)
    ensures Load(est, a) >= 0.0
  {
    if a != [] { LoadNonNegative(est, a[..|a| - 1]); }
  }

  lemma FlattenSnoc<T>(groups: seq<seq<T>>, g: seq<T>)
    ensures Flatten(groups + [g]) == Flatten(groups) + g
  {
    assert (groups + [g])[..|groups|] == groups;
  }

  // ----- exclusive files: contiguous groups -----

  /** What a shard of exclusive files may be: not too many files, and within the time target
      unless it is a single file. */
  ghost predicate Fits(est: File -> real, size: nat, target: real, g: seq<File>) {
    && 0 < |g| <= size
    && (|g| > 1 ==> Load(est, g) <= target)
  }

  /** A way to cut the files, in order, into admissible groups. */
  ghost predicate ValidSplit(est: File -> real, size: nat, target: real, files: seq<File>, groups: seq<seq<File>>) {
    && Flatten(groups) == files
    && (forall g | g in groups :: Fits(est, size, target, g))
  }

  /** No split of the files seen so far uses fewer groups, and one with equally many has a last
      group at least as long as the greedy one that is still open. */
  ghost predicate StaysAhead(est: File -> real, size: nat, target: real, files: seq<File>, closed: nat, current: seq<File>) {
    forall other {:trigger ValidSplit(est, size, target, files, other)} | ValidSplit(est, size, target, files, other) ::
      |other| > closed + 1 || (|other| == closed + 1 && |current| <= |other[|other| - 1]|)
  }

  /** Taking the last file away from a split leaves a split: its last group shrinks or vanishes. */
  lemma DropLast(est: File -> real, size: nat, target: real, files: seq<File>, f: File, other: seq<seq<File>>)
    returns (shorter: seq<seq<File>>)
    requires NonNegative(est, files + [f])
    requires ValidSplit(est, size, target, files + [f], other)
    ensures other != []
    ensures var last := other[|other| - 1];
      && last != [] && last[|last| - 1] == f
      && shorter == (if |last| == 1 then other[..|other| - 1] else other[..|other| - 1] + [last[..|last| - 1]])
      && ValidSplit(est, size, target, files, shorter)
      && last[..|last| - 1] <= files[|files| - (|last| - 1)..]
  {
    var n := |other| - 1;
    var last, front := other[n], other[..n];
    assert last in other && Fits(est, size, target, last);
    var rest := last[..|last| - 1];
    assert Flatten(front) + last == files + [f];
    assert (files + [f])[|files|] == f == last[|last| - 1];
    assert files == Flatten(front) + rest by {
      assert (Flatten(front) + last)[..|files|] == Flatten(front) + rest;
      assert (files + [f])[..|files|] == files;
    }
    if |last| == 1 {
      shorter := front;
    } else {
      shorter := front + [rest];
      FlattenSnoc(front, rest);
      assert last == rest + [f] && f in files + [f];
      assert est(f) >= 0.0;
    }
  }

  /** A longer suffix of non-negative files weighs at least as much. */
  lemma SuffixLoad(est: File -> real, files: seq<File>, long: nat, short: nat)
    requires NonNegative(est, files) && short <= long <= |files|
    ensures Load(est, files[|files| - short..]) <= Load(est, files[|files| - long..])
  {
    var extra := files[|files| - long..|files| - short];
    assert files[|files| - long..] == extra + files[|files| - short..];
    LoadAppend(est, extra, files[|files| - short..]);
    LoadNonNegative(est, extra);
  }

  ghost predicate MustCut(est: File -> real, size: nat, target: real, current: seq<File>, f: File) {
    (current != [] && Load(est, current) + est(f) > target) || |current| >= size
  }

  /** Appending the next file to the open group keeps the greedy split ahead. */
  lemma AheadAppend(est: File -> real, size: nat, target: real, files: seq<File>, closed: nat, current: seq<File>, f: File)
    requires NonNegative(est, files + [f]) && StaysAhead(est, size, target, files, closed, current)
    ensures StaysAhead(est, size, target, files + [f], closed, current + [f])
  {
    forall other | ValidSplit(est, size, target, files + [f], other)
      ensures |other| > closed + 1 || (|other| == closed + 1 && |current + [f]| <= |other[|other| - 1]|)
    {
      var shorter := DropLast(est, size, target, files, f, other);
    }
  }

  /** When the open group must be cut before f, no admissible group ends in f and covers it. */
  lemma NoRoom(est: File -> real, size: nat, target: real, files: seq<File>, current: seq<File>, f: File, last: seq<File>)
    requires NonNegative(est, files) && MustCut(est, size, target, current, f)
    requires 0 < |current| < |last| <= |files| + 1
    requires current == files[|files| - |current|..] && last == files[|files| - (|last| - 1)..] + [f]
    ensures !Fits(est, size, target, last)
  {
    SuffixLoad(est, files, |last| - 1, |current|);
    assert last[..|last| - 1] == files[|files| - (|last| - 1)..];
  }

  /** Cutting when the next file does not fit keeps the greedy split ahead. */
  lemma AheadCut(est: File -> real, size: nat, target: real, files: seq<File>, closed: nat, current: seq<File>, f: File)
    requires NonNegative(est, files) && NonNegative(est, files + [f])
    requires StaysAhead(est, size, target, files, closed, current)
    requires current != [] && |current| <= |files| && current == files[|files| - |current|..]
    requires MustCut(est, size, target, current, f)
    ensures StaysAhead(est, size, target, files + [f], closed + 1, [f])
  {
    hide MustCut, NonNegative, Fits;
    forall other | ValidSplit(est, size, target, files + [f], other)
      ensures |other| > closed + 2 || (|other| == closed + 2 && 1 <= |other[|other| - 1]|)
    {
      var shorter := DropLast(est, size, target, files, f, other);
      var last := other[|other| - 1];
      if |last| > 1 && |other| <= closed + 1 {
        assert last in other;
        assert last == last[..|last| - 1] + [f];
        NoRoom(est, size, target, files, current, f, last);
      }
    }
  }

  lemma AheadFirst(est: File -> real, size: nat, target: real, f: File)
    ensures StaysAhead(est, size, target, [f], 0, [f])
  {
    forall other | ValidSplit(est, size, target, [f], other)
      ensures |other| > 1 || (|other| == 1 && 1 <= |other[|other| - 1]|)
    {
      assert other != [];
      if |other| == 1 {
        assert other[0] in other;
      }
    }
  }

  /** Every admissible split of the files has at least n groups. */
  ghost predicate Minimal(est: File -> real, size: nat, target: real, files: seq<File>, n: nat) {
    forall other | ValidSplit(est, size, target, files, other) :: n <= |other|
  }

  datatype SplitResult = Groups(groups: seq<seq<File>>) | SizeNotPositive | TargetNotPositive

  /** The greedy loop's state after the files seen so far: closed groups and one open group. */
  ghost predicate Greedy(est: File -> real, size: nat, target: real, seen: seq<File>, groups: seq<seq<File>>, current: seq<File>) {
    && Flatten(groups) + current == seen
    && (forall g | g in groups :: Fits(est, size, target, g))
    && (if seen == [] then groups == [] && current == [] else Fits(est, size, target, current))
    && (seen != [] && NonNegative(est, seen) ==> StaysAhead(est, size, target, seen, |groups|, current))
  }

  lemma GreedyStep(est: File -> real, size: nat, target: real, seen: seq<File>, groups: seq<seq<File>>, current: seq<File>, f: File)
    requires size > 0 && Greedy(est, size, target, seen, groups, current)
    ensures if MustCut(est, size, target, current, f)
            then Greedy(est, size, target, seen + [f], groups + [current], [f])
            else Greedy(est, size, target, seen + [f], groups, current + [f])
  {
    var next := seen + [f];
    assert next[..|seen|] == seen;
    if MustCut(est, size, target, current, f) {
      FlattenSnoc(groups, current);
      assert seen != [];
      assert current == seen[|seen| - |current|..];
      if NonNegative(est, next) {
        assert NonNegative(est, seen) by { assert forall g | g in seen :: g in next; }
        AheadCut(est, size, target, seen, |groups|, current, f);
      }
    } else {
      assert (current + [f])[..|current|] == current;
      if NonNegative(est, next) {
        if seen == [] {
          assert next == [f] && current + [f] == [f];
          AheadFirst(est, size, target, f);
        } else {
          assert NonNegative(est, seen) by { assert forall g | g in seen :: g in next; }
          AheadAppend(est, size, target, seen, |groups|, current, f);
        }
      }
    }
  }

  lemma GreedyDone(est: File -> real, size: nat, target: real, files: seq<File>, groups: seq<seq<File>>, current: seq<File>)
    requires Greedy(est, size, target, files, groups, current)
    ensures var all := if current != [] then groups + [current] else groups;
      && ValidSplit(est, size, target, files, all)
      && (NonNegative(est, files) ==> Minimal(est, size, target, files, |all|))
  {
    if current != [] { FlattenSnoc(groups, current); }
  }

  /** `_bounded_exclusive_groups`: an ordered, complete and admissible split that, for
      non-negative estimates, no admissible split beats in the number of groups. */
  method BoundedExclusiveGroups(files: seq<File>, est: File -> real, size: int, target: real) returns (r: SplitResult)
    ensures r.SizeNotPositive? <==> size <= 0
    ensures r.TargetNotPositive? <==> size > 0 && target <= 0.0
    ensures r.Groups? ==> ValidSplit(est, size, target, files, r.groups)
    ensures r.Groups? && NonNegative(est, files) ==> Minimal(est, size, target, files, |r.groups|)
  {
    hide Greedy, Minimal, ValidSplit, NonNegative;
    if size <= 0 { return SizeNotPositive; }
    if target <= 0.0 { return TargetNotPositive; }
    var groups, current, seconds := [], [], 0.0;
    GreedyStart(est, size, target);
    assert files[..0] == [];
    for i := 0 to |files|
      invariant seconds == Load(est, current) && Greedy(est, size, target, files[..i], groups, current)
    {
      var path := files[i];
      var estimate := est(path);
      GreedyStep(est, size, target, files[..i], groups, current, path);
      assert files[..i + 1] == files[..i] + [path];
      var exceedsTime := current != [] && seconds + estimate > target;
      var exceedsCount := |current| >= size;
      if exceedsTime || exceedsCount {
        groups := groups + [current];
        current := [];
        seconds := 0.0;
      }
      assert (current + [path])[..|current|] == current && [] + [path] == [path];
      current := current + [path];
      seconds := seconds + estimate;
    }
    assert files[..|files|] == files;
    GreedyDone(est, size, target, files, groups, current);
    if current != [] {
      groups := groups + [current];
    }
    r := Groups(groups);
  }

  lemma GreedyStart(est: File -> real, size: nat, target: real)
    ensures Greedy(est, size, target, [], [], [])
  {
  }

  // ----- parallel-safe files: capped longest-first balancing -----

  const PARALLEL_SHARD_SIZE: nat := 8

  function ShardCount(n: nat): nat { (n + PARALLEL_SHARD_SIZE - 1) / PARALLEL_SHARD_SIZE }

  /** The most files one group may get when n files go into ShardCount(n) groups. */
  function Cap(n: nat): nat
    requires n > 0
  {
    (n + ShardCount(n) - 1) / ShardCount(n)
  }

  lemma CapFacts(n: nat)
    requires n > 0
    ensures ShardCount(n) > 0 && 0 < Cap(n) <= PARALLEL_SHARD_SIZE
    ensures n <= ShardCount(n) * Cap(n)
    ensures (ShardCount(n) - 1) * Cap(n) < n
  {
    var c := ShardCount(n);
    DivFacts(n + c - 1, c);
    CapBounds(n, c, Cap(n));
  }

  lemma CapBounds(n: nat, c: nat, q: nat)
    requires 8 * (c - 1) < n <= 8 * c && c > 0
    requires c * q <= n + c - 1 < c * q + c
    ensures 0 < q <= 8 && n <= c * q && (c - 1) * q < n
  {
    if q > 8 {
      MulMonotone(c, 9, q);
      assert false;
    }
    MulMonotone(c - 1, q, 8);
  }

  lemma MulMonotone(c: nat, a: nat, b: nat)
    requires a <= b
    ensures c * a <= c * b
  {
    assert c * (b - a) >= 0;
  }

  lemma DivFacts(a: nat, c: nat)
    requires c > 0
    ensures c * (a / c) <= a < c * (a / c) + c
  {
    assert a == c * (a / c) + a % c;
  }

  /** Path order compares the components between slashes. */
  function Parts(f: File): (r: seq<string>)
    ensures r != []
  {
    if f == "" then [""]
    else
      var rest := Parts(f[1..]);
      if f[0] == '/' then [""] + rest else [[f[0]] + rest[0]] + rest[1..]
  }

  function LeqPath(a: File, b: File): bool { LeqStrings(Parts(a), Parts(b)) }

  /** Longest estimate first, ties by path text. */
  function LeqRank(est: File -> real): (File, File) -> bool {
    (a, b) => est(a) > est(b) || (est(a) == est(b) && LeqString(a, b))
  }

  lemma GroupOrders(est: File -> real)
    ensures TotalPreorder(LeqPath) && TotalPreorder(LeqRank(est))
  {
    StringOrder();
    StringsOrder();
  }

  lemma {:induction false} LoadInsert(est: File -> real, leq: (File, File) -> bool, x: File, s: seq<File>)
    ensures Load(est, Insert(leq, x, s)) == est(x) + Load(est, s)
  {
    assert Load(est, [x]) == est(x);
    if s == [] || leq(x, s[0]) {
      LoadAppend(est, [x], s);
    } else {
      LoadInsert(est, leq, x, s[1..]);
      LoadAppend(est, [s[0]], Insert(leq, x, s[1..]));
      LoadAppend(est, [s[0]], s[1..]);
      assert s == [s[0]] + s[1..];
    }
  }

  lemma {:induction false} LoadSort(est: File -> real, leq: (File, File) -> bool, s: seq<File>)
    ensures Load(est, Sort(leq, s)) == Load(est, s)
  {
    if s != [] {
      LoadSort(est, leq, s[1..]);
      LoadInsert(est, leq, s[0], Sort(leq, s[1..]));
      LoadAppend(est, [s[0]], s[1..]);
      assert s == [s[0]] + s[1..] && Load(est, [s[0]]) == est(s[0]);
    }
  }

  /** One heap entry: a bucket's load and its number. */
  datatype Entry = Entry(load: real, index: nat)

  predicate LeqEntry(a: Entry, b: Entry) {
    a.load < b.load || (a.load == b.load && a.index <= b.index)
  }

  /** `heappop`: removes a least entry. */
  method PopLeast(queue: seq<Entry>) returns (least: Entry, rest: seq<Entry>)
    requires queue != []
    ensures least in queue && forall e | e in queue :: LeqEntry(least, e)
    ensures exists k | 0 <= k < |queue| :: queue[k] == least && rest == queue[..k] + queue[k + 1..]
  {
    var k := 0;
    for i := 1 to |queue|
      invariant 0 <= k < i && forall j | 0 <= j < i :: LeqEntry(queue[k], queue[j])
    {
      if !LeqEntry(queue[k], queue[i]) { k := i; }
    }
    least, rest := queue[k], queue[..k] + queue[k + 1..];
  }

  /** The heap lists each bucket below the cap once, with its true load, and no other bucket. */
  ghost predicate HeapExact(est: File -> real, cap: nat, buckets: seq<seq<File>>, queue: seq<Entry>) {
    && (forall e | e in queue :: e.index < |buckets| && |buckets[e.index]| < cap && e.load == Load(est, buckets[e.index]))
    && (forall b | 0 <= b < |buckets| && |buckets[b]| < cap :: Entry(Load(est, buckets[b]), b) in queue)
    && (forall i, j | 0 <= i < j < |queue| :: queue[i].index != queue[j].index)
  }

  /** Without its last file, no group outweighs a group that still has room. */
  ghost predicate Balanced(est: File -> real, cap: nat, buckets: seq<seq<File>>) {
    forall a, b | 0 <= a < |buckets| && 0 <= b < |buckets| && buckets[a] != [] && |buckets[b]| < cap ::
      Load(est, buckets[a][..|buckets[a]| - 1]) <= Load(est, buckets[b])
  }

  /** The last file of every group is one of its shortest. */
  ghost predicate LastIsLeast(est: File -> real, buckets: seq<seq<File>>) {
    forall a, f | 0 <= a < |buckets| && f in buckets[a] :: est(buckets[a][|buckets[a]| - 1]) <= est(f)
  }

  ghost predicate Capped(cap: nat, buckets: seq<seq<File>>) {
    forall b | 0 <= b < |buckets| :: |buckets[b]| <= cap
  }

  lemma {:induction false} FlattenLength<T>(groups: seq<seq<T>>, cap: nat)
    requires forall b | 0 <= b < |groups| :: |groups[b]| <= cap
    ensures |Flatten(groups)| <= |groups| * cap
    ensures (forall b | 0 <= b < |groups| :: |groups[b]| == cap) ==> |Flatten(groups)| == |groups| * cap
    ensures (exists b | 0 <= b < |groups| :: |groups[b]| == 0) ==> |Flatten(groups)| <= (|groups| - 1) * cap
  {
    if groups != [] {
      var n := |groups| - 1;
      FlattenLength(groups[..n], cap);
      assert |groups| * cap == n * cap + cap;
      if b :| 0 <= b < |groups| && |groups[b]| == 0 {
        if b < n {
          assert |groups[..n][b]| == 0;
          assert (n - 1) * cap + cap == n * cap;
        }
      }
    }
  }

  lemma {:induction false} FlattenUpdate<T>(groups: seq<seq<T>>, b: nat, x: T)
    requires b < |groups|
    ensures multiset(Flatten(groups[b := groups[b] + [x]])) == multiset(Flatten(groups)) + multiset{x}
  {
    var n := |groups| - 1;
    var next := groups[b := groups[b] + [x]];
    if b < n {
      FlattenUpdate(groups[..n], b, x);
      assert next[..n] == groups[..n][b := groups[..n][b] + [x]];
    } else {
      assert next[..n] == groups[..n];
    }
  }

  lemma {:induction false} FlattenEmpty<T>(groups: seq<seq<T>>)
    requires forall b | 0 <= b < |groups| :: groups[b] == []
    ensures Flatten(groups) == []
  {
    if groups != [] { FlattenEmpty(groups[..|groups| - 1]); }
  }

  lemma {:induction false} FlattenMember<T>(groups: seq<seq<T>>, x: T)
    ensures x in Flatten(groups) <==> exists b :: 0 <= b < |groups| && x in groups[b]
  {
    if groups != [] {
      var n := |groups| - 1;
      FlattenMember(groups[..n], x);
      assert forall b | 0 <= b < n :: groups[..n][b] == groups[b];
    }
  }

  lemma RemovedEntry(queue: seq<Entry>, k: nat)
    requires k < |queue| && forall i, j | 0 <= i < j < |queue| :: queue[i].index != queue[j].index
    ensures var rest := queue[..k] + queue[k + 1..];
      && (forall d | d in rest :: d in queue && d.index != queue[k].index)
      && (forall i, j | 0 <= i < j < |rest| :: rest[i].index != rest[j].index)
      && (forall d | d in queue && d.index != queue[k].index :: d in rest)
  {
    var rest := queue[..k] + queue[k + 1..];
    forall d | d in rest ensures d in queue && d.index != queue[k].index {
      var i :| 0 <= i < |rest| && rest[i] == d;
      assert rest[i] == queue[if i < k then i else i + 1];
    }
    forall i, j | 0 <= i < j < |rest| ensures rest[i].index != rest[j].index {
      assert rest[i] == queue[if i < k then i else i + 1] && rest[j] == queue[if j < k then j else j + 1];
    }
  }

  /** The heap after bucket queue[k] took one more file: back in if it still has room. */
  function Requeue(queue: seq<Entry>, k: nat, load: real, room: bool): seq<Entry>
    requires k < |queue|
  {
    var rest := queue[..k] + queue[k + 1..];
    if room then rest + [Entry(load, queue[k].index)] else rest
  }

  /** Adding a file to the lightest bucket with room keeps the heap exact. */
  lemma HeapStep(est: File -> real, cap: nat, buckets: seq<seq<File>>, queue: seq<Entry>, k: nat, f: File,
                 buckets': seq<seq<File>>, queue': seq<Entry>)
    requires HeapExact(est, cap, buckets, queue) && k < |queue| && queue[k].index < |buckets|
    requires buckets' == buckets[queue[k].index := buckets[queue[k].index] + [f]]
    requires queue' == Requeue(queue, k, queue[k].load + est(f), |buckets[queue[k].index]| + 1 < cap)
    ensures HeapExact(est, cap, buckets', queue')
  {
    hide Load;
    var e := queue[k];
    assert e in queue;
    var grown := buckets[e.index] + [f];
    LoadSnoc(est, buckets[e.index], f);
    var rest := queue[..k] + queue[k + 1..];
    RemovedEntry(queue, k);
    forall d | d in queue'
      ensures d.index < |buckets'| && |buckets'[d.index]| < cap && d.load == Load(est, buckets'[d.index])
    {
      assert d in rest || d == Entry(e.load + est(f), e.index);
    }
    forall b | 0 <= b < |buckets'| && |buckets'[b]| < cap
      ensures Entry(Load(est, buckets'[b]), b) in queue'
    {
      if b == e.index {
        assert queue'[|rest|] == Entry(e.load + est(f), b);
      } else {
        assert Entry(Load(est, buckets[b]), b) in rest;
      }
    }
  }

  lemma BalancedStep(est: File -> real, cap: nat, buckets: seq<seq<File>>, queue: seq<Entry>, e: Entry, f: File)
    requires HeapExact(est, cap, buckets, queue) && e in queue && forall d | d in queue :: LeqEntry(e, d)
    requires Balanced(est, cap, buckets) && est(f) >= 0.0
    ensures Balanced(est, cap, buckets[e.index := buckets[e.index] + [f]])
  {
    var grown := buckets[e.index] + [f];
    var buckets' := buckets[e.index := grown];
    assert grown[..|grown| - 1] == buckets[e.index];
    forall a, b | 0 <= a < |buckets'| && 0 <= b < |buckets'| && buckets'[a] != [] && |buckets'[b]| < cap
      ensures Load(est, buckets'[a][..|buckets'[a]| - 1]) <= Load(est, buckets'[b])
    {
      assert |buckets[b]| < cap;
      assert LeqEntry(e, Entry(Load(est, buckets[b]), b));
    }
  }

  /** The balancer's state after placing `done`; the heap is never empty while files remain. */
  ghost predicate Placing(est: File -> real, cap: nat, done: seq<File>, buckets: seq<seq<File>>, queue: seq<Entry>) {
    && HeapExact(est, cap, buckets, queue) && Capped(cap, buckets) && LastIsLeast(est, buckets)
    && multiset(Flatten(buckets)) == multiset(done)
    && (NonNegative(est, done) ==> Balanced(est, cap, buckets))
  }

  lemma AllFull(est: File -> real, cap: nat, buckets: seq<seq<File>>)
    requires HeapExact(est, cap, buckets, []) && Capped(cap, buckets)
    ensures forall b | 0 <= b < |buckets| :: |buckets[b]| == cap
  {
    forall b | 0 <= b < |buckets| ensures |buckets[b]| == cap {
      if |buckets[b]| < cap {
        assert false;
      }
    }
  }

  lemma HeapNotEmpty(est: File -> real, cap: nat, done: seq<File>, buckets: seq<seq<File>>, queue: seq<Entry>)
    requires Placing(est, cap, done, buckets, queue) && |done| < |buckets| * cap
    ensures queue != []
  {
    assert |multiset(Flatten(buckets))| == |multiset(done)|;
    FlattenLength(buckets, cap);
    if queue == [] {
      AllFull(est, cap, buckets);
      assert false;
    }
  }

  lemma PlacingStep(est: File -> real, cap: nat, done: seq<File>, buckets: seq<seq<File>>, queue: seq<Entry>, k: nat, f: File,
                    buckets': seq<seq<File>>, queue': seq<Entry>)
    requires Placing(est, cap, done, buckets, queue) && k < |queue| && queue[k].index < |buckets|
    requires buckets' == buckets[queue[k].index := buckets[queue[k].index] + [f]]
    requires queue' == Requeue(queue, k, queue[k].load + est(f), |buckets[queue[k].index]| + 1 < cap)
    requires forall d | d in queue :: LeqEntry(queue[k], d)
    requires forall d | d in done :: est(f) <= est(d)
    ensures Placing(est, cap, done + [f], buckets', queue')
  {
    var e := queue[k];
    assert e in queue;
    HeapStep(est, cap, buckets, queue, k, f, buckets', queue');
    FlattenUpdate(buckets, e.index, f);
    var next := done + [f];
    if NonNegative(est, next) {
      assert NonNegative(est, done) by { assert forall g | g in done :: g in next; }
      assert f in next;
      BalancedStep(est, cap, buckets, queue, e, f);
    }
    forall a, g | 0 <= a < |buckets'| && g in buckets'[a]
      ensures est(buckets'[a][|buckets'[a]| - 1]) <= est(g)
    {
      if a == e.index && g != f {
        FlattenMember(buckets, g);
        assert g in multiset(Flatten(buckets));
        assert g in done;
      }
    }
  }

  /** What the balancer returns: a partition of the files into as few groups as 8 files each allow, none empty and none with more
      files than an even share, rounded up. */
  ghost predicate EvenGroups(files: seq<File>, groups: seq<seq<File>>) {
    && (if files == [] then groups == [] else PARALLEL_SHARD_SIZE * (|groups| - 1) < |files| <= PARALLEL_SHARD_SIZE * |groups|)
    && multiset(Flatten(groups)) == multiset(files)
    && (forall b | 0 <= b < |groups| :: 0 < |groups[b]| <= PARALLEL_SHARD_SIZE && Sorted(LeqPath, groups[b]))
    && (forall b | 0 <= b < |groups| :: BelowShare(|files|, |groups|, |groups[b]| - 1))
  }

  /** A group of this size has less than an even share of n files. */
  ghost predicate BelowShare(n: nat, groups: nat, size: int) { size * groups < n }

  /** The cap is an even share, rounded up. */
  lemma CapIsShare(n: nat, size: int)
    requires n > 0 && size >= 0
    ensures size < Cap(n) <==> BelowShare(n, ShardCount(n), size)
    ensures PARALLEL_SHARD_SIZE * (ShardCount(n) - 1) < n <= PARALLEL_SHARD_SIZE * ShardCount(n)
  {
    CapFacts(n);
    var c, cap := ShardCount(n), Cap(n);
    DivFacts(n + c - 1, c);
    assert c * cap <= n + c - 1;
    if size < cap {
      MulMonotone(c, size + 1, cap);
      assert c * (size + 1) == c * size + c;
    } else {
      MulMonotone(c, cap, size);
    }
  }

  /** f is a shortest file of g. */
  ghost predicate Shortest(est: File -> real, g: seq<File>, f: File) {
    f in g && forall d | d in g :: est(f) <= est(d)
  }

  /** Taking a shortest file out of any group leaves no more than any group with less than an even share carries. */
  ghost predicate NearBalanced(est: File -> real, n: nat, groups: seq<seq<File>>) {
    forall a, b, f | 0 <= a < |groups| && 0 <= b < |groups| && BelowShare(n, |groups|, |groups[b]|) && Shortest(est, groups[a], f) ::
      Load(est, groups[a]) - est(f) <= Load(est, groups[b])
  }

  lemma NoEmptyBucket(est: File -> real, files: seq<File>, buckets: seq<seq<File>>, queue: seq<Entry>)
    requires files != [] && |buckets| == ShardCount(|files|) && Placing(est, Cap(|files|), files, buckets, queue)
    ensures forall b | 0 <= b < |buckets| :: buckets[b] != []
  {
    CapFacts(|files|);
    FlattenLength(buckets, Cap(|files|));
    assert |multiset(Flatten(buckets))| == |multiset(files)|;
  }

  lemma {:induction false} FlattenSorted(leq: (File, File) -> bool, a: seq<seq<File>>, b: seq<seq<File>>)
    requires |a| == |b| && forall i | 0 <= i < |a| :: b[i] == Sort(leq, a[i])
    ensures multiset(Flatten(a)) == multiset(Flatten(b))
  {
    if a != [] {
      FlattenSorted(leq, a[..|a| - 1], b[..|b| - 1]);
    }
  }

  lemma SortedGroups(est: File -> real, files: seq<File>, buckets: seq<seq<File>>, groups: seq<seq<File>>, queue: seq<Entry>)
    requires files != [] && |buckets| == ShardCount(|files|) && Placing(est, Cap(|files|), files, buckets, queue)
    requires |groups| == |buckets| && forall i | 0 <= i < |groups| :: groups[i] == Sort(LeqPath, buckets[i])
    ensures EvenGroups(files, groups)
    ensures NonNegative(est, files) ==> NearBalanced(est, |files|, groups)
  {
    hide Sort, Cap, ShardCount, BelowShare, Sorted, Load, Shortest, HeapExact, Flatten, LeqPath, LastIsLeast;
    CapFacts(|files|);
    NoEmptyBucket(est, files, buckets, queue);
    FlattenSorted(LeqPath, buckets, groups);
    forall b | 0 <= b < |groups| ensures SortedAs(est, buckets[b], groups[b]) { SortedGroup(est, buckets[b]); }
    CapIsShare(|files|, 0);
    forall b | 0 <= b < |groups|
      ensures 0 < |groups[b]| <= PARALLEL_SHARD_SIZE && Sorted(LeqPath, groups[b]) && BelowShare(|files|, |groups|, |groups[b]| - 1)
    {
      assert SortedAs(est, buckets[b], groups[b]) && buckets[b] != [] && |buckets[b]| <= Cap(|files|);
      CapIsShare(|files|, |groups[b]| - 1);
    }
    if NonNegative(est, files) { SortedBalanced(est, |files|, buckets, groups); }
  }

  /** A bucket and the group made of it differ only in order. */
  ghost predicate SortedAs(est: File -> real, bucket: seq<File>, group: seq<File>) {
    && Sorted(LeqPath, group) && |group| == |bucket| && Load(est, group) == Load(est, bucket)
    && forall d :: d in group <==> d in bucket
  }

  lemma SortedGroup(est: File -> real, bucket: seq<File>)
    ensures SortedAs(est, bucket, Sort(LeqPath, bucket))
  {
    hide LeqPath, Load;
    GroupOrders(est);
    SortSorts(LeqPath, bucket);
    LoadSort(est, LeqPath, bucket);
    SortElements(LeqPath, bucket);
  }

  lemma SortedBalanced(est: File -> real, n: nat, buckets: seq<seq<File>>, groups: seq<seq<File>>)
    requires n > 0 && |groups| == |buckets| == ShardCount(n) && (forall i | 0 <= i < |groups| :: SortedAs(est, buckets[i], groups[i]))
    requires Balanced(est, Cap(n), buckets) && LastIsLeast(est, buckets)
    ensures NearBalanced(est, n, groups)
  {
    hide Load, LeqPath, Sorted, Cap, ShardCount, BelowShare;
    forall a, b, f | 0 <= a < |groups| && 0 <= b < |groups| && BelowShare(n, |groups|, |groups[b]|) && Shortest(est, groups[a], f)
      ensures Load(est, groups[a]) - est(f) <= Load(est, groups[b])
    {
      CapIsShare(n, |groups[b]|);
      assert SortedAs(est, buckets[a], groups[a]) && SortedAs(est, buckets[b], groups[b]);
      var last := |buckets[a]| - 1;
      assert f in buckets[a] && buckets[a][last] in groups[a];
      assert buckets[a] == buckets[a][..last] + [buckets[a][last]];
      LoadSnoc(est, buckets[a][..last], buckets[a][last]);
    }
  }

  /** `_balanced_parallel_groups`. */
  method BalancedParallelGroups(files: seq<File>, est: File -> real) returns (groups: seq<seq<File>>)
    ensures EvenGroups(files, groups)
    ensures NonNegative(est, files) ==> NearBalanced(est, |files|, groups)
  {
    hide Placing, EvenGroups, NearBalanced, NonNegative, Sort, Cap, ShardCount;
    if files == [] {
      NoFiles();
      groups := [];
      return;
    }
    CapFacts(|files|);
    var shardCount, maxFiles := ShardCount(|files|), Cap(|files|);
    var buckets: seq<seq<File>> := seq(shardCount, _ => []);
    var queue := seq(shardCount, i requires 0 <= i => Entry(0.0, i));
    PlacingStart(est, maxFiles, buckets, queue);
    var ranked := Sort(LeqRank(est), files);
    GroupOrders(est);
    SortSorts(LeqRank(est), files);
    assert ranked[..0] == [];
    for i := 0 to |ranked|
      invariant |buckets| == shardCount && Placing(est, maxFiles, ranked[..i], buckets, queue)
    {
      var path := ranked[i];
      HeapNotEmpty(est, maxFiles, ranked[..i], buckets, queue);
      var least, rest := PopLeast(queue);
      ghost var k :| 0 <= k < |queue| && queue[k] == least && rest == queue[..k] + queue[k + 1..];
      RankedAfter(est, ranked, i);
      assert ranked[..i + 1] == ranked[..i] + [path];
      ghost var before, queued := buckets, queue;
      HeapIndex(est, maxFiles, ranked[..i], buckets, queue, least);
      buckets := buckets[least.index := buckets[least.index] + [path]];
      queue := rest;
      if |buckets[least.index]| < maxFiles {
        queue := queue + [Entry(least.load + est(path), least.index)];
      }
      PlacingStep(est, maxFiles, ranked[..i], before, queued, k, path, buckets, queue);
    }
    assert ranked[..|ranked|] == ranked;
    PlacingPermuted(est, maxFiles, ranked, files, buckets, queue);
    NoEmptyBucket(est, files, buckets, queue);
    groups := [];
    for b := 0 to |buckets|
      invariant |groups| == b && forall i | 0 <= i < b :: groups[i] == Sort(LeqPath, buckets[i])
    {
      if buckets[b] != [] {
        groups := groups + [Sort(LeqPath, buckets[b])];
      }
    }
    SortedGroups(est, files, buckets, groups, queue);
  }

  lemma HeapIndex(est: File -> real, cap: nat, done: seq<File>, buckets: seq<seq<File>>, queue: seq<Entry>, e: Entry)
    requires Placing(est, cap, done, buckets, queue) && e in queue
    ensures e.index < |buckets|
  {
  }

  lemma NoFiles()
    ensures EvenGroups([], []) && forall est :: NearBalanced(est, 0, [])
  {
  }

  lemma RankedAfter(est: File -> real, ranked: seq<File>, i: nat)
    requires i < |ranked| && Sorted(LeqRank(est), ranked)
    ensures forall d | d in ranked[..i] :: est(ranked[i]) <= est(d)
  {
    forall d | d in ranked[..i] ensures est(ranked[i]) <= est(d) {
      var j :| 0 <= j < i && ranked[j] == d;
      assert LeqRank(est)(ranked[j], ranked[i]);
    }
  }

  lemma PlacingPermuted(est: File -> real, cap: nat, a: seq<File>, b: seq<File>, buckets: seq<seq<File>>, queue: seq<Entry>)
    requires Placing(est, cap, a, buckets, queue) && multiset(a) == multiset(b)
    ensures Placing(est, cap, b, buckets, queue)
  {
    if NonNegative(est, b) {
      forall f | f in a ensures est(f) >= 0.0 {
        assert f in multiset(a);
        assert f in b;
      }
    }
  }

  lemma PlacingStart(est: File -> real, cap: nat, buckets: seq<seq<File>>, queue: seq<Entry>)
    requires |queue| == |buckets| && cap > 0
    requires forall b | 0 <= b < |buckets| :: buckets[b] == [] && queue[b] == Entry(0.0, b)
    ensures Placing(est, cap, [], buckets, queue)
  {
    FlattenEmpty(buckets);
    forall b | 0 <= b < |buckets| && |buckets[b]| < cap
      ensures Entry(Load(est, buckets[b]), b) in queue
    {
      assert queue[b] in queue;
    }
  }
}
