/** Total orders, lexicographic comparison and the stable sort that the scripts rely on. */
module Ordering {

  ghost predicate TotalOrder<T(!new)>(leq: (T, T) -> bool) {
    && (forall a, b :: leq(a, b) || leq(b, a))
    && (forall a, b :: leq(a, b) && leq(b, a) ==> a == b)
    && (forall a, b, c :: leq(a, b) && leq(b, c) ==> leq(a, c))
  }

  /** A total preorder: like a total order, but two different values may tie. */
  ghost predicate TotalPreorder<T(!new)>(leq: (T, T) -> bool) {
    && (forall a, b :: leq(a, b) || leq(b, a))
    && (forall a, b, c :: leq(a, b) && leq(b, c) ==> leq(a, c))
  }

  ghost predicate Sorted<T>(leq: (T, T) -> bool, s: seq<T>) {
    forall i, j | 0 <= i < j < |s| :: leq(s[i], s[j])
  }

  ghost predicate NoDuplicates<T>(s: seq<T>) {
    forall i, j | 0 <= i < j < |s| :: s[i] != s[j]
  }

  /** Positions in a list of length n, from front to back. */
  ghost predicate Increasing(at: seq<int>, n: int) {
    (forall k | 0 <= k < |at| :: 0 <= at[k] < n) && forall j, k | 0 <= j < k < |at| :: at[j] < at[k]
  }

  function Elements<T>(s: seq<T>): set<T> {
    set x | x in s
  }

  function Insert<T>(leq: (T, T) -> bool, x: T, s: seq<T>): (r: seq<T>)
    ensures multiset(r) == multiset{x} + multiset(s)
  {
    if s == [] || leq(x, s[0]) then
      assert [x] + s == [x] + s;
      [x] + s
    else
      assert s == [s[0]] + s[1..];
      [s[0]] + Insert(leq, x, s[1..])
  }

  /** Stable insertion sort: equal keys keep their order. */
  function Sort<T>(leq: (T, T) -> bool, s: seq<T>): (r: seq<T>)
    ensures multiset(r) == multiset(s)
    ensures |r| == |s|
  {
    if s == [] then []
    else
      assert s == [s[0]] + s[1..];
      var r := Insert(leq, s[0], Sort(leq, s[1..]));
      assert |multiset(r)| == |multiset(s)|;
      r
  }

  lemma {:induction false} InsertSorted<T(!new)>(leq: (T, T) -> bool, x: T, s: seq<T>)
    requires TotalPreorder(leq) && Sorted(leq, s)
    ensures Sorted(leq, Insert(leq, x, s))
  {
    if s == [] {
    } else if leq(x, s[0]) {
      forall i | 0 <= i < |s| ensures leq(x, s[i]) {}
    } else {
      InsertSorted(leq, x, s[1..]);
      var r := Insert(leq, x, s[1..]);
      forall i | 0 <= i < |r| ensures leq(s[0], r[i]) {
        assert r[i] in multiset{x} + multiset(s[1..]);
        if r[i] != x {
          assert r[i] in s[1..];
        }
      }
    }
  }

  /** Sort returns a sorted list for every total preorder. */
  lemma {:induction false} SortSorts<T(!new)>(leq: (T, T) -> bool, s: seq<T>)
    requires TotalPreorder(leq)
    ensures Sorted(leq, Sort(leq, s))
  {
    if s != [] {
      SortSorts(leq, s[1..]);
      InsertSorted(leq, s[0], Sort(leq, s[1..]));
    }
  }

  /** A sorted list stays as it is. */
  lemma {:induction false} SortedStays<T>(leq: (T, T) -> bool, s: seq<T>)
    requires Sorted(leq, s)
    ensures Sort(leq, s) == s
  {
    if s != [] {
      SortedStays(leq, s[1..]);
      assert s == [s[0]] + s[1..];
    }
  }

  lemma SortElements<T>(leq: (T, T) -> bool, s: seq<T>)
    ensures forall x :: x in Sort(leq, s) <==> x in s
  {
    var r := Sort(leq, s);
    forall x ensures x in r <==> x in s {
      assert x in r <==> x in multiset(r);
      assert x in s <==> x in multiset(s);
    }
  }

  lemma NoDuplicatesByCount<T>(s: seq<T>)
    ensures NoDuplicates(s) <==> forall x :: x in s ==> multiset(s)[x] == 1
  {
    if forall x :: x in s ==> multiset(s)[x] == 1 {
      forall i, j | 0 <= i < j < |s| ensures s[i] != s[j] {
        assert s == s[..j] + s[j..];
        assert s[i] in s[..j] && s[j] in s[j..];
        assert multiset(s)[s[i]] == multiset(s[..j])[s[i]] + multiset(s[j..])[s[i]];
      }
    }
    if NoDuplicates(s) {
      forall x | x in s ensures multiset(s)[x] == 1 {
        var i :| 0 <= i < |s| && s[i] == x;
        assert s == s[..i] + [x] + s[i + 1..];
        assert x !in s[..i] && x !in s[i + 1..];
      }
    }
  }

  lemma SortNoDuplicates<T>(leq: (T, T) -> bool, s: seq<T>)
    ensures NoDuplicates(Sort(leq, s)) <==> NoDuplicates(s)
  {
    NoDuplicatesByCount(s);
    NoDuplicatesByCount(Sort(leq, s));
    SortElements(leq, s);
  }

  lemma HeadIsLeast<T(!new)>(leq: (T, T) -> bool, a: seq<T>, x: T)
    requires forall y :: leq(y, y)
    requires Sorted(leq, a) && x in a
    ensures leq(a[0], x)
  {
    var i :| 0 <= i < |a| && a[i] == x;
  }

  lemma TailMultiset<T>(a: seq<T>)
    requires a != []
    ensures multiset(a[1..]) == multiset(a) - multiset{a[0]}
  {
    assert a == [a[0]] + a[1..];
  }

  /** A sorted list is determined by its multiset, so the order in which items were
      collected before sorting never shows in the result. */
  lemma {:induction false} SortedUnique<T(!new)>(leq: (T, T) -> bool, a: seq<T>, b: seq<T>)
    requires forall x :: leq(x, x)
    requires forall x, y :: leq(x, y) && leq(y, x) ==> x == y
    requires Sorted(leq, a) && Sorted(leq, b)
    requires multiset(a) == multiset(b)
    ensures a == b
  {
    assert |multiset(a)| == |a| && |multiset(b)| == |b|;
    if a != [] {
      assert a[0] in multiset(b) && b[0] in multiset(a);
      HeadIsLeast(leq, a, b[0]);
      HeadIsLeast(leq, b, a[0]);
      TailMultiset(a);
      TailMultiset(b);
      SortedUnique(leq, a[1..], b[1..]);
      assert a == [a[0]] + a[1..] && b == [b[0]] + b[1..];
    }
  }

  /** Two sorted duplicate-free lists with the same members are the same list. */
  lemma SortedSetUnique<T(!new)>(leq: (T, T) -> bool, a: seq<T>, b: seq<T>)
    requires TotalOrder(leq) && Sorted(leq, a) && Sorted(leq, b)
    requires NoDuplicates(a) && NoDuplicates(b)
    requires forall x :: x in a <==> x in b
    ensures a == b
  {
    NoDuplicatesByCount(a);
    NoDuplicatesByCount(b);
    forall x ensures multiset(a)[x] == multiset(b)[x] {
      assert x in a <==> x in multiset(a);
      assert x in b <==> x in multiset(b);
    }
    assert multiset(a) == multiset(b);
    SortedUnique(leq, a, b);
  }

  // ----- lexicographic order -----

  function LexLeq<T(==)>(leq: (T, T) -> bool, a: seq<T>, b: seq<T>): bool {
    if a == [] then true
    else if b == [] then false
    else if a[0] == b[0] then LexLeq(leq, a[1..], b[1..])
    else leq(a[0], b[0])
  }

  lemma {:induction false} LexTotal<T(!new)>(leq: (T, T) -> bool, a: seq<T>, b: seq<T>)
    requires TotalOrder(leq)
    ensures LexLeq(leq, a, b) || LexLeq(leq, b, a)
    ensures LexLeq(leq, a, b) && LexLeq(leq, b, a) ==> a == b
  {
    if a != [] && b != [] {
      if a[0] == b[0] {
        LexTotal(leq, a[1..], b[1..]);
        assert a == [a[0]] + a[1..] && b == [b[0]] + b[1..];
      }
    }
  }

  lemma {:induction false} LexTransitive<T(!new)>(leq: (T, T) -> bool, a: seq<T>, b: seq<T>, c: seq<T>)
    requires TotalOrder(leq)
    requires LexLeq(leq, a, b) && LexLeq(leq, b, c)
    ensures LexLeq(leq, a, c)
  {
    if a != [] && a[0] == b[0] == c[0] {
      LexTransitive(leq, a[1..], b[1..], c[1..]);
    }
  }

  /** The first difference decides; without one the shorter list comes first. */
  ghost predicate FirstDifference<T(!new)>(leq: (T, T) -> bool, a: seq<T>, b: seq<T>) {
    a <= b || exists k | 0 <= k < |a| && k < |b| :: a[..k] == b[..k] && a[k] != b[k] && leq(a[k], b[k])
  }

  lemma {:induction false} LexMeans<T(!new)>(leq: (T, T) -> bool, a: seq<T>, b: seq<T>)
    ensures LexLeq(leq, a, b) <==> FirstDifference(leq, a, b)
  {
    if a != [] && b != [] {
      if a[0] == b[0] {
        LexMeans(leq, a[1..], b[1..]);
        assert a == [a[0]] + a[1..] && b == [b[0]] + b[1..];
        if k :| 0 <= k < |a| && k < |b| && a[..k] == b[..k] && a[k] != b[k] && leq(a[k], b[k]) {
          assert a[1..][..k - 1] == a[..k][1..] == b[..k][1..] == b[1..][..k - 1];
          assert a[1..][k - 1] == a[k] && b[1..][k - 1] == b[k];
        }
        if k :| 0 <= k < |a[1..]| && k < |b[1..]| && a[1..][..k] == b[1..][..k] && a[1..][k] != b[1..][k] && leq(a[1..][k], b[1..][k]) {
          assert a[..k + 1] == [a[0]] + a[1..][..k] && b[..k + 1] == [b[0]] + b[1..][..k];
          assert a[k + 1] == a[1..][k] && b[k + 1] == b[1..][k];
        }
      } else {
        assert a[..0] == b[..0];
        forall k | 0 < k < |a| && k < |b| ensures a[..k] != b[..k] { assert a[..k][0] == a[0] && b[..k][0] == b[0]; }
      }
    }
  }

  function LeqChar(a: char, b: char): bool { a <= b }

  /** Python compares strings by code point, first difference decides. */
  function LeqString(a: string, b: string): bool { LexLeq(LeqChar, a, b) }

  lemma StringMeans(a: string, b: string)
    ensures LeqString(a, b) <==> a <= b || exists k | 0 <= k < |a| && k < |b| :: a[..k] == b[..k] && a[k] < b[k]
  {
    LexMeans(LeqChar, a, b);
    if k :| 0 <= k < |a| && k < |b| && a[..k] == b[..k] && a[k] < b[k] { assert a[k] != b[k] && LeqChar(a[k], b[k]); }
  }

  /** Lists of strings compare element by element. */
  function LeqStrings(a: seq<string>, b: seq<string>): bool { LexLeq(LeqString, a, b) }

  lemma StringOrder()
    ensures TotalOrder(LeqString)
  {
    assert TotalOrder(LeqChar);
    forall a, b ensures LeqString(a, b) || LeqString(b, a)
      ensures LeqString(a, b) && LeqString(b, a) ==> a == b
    {
      LexTotal(LeqChar, a, b);
    }
    forall a, b, c | LeqString(a, b) && LeqString(b, c) ensures LeqString(a, c) {
      LexTransitive(LeqChar, a, b, c);
    }
  }

  lemma StringsOrder()
    ensures TotalOrder(LeqStrings)
  {
    StringOrder();
    forall a, b ensures LeqStrings(a, b) || LeqStrings(b, a)
      ensures LeqStrings(a, b) && LeqStrings(b, a) ==> a == b
    {
      LexTotal(LeqString, a, b);
    }
    forall a, b, c | LeqStrings(a, b) && LeqStrings(b, c) ensures LeqStrings(a, c) {
      LexTransitive(LeqString, a, b, c);
    }
  }

  lemma SortStep(x: string, r: seq<string>, next: seq<string>)
    requires Sorted(LeqString, r) && NoDuplicates(r) && x !in r
    requires next == Sort(LeqString, [x] + r)
    ensures Sorted(LeqString, next) && NoDuplicates(next)
    ensures forall y :: y in next <==> y == x || y in r
  {
    StringOrder();
    SortSorts(LeqString, [x] + r);
    SortNoDuplicates(LeqString, [x] + r);
    SortElements(LeqString, [x] + r);
  }

  /** `sorted(s)` of a set of strings: its members, each once, in order. */
  method SortedSet(s: set<string>) returns (r: seq<string>)
    ensures Sorted(LeqString, r) && NoDuplicates(r)
    ensures forall x :: x in r <==> x in s
    ensures |r| == |s|
  {
    r := [];
    var todo := s;
    while todo != {}
      invariant todo <= s && Sorted(LeqString, r) && NoDuplicates(r)
      invariant forall x :: x in r <==> x in s - todo
      invariant |r| + |todo| == |s|
    {
      var x :| x in todo;
      todo := todo - {x};
      var next := Sort(LeqString, [x] + r);
      SortStep(x, r, next);
      r := next;
    }
  }

  lemma AnyOf<T>(s: set<T>) returns (x: T)
    requires s != {}
    ensures x in s
  {
    x :| x in s;
  }

  function LeqInt(a: int, b: int): bool { a <= b }

  /** `sorted(s)` of a set of integers. */
  method SortedInts(s: set<int>) returns (r: seq<int>)
    ensures Sorted(LeqInt, r) && NoDuplicates(r) && forall k :: k in r <==> k in s
  {
    var keys: seq<int>, todo: set<int> := [], s;
    while todo != {}
      invariant todo <= s && NoDuplicates(keys)
      invariant forall k :: k in keys <==> k in s && k !in todo
    {
      ghost var some := AnyOf(todo);
      var k :| k in todo;
      assert k !in keys;
      keys, todo := keys + [k], todo - {k};
    }
    r := Sort(LeqInt, keys);
    assert TotalPreorder(LeqInt);
    SortSorts(LeqInt, keys);
    SortElements(LeqInt, keys);
    SortNoDuplicates(LeqInt, keys);
  }
}
