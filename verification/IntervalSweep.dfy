/** The sweep over completed attempt intervals: sorted open and close events give the union
    length, the total work and the maximum overlap. The meaning of each number is given by a
    per-instant count of the intervals that are open. */
module IntervalSweep {
  import opened Ordering

  datatype Option<T> = None | Some(value: T)

  /** A stored attempt; either end may be missing. */
  datatype Row = Row(started: Option<int>, finished: Option<int>)

  datatype Interval = Interval(start: int, finish: int)

  datatype Event = Event(time: int, delta: int)

  datatype Overlap = Overlap(work: nat, union: nat, span: nat, maxParallel: nat, effective: real, saved: nat)

  datatype Outcome = Empty | Measured(overlap: Overlap) | Underflow | NotClosed

  ghost predicate Proper(ivs: seq<Interval>) {
    forall v | v in ivs :: v.start < v.finish
  }

  /** The rows that count: both ends known and strictly ordered. */
  function Completed(rows: seq<Row>): (ivs: seq<Interval>)
    ensures forall v | v in ivs :: v.start < v.finish
  {
    if rows == [] then []
    else
      var r, rest := rows[|rows| - 1], Completed(rows[..|rows| - 1]);
      if r.started.Some? && r.finished.Some? && r.started.value < r.finished.value
      then rest + [Interval(r.started.value, r.finished.value)]
      else rest
  }

  // ----- the specification: counting per instant -----

  /** How many intervals are open during instant t, that is, during [t, t + 1). */
  function Cover(ivs: seq<Interval>, t: int): nat {
    if ivs == [] then 0
    else Cover(ivs[..|ivs| - 1], t) + if ivs[|ivs| - 1].start <= t < ivs[|ivs| - 1].finish then 1 else 0
  }

  /** The number of instants in [lo, hi) during which at least one interval is open. */
  function CoveredInstants(ivs: seq<Interval>, lo: int, hi: int): nat
    decreases hi - lo
  {
    if hi <= lo then 0
    else CoveredInstants(ivs, lo, hi - 1) + if Cover(ivs, hi - 1) > 0 then 1 else 0
  }

  /** The sum of the cover counts over the instants of [lo, hi). */
  function CoverSum(ivs: seq<Interval>, lo: int, hi: int): nat
    decreases hi - lo
  {
    if hi <= lo then 0 else CoverSum(ivs, lo, hi - 1) + Cover(ivs, hi - 1)
  }

  ghost predicate IsMaxCover(ivs: seq<Interval>, m: nat) {
    && (forall t :: Cover(ivs, t) <= m)
    && (exists t :: Cover(ivs, t) == m)
  }

  /** [lo, hi) is the smallest window that holds every interval. */
  ghost predicate IsWindow(ivs: seq<Interval>, lo: int, hi: int) {
    && (forall v | v in ivs :: lo <= v.start && v.finish <= hi)
    && (exists v :: v in ivs && v.start == lo)
    && (exists v :: v in ivs && v.finish == hi)
  }

  // ----- events and weighted sums over them -----

  function EventsOf(ivs: seq<Interval>): seq<Event> {
    if ivs == [] then []
    else
      var v := ivs[|ivs| - 1];
      EventsOf(ivs[..|ivs| - 1]) + [Event(v.start, 1), Event(v.finish, -1)]
  }

  /** The sort key (time, delta): at one instant, closes come before opens. */
  function LeqEvent(a: Event, b: Event): bool {
    a.time < b.time || (a.time == b.time && a.delta <= b.delta)
  }

  function Total(f: Event -> int, s: seq<Event>): int {
    if s == [] then 0 else Total(f, s[..|s| - 1]) + f(s[|s| - 1])
  }

  lemma {:induction false} TotalAppend(f: Event -> int, a: seq<Event>, b: seq<Event>)
    ensures Total(f, a + b) == Total(f, a) + Total(f, b)
  {
    if b == [] {
      assert a + b == a;
    } else {
      assert (a + b)[..|a + b| - 1] == a + b[..|b| - 1];
      TotalAppend(f, a, b[..|b| - 1]);
    }
  }

  lemma {:induction false} TotalInsert(f: Event -> int, x: Event, s: seq<Event>)
    ensures Total(f, Insert(LeqEvent, x, s)) == f(x) + Total(f, s)
  {
    assert Total(f, [x]) == f(x);
    if s == [] || LeqEvent(x, s[0]) {
      TotalAppend(f, [x], s);
    } else {
      TotalInsert(f, x, s[1..]);
      TotalAppend(f, [s[0]], Insert(LeqEvent, x, s[1..]));
      TotalAppend(f, [s[0]], s[1..]);
      assert s == [s[0]] + s[1..];
    }
  }

  /** Sorting the events changes no weighted sum over them. */
  lemma {:induction false} TotalSort(f: Event -> int, s: seq<Event>)
    ensures Total(f, Sort(LeqEvent, s)) == Total(f, s)
  {
    if s != [] {
      TotalSort(f, s[1..]);
      TotalInsert(f, s[0], Sort(LeqEvent, s[1..]));
      TotalAppend(f, [s[0]], s[1..]);
      assert s == [s[0]] + s[1..] && Total(f, [s[0]]) == f(s[0]);
    }
  }

  lemma {:induction false} TotalCompare(f: Event -> int, h: Event -> int, s: seq<Event>)
    requires forall e | e in s :: f(e) <= h(e)
    ensures Total(f, s) <= Total(h, s)
  {
    if s != [] {
      TotalCompare(f, h, s[..|s| - 1]);
    }
  }

  lemma {:induction false} TotalSame(f: Event -> int, h: Event -> int, s: seq<Event>)
    requires forall e | e in s :: f(e) == h(e)
    ensures Total(f, s) == Total(h, s)
  {
    TotalCompare(f, h, s);
    TotalCompare(h, f, s);
  }

  // ----- three weights on events, and what they total over all intervals -----

  function Delta(e: Event): int { e.delta }

  /** Counts an event if it has happened by instant t. */
  function NetAt(t: int): Event -> int {
    (e: Event) => if e.time <= t then e.delta else 0
  }

  /** Counts opens strictly before t and closes up to and including t. */
  function NetBefore(t: int): Event -> int {
    (e: Event) => if e.time < t || (e.time == t && e.delta < 0) then e.delta else 0
  }

  lemma {:induction false} NetIsCover(ivs: seq<Interval>, t: int)
    requires Proper(ivs)
    ensures Total(NetAt(t), EventsOf(ivs)) == Cover(ivs, t)
  {
    if ivs != [] {
      var v, rest := ivs[|ivs| - 1], ivs[..|ivs| - 1];
      NetIsCover(rest, t);
      TotalPair(NetAt(t), EventsOf(rest), v);
    }
  }

  lemma {:induction false} NetBeforeNonNegative(ivs: seq<Interval>, t: int)
    requires Proper(ivs)
    ensures Total(NetBefore(t), EventsOf(ivs)) >= 0
  {
    if ivs != [] {
      var v, rest := ivs[|ivs| - 1], ivs[..|ivs| - 1];
      NetBeforeNonNegative(rest, t);
      TotalPair(NetBefore(t), EventsOf(rest), v);
    }
  }

  lemma {:induction false} DeltasCancel(ivs: seq<Interval>)
    ensures Total(Delta, EventsOf(ivs)) == 0
  {
    if ivs != [] {
      DeltasCancel(ivs[..|ivs| - 1]);
      TotalPair(Delta, EventsOf(ivs[..|ivs| - 1]), ivs[|ivs| - 1]);
    }
  }

  lemma TotalPair(f: Event -> int, s: seq<Event>, v: Interval)
    ensures Total(f, s + [Event(v.start, 1), Event(v.finish, -1)]) == Total(f, s) + f(Event(v.start, 1)) + f(Event(v.finish, -1))
  {
    var a, b := Event(v.start, 1), Event(v.finish, -1);
    assert s + [a, b] == s + [a] + [b];
    TotalAppend(f, s + [a], [b]);
    TotalAppend(f, s, [a]);
    assert Total(f, [a]) == f(a) && Total(f, [b]) == f(b);
  }

  lemma {:induction false} EventsAreEnds(ivs: seq<Interval>, e: Event)
    ensures e in EventsOf(ivs) <==> exists v :: v in ivs && (e == Event(v.start, 1) || e == Event(v.finish, -1))
  {
    if ivs != [] {
      var v, rest := ivs[|ivs| - 1], ivs[..|ivs| - 1];
      EventsAreEnds(rest, e);
      assert ivs == rest + [v];
    }
  }

  /** Sorted events of a list of intervals. */
  ghost predicate Timeline(ivs: seq<Interval>, events: seq<Event>) {
    Proper(ivs) && events == Sort(LeqEvent, EventsOf(ivs))
  }

  lemma TimelineFacts(ivs: seq<Interval>, events: seq<Event>)
    requires Timeline(ivs, events)
    ensures Sorted(LeqEvent, events) && |events| == |EventsOf(ivs)|
    ensures forall e | e in events :: e.delta == 1 || e.delta == -1
    ensures forall e :: e in events <==> e in EventsOf(ivs)
  {
    assert TotalPreorder(LeqEvent);
    SortSorts(LeqEvent, EventsOf(ivs));
    SortElements(LeqEvent, EventsOf(ivs));
    forall e | e in events ensures e.delta == 1 || e.delta == -1 {
      EventsAreEnds(ivs, e);
    }
  }

  // ----- what a prefix of the timeline says -----

  /** Between two consecutive event times the running count is the cover. */
  lemma CountIsCover(ivs: seq<Interval>, events: seq<Event>, k: nat, t: int)
    requires Timeline(ivs, events) && k <= |events|
    requires forall i | 0 <= i < k :: events[i].time <= t
    requires forall i | k <= i < |events| :: t < events[i].time
    ensures Total(Delta, events[..k]) == Cover(ivs, t)
  {
    TotalSame(Delta, NetAt(t), events[..k]);
    TotalSame((e: Event) => 0, NetAt(t), events[k..]);
    TotalZero(events[k..]);
    TotalAppend(NetAt(t), events[..k], events[k..]);
    assert events == events[..k] + events[k..];
    TotalSort(NetAt(t), EventsOf(ivs));
    NetIsCover(ivs, t);
  }

  lemma {:induction false} TotalZero(s: seq<Event>)
    ensures Total((e: Event) => 0, s) == 0
  {
    if s != [] { TotalZero(s[..|s| - 1]); }
  }

  /** Around a close: everything up to it counts in full, and only further closes after it count at all. */
  lemma CloseSides(events: seq<Event>, k: nat)
    requires Sorted(LeqEvent, events) && k < |events| && events[k].delta < 0 && forall e | e in events :: e.delta == 1 || e.delta == -1
    ensures forall e | e in events[..k + 1] :: Delta(e) == NetBefore(events[k].time)(e)
    ensures forall e | e in events[k + 1..] :: NetBefore(events[k].time)(e) <= 0
  {
    var t := events[k].time;
    var head, tail := events[..k + 1], events[k + 1..];
    forall e | e in head ensures Delta(e) == NetBefore(t)(e) {
      var i :| 0 <= i < |head| && head[i] == e;
      assert i == k || LeqEvent(events[i], events[k]);
    }
    forall e | e in tail ensures NetBefore(t)(e) <= 0 {
      var i :| 0 <= i < |tail| && tail[i] == e;
      assert tail[i] == events[k + 1 + i] && LeqEvent(events[k], events[k + 1 + i]);
    }
  }

  /** After a close the running count is still non-negative: no underflow. */
  lemma CloseKeepsNonNegative(ivs: seq<Interval>, events: seq<Event>, k: nat)
    requires Timeline(ivs, events) && k < |events| && events[k].delta < 0
    ensures Total(Delta, events[..k + 1]) >= 0
  {
    hide Total, EventsOf, Sorted, NetBefore, Delta;
    TimelineFacts(ivs, events);
    var t := events[k].time;
    var head, tail := events[..k + 1], events[k + 1..];
    CloseSides(events, k);
    TotalSame(Delta, NetBefore(t), head);
    TotalCompare(NetBefore(t), (e: Event) => 0, tail);
    TotalZero(tail);
    TotalAppend(NetBefore(t), head, tail);
    assert events == head + tail;
    TotalSort(NetBefore(t), EventsOf(ivs));
    NetBeforeNonNegative(ivs, t);
  }

  /** Around an open: everything up to it counts in full, and only further opens after it count at all. */
  lemma OpenSides(events: seq<Event>, k: nat)
    requires Sorted(LeqEvent, events) && k < |events| && events[k].delta > 0 && forall e | e in events :: e.delta == 1 || e.delta == -1
    ensures forall e | e in events[..k + 1] :: Delta(e) == NetAt(events[k].time)(e)
    ensures forall e | e in events[k + 1..] :: 0 <= NetAt(events[k].time)(e)
  {
    var t := events[k].time;
    var head, tail := events[..k + 1], events[k + 1..];
    forall e | e in head ensures Delta(e) == NetAt(t)(e) {
      var i :| 0 <= i < |head| && head[i] == e;
      assert i == k || LeqEvent(events[i], events[k]);
    }
    forall e | e in tail ensures 0 <= NetAt(t)(e) {
      var i :| 0 <= i < |tail| && tail[i] == e;
      assert tail[i] == events[k + 1 + i] && LeqEvent(events[k], events[k + 1 + i]);
    }
  }

  /** After an open the running count is at most the cover at that instant. */
  lemma OpenBelowCover(ivs: seq<Interval>, events: seq<Event>, k: nat)
    requires Timeline(ivs, events) && k < |events| && events[k].delta > 0
    ensures Total(Delta, events[..k + 1]) <= Cover(ivs, events[k].time)
  {
    hide Total, EventsOf, Sorted, NetAt, Delta, Cover;
    TimelineFacts(ivs, events);
    var t := events[k].time;
    var head, tail := events[..k + 1], events[k + 1..];
    OpenSides(events, k);
    TotalSame(Delta, NetAt(t), head);
    TotalCompare((e: Event) => 0, NetAt(t), tail);
    TotalZero(tail);
    TotalAppend(NetAt(t), head, tail);
    assert events == head + tail;
    TotalSort(NetAt(t), EventsOf(ivs));
    NetIsCover(ivs, t);
  }

  /** Every cover value is the running count after some prefix. */
  lemma CoverIsSomeCount(ivs: seq<Interval>, events: seq<Event>, t: int) returns (k: nat)
    requires Timeline(ivs, events)
    ensures k <= |events| && Total(Delta, events[..k]) == Cover(ivs, t)
  {
    hide Total, Cover, EventsOf, Timeline, Delta;
    TimelineFacts(ivs, events);
    k := 0;
    while k < |events| && events[k].time <= t
      invariant k <= |events| && forall i | 0 <= i < k :: events[i].time <= t
    {
      k := k + 1;
    }
    forall i | k <= i < |events| ensures t < events[i].time {
      assert i == k || LeqEvent(events[k], events[i]);
    }
    CountIsCover(ivs, events, k, t);
  }

  lemma {:induction false} CoveredGap(ivs: seq<Interval>, lo: int, mid: int, hi: int, n: nat)
    requires lo <= mid <= hi
    requires forall t | mid <= t < hi :: Cover(ivs, t) == n
    ensures CoveredInstants(ivs, lo, hi) == CoveredInstants(ivs, lo, mid) + if n > 0 then hi - mid else 0
    decreases hi - mid
  {
    if mid < hi { CoveredGap(ivs, lo, mid, hi - 1, n); }
  }

  // ----- work -----

  lemma {:induction false} IndicatorSum(ivs: seq<Interval>, v: Interval, lo: int, hi: int)
    requires lo <= hi && v.start < v.finish && lo <= v.start
    ensures CoverSum(ivs + [v], lo, hi) == CoverSum(ivs, lo, hi)
      + if hi <= v.start then 0 else if hi <= v.finish then hi - v.start else v.finish - v.start
    decreases hi - lo
  {
    if lo < hi {
      IndicatorSum(ivs, v, lo, hi - 1);
      assert (ivs + [v])[..|ivs|] == ivs;
    }
  }

  function Lengths(ivs: seq<Interval>): int {
    if ivs == [] then 0
    else Lengths(ivs[..|ivs| - 1]) + ivs[|ivs| - 1].finish - ivs[|ivs| - 1].start
  }

  lemma {:induction false} CoverSumEmpty(lo: int, hi: int)
    ensures CoverSum([], lo, hi) == 0
    decreases hi - lo
  {
    if lo < hi { CoverSumEmpty(lo, hi - 1); }
  }

  /** Adding up interval lengths and adding up cover counts give the same total. */
  lemma {:induction false} LengthsAreCoverSum(ivs: seq<Interval>, lo: int, hi: int)
    requires Proper(ivs) && lo <= hi
    requires forall v | v in ivs :: lo <= v.start && v.finish <= hi
    ensures Lengths(ivs) == CoverSum(ivs, lo, hi)
  {
    if ivs == [] {
      CoverSumEmpty(lo, hi);
    } else {
      var v, rest := ivs[|ivs| - 1], ivs[..|ivs| - 1];
      LengthsAreCoverSum(rest, lo, hi);
      IndicatorSum(rest, v, lo, hi);
      assert ivs == rest + [v];
    }
  }

  /** union <= work <= union * max, and union <= span. */
  lemma {:induction false} UnionWorkBounds(ivs: seq<Interval>, m: nat, lo: int, hi: int)
    requires IsMaxCover(ivs, m) && lo <= hi
    ensures CoveredInstants(ivs, lo, hi) <= CoverSum(ivs, lo, hi) <= CoveredInstants(ivs, lo, hi) * m
    ensures CoveredInstants(ivs, lo, hi) <= hi - lo
    decreases hi - lo
  {
    if lo < hi {
      UnionWorkBounds(ivs, m, lo, hi - 1);
      var c := CoveredInstants(ivs, lo, hi - 1);
      assert (c + 1) * m == c * m + m;
    }
  }

  lemma TimelineWindow(ivs: seq<Interval>, events: seq<Event>)
    requires Timeline(ivs, events) && ivs != []
    ensures events != [] && IsWindow(ivs, events[0].time, events[|events| - 1].time)
  {
    TimelineFacts(ivs, events);
    forall v | v in ivs ensures events != []
      ensures events[0].time <= v.start && v.finish <= events[|events| - 1].time
    {
      EventsAreEnds(ivs, Event(v.start, 1));
      EventsAreEnds(ivs, Event(v.finish, -1));
      var i :| 0 <= i < |events| && events[i] == Event(v.start, 1);
      var j :| 0 <= j < |events| && events[j] == Event(v.finish, -1);
      assert i == 0 || LeqEvent(events[0], events[i]);
      assert j == |events| - 1 || LeqEvent(events[j], events[|events| - 1]);
    }
    assert ivs[0] in ivs;
    EventsAreEnds(ivs, events[0]);
    EventsAreEnds(ivs, events[|events| - 1]);
  }

  /** What every reported number means. */
  ghost predicate Exact(ivs: seq<Interval>, o: Overlap) {
    exists lo, hi {:trigger IsWindow(ivs, lo, hi)} ::
      && IsWindow(ivs, lo, hi) && o.span == hi - lo
      && o.work == CoverSum(ivs, lo, hi) == Lengths(ivs)
      && o.union == CoveredInstants(ivs, lo, hi)
      && IsMaxCover(ivs, o.maxParallel)
      && 0 < o.union <= o.span && o.union <= o.work <= o.union * o.maxParallel
      && o.effective == o.work as real / o.union as real && 1.0 <= o.effective <= o.maxParallel as real
      && o.saved == o.work - o.union
  }

  /** The running count after every prefix of the timeline is bounded by m, which some prefix meets. */
  ghost predicate MaxPrefix(events: seq<Event>, k: nat, m: nat)
    requires k <= |events|
  {
    && (forall i | 0 <= i <= k :: Total(Delta, events[..i]) <= m)
    && (exists i | 0 <= i <= k :: Total(Delta, events[..i]) == m)
  }

  ghost predicate NeverNegative(events: seq<Event>, k: nat)
    requires k <= |events|
  {
    forall i | 0 <= i <= k :: Total(Delta, events[..i]) >= 0
  }

  lemma PrefixNext(events: seq<Event>, k: nat, m: nat)
    requires k < |events| && MaxPrefix(events, k, m) && NeverNegative(events, k)
    requires Total(Delta, events[..k + 1]) >= 0
    ensures var next := Total(Delta, events[..k + 1]); MaxPrefix(events, k + 1, if next > m then next else m)
    ensures NeverNegative(events, k + 1)
  {
    var next := Total(Delta, events[..k + 1]);
    var i :| 0 <= i <= k && Total(Delta, events[..i]) == m;
    assert 0 <= k + 1 <= k + 1 && Total(Delta, events[..k + 1]) == next;
  }

  lemma PrefixStart(events: seq<Event>)
    ensures MaxPrefix(events, 0, 0) && NeverNegative(events, 0) && Total(Delta, events[..0]) == 0
  {
  }

  lemma MaxPrefixIsMaxCover(ivs: seq<Interval>, events: seq<Event>, m: nat)
    requires Timeline(ivs, events) && ivs != [] && MaxPrefix(events, |events|, m)
    requires NeverNegative(events, |events|)
    ensures IsMaxCover(ivs, m) && m > 0
  {
    forall t ensures Cover(ivs, t) <= m {
      var k := CoverIsSomeCount(ivs, events, t);
    }
    TimelineFacts(ivs, events);
    TimelineWindow(ivs, events);
    OneCovered(ivs, ivs[|ivs| - 1].start);
    var i :| 0 <= i <= |events| && Total(Delta, events[..i]) == m;
    var t := PrefixBelowCover(ivs, events, i);
  }

  lemma OneCovered(ivs: seq<Interval>, t: int)
    requires Proper(ivs) && ivs != [] && t == ivs[|ivs| - 1].start
    ensures Cover(ivs, t) > 0
  {
  }

  /** Some instant's cover is at least the running count after the first i events. */
  lemma {:induction false} PrefixBelowCover(ivs: seq<Interval>, events: seq<Event>, i: nat) returns (t: int)
    requires Timeline(ivs, events) && i <= |events|
    ensures Total(Delta, events[..i]) <= Cover(ivs, t)
  {
    hide Cover, Timeline;
    TimelineFacts(ivs, events);
    if i == 0 {
      t := 0;
      NoCount(ivs, events, t);
    } else if events[i - 1].delta > 0 {
      OpenBelowCover(ivs, events, i - 1);
      t := events[i - 1].time;
    } else {
      t := PrefixBelowCover(ivs, events, i - 1);
      NextCount(events, i - 1);
    }
  }

  lemma NoCount(ivs: seq<Interval>, events: seq<Event>, t: int)
    ensures Total(Delta, events[..0]) == 0 <= Cover(ivs, t)
  {
  }

  lemma NextCount(events: seq<Event>, k: nat)
    requires k < |events|
    ensures Total(Delta, events[..k + 1]) == Total(Delta, events[..k]) + events[k].delta
  {
    assert events[..k + 1][..k] == events[..k];
  }

  lemma ActiveAhead(ivs: seq<Interval>, events: seq<Event>, k: nat, lo: int, previous: int)
    requires Timeline(ivs, events) && k < |events|
    requires previous == if k == 0 then events[0].time else events[k - 1].time
    requires lo <= previous && Total(Delta, events[..k]) >= 0
    ensures previous <= events[k].time
    ensures CoveredInstants(ivs, lo, events[k].time) == CoveredInstants(ivs, lo, previous)
              + if Total(Delta, events[..k]) > 0 then events[k].time - previous else 0
  {
    TimelineFacts(ivs, events);
    assert k == 0 || LeqEvent(events[k - 1], events[k]);
    forall t | previous <= t < events[k].time ensures Cover(ivs, t) == Total(Delta, events[..k]) {
      forall i | 0 <= i < k ensures events[i].time <= t {
        assert i == k - 1 || LeqEvent(events[i], events[k - 1]);
      }
      forall i | k <= i < |events| ensures t < events[i].time {
        assert i == k || LeqEvent(events[k], events[i]);
      }
      CountIsCover(ivs, events, k, t);
    }
    CoveredGap(ivs, lo, previous, events[k].time, Total(Delta, events[..k]));
  }

  lemma TimelineCloses(ivs: seq<Interval>, events: seq<Event>)
    requires Timeline(ivs, events)
    ensures Total(Delta, events) == 0
  {
    DeltasCancel(ivs);
    TotalSort(Delta, EventsOf(ivs));
  }

  lemma NothingCollected()
    ensures Completed([]) == [] && EventsOf([]) == [] && Lengths([]) == 0
  {
  }

  lemma CompletedNext(rows: seq<Row>, i: nat)
    requires i < |rows|
    ensures var r := rows[i];
      Completed(rows[..i + 1]) ==
        if r.started.Some? && r.finished.Some? && r.started.value < r.finished.value
        then Completed(rows[..i]) + [Interval(r.started.value, r.finished.value)]
        else Completed(rows[..i])
  {
    assert rows[..i + 1][..i] == rows[..i];
  }

  lemma EventsNext(rest: seq<Interval>, v: Interval)
    ensures EventsOf(rest + [v]) == EventsOf(rest) + [Event(v.start, 1), Event(v.finish, -1)]
    ensures Lengths(rest + [v]) == Lengths(rest) + v.finish - v.start
  {
    assert (rest + [v])[..|rest|] == rest;
  }

  /** The event list and the summed work of all completed rows. */
  method CollectEvents(rows: seq<Row>) returns (events: seq<Event>, work: int)
    ensures events == EventsOf(Completed(rows)) && work == Lengths(Completed(rows))
  {
    hide EventsOf, Completed, Lengths;
    events, work := [], 0;
    NothingCollected();
    assert rows[..0] == [];
    for i := 0 to |rows|
      invariant events == EventsOf(Completed(rows[..i])) && work == Lengths(Completed(rows[..i]))
    {
      var row := rows[i];
      CompletedNext(rows, i);
      if row.started.None? || row.finished.None? || row.finished.value < row.started.value { continue; }
      if row.finished.value == row.started.value { continue; }
      ghost var rest := Completed(rows[..i]);
      ghost var v := Interval(row.started.value, row.finished.value);
      EventsNext(rest, v);
      events := events + [Event(row.started.value, 1)];
      events := events + [Event(row.finished.value, -1)];
      assert events == EventsOf(rest) + [Event(v.start, 1), Event(v.finish, -1)];
      work := work + (row.finished.value - row.started.value);
    }
    assert rows[..|rows|] == rows;
  }

  /** The sweep loop: neither error can occur, and the counters are exact. */
  method Sweep(events: seq<Event>, ghost ivs: seq<Interval>) returns (occupied: int, maximum: int, failure: Option<Outcome>)
    requires Timeline(ivs, events) && ivs != [] && events != []
    ensures failure.None?
    ensures occupied == CoveredInstants(ivs, events[0].time, events[|events| - 1].time)
    ensures maximum > 0 && IsMaxCover(ivs, maximum)
  {
    hide Timeline, IsMaxCover, Cover, MaxPrefix, NeverNegative, Total;
    occupied, maximum := 0, 0;
    var active := 0;
    var previous := events[0].time;
    PrefixStart(events);
    ghost var lo := previous;
    for k := 0 to |events|
      invariant previous == (if k == 0 then events[0].time else events[k - 1].time) && lo <= previous
      invariant active == Total(Delta, events[..k])
      invariant NeverNegative(events, k) && active >= 0
      invariant occupied == CoveredInstants(ivs, lo, previous)
      invariant maximum >= 0 && MaxPrefix(events, k, maximum)
    {
      var e := events[k];
      ActiveAhead(ivs, events, k, lo, previous);
      if active > 0 { occupied := occupied + (e.time - previous); }
      NextCount(events, k);
      active := active + e.delta;
      TimelineFacts(ivs, events);
      if e.delta < 0 { CloseKeepsNonNegative(ivs, events, k); }
      if active < 0 {
        return occupied, maximum, Some(Underflow);
      }
      PrefixNext(events, k, maximum);
      maximum := if active > maximum then active else maximum;
      previous := e.time;
    }
    assert events[..|events|] == events;
    TimelineCloses(ivs, events);
    MaxPrefixIsMaxCover(ivs, events, maximum);
    if active != 0 {
      return occupied, maximum, Some(NotClosed);
    }
    failure := None;
  }

  /** `_completed_overlap`, in nanoseconds. */
  method CompletedOverlap(rows: seq<Row>) returns (r: Outcome)
    ensures Completed(rows) == [] ==> r == Empty
    ensures Completed(rows) != [] ==> r.Measured? && Exact(Completed(rows), r.overlap)
  {
    hide IsMaxCover, CoverSum, CoveredInstants, Lengths, Completed, Sort, Exact, EventsOf, Timeline, IsWindow;
    ghost var ivs := Completed(rows);
    var events, work := CollectEvents(rows);
    EventsOrNone(ivs);
    if events == [] {
      return Empty;
    }
    events := Sort(LeqEvent, events);
    SortedTimeline(rows);
    var occupied, maximum, failure := Sweep(events, ivs);
    var lo, hi := events[0].time, events[|events| - 1].time;
    OverlapBounds(ivs, events, occupied, maximum);
    var effective := work as real / occupied as real;
    r := Measured(Overlap(work, occupied, hi - lo, maximum, effective, work - occupied));
    OverlapExact(ivs, r.overlap, lo, hi);
  }

  lemma EventsOrNone(ivs: seq<Interval>)
    ensures EventsOf(ivs) == [] <==> ivs == []
  {
  }

  lemma SortedTimeline(rows: seq<Row>)
    requires Completed(rows) != []
    ensures var ivs := Completed(rows); Timeline(ivs, Sort(LeqEvent, EventsOf(ivs))) && Sort(LeqEvent, EventsOf(ivs)) != []
  {
    hide Completed, Sort, EventsOf;
    var ivs := Completed(rows);
    EventsOrNone(ivs);
    TimelineFacts(ivs, Sort(LeqEvent, EventsOf(ivs)));
  }

  lemma OverlapBounds(ivs: seq<Interval>, events: seq<Event>, union: int, m: nat)
    requires ivs != [] && events != [] && Timeline(ivs, events) && IsMaxCover(ivs, m)
    requires union == CoveredInstants(ivs, events[0].time, events[|events| - 1].time) && m > 0
    ensures var lo, hi, work := events[0].time, events[|events| - 1].time, Lengths(ivs);
      && IsWindow(ivs, lo, hi) && work == CoverSum(ivs, lo, hi) > 0
      && 0 < union <= hi - lo && union <= work <= union * m
  {
    hide IsMaxCover, CoverSum, CoveredInstants, Lengths, Sort;
    TimelineWindow(ivs, events);
    var lo, hi := events[0].time, events[|events| - 1].time;
    assert ivs[0] in ivs;
    LengthsAreCoverSum(ivs, lo, hi);
    UnionWorkBounds(ivs, m, lo, hi);
    Positive(ivs);
  }

  lemma OverlapExact(ivs: seq<Interval>, o: Overlap, lo: int, hi: int)
    requires IsWindow(ivs, lo, hi) && o.span == hi - lo && o.work == CoverSum(ivs, lo, hi) == Lengths(ivs)
    requires o.union == CoveredInstants(ivs, lo, hi) && IsMaxCover(ivs, o.maxParallel) && 0 < o.union <= o.span
    requires o.union <= o.work <= o.union * o.maxParallel && o.effective == o.work as real / o.union as real && o.saved == o.work - o.union
    ensures Exact(ivs, o)
  {
    hide IsMaxCover, CoverSum, CoveredInstants, Lengths, IsWindow;
    EffectiveBounds(o.work, o.union, o.maxParallel);
  }

  lemma {:induction false} Positive(ivs: seq<Interval>)
    requires Proper(ivs)
    ensures if ivs == [] then Lengths(ivs) == 0 else Lengths(ivs) > 0
  {
    if ivs != [] { Positive(ivs[..|ivs| - 1]); }
  }

  lemma EffectiveBounds(work: int, union: int, m: int)
    requires 0 < union <= work <= union * m
    ensures 1.0 <= work as real / union as real <= m as real
  {
    var w, u, q := work as real, union as real, work as real / union as real;
    assert q * u == w;
    assert (union * m) as real == u * m as real;
    assert (q - 1.0) * u >= 0.0;
    assert (m as real - q) * u >= 0.0;
  }
}
