/** The release pytest plugin: reports are merged per test node, counted once with a fixed
    precedence, and the resulting evidence is checked for cleanness. */
module PytestOutcomes {

  datatype Phase = Setup | Call | Teardown
  datatype Status = Passed | Failed | Skipped
  datatype Report = Report(node: string, phase: Phase, status: Status, wasXfail: bool, duration: real)

  datatype NodeOutcome = NodeOutcome(passed: bool, skipped: bool, failed: bool, xfailed: bool, xpassed: bool)

  const NOTHING := NodeOutcome(false, false, false, false, false)

  // ----- what a set of reports says about a node, without regard to order -----

  predicate IsFailure(r: Report) { r.status.Failed? }
  predicate IsXfail(r: Report) { r.status.Skipped? && r.wasXfail }
  predicate IsSkip(r: Report) { r.status.Skipped? && !r.wasXfail }
  predicate IsXpass(r: Report) { r.phase.Call? && r.status.Passed? && r.wasXfail }
  predicate IsPass(r: Report) { r.phase.Call? && r.status.Passed? && !r.wasXfail }

  /** A passing set-up or tear-down leaves no trace. */
  predicate Counts(r: Report) { IsFailure(r) || IsXfail(r) || IsSkip(r) || IsXpass(r) || IsPass(r) }

  ghost function Outcome(reports: set<Report>, node: string): NodeOutcome {
    NodeOutcome(exists r :: r in reports && r.node == node && IsPass(r),
                exists r :: r in reports && r.node == node && IsSkip(r),
                exists r :: r in reports && r.node == node && IsFailure(r),
                exists r :: r in reports && r.node == node && IsXfail(r),
                exists r :: r in reports && r.node == node && IsXpass(r))
  }

  ghost function Nodes(reports: set<Report>): set<string> {
    set r | r in reports && Counts(r) :: r.node
  }

  /** The node dictionary that any recording of these reports ends with. */
  ghost function Aggregate(reports: set<Report>): map<string, NodeOutcome> {
    map n | n in Nodes(reports) :: Outcome(reports, n)
  }

  datatype Class = CPassed | CSkipped | CFailed | CXfailed | CXpassed | CNone

  /** Precedence: a node with a failure counts as failed whatever else was reported. */
  function Classify(o: NodeOutcome): Class {
    if o.failed then CFailed
    else if o.xpassed then CXpassed
    else if o.xfailed then CXfailed
    else if o.skipped then CSkipped
    else if o.passed then CPassed
    else CNone
  }

  function OfClass(nodes: map<string, NodeOutcome>, c: Class): set<string> {
    set n | n in nodes && Classify(nodes[n]) == c
  }

  /** Every flag of p is set in o. */
  predicate Covers(o: NodeOutcome, p: NodeOutcome) {
    && (p.passed ==> o.passed) && (p.skipped ==> o.skipped) && (p.failed ==> o.failed)
    && (p.xfailed ==> o.xfailed) && (p.xpassed ==> o.xpassed)
  }

  /** o has the flags of a and of b, and nothing that has both could have fewer. */
  ghost predicate IsJoin(o: NodeOutcome, a: NodeOutcome, b: NodeOutcome) {
    Covers(o, a) && Covers(o, b) && forall x | Covers(x, a) && Covers(x, b) :: Covers(x, o)
  }

  function Known(nodes: map<string, NodeOutcome>, node: string): NodeOutcome { if node in nodes then nodes[node] else NOTHING }

  /** The flags one report gives its node. */
  function FlagsOf(r: Report): NodeOutcome { NodeOutcome(IsPass(r), IsSkip(r), IsFailure(r), IsXfail(r), IsXpass(r)) }

  lemma JoinIs(o: NodeOutcome, a: NodeOutcome, b: NodeOutcome)
    requires IsJoin(o, a, b)
    ensures o == NodeOutcome(a.passed || b.passed, a.skipped || b.skipped, a.failed || b.failed, a.xfailed || b.xfailed, a.xpassed || b.xpassed)
  {
    var x := NodeOutcome(a.passed || b.passed, a.skipped || b.skipped, a.failed || b.failed, a.xfailed || b.xfailed, a.xpassed || b.xpassed);
    assert Covers(x, a) && Covers(x, b);
  }

  lemma MergedIsAbsorbed(before: map<string, NodeOutcome>, after: map<string, NodeOutcome>, r: Report)
    requires Counts(r) && r.node in after && IsJoin(after[r.node], Known(before, r.node), FlagsOf(r))
    requires forall n | n != r.node :: (n in after <==> n in before) && Known(after, n) == Known(before, n)
    ensures after == Absorb(before, r)
  {
    hide IsJoin;
    JoinIs(after[r.node], Known(before, r.node), FlagsOf(r));
    var absorbed := Absorb(before, r);
    forall n ensures n in after <==> n in absorbed {}
    forall n | n in after ensures after[n] == absorbed[n] {
      if n != r.node { assert Known(after, n) == Known(before, n); }
    }
  }

  function FileOf(node: string): string {
    if |node| < 2 then node
    else if node[..2] == "::" then ""
    else [node[0]] + FileOf(node[1..])
  }

  ghost predicate ColonsAt(s: string, i: int) { 0 <= i < |s| - 1 && s[i] == ':' && s[i + 1] == ':' }

  /** The file of a node is what comes before the first "::", or the whole node id. */
  lemma {:induction false} FileOfMeans(node: string)
    ensures var f := FileOf(node); f <= node && (f == node || ColonsAt(node, |f|)) && forall i | 0 <= i < |f| :: !ColonsAt(node, i)
  {
    hide ColonsAt;
    if |node| < 2 {
      NoColons(node);
    } else {
      ColonsFirst(node);
      if node[..2] != "::" {
        var f, rest := FileOf(node), node[1..];
        assert node == [node[0]] + rest;
        FileOfMeans(rest);
        forall i | 0 <= i < |f| ensures !ColonsAt(node, i) { if i > 0 { ColonsNext(node, i); } }
        ColonsNext(node, |f|);
      }
    }
  }

  lemma NoColons(s: string)
    requires |s| < 2
    ensures forall i :: !ColonsAt(s, i)
  {
  }

  lemma ColonsFirst(s: string)
    requires |s| >= 2
    ensures s[..2] == "::" <==> ColonsAt(s, 0)
  {
    assert s[..2] == [s[0], s[1]];
  }

  lemma ColonsNext(s: string, i: int)
    requires s != [] && i > 0
    ensures ColonsAt(s, i) <==> ColonsAt(s[1..], i - 1)
  {
  }

  /** The time reported for a file; a negative duration counts as none. */
  function Spent(log: seq<Report>, file: string): real {
    if log == [] then 0.0
    else
      var last := log[|log| - 1];
      Spent(log[..|log| - 1], file) + if FileOf(last.node) == file && last.duration > 0.0 then last.duration else 0.0
  }

  /** One entry per reported file, with the time reported for it. */
  ghost predicate Timed(durations: map<string, real>, log: seq<Report>) {
    && (forall f | f in durations :: durations[f] == Spent(log, f))
    && (forall r | r in log :: FileOf(r.node) in durations)
    && (forall f | f in durations :: exists r :: r in log && FileOf(r.node) == f)
  }

  lemma {:induction false} SpentNotNegative(log: seq<Report>, file: string)
    ensures Spent(log, file) >= 0.0
    ensures (forall r | r in log :: FileOf(r.node) != file) ==> Spent(log, file) == 0.0
  {
    if log != [] {
      assert log == log[..|log| - 1] + [log[|log| - 1]];
      SpentNotNegative(log[..|log| - 1], file);
    }
  }

  lemma TimedNext(durations: map<string, real>, log: seq<Report>, r: Report)
    requires Timed(durations, log)
    ensures var file := FileOf(r.node);
      Timed(durations[file := (if file in durations then durations[file] else 0.0) + if r.duration > 0.0 then r.duration else 0.0], log + [r])
  {
    hide FileOf;
    var file, log' := FileOf(r.node), log + [r];
    assert log'[..|log|] == log && r in log';
    if file !in durations { SpentNotNegative(log, file); }
    forall f ensures Spent(log', f) == Spent(log, f) + if file == f && r.duration > 0.0 then r.duration else 0.0 {}
    forall f | f in durations ensures exists x :: x in log' && FileOf(x.node) == f {
      var x :| x in log && FileOf(x.node) == f;
      assert x in log';
    }
  }

  class Recorder {
    var nodes: map<string, NodeOutcome>
    var durations: map<string, real>
    ghost var reports: set<Report>
    ghost var log: seq<Report>

    ghost predicate Valid()
      reads this
    {
      nodes == Aggregate(reports) && Timed(durations, log) && reports == set r | r in log
    }

    constructor ()
      ensures Valid() && reports == {} && log == []
    {
      nodes, durations, reports, log := map[], map[], {}, [];
    }

    /** `_merge`: the node loses no flag, gains the given ones and no others; all other nodes stay as they were. */
    method Merge(node: string, changes: NodeOutcome)
      modifies this`nodes
      ensures node in nodes && IsJoin(nodes[node], Known(old(nodes), node), changes)
      ensures forall n | n != node :: (n in nodes <==> n in old(nodes)) && Known(nodes, n) == Known(old(nodes), n)
    {
      var current := if node in nodes then nodes[node] else NOTHING;
      nodes := nodes[node := NodeOutcome(current.passed || changes.passed, current.skipped || changes.skipped,
                                         current.failed || changes.failed, current.xfailed || changes.xfailed,
                                         current.xpassed || changes.xpassed)];
    }

    /** `pytest_runtest_logreport`: afterwards the dictionary is that of one more report. */
    method LogReport(r: Report)
      requires Valid()
      modifies this
      ensures Valid() && reports == old(reports) + {r} && log == old(log) + [r]
    {
      hide Timed, Spent, FileOf;
      TimedNext(durations, log, r);
      var file := FileOf(r.node);
      durations := durations[file := (if file in durations then durations[file] else 0.0) + if r.duration > 0.0 then r.duration else 0.0];
      ghost var before := nodes;
      if r.status.Failed? {
        Merge(r.node, NOTHING.(failed := true));
      } else if r.status.Skipped? {
        Merge(r.node, NOTHING.(xfailed := r.wasXfail, skipped := !r.wasXfail));
      } else if r.phase.Call? && r.status.Passed? {
        Merge(r.node, NOTHING.(xpassed := r.wasXfail, passed := !r.wasXfail));
      }
      if Counts(r) { MergedIsAbsorbed(before, nodes, r); }
      AggregateStep(reports, r);
      reports := reports + {r};
      log := log + [r];
    }
  }

  /** What one more report does to the aggregate. */
  ghost function Absorb(nodes: map<string, NodeOutcome>, r: Report): map<string, NodeOutcome> {
    if !Counts(r) then nodes
    else
      var was := if r.node in nodes then nodes[r.node] else NOTHING;
      nodes[r.node := NodeOutcome(was.passed || IsPass(r), was.skipped || IsSkip(r), was.failed || IsFailure(r),
                                  was.xfailed || IsXfail(r), was.xpassed || IsXpass(r))]
  }

  lemma OutcomeStep(reports: set<Report>, r: Report, n: string)
    ensures var o, o' := Outcome(reports, n), Outcome(reports + {r}, n);
      o' == if n != r.node then o
            else NodeOutcome(o.passed || IsPass(r), o.skipped || IsSkip(r), o.failed || IsFailure(r),
                             o.xfailed || IsXfail(r), o.xpassed || IsXpass(r))
  {
    var all := reports + {r};
    assert r in all;
    forall x | x in reports ensures x in all {}
    forall x | x in all && x != r ensures x in reports {}
  }

  lemma UnseenOutcome(reports: set<Report>, n: string)
    requires n !in Nodes(reports)
    ensures Outcome(reports, n) == NOTHING
  {
    forall r | r in reports && Counts(r) ensures r.node in Nodes(reports) {}
  }

  lemma AggregateStep(reports: set<Report>, r: Report)
    ensures Aggregate(reports + {r}) == Absorb(Aggregate(reports), r)
  {
    assert Nodes(reports + {r}) == Nodes(reports) + if Counts(r) then {r.node} else {};
    forall n | n in Nodes(reports + {r})
      ensures Aggregate(reports + {r})[n] == Absorb(Aggregate(reports), r)[n]
    {
      OutcomeStep(reports, r, n);
      if n !in Nodes(reports) { UnseenOutcome(reports, n); }
    }
  }

  datatype Tally = Tally(passed: nat, skipped: nat, failed: nat, xfailed: nat, xpassed: nat)

  /** `_final_counts`: each node counts once, in the class its precedence gives. */
  method FinalCounts(nodes: map<string, NodeOutcome>) returns (t: Tally)
    ensures t.passed == |OfClass(nodes, CPassed)| && t.skipped == |OfClass(nodes, CSkipped)|
    ensures t.failed == |OfClass(nodes, CFailed)| && t.xfailed == |OfClass(nodes, CXfailed)|
    ensures t.xpassed == |OfClass(nodes, CXpassed)|
  {
    t := Tally(0, 0, 0, 0, 0);
    var todo, done := nodes.Keys, map[];
    while todo != {}
      invariant todo <= nodes.Keys && done.Keys == nodes.Keys - todo && forall n | n in done :: done[n] == nodes[n]
      invariant t.passed == |OfClass(done, CPassed)| && t.skipped == |OfClass(done, CSkipped)|
      invariant t.failed == |OfClass(done, CFailed)| && t.xfailed == |OfClass(done, CXfailed)|
      invariant t.xpassed == |OfClass(done, CXpassed)|
    {
      var n :| n in todo;
      var o := nodes[n];
      CountNext(done, n, o);
      if o.failed { t := t.(failed := t.failed + 1); }
      else if o.xpassed { t := t.(xpassed := t.xpassed + 1); }
      else if o.xfailed { t := t.(xfailed := t.xfailed + 1); }
      else if o.skipped { t := t.(skipped := t.skipped + 1); }
      else if o.passed { t := t.(passed := t.passed + 1); }
      todo, done := todo - {n}, done[n := o];
    }
    assert done == nodes;
  }

  lemma CountNext(done: map<string, NodeOutcome>, n: string, o: NodeOutcome)
    requires n !in done
    ensures forall c :: |OfClass(done[n := o], c)| == |OfClass(done, c)| + if Classify(o) == c then 1 else 0
  {
    forall c ensures |OfClass(done[n := o], c)| == |OfClass(done, c)| + if Classify(o) == c then 1 else 0 {
      assert OfClass(done[n := o], c) == OfClass(done, c) + if Classify(o) == c then {n} else {};
    }
  }

  ghost function TallyOf(reports: set<Report>): Tally {
    var nodes := Aggregate(reports);
    Tally(|OfClass(nodes, CPassed)|, |OfClass(nodes, CSkipped)|, |OfClass(nodes, CFailed)|,
          |OfClass(nodes, CXfailed)|, |OfClass(nodes, CXpassed)|)
  }

  /** A whole session: reports in any order, with any repetition, give the tally of their set. */
  method Session(reports: seq<Report>) returns (t: Tally, durations: map<string, real>)
    ensures t == TallyOf(set r | r in reports)
    ensures Timed(durations, reports) && forall f | f in durations :: durations[f] >= 0.0
  {
    hide TallyOf, Spent, FileOf;
    var recorder := new Recorder();
    for i := 0 to |reports|
      invariant fresh(recorder) && recorder.Valid() && recorder.log == reports[..i]
    {
      assert reports[..i + 1] == reports[..i] + [reports[i]];
      recorder.LogReport(reports[i]);
    }
    assert reports[..|reports|] == reports;
    t := FinalCounts(recorder.nodes);
    TallyIs(recorder.reports);
    durations := recorder.durations;
    forall f | f in durations ensures durations[f] >= 0.0 { SpentNotNegative(reports, f); }
  }

  lemma TallyIs(reports: set<Report>)
    ensures var nodes := Aggregate(reports);
      TallyOf(reports) == Tally(|OfClass(nodes, CPassed)|, |OfClass(nodes, CSkipped)|, |OfClass(nodes, CFailed)|,
                                |OfClass(nodes, CXfailed)|, |OfClass(nodes, CXpassed)|)
  {
  }

  /** The nodes with such a report. */
  ghost function Failing(reports: set<Report>): set<string> { set r | r in reports && r.status.Failed? :: r.node }
  ghost function Xpassing(reports: set<Report>): set<string> { set r | r in reports && r.phase.Call? && r.status.Passed? && r.wasXfail :: r.node }
  ghost function Xfailing(reports: set<Report>): set<string> { set r | r in reports && r.status.Skipped? && r.wasXfail :: r.node }
  ghost function Skipping(reports: set<Report>): set<string> { set r | r in reports && r.status.Skipped? && !r.wasXfail :: r.node }
  ghost function Passing(reports: set<Report>): set<string> { set r | r in reports && r.phase.Call? && r.status.Passed? && !r.wasXfail :: r.node }

  /** The five counts, from the reports: a failure outweighs everything, then an unexpected pass, an expected failure, a skip, a pass. */
  lemma CountsFromReports(reports: set<Report>)
    ensures var t := TallyOf(reports);
      var f, xp, xf := Failing(reports), Xpassing(reports), Xfailing(reports);
      && t.failed == |f| && t.xpassed == |xp - f| && t.xfailed == |xf - f - xp|
      && t.skipped == |Skipping(reports) - f - xp - xf|
      && t.passed == |Passing(reports) - f - xp - xf - Skipping(reports)|
  {
    var nodes := Aggregate(reports);
    var f, xp, xf, s, p := Failing(reports), Xpassing(reports), Xfailing(reports), Skipping(reports), Passing(reports);
    forall n ensures n in nodes <==> n in f + xp + xf + s + p { FlagsFromReports(reports, n); }
    forall n | n in nodes
      ensures nodes[n] == NodeOutcome(n in p, n in s, n in f, n in xf, n in xp)
    {
      FlagsFromReports(reports, n);
    }
    hide Aggregate, Outcome, Failing, Xpassing, Xfailing, Skipping, Passing;
    assert OfClass(nodes, CFailed) == f;
    assert OfClass(nodes, CXpassed) == xp - f;
    assert OfClass(nodes, CXfailed) == xf - f - xp;
    assert OfClass(nodes, CSkipped) == s - f - xp - xf;
    assert OfClass(nodes, CPassed) == p - f - xp - xf - s;
  }

  lemma FlagsFromReports(reports: set<Report>, n: string)
    ensures Outcome(reports, n) == NodeOutcome(n in Passing(reports), n in Skipping(reports), n in Failing(reports), n in Xfailing(reports), n in Xpassing(reports))
    ensures n in Nodes(reports) <==> n in Failing(reports) + Xpassing(reports) + Xfailing(reports) + Skipping(reports) + Passing(reports)
  {
  }

  lemma AggregateHasClass(reports: set<Report>, n: string)
    requires n in Nodes(reports)
    ensures Classify(Aggregate(reports)[n]) != CNone
  {
    var r :| r in reports && Counts(r) && r.node == n;
    assert Outcome(reports, n) != NOTHING;
  }

  /** Every reported node is counted exactly once. */
  lemma CountedOnce(reports: set<Report>)
    ensures var t := TallyOf(reports); t.passed + t.skipped + t.failed + t.xfailed + t.xpassed == |Nodes(reports)|
  {
    hide OfClass, Classify;
    var nodes := Aggregate(reports);
    var p, s, f, xf, xp := OfClass(nodes, CPassed), OfClass(nodes, CSkipped), OfClass(nodes, CFailed),
                           OfClass(nodes, CXfailed), OfClass(nodes, CXpassed);
    forall n | n in nodes ensures Classify(nodes[n]) != CNone {
      AggregateHasClass(reports, n);
    }
    ClassesSplit(nodes);
    assert nodes.Keys == Nodes(reports);
    FiveSizes(p, s, f, xf, xp);
  }

  lemma ClassesSplit(nodes: map<string, NodeOutcome>)
    requires forall n | n in nodes :: Classify(nodes[n]) != CNone
    ensures var p, s, f, xf, xp := OfClass(nodes, CPassed), OfClass(nodes, CSkipped), OfClass(nodes, CFailed),
                                   OfClass(nodes, CXfailed), OfClass(nodes, CXpassed);
      p !! s && p + s !! f && p + s + f !! xf && p + s + f + xf !! xp && p + s + f + xf + xp == nodes.Keys
  {
  }

  lemma FiveSizes(p: set<string>, s: set<string>, f: set<string>, xf: set<string>, xp: set<string>)
    requires p !! s && p + s !! f && p + s + f !! xf && p + s + f + xf !! xp
    ensures |p + s + f + xf + xp| == |p| + |s| + |f| + |xf| + |xp|
  {
  }

  // ----- the release evidence and its check -----

  const RESULT_SCHEMA_VERSION := 1

  datatype Evidence = Evidence(schema: int, collected: int, passed: int, skipped: int, failed: int, xfailed: int,
                               xpassed: int, collectionErrors: int, deselected: int, exitStatus: int,
                               durations: map<string, real>)

  datatype Check = Clean | SchemaMismatch | NegativeCounter | NegativeDuration | BadExit | NotClean | NothingCollected | Unaccounted

  ghost predicate ReleaseClean(e: Evidence) {
    && e.schema == RESULT_SCHEMA_VERSION && e.exitStatus == 0
    && e.failed == e.xfailed == e.xpassed == e.collectionErrors == e.deselected == 0
    && e.passed >= 0 && e.skipped >= 0 && e.collected > 0 && e.passed + e.skipped == e.collected
    && forall f | f in e.durations :: e.durations[f] >= 0.0
  }

  /** `validate_release_clean`. */
  method ValidateReleaseClean(e: Evidence) returns (r: Check)
    ensures r.Clean? <==> ReleaseClean(e)
    ensures r.SchemaMismatch? <==> e.schema != RESULT_SCHEMA_VERSION
    ensures r.NegativeDuration? ==> exists f :: f in e.durations && e.durations[f] < 0.0
    ensures r.BadExit? ==> e.exitStatus != 0
    ensures r.NotClean? ==> e.exitStatus == 0 && e.failed + e.collectionErrors + e.xfailed + e.xpassed + e.deselected > 0
    ensures r.NothingCollected? ==> e.collected == 0
    ensures r.Unaccounted? ==> e.collected > 0 && e.passed + e.skipped != e.collected
  {
    if e.schema != RESULT_SCHEMA_VERSION { return SchemaMismatch; }
    var counters := [e.collected, e.passed, e.skipped, e.failed, e.xfailed, e.xpassed, e.collectionErrors, e.deselected];
    for i := 0 to |counters|
      invariant forall j | 0 <= j < i :: counters[j] >= 0
    {
      if counters[i] < 0 { return NegativeCounter; }
    }
    assert counters[0] >= 0 && counters[1] >= 0 && counters[2] >= 0 && counters[3] >= 0;
    assert counters[4] >= 0 && counters[5] >= 0 && counters[6] >= 0 && counters[7] >= 0;
    var todo := e.durations.Keys;
    while todo != {}
      invariant todo <= e.durations.Keys && forall f | f in e.durations && f !in todo :: e.durations[f] >= 0.0
    {
      var f :| f in todo;
      if e.durations[f] < 0.0 { return NegativeDuration; }
      todo := todo - {f};
    }
    if e.exitStatus != 0 { return BadExit; }
    if e.failed != 0 || e.collectionErrors != 0 || e.xfailed != 0 || e.xpassed != 0 || e.deselected != 0 { return NotClean; }
    if e.collected <= 0 { return NothingCollected; }
    if e.passed + e.skipped != e.collected { return Unaccounted; }
    r := Clean;
  }

  /** The evidence a session writes. */
  ghost predicate EvidenceOf(e: Evidence, reports: set<Report>) {
    var t := TallyOf(reports);
    e.passed == t.passed && e.skipped == t.skipped && e.failed == t.failed && e.xfailed == t.xfailed && e.xpassed == t.xpassed
  }

  ghost predicate Bad(r: Report) { IsFailure(r) || IsXfail(r) || IsXpass(r) }

  /** The three bad counters are zero exactly when no report of any phase was bad; precedence hides nothing. */
  lemma ZeroMeansNoneBad(reports: set<Report>)
    ensures var t := TallyOf(reports);
      t.failed == t.xfailed == t.xpassed == 0 <==> forall r | r in reports :: !Bad(r)
  {
    var nodes, t := Aggregate(reports), TallyOf(reports);
    if r :| r in reports && Bad(r) {
      assert r.node in Nodes(reports);
      assert Outcome(reports, r.node).failed || Outcome(reports, r.node).xfailed || Outcome(reports, r.node).xpassed;
      assert r.node in OfClass(nodes, CFailed) || r.node in OfClass(nodes, CXfailed) || r.node in OfClass(nodes, CXpassed);
    } else {
      assert OfClass(nodes, CFailed) == {} && OfClass(nodes, CXfailed) == {} && OfClass(nodes, CXpassed) == {};
    }
  }

  /** The nodes that passed or were skipped in some phase. */
  ghost function PassedOrSkipped(reports: set<Report>): set<string> {
    set r | r in reports && (IsPass(r) || IsSkip(r)) :: r.node
  }

  /** A session's evidence is clean exactly when it exited well, lost nothing, never reported anything
      bad, and collected precisely the nodes that passed or were skipped. */
  lemma CleanEvidence(e: Evidence, reports: set<Report>)
    requires EvidenceOf(e, reports)
    requires e.schema == RESULT_SCHEMA_VERSION && forall f | f in e.durations :: e.durations[f] >= 0.0
    ensures ReleaseClean(e) <==>
            && e.exitStatus == 0 && e.collectionErrors == 0 && e.deselected == 0
            && (forall r | r in reports :: !Bad(r))
            && e.collected == |PassedOrSkipped(reports)| > 0
  {
    ZeroMeansNoneBad(reports);
    CountedOnce(reports);
    if forall r | r in reports :: !Bad(r) {
      assert Nodes(reports) == PassedOrSkipped(reports);
    }
  }
}
