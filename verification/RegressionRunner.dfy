/** The crash-resumable release runner as a transition system. A crash can strike between any two
    steps; it loses everything but the durable state, which every write replaces as a whole. */
module RegressionRunner {
  import opened Ordering
  import opened ShardGroups
  import opened ShardPlan

  datatype Option<T> = None | Some(value: T)

  /** A shard's result. Its identity is the shard's file list: the digest is taken to be injective. */
  datatype ShardResult = ShardResult(index: int, identity: seq<File>, collected: int, passed: int, skipped: int)

  /** What a durable state must agree on to be resumed. */
  datatype Inputs = Inputs(sourceDigest: string, inventoryDigest: string, runtimeDigest: string, shardSize: nat)

  datatype State = State(inputs: Inputs, planned: seq<Shard>, completed: seq<ShardResult>)

  datatype Outcome = Finished(result: ShardResult) | Raised
  datatype Handle = Handle(shard: Shard, outcome: Option<Outcome>)

  datatype Phase =
    | Down
    | Loaded(state: State)
    | Frozen(state: State)
    | Parallel(state: State, results: map<int, ShardResult>, pending: seq<Shard>, active: seq<Handle>,
               batch: seq<Handle>, exclusive: seq<Shard>, workers: nat)
    | Exclusive(state: State, results: map<int, ShardResult>, exclusive: seq<Shard>, running: Option<Handle>)
    | Returned(state: State, results: map<int, ShardResult>)

  datatype Event = Started(shard: Shard) | Persisted(result: ShardResult)

  /** The durable file, the process and a history of what was started and what was made durable. */
  datatype Sys = Sys(disk: Option<State>, phase: Phase, log: seq<Event>)

  datatype Config = Config(inputs: Inputs, inventory: seq<Item>, workerLimit: nat)

  // ----- the operations on the durable state -----

  function LeqResult(a: ShardResult, b: ShardResult): bool { a.index <= b.index }
  function LeqShard(a: Shard, b: Shard): bool { a.index <= b.index }
  function LeqHandle(a: Handle, b: Handle): bool { a.shard.index <= b.shard.index }

  function Without(completed: seq<ShardResult>, index: int): seq<ShardResult> {
    if completed == [] then []
    else
      var last := completed[|completed| - 1];
      Without(completed[..|completed| - 1], index) + if last.index != index then [last] else []
  }

  /** `with_result`: one result per index, kept sorted. */
  function WithResult(st: State, r: ShardResult): State {
    st.(completed := Sort(LeqResult, Without(st.completed, r.index) + [r]))
  }

  /** `with_plan`. */
  function WithPlan(st: State, plan: seq<Shard>): State {
    st.(planned := Sort(LeqShard, plan))
  }

  // ----- `_partition_pending_plans` -----

  /** The cached result for a shard: the dictionary keeps the last row of an (index, identity) pair. */
  function Lookup(completed: seq<ShardResult>, shard: Shard): Option<ShardResult> {
    if completed == [] then None
    else
      var last := completed[|completed| - 1];
      if last.index == shard.index && last.identity == shard.files then Some(last)
      else Lookup(completed[..|completed| - 1], shard)
  }

  function CachedResults(plan: seq<Shard>, completed: seq<ShardResult>): map<int, ShardResult> {
    if plan == [] then map[]
    else
      var shard, rest := plan[|plan| - 1], CachedResults(plan[..|plan| - 1], completed);
      var cached := Lookup(completed, shard);
      if cached.Some? then rest[shard.index := cached.value] else rest
  }

  /** The shards without a cached result, of one kind, in plan order. */
  function PendingOf(plan: seq<Shard>, completed: seq<ShardResult>, parallel: bool): seq<Shard> {
    if plan == [] then []
    else
      var shard, rest := plan[|plan| - 1], PendingOf(plan[..|plan| - 1], completed, parallel);
      if Lookup(completed, shard).None? && shard.ParallelSafe() == parallel then rest + [shard] else rest
  }

  method PartitionPending(plan: seq<Shard>, completed: seq<ShardResult>)
    returns (results: map<int, ShardResult>, parallel: seq<Shard>, exclusive: seq<Shard>)
    ensures results == CachedResults(plan, completed)
    ensures parallel == PendingOf(plan, completed, true) && exclusive == PendingOf(plan, completed, false)
  {
    results, parallel, exclusive := map[], [], [];
    for i := 0 to |plan|
      invariant results == CachedResults(plan[..i], completed)
      invariant parallel == PendingOf(plan[..i], completed, true) && exclusive == PendingOf(plan[..i], completed, false)
    {
      var shard := plan[i];
      assert plan[..i + 1][..i] == plan[..i];
      var cached := Lookup(completed, shard);
      if cached.Some? {
        results := results[shard.index := cached.value];
      } else if shard.ParallelSafe() {
        parallel := parallel + [shard];
      } else {
        exclusive := exclusive + [shard];
      }
    }
    assert plan[..|plan|] == plan;
  }

  /** A shard of this kind for which no result of the same index and files is recorded. */
  ghost predicate Waits(shard: Shard, completed: seq<ShardResult>, parallel: bool) {
    && (shard.isolation == "exclusive" <==> !parallel)
    && forall r | r in completed :: !(r.index == shard.index && r.identity == shard.files)
  }

  lemma WaitsIff(shard: Shard, completed: seq<ShardResult>, parallel: bool)
    ensures Waits(shard, completed, parallel) <==> Lookup(completed, shard).None? && shard.ParallelSafe() == parallel
  {
    LookupFinds(completed, shard);
  }

  ghost predicate At(at: seq<int>, i: int) { i in at }

  lemma AtNext(at: seq<int>, n: int, i: int)
    ensures At(at + [n], i) <==> At(at, i) || i == n
  {
  }

  /** These are the positions of the pending shards in the plan, in order, and all of them. */
  ghost predicate PendingAt(plan: seq<Shard>, completed: seq<ShardResult>, parallel: bool, at: seq<int>, pending: seq<Shard>) {
    && |at| == |pending| && Increasing(at, |plan|)
    && (forall k | 0 <= k < |at| :: pending[k] == plan[at[k]])
    && (forall i | 0 <= i < |plan| :: At(at, i) <==> Waits(plan[i], completed, parallel))
  }

  lemma PendingNext(plan: seq<Shard>, completed: seq<ShardResult>, parallel: bool, at: seq<int>, pending: seq<Shard>)
    requires plan != [] && PendingAt(plan[..|plan| - 1], completed, parallel, at, pending)
    ensures var n := |plan| - 1;
      if Waits(plan[n], completed, parallel) then PendingAt(plan, completed, parallel, at + [n], pending + [plan[n]])
      else PendingAt(plan, completed, parallel, at, pending)
  {
    hide Waits, At;
    var n := |plan| - 1;
    assert forall i | 0 <= i < n :: plan[..n][i] == plan[i];
    NotAt(at, n, n);
    forall i | 0 <= i < |plan|
      ensures At(at + [n], i) <==> i == n || Waits(plan[i], completed, parallel)
      ensures At(at, i) <==> i < n && Waits(plan[i], completed, parallel)
    {
      AtNext(at, n, i);
      if i < n { assert plan[..n][i] == plan[i]; }
    }
  }

  lemma NotAt(at: seq<int>, n: int, i: int)
    requires Increasing(at, n) && i >= n
    ensures !At(at, i)
  {
  }

  /** The pending shards of one kind are in plan order. */
  lemma {:induction false} PendingInOrder(plan: seq<Shard>, completed: seq<ShardResult>, parallel: bool) returns (at: seq<int>)
    ensures PendingAt(plan, completed, parallel, at, PendingOf(plan, completed, parallel))
  {
    if plan == [] {
      at := [];
    } else {
      hide Waits, Lookup, PendingAt;
      var n := |plan| - 1;
      WaitsIff(plan[n], completed, parallel);
      at := PendingInOrder(plan[..n], completed, parallel);
      PendingNext(plan, completed, parallel, at, PendingOf(plan[..n], completed, parallel));
      if Waits(plan[n], completed, parallel) { at := at + [n]; }
    }
  }

  // ----- the transition system -----

  /** Any plan the builder may return, whatever the timing history says. */
  ghost predicate Buildable(cfg: Config, plan: seq<Shard>) {
    && (exists est: File -> real :: WellBuilt(plan, cfg.inputs.shardSize, est))
    && (DistinctFiles(cfg.inventory) ==> (PlanMatches(plan, cfg.inventory) <==> KnownClasses(cfg.inventory)))
  }

  /** A result an execution of this shard may return: validated evidence for exactly its files. */
  ghost predicate ResultFor(shard: Shard, r: ShardResult) {
    && r.index == shard.index && r.identity == shard.files
    && r.collected > 0 && r.passed >= 0 && r.skipped >= 0 && r.passed + r.skipped == r.collected
  }

  ghost predicate OutcomeFor(shard: Shard, o: Outcome) {
    o.Finished? ==> ResultFor(shard, o.result)
  }

  function Done(active: seq<Handle>): seq<Handle> {
    if active == [] then []
    else
      var last := active[|active| - 1];
      Done(active[..|active| - 1]) + if last.outcome.Some? then [last] else []
  }

  function Drop(active: seq<Handle>, index: int): seq<Handle> {
    if active == [] then []
    else
      var last := active[|active| - 1];
      Drop(active[..|active| - 1], index) + if last.shard.index != index then [last] else []
  }

  datatype Step =
    | Crash
    | Initialise
    | Resume
    | UseFrozenPlan
    | FreezePlan(plan: seq<Shard>)
    | RejectPlan
    | BeginParallel(order: seq<Shard>)
    | Submit
    | TaskEnds(slot: nat, outcome: Outcome)
    | Collect
    | Persist
    | BeginExclusive
    | StartExclusive
    | ExclusiveEnds(outcome: Outcome)
    | PersistExclusive
    | Return

  ghost predicate Matches(cfg: Config, disk: Option<State>) {
    disk.Some? && disk.value.inputs == cfg.inputs
  }

  ghost predicate Init(cfg: Config, s: Sys) {
    !Matches(cfg, s.disk) && s.phase == Down && s.log == []
  }

  ghost predicate NextStep(cfg: Config, s: Sys, s': Sys, step: Step) {
    match step
    // A crash or any uncaught exception: the process is gone, the file is what was last written.
    case Crash => s' == s.(phase := Down)
    case Initialise =>
      var st := State(cfg.inputs, [], []);
      s.phase.Down? && !Matches(cfg, s.disk) && s' == s.(disk := Some(st), phase := Loaded(st))
    case Resume =>
      s.phase.Down? && Matches(cfg, s.disk) && s' == s.(phase := Loaded(s.disk.value))
    case UseFrozenPlan =>
      s.phase.Loaded? && s.phase.state.planned != [] && s' == s.(phase := Frozen(s.phase.state))
    case FreezePlan(plan) =>
      && s.phase.Loaded? && s.phase.state.planned == [] && Buildable(cfg, plan)
      && DistinctIndexes(plan) && NoDuplicates(Files(plan))
      && var st := WithPlan(s.phase.state, plan);
      s' == s.(disk := Some(st), phase := Frozen(st))
    case RejectPlan =>
      s.phase.Frozen? && !PlanMatches(s.phase.state.planned, cfg.inventory) && s' == s.(phase := Down)
    case BeginParallel(order) =>
      && s.phase.Frozen? && PlanMatches(s.phase.state.planned, cfg.inventory)
      && var st := s.phase.state;
      && multiset(order) == multiset(PendingOf(st.planned, st.completed, true))
      && s' == s.(phase := Parallel(st, CachedResults(st.planned, st.completed), order, [], [],
                                    PendingOf(st.planned, st.completed, false),
                                    if |order| < cfg.workerLimit then |order| else cfg.workerLimit))
    case Submit =>
      && s.phase.Parallel? && s.phase.batch == [] && s.phase.pending != [] && |s.phase.active| < s.phase.workers
      && s' == s.(phase := s.phase.(pending := s.phase.pending[1..], active := s.phase.active + [Handle(s.phase.pending[0], None)]),
                  log := s.log + [Started(s.phase.pending[0])])
    case TaskEnds(slot, outcome) =>
      && s.phase.Parallel? && slot < |s.phase.active| && s.phase.active[slot].outcome.None?
      && OutcomeFor(s.phase.active[slot].shard, outcome)
      && s' == s.(phase := s.phase.(active := s.phase.active[slot := s.phase.active[slot].(outcome := Some(outcome))]))
    case Collect =>
      && s.phase.Parallel? && s.phase.batch == [] && (s.phase.pending == [] || |s.phase.active| == s.phase.workers)
      && s' == s.(phase := s.phase.(batch := Sort(LeqHandle, Done(s.phase.active))))
    case Persist =>
      && s.phase.Parallel? && s.phase.batch != []
      && var h := s.phase.batch[0];
      if h.outcome.None? || h.outcome.value.Raised? then s' == s.(phase := Down)
      else
        var r := h.outcome.value.result;
        var st := WithResult(s.phase.state, r);
        s' == s.(disk := Some(st), log := s.log + [Persisted(r)],
                 phase := s.phase.(state := st, results := s.phase.results[r.index := r],
                                   active := Drop(s.phase.active, h.shard.index), batch := s.phase.batch[1..]))
    case BeginExclusive =>
      && s.phase.Parallel? && s.phase.pending == [] && s.phase.active == [] && s.phase.batch == []
      && s' == s.(phase := Exclusive(s.phase.state, s.phase.results, s.phase.exclusive, None))
    case StartExclusive =>
      && s.phase.Exclusive? && s.phase.running.None? && s.phase.exclusive != []
      && s' == s.(phase := s.phase.(exclusive := s.phase.exclusive[1..], running := Some(Handle(s.phase.exclusive[0], None))),
                  log := s.log + [Started(s.phase.exclusive[0])])
    case ExclusiveEnds(outcome) =>
      && s.phase.Exclusive? && s.phase.running.Some? && s.phase.running.value.outcome.None?
      && OutcomeFor(s.phase.running.value.shard, outcome)
      && s' == s.(phase := s.phase.(running := Some(s.phase.running.value.(outcome := Some(outcome)))))
    case PersistExclusive =>
      && s.phase.Exclusive? && s.phase.running.Some? && s.phase.running.value.outcome.Some?
      && var h := s.phase.running.value;
      if h.outcome.value.Raised? then s' == s.(phase := Down)
      else
        var r := h.outcome.value.result;
        var st := WithResult(s.phase.state, r);
        s' == s.(disk := Some(st), log := s.log + [Persisted(r)],
                 phase := s.phase.(state := st, results := s.phase.results[r.index := r], running := None))
    case Return =>
      && s.phase.Exclusive? && s.phase.running.None? && s.phase.exclusive == []
      && s' == s.(phase := Returned(s.phase.state, s.phase.results))
  }

  ghost predicate Next(cfg: Config, s: Sys, s': Sys) {
    exists step :: NextStep(cfg, s, s', step)
  }

  ghost predicate Behaviour(cfg: Config, b: seq<Sys>) {
    && b != [] && Init(cfg, b[0])
    && forall i, j | 0 <= i < j < |b| && j == i + 1 :: Next(cfg, b[i], b[j])
  }

  // ----- the invariant -----

  ghost function Idx(shards: seq<Shard>): set<int> { set s | s in shards :: s.index }
  ghost function DoneIdx(completed: seq<ShardResult>): set<int> { set r | r in completed :: r.index }
  ghost function ActiveIdx(active: seq<Handle>): set<int> { set h | h in active :: h.shard.index }

  ghost predicate DistinctHandles(active: seq<Handle>) {
    forall i, j | 0 <= i < j < |active| :: active[i].shard.index != active[j].shard.index
  }

  ghost predicate DistinctResults(completed: seq<ShardResult>) {
    forall i, j | 0 <= i < j < |completed| :: completed[i].index != completed[j].index
  }

  ghost predicate Belongs(planned: seq<Shard>, r: ShardResult) {
    exists shard :: shard in planned && ResultFor(shard, r)
  }

  /** The durable state: results only for planned shards, at most one each. */
  ghost predicate StateOk(cfg: Config, st: State) {
    && st.inputs == cfg.inputs && DistinctIndexes(st.planned) && DistinctResults(st.completed)
    && forall r | r in st.completed :: Belongs(st.planned, r)
  }

  /** `results` is the durable set of results, keyed by shard index. */
  ghost predicate ResultsOk(st: State, results: map<int, ShardResult>) {
    && results.Keys == DoneIdx(st.completed)
    && forall i | i in results :: results[i] in st.completed && results[i].index == i
  }

  ghost predicate ShardsOk(st: State, shards: seq<Shard>, parallel: bool) {
    && DistinctIndexes(shards)
    && forall shard | shard in shards :: shard in st.planned && shard.ParallelSafe() == parallel
  }

  ghost predicate HandlesOk(st: State, log: seq<Event>, active: seq<Handle>, parallel: bool) {
    && DistinctHandles(active)
    && forall h | h in active ::
         && h.shard in st.planned && h.shard.ParallelSafe() == parallel && Started(h.shard) in log
         && (h.outcome.Some? ==> OutcomeFor(h.shard, h.outcome.value))
  }

  ghost predicate BatchOk(active: seq<Handle>, batch: seq<Handle>) {
    DistinctHandles(batch) && forall h | h in batch :: h in active && h.outcome.Some?
  }

  /** Every planned shard is in exactly one place: waiting, running, or durably done. */
  ghost predicate Split(all: set<int>, a: set<int>, b: set<int>, c: set<int>, d: set<int>) {
    a !! b && a !! c && a !! d && b !! c && b !! d && c !! d && a + b + c + d == all
  }

  ghost predicate PhaseOk(cfg: Config, st: State, log: seq<Event>, phase: Phase) {
    match phase
    case Down => true
    case Loaded(state) => state == st
    case Frozen(state) => state == st
    case Parallel(state, results, pending, active, batch, exclusive, workers) =>
      && state == st && ResultsOk(st, results)
      && ShardsOk(st, pending, true) && ShardsOk(st, exclusive, false)
      && HandlesOk(st, log, active, true) && BatchOk(active, batch)
      && |active| <= workers <= cfg.workerLimit && (workers == cfg.workerLimit || |pending| + |active| <= workers)
      && Split(Idx(st.planned), Idx(pending), ActiveIdx(active), Idx(exclusive), DoneIdx(st.completed))
      && PlanMatches(st.planned, cfg.inventory)
    case Exclusive(state, results, exclusive, running) =>
      && state == st && ResultsOk(st, results) && ShardsOk(st, exclusive, false)
      && var active := if running.Some? then [running.value] else [];
      && HandlesOk(st, log, active, false)
      && Split(Idx(st.planned), {}, ActiveIdx(active), Idx(exclusive), DoneIdx(st.completed))
      && PlanMatches(st.planned, cfg.inventory)
    case Returned(state, results) =>
      && state == st && ResultsOk(st, results) && DoneIdx(st.completed) == Idx(st.planned)
      && PlanMatches(st.planned, cfg.inventory)
  }

  /** The history: what was made durable had been started, is durable, and is never started again. */
  ghost predicate History(log: seq<Event>) {
    && (forall i, j | 0 <= i < j < |log| && log[i].Persisted? && log[j].Started? :: log[i].result.index != log[j].shard.index)
    && (forall i, j | 0 <= i < j < |log| && log[i].Persisted? && log[j].Persisted? :: log[i].result.index != log[j].result.index)
    && (forall j | 0 <= j < |log| && log[j].Persisted? :: StartedBefore(log, j, log[j].result))
  }

  ghost predicate StartedBefore(log: seq<Event>, j: nat, r: ShardResult)
    requires j <= |log|
  {
    exists i :: 0 <= i < j && log[i].Started? && ResultFor(log[i].shard, r)
  }

  ghost predicate LogOk(st: State, log: seq<Event>) {
    History(log) && forall r :: Persisted(r) in log <==> r in st.completed
  }

  ghost predicate Inv(cfg: Config, s: Sys) {
    if Matches(cfg, s.disk) then
      StateOk(cfg, s.disk.value) && LogOk(s.disk.value, s.log) && PhaseOk(cfg, s.disk.value, s.log, s.phase)
    else
      s.phase == Down && s.log == []
  }

  // ----- small facts about the lists -----

  lemma IdxTail(shards: seq<Shard>)
    requires shards != [] && DistinctIndexes(shards)
    ensures Idx(shards) == {shards[0].index} + Idx(shards[1..]) && shards[0].index !in Idx(shards[1..])
    ensures DistinctIndexes(shards[1..]) && forall s | s in shards[1..] :: s in shards
  {
    assert shards == [shards[0]] + shards[1..];
  }

  lemma ActiveSnoc(active: seq<Handle>, h: Handle)
    requires DistinctHandles(active) && h.shard.index !in ActiveIdx(active)
    ensures ActiveIdx(active + [h]) == ActiveIdx(active) + {h.shard.index} && DistinctHandles(active + [h])
  {
    forall i | 0 <= i < |active| ensures active[i].shard.index != h.shard.index {
      assert active[i] in active;
    }
  }

  lemma {:induction false} WithoutMember(completed: seq<ShardResult>, index: int, r: ShardResult)
    ensures r in Without(completed, index) <==> r in completed && r.index != index
  {
    if completed != [] {
      WithoutMember(completed[..|completed| - 1], index, r);
      assert completed == completed[..|completed| - 1] + [completed[|completed| - 1]];
    }
  }

  lemma {:induction false} WithoutDistinct(completed: seq<ShardResult>, index: int)
    requires DistinctResults(completed)
    ensures DistinctResults(Without(completed, index))
  {
    if completed != [] {
      var n := |completed| - 1;
      WithoutDistinct(completed[..n], index);
      forall r | r in Without(completed[..n], index) ensures r.index != completed[n].index {
        WithoutMember(completed[..n], index, r);
      }
    }
  }

  /** A list of results with distinct indexes stays so when sorted. */
  lemma SortDistinctResults(a: seq<ShardResult>)
    requires DistinctResults(a)
    ensures DistinctResults(Sort(LeqResult, a)) && forall r :: r in Sort(LeqResult, a) <==> r in a
  {
    var b := Sort(LeqResult, a);
    SortElements(LeqResult, a);
    SortNoDuplicates(LeqResult, a);
    forall i, j | 0 <= i < j < |b| ensures b[i].index != b[j].index {
      assert b[i] in a && b[j] in a && b[i] != b[j];
    }
  }

  /** Adding a result for an index without one: all earlier results stay. */
  lemma WithResultAdds(st: State, r: ShardResult)
    requires DistinctResults(st.completed) && r.index !in DoneIdx(st.completed)
    ensures var c := WithResult(st, r).completed;
      && DistinctResults(c) && (forall x :: x in c <==> x in st.completed || x == r)
      && DoneIdx(c) == DoneIdx(st.completed) + {r.index}
  {
    var kept := Without(st.completed, r.index);
    forall x ensures x in kept <==> x in st.completed {
      WithoutMember(st.completed, r.index, x);
      if x in st.completed { assert x.index in DoneIdx(st.completed); }
    }
    WithoutDistinct(st.completed, r.index);
    forall x | x in kept ensures x.index != r.index {
      assert x.index in DoneIdx(st.completed);
    }
    SortDistinctResults(kept + [r]);
  }

  lemma ResultsAdd(st: State, results: map<int, ShardResult>, r: ShardResult)
    requires ResultsOk(st, results) && DistinctResults(st.completed) && r.index !in DoneIdx(st.completed)
    ensures ResultsOk(WithResult(st, r), results[r.index := r])
  {
    WithResultAdds(st, r);
  }

  lemma StateAdds(cfg: Config, st: State, shard: Shard, r: ShardResult)
    requires StateOk(cfg, st) && shard in st.planned && ResultFor(shard, r) && r.index !in DoneIdx(st.completed)
    ensures StateOk(cfg, WithResult(st, r))
  {
    WithResultAdds(st, r);
    forall x | x in WithResult(st, r).completed ensures Belongs(st.planned, x) {
      if x == r { assert shard in st.planned; }
    }
  }

  lemma LogPersists(st: State, log: seq<Event>, shard: Shard, r: ShardResult)
    requires LogOk(st, log) && DistinctResults(st.completed) && r.index !in DoneIdx(st.completed)
    requires Started(shard) in log && ResultFor(shard, r)
    ensures LogOk(WithResult(st, r), log + [Persisted(r)])
  {
    hide History, WithResult;
    WithResultAdds(st, r);
    forall x | Persisted(x) in log ensures x.index != r.index {
      assert x in st.completed && x.index in DoneIdx(st.completed);
    }
    HistoryPersists(log, shard, r);
    forall x ensures Persisted(x) in log + [Persisted(r)] <==> x in WithResult(st, r).completed {}
  }

  lemma HistoryPersists(log: seq<Event>, shard: Shard, r: ShardResult)
    requires History(log) && Started(shard) in log && ResultFor(shard, r) && forall x | Persisted(x) in log :: x.index != r.index
    ensures History(log + [Persisted(r)])
  {
    hide ResultFor;
    var log' := log + [Persisted(r)];
    forall i | 0 <= i < |log| && log[i].Persisted? ensures log[i].result.index != r.index {
      assert Persisted(log[i].result) in log;
    }
    forall j | 0 <= j < |log'| && log'[j].Persisted? ensures StartedBefore(log', j, log'[j].result) {
      if j < |log| {
        assert StartedBefore(log, j, log[j].result);
        var i :| 0 <= i < j && log[i].Started? && ResultFor(log[i].shard, log[j].result);
        assert log'[i] == log[i];
      } else {
        var i :| 0 <= i < |log| && log[i] == Started(shard);
        assert log'[i] == log[i];
      }
    }
  }

  lemma LogStarts(st: State, log: seq<Event>, shard: Shard)
    requires LogOk(st, log) && shard.index !in DoneIdx(st.completed)
    ensures LogOk(st, log + [Started(shard)])
  {
    var log' := log + [Started(shard)];
    forall i | 0 <= i < |log| && log[i].Persisted? ensures log[i].result.index != shard.index {
      assert Persisted(log[i].result) in log;
    }
    forall j | 0 <= j < |log'| && log'[j].Persisted? ensures StartedBefore(log', j, log'[j].result) {
      assert StartedBefore(log, j, log[j].result);
      var i :| 0 <= i < j && log[i].Started? && ResultFor(log[i].shard, log[j].result);
      assert log'[i] == log[i];
    }
    forall x ensures Persisted(x) in log' <==> x in st.completed {}
  }

  // ----- the shards that a partition leaves waiting -----

  lemma {:induction false} LookupFinds(completed: seq<ShardResult>, shard: Shard)
    ensures var c := Lookup(completed, shard);
      if c.Some? then c.value in completed && c.value.index == shard.index && c.value.identity == shard.files
      else forall r | r in completed :: !(r.index == shard.index && r.identity == shard.files)
  {
    if completed != [] {
      LookupFinds(completed[..|completed| - 1], shard);
      assert completed == completed[..|completed| - 1] + [completed[|completed| - 1]];
    }
  }

  /** With results only for planned shards, a shard has a cached result exactly when its index is done. */
  lemma LookupIsDone(cfg: Config, st: State, shard: Shard)
    requires StateOk(cfg, st) && shard in st.planned
    ensures Lookup(st.completed, shard).Some? <==> shard.index in DoneIdx(st.completed)
  {
    LookupFinds(st.completed, shard);
    if shard.index in DoneIdx(st.completed) {
      var r :| r in st.completed && r.index == shard.index;
      assert Belongs(st.planned, r);
      var other :| other in st.planned && ResultFor(other, r);
      var i :| 0 <= i < |st.planned| && st.planned[i] == shard;
      var j :| 0 <= j < |st.planned| && st.planned[j] == other;
      assert i == j;
    }
  }

  lemma {:induction false} PendingMember(plan: seq<Shard>, completed: seq<ShardResult>, parallel: bool, shard: Shard)
    ensures shard in PendingOf(plan, completed, parallel) <==>
            shard in plan && Lookup(completed, shard).None? && shard.ParallelSafe() == parallel
  {
    if plan != [] {
      PendingMember(plan[..|plan| - 1], completed, parallel, shard);
      assert plan == plan[..|plan| - 1] + [plan[|plan| - 1]];
    }
  }

  lemma {:induction false} PendingDistinct(plan: seq<Shard>, completed: seq<ShardResult>, parallel: bool)
    requires DistinctIndexes(plan)
    ensures DistinctIndexes(PendingOf(plan, completed, parallel))
  {
    if plan != [] {
      var n := |plan| - 1;
      PendingDistinct(plan[..n], completed, parallel);
      forall shard | shard in PendingOf(plan[..n], completed, parallel) ensures shard.index != plan[n].index {
        PendingMember(plan[..n], completed, parallel, shard);
      }
    }
  }

  lemma {:induction false} CachedMember(plan: seq<Shard>, completed: seq<ShardResult>, i: int)
    ensures i in CachedResults(plan, completed) <==>
            exists shard :: shard in plan && shard.index == i && Lookup(completed, shard).Some?
    ensures i in CachedResults(plan, completed) ==>
            CachedResults(plan, completed)[i] in completed && CachedResults(plan, completed)[i].index == i
  {
    if plan != [] {
      var n := |plan| - 1;
      CachedMember(plan[..n], completed, i);
      LookupFinds(completed, plan[n]);
      assert plan == plan[..n] + [plan[n]];
    }
  }

  lemma PermutedShards(a: seq<Shard>, b: seq<Shard>)
    requires multiset(a) == multiset(b) && DistinctIndexes(b)
    ensures DistinctIndexes(a) && (forall s :: s in a <==> s in b) && Idx(a) == Idx(b)
  {
    assert NoDuplicates(b);
    NoDuplicatesByCount(a);
    NoDuplicatesByCount(b);
    forall s ensures s in a <==> s in b {
      assert s in a <==> s in multiset(a);
      assert s in b <==> s in multiset(b);
    }
    forall i, j | 0 <= i < j < |a| ensures a[i].index != a[j].index {
      assert a[i] in b && a[j] in b && a[i] != a[j];
    }
  }

  /** A partition splits the plan: waiting parallel, waiting exclusive, and done. */
  lemma PartitionSplits(cfg: Config, st: State, order: seq<Shard>)
    requires StateOk(cfg, st)
    requires multiset(order) == multiset(PendingOf(st.planned, st.completed, true))
    ensures var exclusive := PendingOf(st.planned, st.completed, false);
      && ShardsOk(st, order, true) && ShardsOk(st, exclusive, false)
      && ResultsOk(st, CachedResults(st.planned, st.completed))
      && Split(Idx(st.planned), Idx(order), {}, Idx(exclusive), DoneIdx(st.completed))
  {
    var parallel, exclusive := PendingOf(st.planned, st.completed, true), PendingOf(st.planned, st.completed, false);
    PendingDistinct(st.planned, st.completed, true);
    PendingDistinct(st.planned, st.completed, false);
    PermutedShards(order, parallel);
    forall shard ensures shard in parallel <==> shard in st.planned && shard.index !in DoneIdx(st.completed) && shard.ParallelSafe()
      ensures shard in exclusive <==> shard in st.planned && shard.index !in DoneIdx(st.completed) && !shard.ParallelSafe()
    {
      PendingMember(st.planned, st.completed, true, shard);
      PendingMember(st.planned, st.completed, false, shard);
      if shard in st.planned { LookupIsDone(cfg, st, shard); }
    }
    PartitionIndexes(cfg, st, order, exclusive);
    PartitionResults(cfg, st);
  }

  lemma PartitionIndexes(cfg: Config, st: State, parallel: seq<Shard>, exclusive: seq<Shard>)
    requires StateOk(cfg, st)
    requires forall s :: s in parallel <==> s in st.planned && s.index !in DoneIdx(st.completed) && s.ParallelSafe()
    requires forall s :: s in exclusive <==> s in st.planned && s.index !in DoneIdx(st.completed) && !s.ParallelSafe()
    ensures Split(Idx(st.planned), Idx(parallel), {}, Idx(exclusive), DoneIdx(st.completed))
  {
    forall i ensures !(i in Idx(parallel) && i in Idx(exclusive)) {
      if i in Idx(parallel) && i in Idx(exclusive) {
        var s :| s in parallel && s.index == i;
        var t :| t in exclusive && t.index == i;
        SameShard(st.planned, s, t);
        assert false;
      }
    }
    forall i ensures i in Idx(st.planned) <==> i in Idx(parallel) + {} + Idx(exclusive) + DoneIdx(st.completed) {
      if i in Idx(st.planned) {
        var s :| s in st.planned && s.index == i;
      }
      if i in DoneIdx(st.completed) {
        var r :| r in st.completed && r.index == i;
        assert Belongs(st.planned, r);
      }
    }
  }

  lemma SameShard(planned: seq<Shard>, s: Shard, t: Shard)
    requires DistinctIndexes(planned) && s in planned && t in planned && s.index == t.index
    ensures s == t
  {
    var i :| 0 <= i < |planned| && planned[i] == s;
    var j :| 0 <= j < |planned| && planned[j] == t;
    assert i == j;
  }

  lemma PartitionResults(cfg: Config, st: State)
    requires StateOk(cfg, st)
    ensures ResultsOk(st, CachedResults(st.planned, st.completed))
  {
    var results := CachedResults(st.planned, st.completed);
    forall i ensures i in results <==> i in DoneIdx(st.completed)
      ensures i in results ==> results[i] in st.completed && results[i].index == i
    {
      CachedMember(st.planned, st.completed, i);
      if i in results {
        var shard :| shard in st.planned && shard.index == i && Lookup(st.completed, shard).Some?;
        LookupIsDone(cfg, st, shard);
      }
      if i in DoneIdx(st.completed) {
        var r :| r in st.completed && r.index == i;
        assert Belongs(st.planned, r);
        var shard :| shard in st.planned && ResultFor(shard, r);
        LookupIsDone(cfg, st, shard);
      }
    }
  }

  // ----- every step keeps the invariant -----

  lemma {:induction false} DropFacts(active: seq<Handle>, index: int)
    requires DistinctHandles(active)
    ensures DistinctHandles(Drop(active, index)) && |Drop(active, index)| <= |active|
    ensures forall h :: h in Drop(active, index) <==> h in active && h.shard.index != index
    ensures ActiveIdx(Drop(active, index)) == ActiveIdx(active) - {index}
  {
    DropMembers(active, index);
  }

  lemma {:induction false} DropMembers(active: seq<Handle>, index: int)
    requires DistinctHandles(active)
    ensures DistinctHandles(Drop(active, index)) && |Drop(active, index)| <= |active|
    ensures forall h :: h in Drop(active, index) <==> h in active && h.shard.index != index
  {
    if active != [] {
      var n := |active| - 1;
      DropMembers(active[..n], index);
      assert active == active[..n] + [active[n]];
      forall h | h in Drop(active[..n], index) ensures h.shard.index != active[n].shard.index {
        assert h in active[..n];
      }
    }
  }

  lemma {:induction false} DoneFacts(active: seq<Handle>)
    requires DistinctHandles(active)
    ensures DistinctHandles(Done(active))
    ensures forall h :: h in Done(active) <==> h in active && h.outcome.Some?
  {
    if active != [] {
      var n := |active| - 1;
      DoneFacts(active[..n]);
      assert active == active[..n] + [active[n]];
      forall h | h in Done(active[..n]) ensures h.shard.index != active[n].shard.index {
        assert h in active[..n];
      }
    }
  }

  lemma CollectFacts(active: seq<Handle>)
    requires DistinctHandles(active)
    ensures BatchOk(active, Sort(LeqHandle, Done(active)))
  {
    var done := Done(active);
    var batch := Sort(LeqHandle, done);
    DoneFacts(active);
    SortElements(LeqHandle, done);
    assert NoDuplicates(done);
    SortNoDuplicates(LeqHandle, done);
    forall i, j | 0 <= i < j < |batch| ensures batch[i].shard.index != batch[j].shard.index {
      assert batch[i] in done && batch[j] in done && batch[i] != batch[j];
    }
  }

  lemma StartUp(cfg: Config, s: Sys, s': Sys, step: Step)
    requires Inv(cfg, s) && NextStep(cfg, s, s', step)
    requires step.Crash? || step.Initialise? || step.Resume? || step.UseFrozenPlan? || step.RejectPlan?
    ensures Inv(cfg, s')
  {
  }

  lemma FreezeOk(cfg: Config, s: Sys, s': Sys, plan: seq<Shard>)
    requires Inv(cfg, s) && NextStep(cfg, s, s', FreezePlan(plan))
    ensures Inv(cfg, s') && s.phase.Loaded? && s.phase.state == s.disk.value
  {
    hide PlanMatches, Files, Buildable, LogOk;
    var st := s.phase.state;
    assert st == s.disk.value;
    if st.completed != [] {
      NothingBelongs(st.completed[0]);
      assert false;
    }
    PermutedShards(Sort(LeqShard, plan), plan);
    LogUnchanged(st, WithPlan(st, plan), s.log);
  }

  lemma NothingBelongs(r: ShardResult)
    ensures !Belongs([], r)
  {
  }

  lemma LogUnchanged(st: State, st': State, log: seq<Event>)
    requires LogOk(st, log) && st.completed == st'.completed
    ensures LogOk(st', log)
  {
  }

  lemma BeginParallelOk(cfg: Config, s: Sys, s': Sys, order: seq<Shard>)
    requires Inv(cfg, s) && NextStep(cfg, s, s', BeginParallel(order))
    ensures Inv(cfg, s')
  {
    hide PlanMatches, LogOk, StateOk, ShardsOk, ResultsOk, Split;
    PartitionSplits(cfg, s.phase.state, order);
    assert ActiveIdx([]) == {};
    NoHandles(s.phase.state, s.log, true);
  }

  lemma NoHandles(st: State, log: seq<Event>, parallel: bool)
    ensures HandlesOk(st, log, [], parallel) && BatchOk([], [])
  {
  }

  lemma HandlesStart(st: State, log: seq<Event>, active: seq<Handle>, parallel: bool, shard: Shard)
    requires HandlesOk(st, log, active, parallel) && shard.index !in ActiveIdx(active)
    requires shard in st.planned && shard.ParallelSafe() == parallel
    ensures HandlesOk(st, log + [Started(shard)], active + [Handle(shard, None)], parallel)
    ensures ActiveIdx(active + [Handle(shard, None)]) == ActiveIdx(active) + {shard.index}
  {
    ActiveSnoc(active, Handle(shard, None));
  }

  lemma SubmitOk(cfg: Config, s: Sys, s': Sys)
    requires Inv(cfg, s) && NextStep(cfg, s, s', Submit)
    ensures Inv(cfg, s')
  {
    hide PlanMatches, LogOk, StateOk, ResultsOk, HandlesOk, Idx, ActiveIdx, DoneIdx;
    var p, st := s.phase, s.disk.value;
    var shard := p.pending[0];
    IdxTail(p.pending);
    assert shard.index in Idx(p.pending);
    LogStarts(st, s.log, shard);
    HandlesStart(st, s.log, p.active, true, shard);
  }

  lemma HandlesEnd(st: State, log: seq<Event>, active: seq<Handle>, parallel: bool, slot: nat, outcome: Outcome)
    requires HandlesOk(st, log, active, parallel) && slot < |active| && OutcomeFor(active[slot].shard, outcome)
    ensures var active' := active[slot := active[slot].(outcome := Some(outcome))];
      HandlesOk(st, log, active', parallel) && ActiveIdx(active') == ActiveIdx(active)
  {
    var active' := active[slot := active[slot].(outcome := Some(outcome))];
    assert forall i | 0 <= i < |active| :: active'[i].shard == active[i].shard;
    forall h | h in active' ensures h.shard in st.planned && h.shard.ParallelSafe() == parallel && Started(h.shard) in log
      ensures h.outcome.Some? ==> OutcomeFor(h.shard, h.outcome.value)
    {
      var i :| 0 <= i < |active'| && active'[i] == h;
      assert active[i] in active;
    }
    forall x ensures x in ActiveIdx(active') <==> x in ActiveIdx(active) {
      if x in ActiveIdx(active) {
        var h :| h in active && h.shard.index == x;
        var i :| 0 <= i < |active| && active[i] == h;
        assert active'[i] in active';
      }
      if x in ActiveIdx(active') {
        var h :| h in active' && h.shard.index == x;
        var i :| 0 <= i < |active'| && active'[i] == h;
        assert active[i] in active;
      }
    }
  }

  lemma TaskEndsOk(cfg: Config, s: Sys, s': Sys, slot: nat, outcome: Outcome)
    requires Inv(cfg, s) && NextStep(cfg, s, s', TaskEnds(slot, outcome))
    ensures Inv(cfg, s')
  {
    hide PlanMatches, LogOk, StateOk, ResultsOk, ShardsOk, HandlesOk, Idx, ActiveIdx, DoneIdx;
    var p, st := s.phase, s.disk.value;
    HandlesEnd(st, s.log, p.active, true, slot, outcome);
    forall h | h in p.batch ensures h in s'.phase.active {
      var i :| 0 <= i < |p.active| && p.active[i] == h;
      assert i != slot;
      assert s'.phase.active[i] == h;
    }
  }

  lemma CollectOk(cfg: Config, s: Sys, s': Sys)
    requires Inv(cfg, s) && NextStep(cfg, s, s', Collect)
    ensures Inv(cfg, s')
  {
    hide PlanMatches, LogOk, StateOk, ResultsOk, ShardsOk, Split, Sort, Done;
    CollectFacts(s.phase.active);
  }

  lemma SplitMoves(all: set<int>, a: set<int>, b: set<int>, c: set<int>, d: set<int>, x: int)
    requires Split(all, a, b, c, d) && x in b
    ensures Split(all, a, b - {x}, c, d + {x})
  {
  }

  lemma HandlesDrop(st: State, log: seq<Event>, active: seq<Handle>, parallel: bool, r: ShardResult)
    requires HandlesOk(st, log, active, parallel)
    ensures HandlesOk(WithResult(st, r), log + [Persisted(r)], Drop(active, r.index), parallel)
  {
    DropFacts(active, r.index);
  }

  lemma BatchTail(active: seq<Handle>, batch: seq<Handle>)
    requires DistinctHandles(active) && BatchOk(active, batch) && batch != []
    ensures BatchOk(Drop(active, batch[0].shard.index), batch[1..])
  {
    DropFacts(active, batch[0].shard.index);
    forall h | h in batch[1..] ensures h in active && h.outcome.Some? && h.shard.index != batch[0].shard.index {
      assert h in batch;
    }
  }

  lemma PersistOk(cfg: Config, s: Sys, s': Sys)
    requires Inv(cfg, s) && NextStep(cfg, s, s', Persist)
    ensures Inv(cfg, s')
  {
    hide PlanMatches, LogOk, StateOk, ResultsOk, Idx, DoneIdx, Sort, Without;
    var p, st := s.phase, s.disk.value;
    var h := p.batch[0];
    assert h in p.batch && h in p.active;
    if h.outcome.value.Finished? {
      var r := h.outcome.value.result;
      assert r.index in ActiveIdx(p.active);
      StateDistinct(cfg, st);
      StateAdds(cfg, st, h.shard, r);
      LogPersists(st, s.log, h.shard, r);
      ResultsAdd(st, p.results, r);
      WithResultAdds(st, r);
      HandlesDrop(st, s.log, p.active, true, r);
      BatchTail(p.active, p.batch);
      DropFacts(p.active, r.index);
      SplitMoves(Idx(st.planned), Idx(p.pending), ActiveIdx(p.active), Idx(p.exclusive), DoneIdx(st.completed), r.index);
    }
  }

  lemma StateDistinct(cfg: Config, st: State)
    requires StateOk(cfg, st)
    ensures DistinctResults(st.completed)
  {
  }

  lemma BeginExclusiveOk(cfg: Config, s: Sys, s': Sys)
    requires Inv(cfg, s) && NextStep(cfg, s, s', BeginExclusive)
    ensures Inv(cfg, s')
  {
    hide PlanMatches, LogOk, StateOk, ResultsOk, ShardsOk;
    NoHandles(s.disk.value, s.log, false);
    assert ActiveIdx([]) == {} && Idx([]) == {};
  }

  lemma StartExclusiveOk(cfg: Config, s: Sys, s': Sys)
    requires Inv(cfg, s) && NextStep(cfg, s, s', StartExclusive)
    ensures Inv(cfg, s')
  {
    hide PlanMatches, LogOk, StateOk, ResultsOk, HandlesOk, Idx, ActiveIdx, DoneIdx;
    var p, st := s.phase, s.disk.value;
    var shard := p.exclusive[0];
    IdxTail(p.exclusive);
    LogStarts(st, s.log, shard);
    HandlesStart(st, s.log, [], false, shard);
    assert [] + [Handle(shard, None)] == [Handle(shard, None)];
  }

  lemma ExclusiveEndsOk(cfg: Config, s: Sys, s': Sys, outcome: Outcome)
    requires Inv(cfg, s) && NextStep(cfg, s, s', ExclusiveEnds(outcome))
    ensures Inv(cfg, s')
  {
    hide PlanMatches, LogOk, StateOk, ResultsOk, ShardsOk, HandlesOk, Idx, ActiveIdx, DoneIdx;
    var h := s.phase.running.value;
    HandlesEnd(s.disk.value, s.log, [h], false, 0, outcome);
    assert [h][0 := h.(outcome := Some(outcome))] == [h.(outcome := Some(outcome))];
  }

  lemma PersistExclusiveOk(cfg: Config, s: Sys, s': Sys)
    requires Inv(cfg, s) && NextStep(cfg, s, s', PersistExclusive)
    ensures Inv(cfg, s')
  {
    hide PlanMatches, LogOk, StateOk, ResultsOk, Idx, DoneIdx, Sort, Without;
    var p, st := s.phase, s.disk.value;
    var h := p.running.value;
    assert h in [h];
    if h.outcome.value.Finished? {
      var r := h.outcome.value.result;
      assert ActiveIdx([h]) == {r.index};
      StateDistinct(cfg, st);
      StateAdds(cfg, st, h.shard, r);
      LogPersists(st, s.log, h.shard, r);
      ResultsAdd(st, p.results, r);
      WithResultAdds(st, r);
      SplitMoves(Idx(st.planned), {}, {r.index}, Idx(p.exclusive), DoneIdx(st.completed), r.index);
      assert {r.index} - {r.index} == {} && ActiveIdx([]) == {};
    }
  }

  lemma ReturnOk(cfg: Config, s: Sys, s': Sys)
    requires Inv(cfg, s) && NextStep(cfg, s, s', Return)
    ensures Inv(cfg, s')
  {
    hide PlanMatches, LogOk, StateOk, ResultsOk, ShardsOk;
    assert ActiveIdx([]) == {} && Idx([]) == {};
  }

  lemma StepKeepsInv(cfg: Config, s: Sys, s': Sys, step: Step)
    requires Inv(cfg, s) && NextStep(cfg, s, s', step)
    ensures Inv(cfg, s')
  {
    hide *;
    match step
    case FreezePlan(plan) => FreezeOk(cfg, s, s', plan);
    case BeginParallel(order) => BeginParallelOk(cfg, s, s', order);
    case Submit => SubmitOk(cfg, s, s');
    case TaskEnds(slot, outcome) => TaskEndsOk(cfg, s, s', slot, outcome);
    case Collect => CollectOk(cfg, s, s');
    case Persist => PersistOk(cfg, s, s');
    case BeginExclusive => BeginExclusiveOk(cfg, s, s');
    case StartExclusive => StartExclusiveOk(cfg, s, s');
    case ExclusiveEnds(outcome) => ExclusiveEndsOk(cfg, s, s', outcome);
    case PersistExclusive => PersistExclusiveOk(cfg, s, s');
    case Return => ReturnOk(cfg, s, s');
    case _ => StartUp(cfg, s, s', step);
  }

  // ----- what holds over every run, with crashes and restarts -----

  lemma {:induction false} Always(cfg: Config, b: seq<Sys>, i: nat)
    requires Behaviour(cfg, b) && i < |b|
    ensures Inv(cfg, b[i])
  {
    if i > 0 {
      Always(cfg, b, i - 1);
      assert Next(cfg, b[i - 1], b[i]);
      var step :| NextStep(cfg, b[i - 1], b[i], step);
      StepKeepsInv(cfg, b[i - 1], b[i], step);
    }
  }

  /** The durable state only grows: a frozen plan and every durable result stay. */
  ghost predicate Grows(cfg: Config, d: Option<State>, d': Option<State>) {
    Matches(cfg, d) ==>
      && Matches(cfg, d')
      && (d.value.planned != [] ==> d'.value.planned == d.value.planned)
      && (forall r | r in d.value.completed :: r in d'.value.completed)
  }

  lemma StepGrows(cfg: Config, s: Sys, s': Sys, step: Step)
    requires Inv(cfg, s) && NextStep(cfg, s, s', step)
    ensures Grows(cfg, s.disk, s'.disk)
  {
    hide PlanMatches, LogOk, Sort, Without, Buildable;
    if step.FreezePlan? {
      FreezeOk(cfg, s, s', step.plan);
    } else if step.Persist? && s'.phase.Parallel? {
      var h := s.phase.batch[0];
      assert h in s.phase.batch && h in s.phase.active;
      assert h.shard.index in ActiveIdx(s.phase.active);
      WithResultAdds(s.disk.value, h.outcome.value.result);
    } else if step.PersistExclusive? && s'.phase.Exclusive? {
      var h := s.phase.running.value;
      assert h in [h] && h.shard.index in ActiveIdx([h]);
      WithResultAdds(s.disk.value, h.outcome.value.result);
    }
  }

  /** Once frozen the plan never changes, and a durable result is never lost. */
  lemma {:induction false} FrozenForever(cfg: Config, b: seq<Sys>, i: nat, j: nat)
    requires Behaviour(cfg, b) && i <= j < |b|
    ensures Grows(cfg, b[i].disk, b[j].disk)
    decreases j
  {
    if i < j {
      FrozenForever(cfg, b, i, j - 1);
      Always(cfg, b, j - 1);
      assert Next(cfg, b[j - 1], b[j]);
      var step :| NextStep(cfg, b[j - 1], b[j], step);
      StepGrows(cfg, b[j - 1], b[j], step);
    }
  }

  /** The shards being executed right now. */
  ghost function Running(phase: Phase): set<Shard> {
    match phase
    case Parallel(_, _, _, active, _, _, _) => set h | h in active && h.outcome.None? :: h.shard
    case Exclusive(_, _, _, running) => if running.Some? && running.value.outcome.None? then {running.value.shard} else {}
    case _ => {}
  }

  /** Only shards of the frozen plan without a durable result run, at most workerLimit of them at a time,
      and an exclusive shard runs alone. */
  lemma RunningIsBounded(cfg: Config, b: seq<Sys>, i: nat)
    requires Behaviour(cfg, b) && i < |b|
    ensures forall shard | shard in Running(b[i].phase) ::
      && Matches(cfg, b[i].disk) && shard in b[i].disk.value.planned
      && shard.index !in DoneIdx(b[i].disk.value.completed)
    ensures |Running(b[i].phase)| <= if b[i].phase.Parallel? then cfg.workerLimit else 1
    ensures forall s, t | s in Running(b[i].phase) && t in Running(b[i].phase) && !s.ParallelSafe() :: s == t
  {
    Always(cfg, b, i);
    hide PlanMatches, LogOk, StateOk;
    var s := b[i];
    if s.phase.Parallel? {
      RunningSize(s.phase.active);
      forall shard | shard in Running(s.phase) ensures shard in s.disk.value.planned && shard.ParallelSafe()
        ensures shard.index !in DoneIdx(s.disk.value.completed)
      {
        var h :| h in s.phase.active && h.outcome.None? && h.shard == shard;
        assert h.shard.index in ActiveIdx(s.phase.active);
      }
    } else if s.phase.Exclusive? && s.phase.running.Some? {
      var h := s.phase.running.value;
      assert h in [h] && h.shard.index in ActiveIdx([h]);
    }
  }

  /** The window is as wide as it may be: below the limit only if everything that is left fits into it. */
  lemma WindowIsWide(cfg: Config, b: seq<Sys>, i: nat)
    requires Behaviour(cfg, b) && i < |b| && b[i].phase.Parallel?
    ensures b[i].phase.workers == cfg.workerLimit || |b[i].phase.pending| + |b[i].phase.active| <= b[i].phase.workers
  {
    Always(cfg, b, i);
  }

  lemma {:induction false} RunningSize(active: seq<Handle>)
    ensures |set h | h in active && h.outcome.None? :: h.shard| <= |active|
  {
    if active != [] {
      var n := |active| - 1;
      RunningSize(active[..n]);
      var all, front := set h | h in active && h.outcome.None? :: h.shard, set h | h in active[..n] && h.outcome.None? :: h.shard;
      assert active == active[..n] + [active[n]];
      assert all == front + if active[n].outcome.None? then {active[n].shard} else {};
    }
  }

  /** A shard whose result is durable is not executing then or at any later time. */
  lemma NeverRunsAgain(cfg: Config, b: seq<Sys>, i: nat, j: nat, r: ShardResult)
    requires Behaviour(cfg, b) && i <= j < |b|
    requires Matches(cfg, b[i].disk) && r in b[i].disk.value.completed
    ensures forall shard | shard in Running(b[j].phase) :: shard.index != r.index
  {
    FrozenForever(cfg, b, i, j);
    RunningIsBounded(cfg, b, j);
    assert r.index in DoneIdx(b[j].disk.value.completed);
  }

  /** The history of a run: started before persisted, persisted once, never started afterwards. */
  lemma HistoryHolds(cfg: Config, b: seq<Sys>, i: nat)
    requires Behaviour(cfg, b) && i < |b|
    ensures History(b[i].log)
  {
    Always(cfg, b, i);
  }

  // ----- progress -----

  /** The plan a fresh run builds and freezes. */
  method PlanToFreeze(cfg: Config, est: File -> real) returns (plan: Option<seq<Shard>>)
    ensures plan.None? <==> cfg.inputs.shardSize == 0
    ensures plan.Some? ==> Buildable(cfg, plan.value) && DistinctIndexes(plan.value)
    ensures plan.Some? && DistinctFiles(cfg.inventory) && KnownClasses(cfg.inventory) ==> NoDuplicates(Files(plan.value))
  {
    hide DistinctFiles, KnownClasses;
    var built := BuildShardPlan(cfg.inventory, est, cfg.inputs.shardSize);
    if built.SizeNotPositive? { return None; }
    assert WellBuilt(built.plan, cfg.inputs.shardSize, est);
    return Some(built.plan);
  }

  /** Freezing keeps a built plan as it is, so on an inventory of known classes without duplicates it is never rejected. */
  lemma BuiltPlanIsKept(cfg: Config, st: State, plan: seq<Shard>)
    requires Buildable(cfg, plan)
    ensures WithPlan(st, plan) == st.(planned := plan)
    ensures DistinctFiles(cfg.inventory) && KnownClasses(cfg.inventory) ==> PlanMatches(WithPlan(st, plan).planned, cfg.inventory)
  {
    hide PlanMatches, DistinctFiles, KnownClasses;
    var est: File -> real :| WellBuilt(plan, cfg.inputs.shardSize, est);
    assert Sorted(LeqShard, plan);
    SortedStays(LeqShard, plan);
  }

  /** The run can always go on by a step of its own or the end of a running shard, given workers and, for a fresh state, what
      PlanToFreeze gives on an inventory without duplicates. */
  lemma NeverStuck(cfg: Config, b: seq<Sys>, i: nat, plan: seq<Shard>)
    requires Behaviour(cfg, b) && i < |b| && !b[i].phase.Returned? && cfg.workerLimit > 0
    requires b[i].phase.Loaded? ==> Buildable(cfg, plan) && DistinctIndexes(plan) && NoDuplicates(Files(plan))
    ensures exists step, s' :: NextStep(cfg, b[i], s', step) && !step.Crash? && s' != b[i]
  {
    hide Buildable, PlanMatches, Sort, PendingOf, CachedResults, LogOk, StateOk;
    var s := b[i];
    Always(cfg, b, i);
    match s.phase
    case Down =>
      if Matches(cfg, s.disk) { Moves(cfg, s, s.(phase := Loaded(s.disk.value)), Resume); }
      else {
        var st := State(cfg.inputs, [], []);
        Moves(cfg, s, s.(disk := Some(st), phase := Loaded(st)), Initialise);
      }
    case Loaded(st) =>
      if st.planned != [] { Moves(cfg, s, s.(phase := Frozen(st)), UseFrozenPlan); }
      else { Moves(cfg, s, s.(disk := Some(WithPlan(st, plan)), phase := Frozen(WithPlan(st, plan))), FreezePlan(plan)); }
    case Frozen(st) => FrozenMoves(cfg, s);
    case Parallel(_, _, _, _, _, _, _) => ParallelMoves(cfg, s);
    case Exclusive(_, _, _, _) => ExclusiveMoves(cfg, s);
  }

  lemma Moves(cfg: Config, s: Sys, s': Sys, step: Step)
    requires NextStep(cfg, s, s', step) && !step.Crash? && s' != s
    ensures exists step, s' :: NextStep(cfg, s, s', step) && !step.Crash? && s' != s
  {
  }

  lemma FrozenMoves(cfg: Config, s: Sys)
    requires s.phase.Frozen?
    ensures exists step, s' :: NextStep(cfg, s, s', step) && !step.Crash? && s' != s
  {
    hide PlanMatches, PendingOf, CachedResults;
    var st := s.phase.state;
    if !PlanMatches(st.planned, cfg.inventory) {
      Moves(cfg, s, s.(phase := Down), RejectPlan);
    } else {
      var order := PendingOf(st.planned, st.completed, true);
      var workers := if |order| < cfg.workerLimit then |order| else cfg.workerLimit;
      Moves(cfg, s, s.(phase := Parallel(st, CachedResults(st.planned, st.completed), order, [], [], PendingOf(st.planned, st.completed, false), workers)),
            BeginParallel(order));
    }
  }

  lemma ParallelMoves(cfg: Config, s: Sys)
    requires s.phase.Parallel? && |s.phase.active| <= s.phase.workers && (s.phase.pending != [] ==> s.phase.workers > 0)
    requires HandlesOk(s.phase.state, s.log, s.phase.active, true) && BatchOk(s.phase.active, s.phase.batch)
    ensures exists step, s' :: NextStep(cfg, s, s', step) && !step.Crash? && s' != s
  {
    hide Sort, WithResult;
    var p := s.phase;
    if p.batch != [] {
      BatchMoves(cfg, s);
    } else if p.pending != [] && |p.active| < p.workers {
      Moves(cfg, s, s.(phase := p.(pending := p.pending[1..], active := p.active + [Handle(p.pending[0], None)]),
                       log := s.log + [Started(p.pending[0])]), Submit);
    } else if p.active == [] {
      Moves(cfg, s, s.(phase := Exclusive(p.state, p.results, p.exclusive, None)), BeginExclusive);
    } else if p.active[0].outcome.None? {
      var ended := p.active[0 := p.active[0].(outcome := Some(Raised))];
      assert ended[0] != p.active[0];
      Moves(cfg, s, s.(phase := p.(active := ended)), TaskEnds(0, Raised));
    } else {
      CollectMoves(cfg, s);
    }
  }

  lemma BatchMoves(cfg: Config, s: Sys)
    requires s.phase.Parallel? && s.phase.batch != [] && BatchOk(s.phase.active, s.phase.batch)
    ensures exists step, s' :: NextStep(cfg, s, s', step) && !step.Crash? && s' != s
  {
    hide Sort, WithResult, Drop;
    var p := s.phase;
    var h := p.batch[0];
    assert h in p.batch;
    if h.outcome.value.Raised? {
      Moves(cfg, s, s.(phase := Down), Persist);
    } else {
      var r := h.outcome.value.result;
      var st := WithResult(p.state, r);
      assert |p.batch[1..]| != |p.batch|;
      Moves(cfg, s, s.(disk := Some(st), log := s.log + [Persisted(r)],
                       phase := p.(state := st, results := p.results[r.index := r], active := Drop(p.active, h.shard.index), batch := p.batch[1..])),
            Persist);
    }
  }

  lemma CollectMoves(cfg: Config, s: Sys)
    requires s.phase.Parallel? && s.phase.batch == [] && (s.phase.pending == [] || |s.phase.active| == s.phase.workers)
    requires DistinctHandles(s.phase.active) && s.phase.active != [] && s.phase.active[0].outcome.Some?
    ensures exists step, s' :: NextStep(cfg, s, s', step) && !step.Crash? && s' != s
  {
    hide Sort, Done;
    var p := s.phase;
    DoneFacts(p.active);
    assert p.active[0] in p.active && p.active[0] in Done(p.active);
    SortElements(LeqHandle, Done(p.active));
    var batch := Sort(LeqHandle, Done(p.active));
    assert p.active[0] in batch;
    Moves(cfg, s, s.(phase := p.(batch := batch)), Collect);
  }

  lemma ExclusiveMoves(cfg: Config, s: Sys)
    requires s.phase.Exclusive?
    ensures exists step, s' :: NextStep(cfg, s, s', step) && !step.Crash? && s' != s
  {
    hide WithResult;
    var p := s.phase;
    if p.running.None? {
      if p.exclusive == [] {
        Moves(cfg, s, s.(phase := Returned(p.state, p.results)), Return);
      } else {
        Moves(cfg, s, s.(phase := p.(exclusive := p.exclusive[1..], running := Some(Handle(p.exclusive[0], None))),
                         log := s.log + [Started(p.exclusive[0])]), StartExclusive);
      }
    } else {
      var h := p.running.value;
      if h.outcome.None? {
        Moves(cfg, s, s.(phase := p.(running := Some(h.(outcome := Some(Raised))))), ExclusiveEnds(Raised));
      } else if h.outcome.value.Raised? {
        Moves(cfg, s, s.(phase := Down), PersistExclusive);
      } else {
        var r := h.outcome.value.result;
        var st := WithResult(p.state, r);
        Moves(cfg, s, s.(disk := Some(st), log := s.log + [Persisted(r)],
                         phase := p.(state := st, results := p.results[r.index := r], running := None)), PersistExclusive);
      }
    }
  }

  function Rank(phase: Phase): nat {
    match phase
    case Down => 5
    case Loaded(_) => 4
    case Frozen(_) => 3
    case Parallel(_, _, _, _, _, _, _) => 2
    case Exclusive(_, _, _, _) => 1
    case Returned(_, _) => 0
  }

  /** What is left to do with the shards in hand: finish them and make them durable. */
  function Weight(active: seq<Handle>): nat {
    if active == [] then 0 else Weight(active[..|active| - 1]) + if active[|active| - 1].outcome.None? then 3 else 2
  }

  function Work(phase: Phase): nat {
    match phase
    case Parallel(_, _, pending, active, batch, _, _) => 4 * |pending| + Weight(active) + if batch == [] then 1 else 0
    case Exclusive(_, _, exclusive, running) =>
      3 * |exclusive| + if running.None? then 0 else if running.value.outcome.None? then 2 else 1
    case _ => 0
  }

  lemma WeightSnoc(active: seq<Handle>, h: Handle)
    ensures Weight(active + [h]) == Weight(active) + if h.outcome.None? then 3 else 2
  {
    assert (active + [h])[..|active|] == active;
  }

  lemma {:induction false} WeightEnds(active: seq<Handle>, slot: nat, outcome: Outcome)
    requires slot < |active| && active[slot].outcome.None?
    ensures Weight(active[slot := active[slot].(outcome := Some(outcome))]) + 1 == Weight(active)
  {
    var n := |active| - 1;
    var ended := active[slot := active[slot].(outcome := Some(outcome))];
    if slot < n {
      WeightEnds(active[..n], slot, outcome);
      assert ended[..n] == active[..n][slot := active[slot].(outcome := Some(outcome))];
    } else {
      assert ended[..n] == active[..n];
    }
  }

  lemma {:induction false} WeightDrop(active: seq<Handle>, h: Handle)
    requires DistinctHandles(active) && h in active && h.outcome.Some?
    ensures Weight(Drop(active, h.shard.index)) + 2 == Weight(active)
  {
    var n := |active| - 1;
    assert active == active[..n] + [active[n]];
    if active[n].shard.index == h.shard.index {
      var k :| 0 <= k < |active| && active[k] == h;
      assert k == n;
      forall x | x in active[..n] ensures x.shard.index != h.shard.index {}
      DropNone(active[..n], h.shard.index);
      assert Drop(active[..n], h.shard.index) + [] == active[..n];
    } else {
      WeightDrop(active[..n], h);
      WeightSnoc(Drop(active[..n], h.shard.index), active[n]);
    }
  }

  lemma {:induction false} DropNone(active: seq<Handle>, index: int)
    requires forall h | h in active :: h.shard.index != index
    ensures Drop(active, index) == active
  {
    if active != [] {
      var n := |active| - 1;
      assert active == active[..n] + [active[n]] && active[n] in active && forall h | h in active[..n] :: h in active;
      DropNone(active[..n], index);
    }
  }

  /** Every step other than a crash that changes anything, and does not end the process with an exception, comes closer to the
      return. So a run without crashes and exceptions returns after finitely many steps. */
  lemma StepsTowardsReturn(cfg: Config, s: Sys, s': Sys, step: Step)
    requires Inv(cfg, s) && NextStep(cfg, s, s', step) && !step.Crash? && s' != s && !s'.phase.Down?
    ensures Rank(s'.phase) < Rank(s.phase) || (Rank(s'.phase) == Rank(s.phase) && Work(s'.phase) < Work(s.phase))
  {
    hide Sort, WithResult, WithPlan, PlanMatches, Buildable, LogOk, StateOk, PendingOf, CachedResults, Drop, Weight;
    match step
    case Submit => WeightSnoc(s.phase.active, Handle(s.phase.pending[0], None));
    case TaskEnds(slot, outcome) => WeightEnds(s.phase.active, slot, outcome);
    case Persist =>
      var h := s.phase.batch[0];
      assert h in s.phase.batch;
      WeightDrop(s.phase.active, h);
    case _ =>
  }

  // ----- the summary -----

  datatype Counts = Counts(collected: int, passed: int, skipped: int)

  ghost predicate AllIn(results: map<int, ShardResult>, keys: seq<int>) {
    forall i | 0 <= i < |keys| :: keys[i] in results
  }

  function Sum(results: map<int, ShardResult>, keys: seq<int>): Counts
    requires AllIn(results, keys)
  {
    if keys == [] then Counts(0, 0, 0)
    else
      var c, r := Sum(results, keys[..|keys| - 1]), results[keys[|keys| - 1]];
      Counts(c.collected + r.collected, c.passed + r.passed, c.skipped + r.skipped)
  }

  function Indexes(plan: seq<Shard>): (r: seq<int>)
    ensures |r| == |plan| && forall i | 0 <= i < |plan| :: r[i] == plan[i].index
  {
    seq(|plan|, i requires 0 <= i < |plan| => plan[i].index)
  }

  lemma {:induction false} SumRemove(results: map<int, ShardResult>, keys: seq<int>, i: nat)
    requires i < |keys| && AllIn(results, keys)
    ensures var rest := keys[..i] + keys[i + 1..]; var c := Sum(results, rest); var r := results[keys[i]];
      Sum(results, keys) == Counts(c.collected + r.collected, c.passed + r.passed, c.skipped + r.skipped)
  {
    var n := |keys| - 1;
    var rest := keys[..i] + keys[i + 1..];
    if i == n {
      assert rest == keys[..n];
    } else {
      SumRemove(results, keys[..n], i);
      assert rest[..n - 1] == keys[..n][..i] + keys[..n][i + 1..];
      assert rest[n - 1] == keys[n];
    }
  }

  lemma RemoveOne(b: seq<int>, i: nat)
    requires i < |b|
    ensures multiset(b[..i] + b[i + 1..]) == multiset(b) - multiset{b[i]}
  {
    assert b == b[..i] + [b[i]] + b[i + 1..];
  }

  lemma {:induction false} SumPermuted(results: map<int, ShardResult>, a: seq<int>, b: seq<int>)
    requires multiset(a) == multiset(b) && AllIn(results, a)
    ensures AllIn(results, b) && Sum(results, a) == Sum(results, b)
  {
    forall i | 0 <= i < |b| ensures b[i] in results {
      assert b[i] in multiset(b);
      assert b[i] in a;
    }
    assert |multiset(a)| == |a| && |multiset(b)| == |b|;
    if a != [] {
      var n := |a| - 1;
      assert a[n] in multiset(b);
      var i :| 0 <= i < |b| && b[i] == a[n];
      var rest := b[..i] + b[i + 1..];
      RemoveOne(b, i);
      RemoveOne(a, n);
      assert a[..n] + a[n + 1..] == a[..n];
      SumRemove(results, b, i);
      SumPermuted(results, a[..n], rest);
    }
  }

  datatype Summary = Summary(counts: Counts, shards: nat) | InventoryMismatch

  /** `_summarize_regression_results`: the totals over exactly the plan's shards. */
  method Summarize(results: map<int, ShardResult>, ghost plan: seq<Shard>) returns (r: Summary)
    requires DistinctIndexes(plan) && results.Keys == Idx(plan)
    ensures AllIn(results, Indexes(plan)) && var total := Sum(results, Indexes(plan));
      r == if total.collected <= 0 || total.passed + total.skipped != total.collected then InventoryMismatch
           else Summary(total, |plan|)
  {
    hide Idx, Sorted, NoDuplicates, Indexes, Sum, DistinctIndexes;
    var ordered := SortedInts(results.Keys);
    PlanIndexes(plan, ordered);
    assert AllIn(results, ordered);
    SumPermuted(results, ordered, Indexes(plan));
    var total := Counts(0, 0, 0);
    assert ordered[..0] == [];
    SumNone(results);
    for i := 0 to |ordered|
      invariant total == Sum(results, ordered[..i])
    {
      SumNext(results, ordered, i);
      var row := results[ordered[i]];
      total := Counts(total.collected + row.collected, total.passed + row.passed, total.skipped + row.skipped);
    }
    assert ordered[..|ordered|] == ordered;
    if total.collected <= 0 || total.passed + total.skipped != total.collected {
      return InventoryMismatch;
    }
    r := Summary(total, |ordered|);
  }

  lemma SumNone(results: map<int, ShardResult>)
    ensures Sum(results, []) == Counts(0, 0, 0)
  {
  }

  lemma SumNext(results: map<int, ShardResult>, keys: seq<int>, i: nat)
    requires i < |keys| && AllIn(results, keys)
    ensures var c, row := Sum(results, keys[..i]), results[keys[i]];
      Sum(results, keys[..i + 1]) == Counts(c.collected + row.collected, c.passed + row.passed, c.skipped + row.skipped)
  {
    assert keys[..i + 1][..i] == keys[..i];
  }

  lemma PlanIndexes(plan: seq<Shard>, keys: seq<int>)
    requires DistinctIndexes(plan) && NoDuplicates(keys) && forall k :: k in keys <==> k in Idx(plan)
    ensures multiset(keys) == multiset(Indexes(plan)) && |keys| == |plan|
  {
    var xs := Indexes(plan);
    forall k ensures k in xs <==> k in Idx(plan) {
      if k in Idx(plan) {
        var shard :| shard in plan && shard.index == k;
        var i :| 0 <= i < |plan| && plan[i] == shard;
        assert xs[i] == k;
      }
    }
    NoDuplicatesByCount(keys);
    NoDuplicatesByCount(xs);
    forall k ensures multiset(keys)[k] == multiset(xs)[k] {
      assert k in keys <==> k in multiset(keys);
      assert k in xs <==> k in multiset(xs);
    }
    assert multiset(keys) == multiset(xs);
    assert |multiset(keys)| == |keys| && |multiset(xs)| == |xs|;
  }

  ghost predicate GoodTotals(plan: seq<Shard>, results: map<int, ShardResult>) {
    forall shard | shard in plan :: shard.index in results && ResultFor(shard, results[shard.index])
  }

  lemma {:induction false} TotalsAddUp(plan: seq<Shard>, results: map<int, ShardResult>)
    requires GoodTotals(plan, results)
    ensures AllIn(results, Indexes(plan))
    ensures var c := Sum(results, Indexes(plan));
      c.passed + c.skipped == c.collected >= |plan|
  {
    forall i | 0 <= i < |plan| ensures Indexes(plan)[i] in results {
      assert plan[i] in plan;
    }
    if plan != [] {
      var n := |plan| - 1;
      assert plan[n] in plan;
      assert forall shard | shard in plan[..n] :: shard in plan;
      TotalsAddUp(plan[..n], results);
      assert Indexes(plan)[..n] == Indexes(plan[..n]);
    }
  }

  /** On return there is exactly one durable result per plan shard, so the summary cannot fail. */
  lemma ReturnIsComplete(cfg: Config, b: seq<Sys>, i: nat)
    requires Behaviour(cfg, b) && i < |b| && b[i].phase.Returned?
    ensures Matches(cfg, b[i].disk)
    ensures var st, results := b[i].disk.value, b[i].phase.results;
      && PlanMatches(st.planned, cfg.inventory) && DistinctIndexes(st.planned)
      && results.Keys == Idx(st.planned) && |st.completed| == |st.planned|
      && (forall shard | shard in st.planned :: shard.index in results && results[shard.index] in st.completed)
      && GoodTotals(st.planned, results)
  {
    Always(cfg, b, i);
    hide PlanMatches, LogOk;
    var st, results := b[i].disk.value, b[i].phase.results;
    forall shard | shard in st.planned
      ensures shard.index in results && results[shard.index] in st.completed && ResultFor(shard, results[shard.index])
    {
      assert shard.index in Idx(st.planned);
      var r := results[shard.index];
      assert Belongs(st.planned, r);
      var other :| other in st.planned && ResultFor(other, r);
      SameShard(st.planned, shard, other);
    }
    OneEach(st);
  }

  /** A returned run over a non-empty inventory: the summary's totals are positive and account for every test. */
  lemma SummaryCannotFail(cfg: Config, b: seq<Sys>, i: nat)
    requires Behaviour(cfg, b) && i < |b| && b[i].phase.Returned? && cfg.inventory != []
    ensures Matches(cfg, b[i].disk)
    ensures var st, results := b[i].disk.value, b[i].phase.results;
      && AllIn(results, Indexes(st.planned))
      && var total := Sum(results, Indexes(st.planned)); total.passed + total.skipped == total.collected > 0
  {
    ReturnIsComplete(cfg, b, i);
    var st := b[i].disk.value;
    TotalsAddUp(st.planned, b[i].phase.results);
    var item := cfg.inventory[|cfg.inventory| - 1];
    assert item.file in Expected(cfg.inventory);
    assert item.file in Files(st.planned);
  }

  lemma OneEach(st: State)
    requires DistinctIndexes(st.planned) && DistinctResults(st.completed) && DoneIdx(st.completed) == Idx(st.planned)
    ensures |st.completed| == |st.planned|
  {
    var keys := seq(|st.completed|, i requires 0 <= i < |st.completed| => st.completed[i].index);
    forall k ensures k in keys <==> k in Idx(st.planned) {
      if k in DoneIdx(st.completed) {
        var r :| r in st.completed && r.index == k;
        var i :| 0 <= i < |st.completed| && st.completed[i] == r;
        assert keys[i] == k;
      }
    }
    PlanIndexes(st.planned, keys);
  }
}
