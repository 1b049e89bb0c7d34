/** One resident control-worker request as a transition system: the supervisor's program points, the
    request child, the observing client and the durable cancel marker move in any interleaving.
    Only the operating-system failures that the supervisor catches are allowed to occur. */
module ControlRequest {

  datatype Option<T> = None | Some(value: T)

  datatype WaitStatus = ExitedWith(code: int) | KilledBy(signal: int) | OtherEnd

  /** The terminal frame; its text is reduced to where it comes from. */
  datatype Origin = FromChild | BySignal(signal: int) | ByExit(exit: int) | Ended | SupervisorError
  datatype Frame = Frame(code: int, origin: Origin)

  /** `_terminal_from_wait_status`: a child that published nothing is never reported as a success. */
  function TerminalFromWaitStatus(status: WaitStatus): (f: Frame)
    ensures f.code == 1 && !f.origin.FromChild?
  {
    match status
    case KilledBy(signal) => Frame(1, BySignal(signal))
    case ExitedWith(code) => Frame(1, ByExit(code))
    case OtherEnd => Frame(1, Ended)
  }

  /** Where the request child is. `_child_dispatch` has two guarded blocks: the dispatch, up to `Returned`, and the writing of the
      result. It runs inside the supervisor's own `try`, so an exception raised anywhere else escapes into the supervisor's
      clean-up, which the child then runs: it unlinks the result file, unlocks the shared lock and exits. */
  datatype Stage =
    | SettingUp | Dispatching | Returned(code: int) | Deciding(code: int) | Writing(code: int) | Leaving
    | Escaping | Unlinked | Unlocked

  datatype Child = NotForked | Alive(stage: Stage) | Zombie(status: WaitStatus) | Reaped(status: WaitStatus)

  datatype Signal = Term | Kill

  /** Program points of `_request_supervisor` with `_wait_child_or_cancel` inlined. */
  datatype Pc =
    | Validate | TakeLock | MakePath | Fork
    | Poll | CheckMarker | SendTerm | Grace | SendKill | WaitBlocking | WatchClient
    | ReadTerminal | Send(frame: Frame) | SendError
    | RemoveTerminal | ReleaseLock | Gone

  datatype Config = Config(hasLease: bool, wantsLock: bool)

  /** The child, what it shares with the supervisor, and its history. */
  datatype Request = Request(
    child: Child,
    terminal: Option<Frame>, // the atomically replaced result file
    lockHeld: bool,          // the shared generation use-lock, held through one open file
    // history
    dispatched: Option<int>, // the code with which the dispatched command ended, once it has
    published: Option<Frame>,
    escaped: bool,           // an exception has left `_child_dispatch`
    removed: bool,           // the child has unlinked the result file
    unlocked: bool)          // the child has released the lock

  datatype Sys = Sys(
    pc: Pc,
    req: Request,
    attached: bool,          // the supervisor still watches the client socket
    clientUp: bool,          // the client is connected
    marker: bool,            // the durable cancel marker exists
    // history
    signals: seq<Signal>,
    reaps: nat,
    frames: seq<Frame>)      // frames handed to the client socket, delivered or not

  datatype Step =
    | MarkerAppears | MarkerVanishes | ClientDrops
    | ChildReady | ChildReturns(code: int) | ChildDecides | ChildWrites | ChildPublishes | ChildRaises
    | ChildUnlinks | ChildUnlocks | ChildExits(exit: int) | ChildKilled(signal: int)
    | Refuse | Proceed | NoChildToSignal | DeadlinePasses

  const UNUSED := Request(NotForked, None, false, None, None, false, false, false)

  ghost predicate Init(s: Sys) {
    s.pc == Validate && s.req == UNUSED && s.attached && s.signals == [] && s.reaps == 0 && s.frames == []
  }

  function Reap(s: Sys): Sys
    requires s.req.child.Zombie?
  {
    s.(req := s.req.(child := Reaped(s.req.child.status)), reaps := s.reaps + 1, pc := ReadTerminal)
  }

  /** The world outside: operator and client. */
  ghost predicate EnvStep(s: Sys, s': Sys, step: Step) {
    match step
    case MarkerAppears => s' == s.(marker := true)
    case MarkerVanishes => s' == s.(marker := false)
    case ClientDrops => s' == s.(clientUp := false)
    case _ => false
  }

  /** The stages in which the child itself does not catch an exception. */
  predicate Unguarded(stage: Stage) { stage.SettingUp? || stage.Deciding? || stage.Leaving? }

  /** Where any exception leads, in particular the one the SIGTERM handler raises. */
  ghost predicate RaiseStep(r: Request, r': Request)
    requires r.child.Alive?
  {
    if r.child.stage.Dispatching? || r.child.stage.Returned? then r' == r.(child := Alive(Deciding(1)))
    else if r.child.stage.Writing? then r' == r.(child := Alive(Leaving))
    else Unguarded(r.child.stage) && r' == r.(child := Alive(Escaping), escaped := true)
  }

  /** The request child in `_child_dispatch`. */
  ghost predicate ChildStep(r: Request, r': Request, step: Step) {
    && r.child.Alive?
    && match step
       case ChildReady => r.child.stage.SettingUp? && r' == r.(child := Alive(Dispatching))
       // The command ends by itself with some code.
       case ChildReturns(code) => r.child.stage.Dispatching? && r' == r.(child := Alive(Returned(code)), dispatched := Some(code))
       case ChildDecides => r.child.stage.Returned? && r' == r.(child := Alive(Deciding(r.child.stage.code)))
       case ChildWrites => r.child.stage.Deciding? && r' == r.(child := Alive(Writing(r.child.stage.code)))
       case ChildPublishes =>
         && r.child.stage.Writing?
         && var f := Frame(r.child.stage.code, FromChild);
         r' == r.(child := Alive(Leaving), terminal := Some(f), published := Some(f))
       case ChildRaises => RaiseStep(r, r')
       case ChildUnlinks => r.child.stage.Escaping? && r' == r.(child := Alive(Unlinked), terminal := None, removed := true)
       case ChildUnlocks => r.child.stage.Unlinked? && r' == r.(child := Alive(Unlocked), lockHeld := false, unlocked := true)
       // The command may end the process itself; otherwise the child leaves with status 0.
       case ChildExits(exit) =>
         && (r.child.stage.Dispatching? || (exit == 0 && (r.child.stage.Leaving? || r.child.stage.Unlocked?)))
         && r' == r.(child := Zombie(ExitedWith(exit)))
       case ChildKilled(signal) => r' == r.(child := Zombie(KilledBy(signal)))
       case _ => false
  }

  /** Validation, locking and forking; a refusal raises before there is a child. */
  ghost predicate StartStep(cfg: Config, s: Sys, s': Sys, step: Step) {
    match s.pc
    case Validate => (step.Refuse? && s' == s.(pc := SendError)) || (step.Proceed? && s' == s.(pc := TakeLock))
    case TakeLock =>
      || (step.Refuse? && cfg.wantsLock && s' == s.(pc := SendError))
      || (step.Proceed? && s' == s.(pc := MakePath, req := s.req.(lockHeld := cfg.wantsLock)))
    case MakePath => (step.Refuse? && s' == s.(pc := SendError)) || (step.Proceed? && s' == s.(pc := Fork))
    case Fork =>
      || (step.Refuse? && s' == s.(pc := SendError))
      || (step.Proceed? && s' == s.(pc := Poll, req := s.req.(child := Alive(SettingUp))))
    case _ => false
  }

  /** The polling loop: reap, else look at the marker, else watch the client. */
  ghost predicate PollStep(cfg: Config, s: Sys, s': Sys, step: Step) {
    match s.pc
    case Poll =>
      step.Proceed? && if s.req.child.Zombie? then s' == Reap(s) else s' == s.(pc := CheckMarker)
    case CheckMarker =>
      step.Proceed? && s' == s.(pc := if cfg.hasLease && s.marker then SendTerm else WatchClient)
    case WatchClient =>
      step.Proceed? && s' == s.(pc := Poll, attached := s.attached && s.clientUp)
    case _ => false
  }

  /** Explicit cancellation: SIGTERM, a grace period, SIGKILL, a blocking wait. */
  ghost predicate CancelStep(s: Sys, s': Sys, step: Step) {
    match s.pc
    case SendTerm =>
      || (step.Proceed? && s' == s.(pc := Grace, signals := s.signals + [Term]))
      || (step.NoChildToSignal? && !s.req.child.Alive? && s' == s.(pc := Poll))
    case Grace =>
      || (step.Proceed? && if s.req.child.Zombie? then s' == Reap(s) else s' == s)
      || (step.DeadlinePasses? && s' == s.(pc := SendKill))
    case SendKill =>
      || (step.Proceed? && s' == s.(pc := WaitBlocking, signals := s.signals + [Kill]))
      || (step.NoChildToSignal? && !s.req.child.Alive? && s' == s.(pc := WaitBlocking))
    case WaitBlocking => step.Proceed? && s.req.child.Zombie? && s' == Reap(s)
    case _ => false
  }

  /** Reading the result, the one frame, and the clean-up. */
  ghost predicate EndStep(s: Sys, s': Sys, step: Step) {
    step.Proceed? &&
    match s.pc
    case ReadTerminal =>
      && s.req.child.Reaped?
      && s' == s.(pc := Send(if s.req.terminal.Some? then s.req.terminal.value else TerminalFromWaitStatus(s.req.child.status)))
    case Send(frame) => s' == s.(pc := RemoveTerminal, frames := s.frames + [frame])
    case SendError => s' == s.(pc := RemoveTerminal, frames := s.frames + [Frame(1, SupervisorError)])
    case RemoveTerminal => s' == s.(pc := ReleaseLock, req := s.req.(terminal := None))
    case ReleaseLock => s' == s.(pc := Gone, req := s.req.(lockHeld := false))
    case _ => false
  }

  ghost predicate SupervisorStep(cfg: Config, s: Sys, s': Sys, step: Step) {
    StartStep(cfg, s, s', step) || PollStep(cfg, s, s', step) || CancelStep(s, s', step) || EndStep(s, s', step)
  }

  ghost predicate NextStep(cfg: Config, s: Sys, s': Sys, step: Step) {
    || EnvStep(s, s', step)
    || (ChildStep(s.req, s'.req, step) && s' == s.(req := s'.req))
    || SupervisorStep(cfg, s, s', step)
  }

  ghost predicate Behaviour(cfg: Config, b: seq<Sys>) {
    && b != [] && Init(b[0])
    && forall i, j | 0 <= i < j < |b| && j == i + 1 :: Next(cfg, b[i], b[j])
  }

  ghost predicate Next(cfg: Config, s: Sys, s': Sys) {
    exists step :: NextStep(cfg, s, s', step)
  }

  // ----- the invariant -----

  predicate Waiting(pc: Pc) {
    pc.Poll? || pc.CheckMarker? || pc.SendTerm? || pc.Grace? || pc.SendKill? || pc.WaitBlocking? || pc.WatchClient?
  }

  predicate Starting(pc: Pc) { pc.Validate? || pc.TakeLock? || pc.MakePath? || pc.Fork? }

  predicate Ending(pc: Pc) { pc.RemoveTerminal? || pc.ReleaseLock? || pc.Gone? }

  /** The child is forked exactly while it is waited for, and reaped before anything is read or sent. */
  ghost predicate ChildOk(pc: Pc, child: Child, reaps: nat) {
    && (Starting(pc) || pc.SendError? ==> child == NotForked)
    && (Waiting(pc) ==> child.Alive? || child.Zombie?)
    && (pc.ReadTerminal? || pc.Send? ==> child.Reaped?)
    && (Ending(pc) ==> child == NotForked || child.Reaped?)
    && reaps == if child.Reaped? then 1 else 0
  }

  ghost predicate SignalsOk(pc: Pc, signals: seq<Signal>) {
    && (signals == [] || signals == [Term] || signals == [Term, Kill])
    && (Starting(pc) || pc.Poll? || pc.CheckMarker? || pc.SendTerm? || pc.WatchClient? ==> signals == [])
    && (pc.Grace? || pc.SendKill? ==> signals == [Term])
  }

  /** The supervisor blocks on a living child only after SIGKILL. */
  ghost predicate KillOk(pc: Pc, child: Child, signals: seq<Signal>) {
    pc.WaitBlocking? && child.Alive? ==> signals == [Term, Kill]
  }

  /** The child's progress that stands for a command that ended with this code. */
  predicate Claims(stage: Stage, code: int) { (stage.Returned? || stage.Deciding? || stage.Writing?) && stage.code == code }

  predicate BeforeResult(child: Child) {
    || child == NotForked
    || (child.Alive? && (child.stage.SettingUp? || child.stage.Dispatching? || child.stage.Returned? || child.stage.Deciding? || child.stage.Writing?))
  }

  /** What the child has published so far, by its own progress. */
  ghost predicate PublicationOk(r: Request) {
    && (r.published.Some? ==> r.published.value.origin.FromChild? && (r.published.value.code == 0 ==> r.dispatched == Some(0)))
    && (BeforeResult(r.child) ==> r.published == None)
    && (r.child.Alive? && Claims(r.child.stage, 0) ==> r.dispatched == Some(0))
  }

  /** How far an escape has gone: all the way if the child ended by exiting, maybe only part of it if it was killed. */
  ghost predicate EscapeOk(r: Request) {
    match r.child
    case NotForked => !r.escaped && !r.removed && !r.unlocked
    case Alive(stage) =>
      && r.escaped == (stage.Escaping? || stage.Unlinked? || stage.Unlocked?)
      && r.removed == (stage.Unlinked? || stage.Unlocked?) && r.unlocked == stage.Unlocked?
    case Zombie(status) => EndOk(r, status)
    case Reaped(status) => EndOk(r, status)
  }

  ghost predicate EndOk(r: Request, status: WaitStatus) {
    && (r.unlocked ==> r.removed) && (r.removed ==> r.escaped)
    && (status.ExitedWith? ==> r.escaped == r.removed == r.unlocked)
  }

  /** The result file holds the publication until the child or, in the end, the supervisor removes it. */
  ghost predicate FileOk(pc: Pc, r: Request) {
    r.terminal == if r.removed || pc.ReleaseLock? || pc.Gone? then None else r.published
  }

  /** What the supervisor sends: the published result if the child left it there, else an error. */
  ghost predicate FrameOk(r: Request, f: Frame) {
    if r.child.Reaped? then
      f == if r.published.Some? && !r.removed then r.published.value else TerminalFromWaitStatus(r.child.status)
    else f == Frame(1, SupervisorError)
  }

  ghost predicate FramesOk(pc: Pc, r: Request, frames: seq<Frame>) {
    && (pc.Send? ==> FrameOk(r, pc.frame))
    && (if Ending(pc) then |frames| == 1 && FrameOk(r, frames[0]) else frames == [])
  }

  ghost predicate LockOk(cfg: Config, pc: Pc, r: Request) {
    && (r.lockHeld ==> cfg.wantsLock)
    && (r.child.Alive? || r.child.Zombie? ==> r.lockHeld == (cfg.wantsLock && !r.unlocked))
    && (pc.MakePath? || pc.Fork? ==> r.lockHeld == cfg.wantsLock)
    && (pc.Gone? ==> !r.lockHeld)
  }

  ghost predicate Inv(cfg: Config, s: Sys) {
    && ChildOk(s.pc, s.req.child, s.reaps) && SignalsOk(s.pc, s.signals) && KillOk(s.pc, s.req.child, s.signals)
    && PublicationOk(s.req) && EscapeOk(s.req) && FileOk(s.pc, s.req)
    && FramesOk(s.pc, s.req, s.frames) && LockOk(cfg, s.pc, s.req)
  }

  lemma EnvKeepsInv(cfg: Config, s: Sys, s': Sys, step: Step)
    requires Inv(cfg, s) && EnvStep(s, s', step)
    ensures Inv(cfg, s')
  {
    hide ChildOk, SignalsOk, KillOk, PublicationOk, EscapeOk, FileOk, FramesOk, LockOk;
  }

  lemma ChildKeepsInv(cfg: Config, s: Sys, s': Sys, step: Step)
    requires Inv(cfg, s) && ChildStep(s.req, s'.req, step) && s' == s.(req := s'.req)
    ensures Inv(cfg, s')
  {
    hide ChildStep, PublicationOk, EscapeOk, FrameOk;
    ChildFrame(s.req, s'.req, step);
    ChildKeepsPublication(s.req, s'.req, step);
    ChildKeepsEscape(s.req, s'.req, step);
  }

  /** A step of the child takes it from life to life or death; only its own clean-up touches the lock or removes the file. */
  lemma ChildFrame(r: Request, r': Request, step: Step)
    requires ChildStep(r, r', step) && PublicationOk(r) && EscapeOk(r)
    ensures r.child.Alive? && (r'.child.Alive? || r'.child.Zombie?)
    ensures r.lockHeld == (r.lockHeld && !r.unlocked) ==> r'.lockHeld == (r.lockHeld && !r'.unlocked)
    ensures r.terminal == (if r.removed then None else r.published) ==> r'.terminal == if r'.removed then None else r'.published
    ensures r.unlocked ==> r'.unlocked
  {
  }

  lemma ChildKeepsPublication(r: Request, r': Request, step: Step)
    requires ChildStep(r, r', step) && PublicationOk(r)
    ensures PublicationOk(r')
  {
  }

  lemma ChildKeepsEscape(r: Request, r': Request, step: Step)
    requires ChildStep(r, r', step) && EscapeOk(r)
    ensures EscapeOk(r')
  {
  }

  lemma StartKeepsInv(cfg: Config, s: Sys, s': Sys, step: Step)
    requires Inv(cfg, s) && StartStep(cfg, s, s', step)
    ensures Inv(cfg, s')
  {
    hide StartStep, FrameOk;
    StartFrame(cfg, s, s', step);
  }

  /** What comes before the child changes only the lock and, in the end, forks. */
  lemma StartFrame(cfg: Config, s: Sys, s': Sys, step: Step)
    requires StartStep(cfg, s, s', step)
    ensures Starting(s.pc) && (Starting(s'.pc) || s'.pc.SendError? || s'.pc.Poll?)
    ensures s'.signals == s.signals && s'.reaps == s.reaps && s'.frames == s.frames
    ensures s'.req == s.req.(lockHeld := s'.req.lockHeld, child := s'.req.child)
    ensures s'.req.child == if s'.pc.Poll? then Alive(SettingUp) else s.req.child
    ensures if s.pc.TakeLock? && s'.pc.MakePath? then s'.req.lockHeld == cfg.wantsLock else s'.req.lockHeld == s.req.lockHeld
    ensures s'.pc.Poll? ==> s.pc.Fork?
    ensures s'.pc.Fork? ==> s.pc.MakePath?
    ensures s'.pc.MakePath? ==> s.pc.TakeLock?
  {
  }

  lemma PollKeepsInv(cfg: Config, s: Sys, s': Sys, step: Step)
    requires Inv(cfg, s) && PollStep(cfg, s, s', step)
    ensures Inv(cfg, s')
  {
    hide ChildOk, SignalsOk, PublicationOk, EscapeOk, FileOk, FramesOk, LockOk;
    if s.pc.Poll? && s.req.child.Zombie? {
      ReapKeepsInv(cfg, s);
    } else {
      WatchKeepsInv(cfg, s, s'.pc);
    }
  }

  /** Going round the polling loop. */
  lemma WatchKeepsInv(cfg: Config, s: Sys, pc: Pc)
    requires Inv(cfg, s) && (s.pc.Poll? || s.pc.CheckMarker? || s.pc.WatchClient?)
    requires pc.Poll? || pc.CheckMarker? || pc.WatchClient? || pc.SendTerm?
    ensures Inv(cfg, s.(pc := pc))
  {
    hide PublicationOk, EscapeOk, FrameOk;
  }

  lemma ReapKeepsInv(cfg: Config, s: Sys)
    requires Inv(cfg, s) && s.req.child.Zombie?
    ensures Inv(cfg, Reap(s))
  {
    hide FrameOk;
  }

  /** Moving on within the cancellation sequence. */
  lemma SignalKeepsInv(cfg: Config, s: Sys, pc: Pc, signals: seq<Signal>)
    requires Inv(cfg, s) && Waiting(s.pc) && Waiting(pc) && SignalsOk(pc, signals) && KillOk(pc, s.req.child, signals)
    ensures Inv(cfg, s.(pc := pc, signals := signals))
  {
    hide PublicationOk, EscapeOk, FrameOk, SignalsOk;
  }

  lemma CancelKeepsInv(cfg: Config, s: Sys, s': Sys, step: Step)
    requires Inv(cfg, s) && CancelStep(s, s', step)
    ensures Inv(cfg, s')
  {
    hide ChildOk, PublicationOk, EscapeOk, FileOk, FramesOk, LockOk;
    if s.req.child.Zombie? && s' == Reap(s) {
      ReapKeepsInv(cfg, s);
    } else {
      SignalKeepsInv(cfg, s, s'.pc, s'.signals);
      assert s' == s.(pc := s'.pc, signals := s'.signals);
    }
  }

  lemma EndKeepsInv(cfg: Config, s: Sys, s': Sys, step: Step)
    requires Inv(cfg, s) && EndStep(s, s', step)
    ensures Inv(cfg, s')
  {
    hide ChildOk, SignalsOk, PublicationOk, EscapeOk, FileOk, FramesOk, LockOk;
    EndFrame(s, s', step);
    EndKeepsRequest(cfg, s, s', step);
    EndKeepsChild(s, s', step);
    EndKeepsFrames(s, s', step);
  }

  lemma EndKeepsChild(s: Sys, s': Sys, step: Step)
    requires ChildOk(s.pc, s.req.child, s.reaps) && SignalsOk(s.pc, s.signals) && EndStep(s, s', step)
    ensures ChildOk(s'.pc, s'.req.child, s'.reaps) && SignalsOk(s'.pc, s'.signals)
  {
    hide EndStep;
    EndFrame(s, s', step);
  }

  /** Where the last steps lead, and what they leave alone. */
  lemma EndFrame(s: Sys, s': Sys, step: Step)
    requires EndStep(s, s', step)
    ensures s'.req.child == s.req.child && s'.reaps == s.reaps && s'.signals == s.signals
    ensures if s.pc.ReadTerminal? then s'.pc.Send? else (s.pc.Send? || s.pc.SendError? || Ending(s.pc)) && Ending(s'.pc)
  {
    hide TerminalFromWaitStatus;
  }

  lemma EndKeepsRequest(cfg: Config, s: Sys, s': Sys, step: Step)
    requires PublicationOk(s.req) && EscapeOk(s.req) && FileOk(s.pc, s.req) && LockOk(cfg, s.pc, s.req) && EndStep(s, s', step)
    requires ChildOk(s.pc, s.req.child, s.reaps)
    ensures PublicationOk(s'.req) && EscapeOk(s'.req) && FileOk(s'.pc, s'.req) && LockOk(cfg, s'.pc, s'.req)
  {
    hide EndStep;
    EndFrame(s, s', step);
    EndFlags(s, s', step);
  }

  lemma EndKeepsFrames(s: Sys, s': Sys, step: Step)
    requires ChildOk(s.pc, s.req.child, s.reaps) && FileOk(s.pc, s.req) && FramesOk(s.pc, s.req, s.frames) && EndStep(s, s', step)
    ensures FramesOk(s'.pc, s'.req, s'.frames)
  {
    hide TerminalFromWaitStatus;
    if s.pc.ReadTerminal? {
      ReadKeepsFrames(s, s', step);
    } else {
      SameFrames(s, s', step);
      hide EndStep;
      if s.pc.SendError? { assert s'.frames == [Frame(1, SupervisorError)]; }
    }
  }

  lemma ReadKeepsFrames(s: Sys, s': Sys, step: Step)
    requires s.pc.ReadTerminal? && FileOk(s.pc, s.req) && FramesOk(s.pc, s.req, s.frames) && EndStep(s, s', step)
    ensures FramesOk(s'.pc, s'.req, s'.frames)
  {
    hide TerminalFromWaitStatus;
  }

  /** Sending adds the one frame; what the frames are judged by stays as it was. */
  lemma SameFrames(s: Sys, s': Sys, step: Step)
    requires EndStep(s, s', step) && !s.pc.ReadTerminal?
    ensures s'.frames == s.frames + if s.pc.Send? then [s.pc.frame] else if s.pc.SendError? then [Frame(1, SupervisorError)] else []
    ensures s'.req.child == s.req.child && s'.req.published == s.req.published && s'.req.removed == s.req.removed
    ensures Ending(s'.pc) && (s.pc.Send? || s.pc.SendError? || Ending(s.pc))
  {
    hide TerminalFromWaitStatus;
  }

  lemma StepKeepsInv(cfg: Config, s: Sys, s': Sys, step: Step)
    requires Inv(cfg, s) && NextStep(cfg, s, s', step)
    ensures Inv(cfg, s')
  {
    hide Inv, EnvStep, ChildStep, StartStep, PollStep, CancelStep, EndStep;
    if EnvStep(s, s', step) {
      EnvKeepsInv(cfg, s, s', step);
    } else if ChildStep(s.req, s'.req, step) && s' == s.(req := s'.req) {
      ChildKeepsInv(cfg, s, s', step);
    } else if StartStep(cfg, s, s', step) {
      StartKeepsInv(cfg, s, s', step);
    } else if PollStep(cfg, s, s', step) {
      PollKeepsInv(cfg, s, s', step);
    } else if CancelStep(s, s', step) {
      CancelKeepsInv(cfg, s, s', step);
    } else {
      EndKeepsInv(cfg, s, s', step);
    }
  }

  lemma {:induction false} Always(cfg: Config, b: seq<Sys>, i: nat)
    requires Behaviour(cfg, b) && i < |b|
    ensures Inv(cfg, b[i])
  {
    hide NextStep;
    if i > 0 {
      Always(cfg, b, i - 1);
      assert Next(cfg, b[i - 1], b[i]);
      var step :| NextStep(cfg, b[i - 1], b[i], step);
      StepKeepsInv(cfg, b[i - 1], b[i], step);
    }
  }

  // ----- what holds in every interleaving -----

  /** SIGKILL only ever follows SIGTERM, and each is sent at most once. */
  lemma KillFollowsTerm(cfg: Config, b: seq<Sys>, i: nat)
    requires Behaviour(cfg, b) && i < |b|
    ensures b[i].signals == [] || b[i].signals == [Term] || b[i].signals == [Term, Kill]
  {
    Always(cfg, b, i);
  }

  /** A child that outlives its grace period is killed: the supervisor blocks on a living child only after both signals. */
  lemma KilledBeforeBlocking(cfg: Config, b: seq<Sys>, i: nat)
    requires Behaviour(cfg, b) && i < |b| && b[i].pc == WaitBlocking && b[i].req.child.Alive?
    ensures b[i].signals == [Term, Kill]
  {
    Always(cfg, b, i);
  }

  /** An explicit cancellation is obeyed: while a leased request has its marker, the supervisor never goes on watching the client,
      and it leaves its wait only over SIGTERM or the child's own end. */
  lemma CancelIsObeyed(cfg: Config, b: seq<Sys>, i: nat)
    requires Behaviour(cfg, b) && i < |b| && cfg.hasLease && forall j | 0 <= j < |b| :: b[j].marker
    ensures b[i].pc != WatchClient
  {
    hide NextStep;
    if i > 0 {
      assert Next(cfg, b[i - 1], b[i]);
      var step :| NextStep(cfg, b[i - 1], b[i], step);
      CancelIsObeyed(cfg, b, i - 1);
      NoWatching(cfg, b[i - 1], b[i], step);
    }
  }

  lemma NoWatching(cfg: Config, s: Sys, s': Sys, step: Step)
    requires NextStep(cfg, s, s', step) && cfg.hasLease && s.marker && s.pc != WatchClient
    ensures s'.pc != WatchClient
  {
    hide EnvStep, ChildStep, StartStep, PollStep, CancelStep, EndStep;
    if EnvStep(s, s', step) {
      EnvFrame(s, s', step);
    } else if StartStep(cfg, s, s', step) {
      StartFrame(cfg, s, s', step);
    } else if PollStep(cfg, s, s', step) {
      PollObeys(cfg, s, s', step);
    } else if CancelStep(s, s', step) {
      CancelObeys(s, s', step);
    } else if EndStep(s, s', step) {
      EndFrame(s, s', step);
    }
  }

  lemma EnvFrame(s: Sys, s': Sys, step: Step)
    requires EnvStep(s, s', step)
    ensures s'.pc == s.pc && s'.req == s.req
  {
  }

  lemma PollObeys(cfg: Config, s: Sys, s': Sys, step: Step)
    requires PollStep(cfg, s, s', step) && cfg.hasLease && s.marker
    ensures s'.pc != WatchClient
  {
  }

  lemma CancelObeys(s: Sys, s': Sys, step: Step)
    requires CancelStep(s, s', step)
    ensures s'.pc != WatchClient
  {
  }

  /** A signal has been sent or will be. */
  predicate Armed(s: Sys) { s.signals != [] || s.pc.SendTerm? || s.pc.Grace? || s.pc.SendKill? || s.pc.WaitBlocking? }

  lemma ArmedByMarker(cfg: Config, s: Sys, s': Sys, step: Step)
    requires NextStep(cfg, s, s', step) && Armed(s') && !Armed(s)
    ensures cfg.hasLease && s.marker
  {
    hide EnvStep, ChildStep, StartStep, PollStep, CancelStep, EndStep, Armed;
    UnarmedSteps(cfg, s, s', step);
    PollArms(cfg, s, s', step);
  }

  lemma UnarmedSteps(cfg: Config, s: Sys, s': Sys, step: Step)
    ensures EnvStep(s, s', step) || s' == s.(req := s'.req) ==> Armed(s') == Armed(s)
    ensures StartStep(cfg, s, s', step) || EndStep(s, s', step) ==> Armed(s) || !Armed(s')
    ensures CancelStep(s, s', step) ==> Armed(s)
  {
    hide TerminalFromWaitStatus;
  }

  lemma PollArms(cfg: Config, s: Sys, s': Sys, step: Step)
    requires !Armed(s)
    ensures PollStep(cfg, s, s', step) && Armed(s') ==> cfg.hasLease && s.marker
  {
  }

  /** A request is signalled, or about to be, only if it is leased and its marker existed before. */
  lemma {:induction false} SignalNeedsMarker(cfg: Config, b: seq<Sys>, j: nat)
    requires Behaviour(cfg, b) && j < |b| && Armed(b[j])
    ensures cfg.hasLease && exists i | 0 <= i < j :: b[i].marker
  {
    hide NextStep, Armed;
    if j == 0 {
      NotArmedAtFirst(b[0]);
      assert false;
    } else {
      assert Next(cfg, b[j - 1], b[j]);
      var step :| NextStep(cfg, b[j - 1], b[j], step);
      if Armed(b[j - 1]) {
        SignalNeedsMarker(cfg, b, j - 1);
        var i :| 0 <= i < j - 1 && b[i].marker;
        assert 0 <= i < j;
      } else {
        ArmedByMarker(cfg, b[j - 1], b[j], step);
      }
    }
  }

  lemma NotArmedAtFirst(s: Sys)
    ensures Init(s) ==> !Armed(s)
  {
  }

  /** Client disconnects never cancel: without a marker nothing is ever signalled, and the supervisor
      leaves its wait only with the child's own end. */
  lemma DisconnectNeverSignals(cfg: Config, b: seq<Sys>, j: nat)
    requires Behaviour(cfg, b) && j < |b|
    requires forall i | 0 <= i < |b| :: !b[i].marker
    ensures b[j].signals == []
    ensures b[j].req.child.Alive? ==> b[j].pc.Poll? || b[j].pc.CheckMarker? || b[j].pc.WatchClient?
  {
    Always(cfg, b, j);
    if Armed(b[j]) {
      SignalNeedsMarker(cfg, b, j);
      assert false;
    }
  }

  /** The child is reaped at most once, and exactly once, if it was ever forked, by the time the supervisor is gone. */
  lemma ReapedExactlyOnce(cfg: Config, b: seq<Sys>, i: nat)
    requires Behaviour(cfg, b) && i < |b|
    ensures b[i].reaps <= 1
    ensures b[i].pc == Gone ==> if b[i].req.child == NotForked then b[i].reaps == 0 else b[i].req.child.Reaped? && b[i].reaps == 1
  {
    Always(cfg, b, i);
  }

  // ----- escapes from the child's guarded blocks -----

  /** Step j takes an exception out of `_child_dispatch`, from outside its two guarded blocks. */
  ghost predicate EscapesAt(b: seq<Sys>, j: nat) {
    0 < j < |b| && b[j - 1].req.child.Alive? && Unguarded(b[j - 1].req.child.stage) && b[j].req.child == Alive(Escaping)
  }

  /** Step j is the child's unlink of the result file. */
  ghost predicate UnlinksAt(b: seq<Sys>, j: nat) {
    0 < j < |b| && b[j - 1].req.child == Alive(Escaping) && b[j].req.child == Alive(Unlinked)
  }

  /** Step j is the child's release of the shared lock. */
  ghost predicate UnlocksAt(b: seq<Sys>, j: nat) {
    0 < j < |b| && b[j - 1].req.child == Alive(Unlinked) && b[j].req.child == Alive(Unlocked)
  }

  ghost predicate HasEscaped(b: seq<Sys>, i: nat) { exists j: nat :: j <= i && EscapesAt(b, j) }
  ghost predicate HasUnlinked(b: seq<Sys>, i: nat) { exists j: nat :: j <= i && UnlinksAt(b, j) }
  ghost predicate HasUnlocked(b: seq<Sys>, i: nat) { exists j: nat :: j <= i && UnlocksAt(b, j) }

  lemma FlagStep(cfg: Config, s: Sys, s': Sys, step: Step)
    requires NextStep(cfg, s, s', step)
    ensures var c, c' := s.req.child, s'.req.child;
      && s'.req.escaped == (s.req.escaped || (c.Alive? && Unguarded(c.stage) && c' == Alive(Escaping)))
      && s'.req.removed == (s.req.removed || (c == Alive(Escaping) && c' == Alive(Unlinked)))
      && s'.req.unlocked == (s.req.unlocked || (c == Alive(Unlinked) && c' == Alive(Unlocked)))
  {
    hide EnvStep, ChildStep, StartStep, PollStep, CancelStep, EndStep;
    if ChildStep(s.req, s'.req, step) && s' == s.(req := s'.req) {
      ChildFlags(s.req, s'.req, step);
    } else if EnvStep(s, s', step) {
      EnvFrame(s, s', step);
    } else {
      SupervisorFlags(cfg, s, s', step);
    }
  }

  lemma ChildFlags(r: Request, r': Request, step: Step)
    requires ChildStep(r, r', step)
    ensures r'.escaped == (r.escaped || (r.child.Alive? && Unguarded(r.child.stage) && r'.child == Alive(Escaping)))
    ensures r'.removed == (r.removed || (r.child == Alive(Escaping) && r'.child == Alive(Unlinked)))
    ensures r'.unlocked == (r.unlocked || (r.child == Alive(Unlinked) && r'.child == Alive(Unlocked)))
  {
  }

  /** The supervisor forks and reaps the child; it never moves it through its stages. */
  lemma SupervisorFlags(cfg: Config, s: Sys, s': Sys, step: Step)
    requires SupervisorStep(cfg, s, s', step)
    ensures s'.req.escaped == s.req.escaped && s'.req.removed == s.req.removed && s'.req.unlocked == s.req.unlocked
    ensures s'.req.child == s.req.child || s'.req.child == Alive(SettingUp) || s'.req.child.Reaped?
  {
    hide StartStep, PollStep, CancelStep, EndStep;
    if StartStep(cfg, s, s', step) {
      StartFrame(cfg, s, s', step);
    } else if PollStep(cfg, s, s', step) {
      PollFlags(cfg, s, s', step);
    } else if CancelStep(s, s', step) {
      CancelFlags(s, s', step);
    } else {
      EndFlags(s, s', step);
    }
  }

  lemma PollFlags(cfg: Config, s: Sys, s': Sys, step: Step)
    requires PollStep(cfg, s, s', step)
    ensures s'.req == s.req || (s.req.child.Zombie? && s'.req == s.req.(child := Reaped(s.req.child.status)))
  {
  }

  lemma CancelFlags(s: Sys, s': Sys, step: Step)
    requires CancelStep(s, s', step)
    ensures s'.req == s.req || (s.req.child.Zombie? && s'.req == s.req.(child := Reaped(s.req.child.status)))
  {
  }

  lemma EndFlags(s: Sys, s': Sys, step: Step)
    requires EndStep(s, s', step)
    ensures s'.req ==
      if s.pc.RemoveTerminal? then s.req.(terminal := None) else if s.pc.ReleaseLock? then s.req.(lockHeld := false) else s.req
    ensures (s'.pc.ReleaseLock? <==> s.pc.RemoveTerminal?) && (s'.pc.Gone? <==> s.pc.ReleaseLock?) && !s.pc.Gone?
  {
    hide TerminalFromWaitStatus;
  }

  /** The flags tell what happened in the run. */
  lemma {:induction false} FlagsAreHistory(cfg: Config, b: seq<Sys>, i: nat)
    requires Behaviour(cfg, b) && i < |b|
    ensures b[i].req.escaped <==> HasEscaped(b, i)
    ensures b[i].req.removed <==> HasUnlinked(b, i)
    ensures b[i].req.unlocked <==> HasUnlocked(b, i)
  {
    hide NextStep;
    if i > 0 {
      FlagsAreHistory(cfg, b, i - 1);
      assert Next(cfg, b[i - 1], b[i]);
      var step :| NextStep(cfg, b[i - 1], b[i], step);
      FlagStep(cfg, b[i - 1], b[i], step);
      HistoryGrows(b, i);
    }
  }

  lemma HistoryGrows(b: seq<Sys>, i: nat)
    requires 0 < i < |b|
    ensures HasEscaped(b, i) <==> HasEscaped(b, i - 1) || EscapesAt(b, i)
    ensures HasUnlinked(b, i) <==> HasUnlinked(b, i - 1) || UnlinksAt(b, i)
    ensures HasUnlocked(b, i) <==> HasUnlocked(b, i - 1) || UnlocksAt(b, i)
  {
    hide EscapesAt, UnlinksAt, UnlocksAt;
  }

  /** While there is a child to reap the shared use-lock is held, if there is one, exactly until the child releases it itself,
      which takes an escape; a child that ended by exiting has released it exactly if it escaped. In the end it is free. */
  lemma LockCoversChild(cfg: Config, b: seq<Sys>, i: nat)
    requires Behaviour(cfg, b) && i < |b|
    ensures b[i].req.child.Alive? || b[i].req.child.Zombie? ==> (b[i].req.lockHeld <==> cfg.wantsLock && !HasUnlocked(b, i))
    ensures HasUnlocked(b, i) ==> HasEscaped(b, i)
    ensures b[i].req.child.Zombie? && b[i].req.child.status.ExitedWith? ==> (HasUnlocked(b, i) <==> HasEscaped(b, i))
    ensures b[i].pc == Gone ==> !b[i].req.lockHeld
  {
    hide Behaviour, HasEscaped, HasUnlinked, HasUnlocked;
    Always(cfg, b, i);
    FlagsAreHistory(cfg, b, i);
  }

  /** At most one terminal frame is written. Code 0 is sent only if the child published it after its command ended with 0. A
      published result is what is sent exactly unless the child unlinked it, which takes an escape; of a child that ended by
      exiting, exactly unless it escaped. */
  lemma OneHonestFrame(cfg: Config, b: seq<Sys>, i: nat)
    requires Behaviour(cfg, b) && i < |b|
    ensures |b[i].frames| <= 1 && (b[i].pc == Gone ==> |b[i].frames| == 1)
    ensures forall f | f in b[i].frames && f.code == 0 :: b[i].req.published == Some(f) && b[i].req.dispatched == Some(0)
    ensures forall f | f in b[i].frames && b[i].req.published.Some? :: f == b[i].req.published.value <==> !HasUnlinked(b, i)
    ensures HasUnlinked(b, i) ==> HasEscaped(b, i)
    ensures b[i].req.child.Reaped? && b[i].req.child.status.ExitedWith? ==> (HasUnlinked(b, i) <==> HasEscaped(b, i))
  {
    hide Behaviour, HasEscaped, HasUnlinked, HasUnlocked;
    Always(cfg, b, i);
    FlagsAreHistory(cfg, b, i);
  }

  // ----- two runs in which a cancelled child escapes -----

  ghost predicate RunTo(cfg: Config, b: seq<Sys>, s: Sys) { Behaviour(cfg, b) && b[|b| - 1] == s }

  lemma Extend(cfg: Config, b: seq<Sys>, s: Sys, s': Sys, step: Step) returns (longer: seq<Sys>)
    requires RunTo(cfg, b, s) && NextStep(cfg, s, s', step)
    ensures RunTo(cfg, longer, s')
  {
    hide NextStep;
    longer := b + [s'];
    assert Next(cfg, s, s');
    forall i, j | 0 <= i < j < |longer| && j == i + 1 ensures Next(cfg, longer[i], longer[j]) {
      if j < |b| { assert Next(cfg, b[i], b[j]); }
    }
  }

  lemma ExtendChild(cfg: Config, b: seq<Sys>, s: Sys, r: Request, step: Step) returns (longer: seq<Sys>, s': Sys)
    requires RunTo(cfg, b, s) && ChildStep(s.req, r, step)
    ensures RunTo(cfg, longer, s') && s' == s.(req := r)
  {
    hide RunTo, ChildStep;
    s' := s.(req := r);
    longer := Extend(cfg, b, s, s', step);
  }

  const FORKED := UNUSED.(child := Alive(SettingUp), lockHeld := true)

  /** A request under a lock, with its marker set, just forked. */
  lemma ForkedRun(cfg: Config) returns (b: seq<Sys>, s: Sys)
    requires cfg.wantsLock
    ensures RunTo(cfg, b, s) && s == Sys(Poll, FORKED, true, true, true, [], 0, [])
  {
    hide PollStep, CancelStep, EndStep, EnvStep, ChildStep;
    var held := UNUSED.(lockHeld := true);
    var s0 := Sys(Validate, UNUSED, true, true, true, [], 0, []);
    b := [s0];
    assert RunTo(cfg, b, s0);
    hide RunTo;
    b := Extend(cfg, b, s0, s0.(pc := TakeLock), Proceed);
    b := Extend(cfg, b, s0.(pc := TakeLock), s0.(pc := MakePath, req := held), Proceed);
    b := Extend(cfg, b, s0.(pc := MakePath, req := held), s0.(pc := Fork, req := held), Proceed);
    s := s0.(pc := Poll, req := FORKED);
    b := Extend(cfg, b, s0.(pc := Fork, req := held), s, Proceed);
  }

  /** The supervisor sees the marker and sends SIGTERM. */
  lemma TermRun(cfg: Config, b: seq<Sys>, s: Sys) returns (longer: seq<Sys>, s': Sys)
    requires RunTo(cfg, b, s) && cfg.hasLease && s.pc == Poll && s.req.child.Alive? && s.marker && s.signals == []
    ensures RunTo(cfg, longer, s') && s' == s.(pc := Grace, signals := [Term])
  {
    hide RunTo, StartStep, EndStep, EnvStep, ChildStep;
    longer := Extend(cfg, b, s, s.(pc := CheckMarker), Proceed);
    longer := Extend(cfg, longer, s.(pc := CheckMarker), s.(pc := SendTerm), Proceed);
    s' := s.(pc := Grace, signals := [Term]);
    assert [] + [Term] == [Term];
    longer := Extend(cfg, longer, s.(pc := SendTerm), s', Proceed);
  }

  /** The exception escapes and the child runs the supervisor's clean-up. */
  lemma EscapeRun(cfg: Config, b: seq<Sys>, s: Sys) returns (longer: seq<Sys>, s': Sys)
    requires RunTo(cfg, b, s) && s.req.child.Alive? && Unguarded(s.req.child.stage)
    ensures RunTo(cfg, longer, s')
    ensures s' ==
      s.(req := s.req.(child := Alive(Unlocked), terminal := None, lockHeld := false, escaped := true, removed := true, unlocked := true))
  {
    hide RunTo;
    var r1 := s.req.(child := Alive(Escaping), escaped := true);
    var r2 := r1.(child := Alive(Unlinked), terminal := None, removed := true);
    longer, s' := ExtendChild(cfg, b, s, r1, ChildRaises);
    longer, s' := ExtendChild(cfg, longer, s', r2, ChildUnlinks);
    longer, s' := ExtendChild(cfg, longer, s', r2.(child := Alive(Unlocked), lockHeld := false, unlocked := true), ChildUnlocks);
  }

  /** Cancelled while setting up: the lock is released although the child is alive. */
  lemma LockDroppedEarly(cfg: Config) returns (b: seq<Sys>, s: Sys)
    requires cfg.hasLease && cfg.wantsLock
    ensures RunTo(cfg, b, s) && s.signals == [Term] && s.req.child.Alive? && !s.req.lockHeld
  {
    hide RunTo;
    b, s := ForkedRun(cfg);
    b, s := TermRun(cfg, b, s);
    b, s := EscapeRun(cfg, b, s);
  }

  /** The command succeeds and its result is published. */
  lemma PublishRun(cfg: Config, b: seq<Sys>, s: Sys) returns (longer: seq<Sys>, s': Sys)
    requires RunTo(cfg, b, s) && s.req == FORKED
    ensures RunTo(cfg, longer, s')
    ensures var f := Some(Frame(0, FromChild));
      s' == s.(req := FORKED.(child := Alive(Leaving), terminal := f, published := f, dispatched := Some(0)))
  {
    hide RunTo;
    var r, f := FORKED.(dispatched := Some(0)), Some(Frame(0, FromChild));
    longer, s' := ExtendChild(cfg, b, s, FORKED.(child := Alive(Dispatching)), ChildReady);
    longer, s' := ExtendChild(cfg, longer, s', r.(child := Alive(Returned(0))), ChildReturns(0));
    longer, s' := ExtendChild(cfg, longer, s', r.(child := Alive(Deciding(0))), ChildDecides);
    longer, s' := ExtendChild(cfg, longer, s', r.(child := Alive(Writing(0))), ChildWrites);
    longer, s' := ExtendChild(cfg, longer, s', r.(child := Alive(Leaving), terminal := f, published := f), ChildPublishes);
  }

  /** The child exits, is reaped, and the supervisor finds no result. */
  lemma ReportRun(cfg: Config, b: seq<Sys>, s: Sys) returns (longer: seq<Sys>, s': Sys)
    requires RunTo(cfg, b, s) && s.pc == Grace && s.frames == [] && s.req.child == Alive(Unlocked) && s.req.terminal == None
    ensures RunTo(cfg, longer, s') && s'.req.published == s.req.published && s'.frames == [Frame(1, ByExit(0))]
  {
    hide RunTo, StartStep, PollStep, EnvStep;
    var z, f := s.(req := s.req.(child := Zombie(ExitedWith(0)))), Frame(1, ByExit(0));
    longer, s' := ExtendChild(cfg, b, s, z.req, ChildExits(0));
    longer := Extend(cfg, longer, z, Reap(z), Proceed);
    longer := Extend(cfg, longer, Reap(z), Reap(z).(pc := Send(f)), Proceed);
    s' := Reap(z).(pc := RemoveTerminal, frames := z.frames + [f]);
    longer := Extend(cfg, longer, Reap(z).(pc := Send(f)), s', Proceed);
  }

  /** Cancelled while leaving: a published success is deleted, and the client is sent a failure. */
  lemma PublicationLost(cfg: Config) returns (b: seq<Sys>, s: Sys)
    requires cfg.hasLease && cfg.wantsLock
    ensures RunTo(cfg, b, s) && s.req.published == Some(Frame(0, FromChild)) && s.frames == [Frame(1, ByExit(0))]
  {
    hide RunTo;
    b, s := ForkedRun(cfg);
    b, s := PublishRun(cfg, b, s);
    b, s := TermRun(cfg, b, s);
    b, s := EscapeRun(cfg, b, s);
    b, s := ReportRun(cfg, b, s);
  }

  // ----- marker and progress -----

  /** The supervisor observes the cancel marker but never consumes it. */
  lemma MarkerNotConsumed(cfg: Config, s: Sys, s': Sys, step: Step)
    requires SupervisorStep(cfg, s, s', step)
    ensures s'.marker == s.marker && s'.clientUp == s.clientUp
  {
    hide TerminalFromWaitStatus;
  }

  ghost predicate CanMove(cfg: Config, s: Sys) {
    exists step, s' :: SupervisorStep(cfg, s, s', step) && s' != s
  }

  lemma StartMoves(cfg: Config, s: Sys)
    requires Starting(s.pc)
    ensures CanMove(cfg, s)
  {
    hide PollStep, CancelStep, EndStep;
    var s' :=
      if s.pc.Validate? then s.(pc := TakeLock)
      else if s.pc.TakeLock? then s.(pc := MakePath, req := s.req.(lockHeld := cfg.wantsLock))
      else if s.pc.MakePath? then s.(pc := Fork)
      else s.(pc := Poll, req := s.req.(child := Alive(SettingUp)));
    assert SupervisorStep(cfg, s, s', Proceed);
  }

  lemma PollMoves(cfg: Config, s: Sys)
    requires s.pc.Poll? || s.pc.CheckMarker? || s.pc.WatchClient?
    ensures CanMove(cfg, s)
  {
    hide StartStep, CancelStep, EndStep;
    var s' :=
      if s.pc.Poll? then (if s.req.child.Zombie? then Reap(s) else s.(pc := CheckMarker))
      else if s.pc.CheckMarker? then s.(pc := if cfg.hasLease && s.marker then SendTerm else WatchClient)
      else s.(pc := Poll, attached := s.attached && s.clientUp);
    assert SupervisorStep(cfg, s, s', Proceed);
  }

  lemma CancelMoves(cfg: Config, s: Sys)
    requires s.pc.SendTerm? || s.pc.Grace? || s.pc.SendKill? || (s.pc.WaitBlocking? && s.req.child.Zombie?)
    ensures CanMove(cfg, s)
  {
    hide StartStep, PollStep, EndStep;
    var s' :=
      if s.pc.SendTerm? then s.(pc := Grace, signals := s.signals + [Term])
      else if s.pc.SendKill? then s.(pc := WaitBlocking, signals := s.signals + [Kill])
      else if s.req.child.Zombie? then Reap(s)
      else s.(pc := SendKill);
    assert SupervisorStep(cfg, s, s', if s.pc.Grace? && !s.req.child.Zombie? then DeadlinePasses else Proceed);
  }

  lemma EndMoves(cfg: Config, s: Sys)
    requires s.pc.Send? || s.pc.SendError? || s.pc.RemoveTerminal? || s.pc.ReleaseLock? || (s.pc.ReadTerminal? && s.req.child.Reaped?)
    ensures CanMove(cfg, s)
  {
    hide StartStep, PollStep, CancelStep, TerminalFromWaitStatus;
    var s' :=
      if s.pc.Send? then s.(pc := RemoveTerminal, frames := s.frames + [s.pc.frame])
      else if s.pc.SendError? then s.(pc := RemoveTerminal, frames := s.frames + [Frame(1, SupervisorError)])
      else if s.pc.RemoveTerminal? then s.(pc := ReleaseLock, req := s.req.(terminal := None))
      else if s.pc.ReleaseLock? then s.(pc := Gone, req := s.req.(lockHeld := false))
      else s.(pc := Send(if s.req.terminal.Some? then s.req.terminal.value else TerminalFromWaitStatus(s.req.child.status)));
    assert SupervisorStep(cfg, s, s', Proceed);
  }

  /** The supervisor is never stuck: until it is gone it can change its state, or it waits for the end of a child it has killed. */
  lemma NeverStuck(cfg: Config, b: seq<Sys>, i: nat)
    requires Behaviour(cfg, b) && i < |b| && b[i].pc != Gone
    ensures CanMove(cfg, b[i]) || (b[i].pc == WaitBlocking && b[i].req.child.Alive? && b[i].signals == [Term, Kill])
  {
    hide CanMove, Behaviour, SignalsOk, PublicationOk, EscapeOk, FileOk, FramesOk, LockOk;
    Always(cfg, b, i);
    var s := b[i];
    if Starting(s.pc) {
      StartMoves(cfg, s);
    } else if s.pc.Poll? || s.pc.CheckMarker? || s.pc.WatchClient? {
      PollMoves(cfg, s);
    } else if s.pc.WaitBlocking? {
      if s.req.child.Zombie? { CancelMoves(cfg, s); }
    } else if Waiting(s.pc) {
      CancelMoves(cfg, s);
    } else {
      EndMoves(cfg, s);
    }
  }
}
