/**
 One session's life as a concurrent transition system. The actors are the worker thread running
 `run_moonlight`, the thread that calls `close` (once or repeatedly), and the C core's callbacks.
 They share the stop flag, the termination flag, the negotiated format, the global video sink and
 the channel behind it. Each atomic access is one step, each network or FFI call is a step whose
 outcome is free, and a run is any interleaving. One session per process.
 */
module Session {
  import opened Wrappers
  import opened DecodeUnits

  /** How `run_moonlight` was left; it becomes the reason given to `on_closed`. */
  datatype Reason = Ended | Failed | HostTerminated | Panicked

  /** What a session does that others can see: its callbacks, its frames, and its two paired requests to the host. */
  datatype Event =
    | IdentityLearned
    | ServiceMessage
    | PairPrompt
    | PairFinished(ok: bool)
    | Launched
    | Ready
    | Frame(unit: VideoUnit)
    | Cancel
    | Closed(reason: Reason)

  // Where the worker is: the next thing it will do.

  /** Up to and including /launch. */
  datatype SetupPc =
    | RestoreIdentity | BuildRuntime | SayConnecting | ServerInfo
    | SayPairing | Prompt | Pair | SayPaired
    | CheckStop | AppList | SayLaunching | Launch

  /** After a successful /launch: `start_stream`, its failures, and `on_ready`. */
  datatype StartPc = InstallSink | ResetTerminated | CheckNul | LiStart | DropSink | CancelFailed | OnReady

  /** After `on_ready`: the streaming loop and the two ways out of it. */
  datatype LivePc =
    | SayConnected | LoadStop | LoadTerminated | Receive | Deliver(unit: VideoUnit)
    | TermStop | TermClear
    | EndStop | EndClear | EndCancel

  /** `Closing` is the thread's wrapper: `run_moonlight` has returned, or a panic was caught. */
  datatype Pc = Setup(setup: SetupPc) | Starting(start: StartPc) | Live(live: LivePc) | Closing(reason: Reason) | Done

  /** The decode thread inside `dr_submit`: before the format load, or before the sink's lock. */
  datatype CorePc = Outside | Reassembled(buffers: seq<Buffer>, frameType: int) | Built(unit: VideoUnit)

  /** The closing thread inside `close`. */
  datatype CloserPc = NotClosing | ConnStopped | SinkCleared | FlagSet

  /** A unit as it reached the sink's lock, and whether the sink was installed then. */
  datatype Submission = Submission(unit: VideoUnit, installed: bool)

  datatype State = State(
    pc: Pc,
    stop: bool,
    terminated: bool,
    format: int,
    sink: bool,
    queue: seq<VideoUnit>,
    core: CorePc,
    closer: CloserPc,
    // history
    trace: seq<Event>,
    submissions: seq<Submission>,
    received: nat,
    closeCalled: bool,
    clearedSinceInstall: bool,
    panicked: bool)

  /** Whether the host name or a version string contains a NUL, which `CString::new` refuses. */
  datatype Config = Config(hasNul: bool)

  /** Before the thread starts; the negotiated format may be that of an earlier session. */
  function Initial(format: int): State {
    State(Setup(RestoreIdentity), false, false, format, false, [], Outside, NotClosing,
          [], [], 0, false, false, false)
  }

  predicate Init(s: State) {
    s == Initial(s.format)
  }

  /** The receiver exists from the channel's creation, right after /launch, until `run_moonlight` is left. */
  predicate ReceiverAlive(pc: Pc) { pc.Starting? || pc.Live? }

  /** The free outcome of a call: it succeeds, succeeds the other way, or fails. */
  datatype Outcome3 = Succeeds | Otherwise | Fails

  datatype Action =
    | Work(outcome: Outcome3)
    // a panic before the worker's next step has its effect, and one after it
    | Panic
    | PanicAfter(outcome: Outcome3)
    // C core callbacks
    | SetFormat(newFormat: int)
    | Terminate
    | Submit(buffers: seq<Buffer>, frameType: int)
    | LoadFormat
    | Send
    // close()
    | CloseStopConn
    | CloseClearSink
    | CloseSetFlag
    | CloseReleaseHandle

  /** Which outcomes a worker step can have. */
  predicate Possible(pc: Pc, o: Outcome3) {
    match pc
    case Setup(at) =>
      // RestoreIdentity: restored | generated | generation failed
      // ServerInfo: paired | not paired | both requests failed
      || at.RestoreIdentity? || at.ServerInfo? || o.Succeeds?
      || ((at.BuildRuntime? || at.Pair? || at.AppList? || at.Launch?) && o.Fails?)
    case Starting(at) => o.Succeeds? || (at.LiStart? && o.Fails?)
    case Live(_) => o.Succeeds?
    case Closing(_) => o.Succeeds?
    case Done => false
  }

  predicate Running(pc: Pc) { !pc.Closing? && !pc.Done? }

  predicate Enabled(s: State, a: Action) {
    match a
    case Work(o) => Possible(s.pc, o)
    case Panic => Running(s.pc)
    case PanicAfter(o) => Running(s.pc) && Possible(s.pc, o)
    case SetFormat(_) => true
    case Terminate => true
    case Submit(bs, _) => s.core.Outside? && AllReadable(bs)
    case LoadFormat => s.core.Reassembled? && AllReadable(s.core.buffers)
    case Send => s.core.Built?
    case CloseStopConn => s.closer.NotClosing?
    case CloseClearSink => s.closer.ConnStopped?
    case CloseSetFlag => s.closer.SinkCleared?
    case CloseReleaseHandle => s.closer.FlagSet?
  }

  // The worker's control flow.

  function AfterSetup(at: SetupPc, stop: bool, o: Outcome3): Pc {
    match at
    case RestoreIdentity => if o.Fails? then Closing(Failed) else Setup(BuildRuntime)
    case BuildRuntime => if o.Fails? then Closing(Failed) else Setup(SayConnecting)
    case SayConnecting => Setup(ServerInfo)
    case ServerInfo =>
      if o.Fails? then Closing(Failed) else if o.Succeeds? then Setup(CheckStop) else Setup(SayPairing)
    case SayPairing => Setup(Prompt)
    case Prompt => Setup(Pair)
    case Pair => if o.Fails? then Closing(Failed) else Setup(SayPaired)
    case SayPaired => Setup(CheckStop)
    case CheckStop => if stop then Closing(Ended) else Setup(AppList)
    case AppList => if o.Fails? then Closing(Failed) else Setup(SayLaunching)
    case SayLaunching => Setup(Launch)
    case Launch => if o.Fails? then Closing(Failed) else Starting(InstallSink)
  }

  function AfterStarting(at: StartPc, hasNul: bool, o: Outcome3): Pc {
    match at
    case InstallSink => Starting(ResetTerminated)
    case ResetTerminated => Starting(CheckNul)
    case CheckNul => if hasNul then Starting(CancelFailed) else Starting(LiStart)
    case LiStart => if o.Fails? then Starting(DropSink) else Starting(OnReady)
    case DropSink => Starting(CancelFailed)
    case CancelFailed => Closing(Failed)
    case OnReady => Live(SayConnected)
  }

  function AfterLive(at: LivePc, stop: bool, terminated: bool, sink: bool, queue: seq<VideoUnit>): Pc {
    match at
    case SayConnected => Live(LoadStop)
    case LoadStop => if stop then Live(EndStop) else Live(LoadTerminated)
    case LoadTerminated => if terminated then Live(TermStop) else Live(Receive)
    // a unit, a timeout while a sender exists, or a disconnected channel
    case Receive =>
      if queue != [] then Live(Deliver(queue[0])) else if sink then Live(LoadStop) else Live(EndStop)
    case Deliver(_) => Live(LoadStop)
    case TermStop => Live(TermClear)
    case TermClear => Closing(HostTerminated)
    case EndStop => Live(EndClear)
    case EndClear => Live(EndCancel)
    case EndCancel => Closing(Ended)
  }

  function NextPc(cfg: Config, s: State, o: Outcome3): Pc {
    match s.pc
    case Setup(at) => AfterSetup(at, s.stop, o)
    case Starting(at) => AfterStarting(at, cfg.hasNul, o)
    case Live(at) => AfterLive(at, s.stop, s.terminated, s.sink, s.queue)
    case Closing(_) => Done
    case Done => Done
  }

  // What a worker step shows the outside.

  function SetupEvent(at: SetupPc, o: Outcome3): Option<Event> {
    match at
    case RestoreIdentity => if o.Otherwise? then Some(IdentityLearned) else None
    case SayConnecting | SayPairing | SayPaired | SayLaunching => Some(ServiceMessage)
    case Prompt => Some(PairPrompt)
    case Pair => Some(PairFinished(o.Succeeds?))
    case Launch => if o.Succeeds? then Some(Launched) else None
    case _ => None
  }

  function StartEvent(at: StartPc): Option<Event> {
    match at
    case CancelFailed => Some(Cancel)
    case OnReady => Some(Ready)
    case _ => None
  }

  function LiveEvent(at: LivePc): Option<Event> {
    match at
    case SayConnected => Some(ServiceMessage)
    case Deliver(u) => Some(Event.Frame(u))
    case EndCancel => Some(Cancel)
    case _ => None
  }

  function Emitted(pc: Pc, o: Outcome3): Option<Event> {
    match pc
    case Setup(at) => SetupEvent(at, o)
    case Starting(at) => StartEvent(at)
    case Live(at) => LiveEvent(at)
    case Closing(r) => Some(Closed(r))
    case Done => None
  }

  function Push(t: seq<Event>, e: Option<Event>): seq<Event> {
    match e case None => t case Some(x) => t + [x]
  }

  // What a worker step does to the shared state.

  function SinkAfter(pc: Pc, sink: bool): bool {
    match pc
    case Starting(InstallSink) => true
    case Starting(DropSink) | Live(TermClear) | Live(EndClear) => false
    case _ => sink
  }

  function QueueAfter(pc: Pc, queue: seq<VideoUnit>): seq<VideoUnit> {
    if pc == Live(Receive) && queue != [] then queue[1..] else queue
  }

  function WorkStep(cfg: Config, s: State, o: Outcome3): State {
    s.(pc := NextPc(cfg, s, o),
       trace := Push(s.trace, Emitted(s.pc, o)),
       sink := SinkAfter(s.pc, s.sink),
       terminated := s.terminated && s.pc != Starting(ResetTerminated),
       queue := QueueAfter(s.pc, s.queue),
       received := if s.pc == Live(Receive) then s.received + 1 else s.received,
       clearedSinceInstall := s.clearedSinceInstall && s.pc != Starting(InstallSink))
  }

  /** A panic, caught by the wrapper. */
  function Crash(s: State): State { s.(pc := Closing(Panicked), panicked := true) }

  predicate Panics(a: Action) { a.Panic? || a.PanicAfter? }

  /** The worker's own actions. */
  predicate Works(a: Action) { a.Work? || Panics(a) }

  function Step(cfg: Config, s: State, a: Action): State
    requires Enabled(s, a)
  {
    match a
    case Work(o) => WorkStep(cfg, s, o)
    case Panic => Crash(s)
    case PanicAfter(o) => Crash(WorkStep(cfg, s, o))
    case SetFormat(f) => s.(format := f)
    case Terminate => s.(terminated := true)
    case Submit(bs, ft) => s.(core := Reassembled(bs, ft))
    case LoadFormat => s.(core := Built(UnitOf(s.core.buffers, s.core.frameType, s.format)))
    case Send =>
      s.(core := Outside,
         submissions := s.submissions + [Submission(s.core.unit, s.sink)],
         // a send to a dropped receiver is discarded
         queue := if s.sink && ReceiverAlive(s.pc) then s.queue + [s.core.unit] else s.queue)
    case CloseStopConn => s.(closer := ConnStopped, closeCalled := true)
    case CloseClearSink => s.(closer := SinkCleared, sink := false, clearedSinceInstall := true)
    case CloseSetFlag => s.(closer := FlagSet, stop := true)
    case CloseReleaseHandle => s.(closer := NotClosing)
  }

  /** A run: any interleaving of enabled steps from the initial state. */
  ghost predicate IsRun(cfg: Config, states: seq<State>, actions: seq<Action>) {
    && |states| == |actions| + 1
    && Init(states[0])
    && forall i :: 0 <= i < |actions| ==>
         Enabled(states[i], actions[i]) && states[i + 1] == Step(cfg, states[i], actions[i])
  }
}
