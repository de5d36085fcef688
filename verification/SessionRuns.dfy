/** Runs of a session built step by step, so that what is said of their states is said of reachable ones. */
module SessionRuns {
  import opened DecodeUnits
  import opened Session

  ghost predicate Reachable(cfg: Config, s: State) {
    exists states, actions :: IsRun(cfg, states, actions) && states[|states| - 1] == s
  }

  /** Nothing has come from the C core. */
  predicate Fresh(s: State) { s.queue == [] && s.core.Outside? && s.submissions == [] && s.format == 0 }

  lemma Start(cfg: Config) returns (s: State)
    ensures Reachable(cfg, s) && Init(s) && Fresh(s)
  {
    s := Initial(0);
    var states, actions: seq<Action> := [s], [];
    assert IsRun(cfg, states, actions) && states[|states| - 1] == s;
  }

  lemma Take(cfg: Config, s: State, a: Action) returns (s': State)
    requires Reachable(cfg, s) && Enabled(s, a)
    ensures Reachable(cfg, s') && s' == Step(cfg, s, a)
  {
    s' := Step(cfg, s, a);
    var states, actions :| IsRun(cfg, states, actions) && states[|states| - 1] == s;
    var states', actions' := states + [s'], actions + [a];
    assert IsRun(cfg, states', actions') && states'[|states'| - 1] == s';
  }

  /** The worker's next statement, with nobody else about. */
  lemma Go(cfg: Config, s: State, at: Pc, o: Outcome3) returns (s': State)
    requires Reachable(cfg, s) && s.pc == at && Possible(at, o)
    ensures Reachable(cfg, s') && s' == WorkStep(cfg, s, o)
  {
    s' := Take(cfg, s, Work(o));
  }

  /** A run with nobody else about, up to server info. */
  lemma UpToServerInfo(cfg: Config) returns (s: State)
    ensures Reachable(cfg, s) && s.pc == Setup(ServerInfo) && s.trace == [ServiceMessage]
    ensures !s.stop && !s.sink && !s.panicked && Fresh(s)
  {
    s := Start(cfg);
    s := Go(cfg, s, Setup(RestoreIdentity), Succeeds);
    s := Go(cfg, s, Setup(BuildRuntime), Succeeds);
    s := Go(cfg, s, Setup(SayConnecting), Succeeds);
  }

  /** And on, with a host that knows the client, past the app list. */
  lemma UpToSayLaunching(cfg: Config) returns (s: State)
    ensures Reachable(cfg, s) && s.pc == Setup(SayLaunching) && s.trace == [ServiceMessage]
    ensures !s.stop && !s.sink && !s.panicked && Fresh(s)
  {
    s := UpToServerInfo(cfg);
    s := Go(cfg, s, Setup(ServerInfo), Succeeds);
    s := Go(cfg, s, Setup(CheckStop), Succeeds);
    s := Go(cfg, s, Setup(AppList), Succeeds);
  }

  /** And on to a launched session. */
  lemma UpToLaunch(cfg: Config) returns (s: State)
    ensures Reachable(cfg, s) && s.pc == Starting(InstallSink) && s.trace == [ServiceMessage, ServiceMessage, Launched]
    ensures !s.stop && !s.sink && !s.panicked && Fresh(s)
  {
    s := UpToSayLaunching(cfg);
    s := Go(cfg, s, Setup(SayLaunching), Succeeds);
    s := Go(cfg, s, Setup(Launch), Succeeds);
  }

  /** And on to a stream, or to the cancel if a NUL stops `start_stream`; the sink is installed either way. */
  lemma UpToStream(cfg: Config) returns (s: State)
    ensures Reachable(cfg, s) && s.trace == [ServiceMessage, ServiceMessage, Launched]
    ensures s.pc == if cfg.hasNul then Starting(CancelFailed) else Starting(OnReady)
    ensures !s.stop && s.sink && !s.panicked && !s.terminated && Fresh(s)
  {
    s := UpToLaunch(cfg);
    s := Go(cfg, s, Starting(InstallSink), Succeeds);
    s := Go(cfg, s, Starting(ResetTerminated), Succeeds);
    s := Go(cfg, s, Starting(CheckNul), Succeeds);
    if !cfg.hasNul { s := Go(cfg, s, Starting(LiStart), Succeeds); }
  }

  /** And on to one unit taken from a chain and in hand. */
  lemma UpToUnit(bs: seq<Buffer>, frameType: int) returns (s: State)
    requires AllReadable(bs)
    ensures Reachable(Config(false), s) && s.pc == Live(Receive)
    ensures s.queue == [UnitOf(bs, frameType, 0)]
    ensures s.trace == [ServiceMessage, ServiceMessage, Launched, Ready, ServiceMessage]
  {
    var cfg := Config(false);
    s := UpToStream(cfg);
    s := Go(cfg, s, Starting(OnReady), Succeeds);
    s := Go(cfg, s, Live(SayConnected), Succeeds);
    s := SubmitOne(cfg, s, bs, frameType);
    s := Go(cfg, s, Live(LoadStop), Succeeds);
    s := Go(cfg, s, Live(LoadTerminated), Succeeds);
  }

  /** The decode callback, undisturbed. */
  lemma SubmitOne(cfg: Config, s: State, bs: seq<Buffer>, frameType: int) returns (s': State)
    requires Reachable(cfg, s) && s.pc.Live? && s.sink && Fresh(s) && AllReadable(bs)
    ensures Reachable(cfg, s') && s'.pc == s.pc && s'.trace == s.trace && s'.stop == s.stop && s'.sink
    ensures s'.terminated == s.terminated && s'.queue == [UnitOf(bs, frameType, 0)]
  {
    s' := Take(cfg, s, Submit(bs, frameType));
    s' := Take(cfg, s', LoadFormat);
    s' := Take(cfg, s', Send);
  }

  /** And to that unit delivered. */
  lemma UpToFrame(bs: seq<Buffer>, frameType: int) returns (s: State)
    requires AllReadable(bs)
    ensures Reachable(Config(false), s)
    ensures s.trace == [ServiceMessage, ServiceMessage, Launched, Ready, ServiceMessage,
                        Event.Frame(UnitOf(bs, frameType, 0))]
  {
    s := UpToUnit(bs, frameType);
    s := Go(Config(false), s, Live(Receive), Succeeds);
    s := Go(Config(false), s, Live(Deliver(UnitOf(bs, frameType, 0))), Succeeds);
  }
}
