/**
 The worker thread as the program it is: `run_moonlight` and the wrapper around it, statement by
 statement, with the other actors free to act before every statement, and a panic free to unwind any
 statement of `run_moonlight`. Each statement is shown to be the worker's next step in `Session`, so that
 everything proved of its runs is true of this program.
 */
module Worker {
  import opened Wrappers
  import opened Session
  import opened SessionSafety
  import opened SessionTheorems
  import opened SessionStory
  import opened World

  /** What a call comes back with: a value, or a panic on its way up. */
  datatype Unwinding<+T> = Returned(value: T) | Unwound {
    predicate IsFailure() { Unwound? }

    function PropagateFailure<U>(): Unwinding<U>
      requires IsFailure()
    {
      Unwound
    }

    function Extract(): T
      requires !IsFailure()
    {
      value
    }
  }

  /** Where the worker is after a part that may fail or unwind. */
  function After(r: Unwinding<bool>, succeeded: Pc, failed: Pc): Pc {
    match r
    case Unwound => Closing(Panicked)
    case Returned(ok) => if ok then succeeded else failed
  }

  /**
   The worker's next statement, at `at`, after whatever the others do; `seen` is the state it acts on.
   It may panic instead, before or after its effect.
   */
  method Do(w: Shared, at: Pc, o: Outcome3) returns (seen: Unwinding<State>)
    requires w.Valid() && w.s.pc == at && Possible(at, o)
    modifies w
    ensures w.Valid()
    ensures match seen
            case Unwound => Running(at) && w.s.pc == Closing(Panicked)
            case Returned(s) =>
              && s.pc == at && s.trace == old(w.s.trace)
              && w.s.pc == NextPc(w.cfg, s, o) && w.s.trace == Push(s.trace, Emitted(at, o))
  {
    w.Others(TheWorker);
    if Running(at) {
      if * {
        w.Take(Action.Panic);
        return Unwound;
      } else if * {
        w.Take(PanicAfter(o));
        return Unwound;
      }
    }
    var s := w.s;
    w.Take(Work(o));
    assert w.s == WorkStep(w.cfg, s, o);
    return Returned(s);
  }

  /** A call that may fail. */
  method Call() returns (o: Outcome3)
    ensures !o.Otherwise?
  {
    if * { return Succeeds; }
    return Fails;
  }

  /** The identity, restored or generated, the runtime and the greeting. */
  method Prepare(w: Shared) returns (r: Unwinding<bool>)
    requires w.Valid() && w.s.pc == Setup(RestoreIdentity)
    modifies w
    ensures w.Valid() && w.s.pc == After(r, Setup(ServerInfo), Closing(Failed))
  {
    var identity: Outcome3 := *;
    var _ :- Do(w, Setup(RestoreIdentity), identity);
    if identity.Fails? { return Returned(false); }
    var runtime := Call();
    var _ :- Do(w, Setup(BuildRuntime), runtime);
    if runtime.Fails? { return Returned(false); }
    var _ :- Do(w, Setup(SayConnecting), Succeeds);
    return Returned(true);
  }

  /** Server info, and pairing if the host does not know the client. */
  method SettlePairing(w: Shared) returns (r: Unwinding<bool>)
    requires w.Valid() && w.s.pc == Setup(ServerInfo)
    modifies w
    ensures w.Valid() && w.s.pc == After(r, Setup(CheckStop), Closing(Failed))
  {
    var info: Outcome3 := *;
    var _ :- Do(w, Setup(ServerInfo), info);
    if info.Fails? { return Returned(false); }
    if info.Succeeds? { return Returned(true); }
    r := AskForPin(w);
  }

  /** The dialog and the pairing handshake. */
  method AskForPin(w: Shared) returns (r: Unwinding<bool>)
    requires w.Valid() && w.s.pc == Setup(SayPairing)
    modifies w
    ensures w.Valid() && w.s.pc == After(r, Setup(CheckStop), Closing(Failed))
  {
    var _ :- ShowDialog(w);
    var paired := Call();
    var _ :- Do(w, Setup(Pair), paired);
    if paired.Fails? { return Returned(false); }
    var _ :- Do(w, Setup(SayPaired), Succeeds);
    return Returned(true);
  }

  method ShowDialog(w: Shared) returns (r: Unwinding<()>)
    requires w.Valid() && w.s.pc == Setup(SayPairing)
    modifies w
    ensures w.Valid() && w.s.pc == if r.Unwound? then Closing(Panicked) else Setup(Pair)
  {
    var _ :- Do(w, Setup(SayPairing), Succeeds);
    var _ :- Do(w, Setup(Prompt), Succeeds);
    return Returned(());
  }

  /** The app list and the launch. */
  method LaunchApp(w: Shared) returns (r: Unwinding<bool>)
    requires w.Valid() && w.s.pc == Setup(AppList)
    modifies w
    ensures w.Valid() && w.s.pc == After(r, Starting(InstallSink), Closing(Failed))
  {
    var listed :- ListApps(w);
    if !listed { return Returned(false); }
    var launched := Call();
    var _ :- Do(w, Setup(Launch), launched);
    return Returned(launched.Succeeds?);
  }

  method ListApps(w: Shared) returns (r: Unwinding<bool>)
    requires w.Valid() && w.s.pc == Setup(AppList)
    modifies w
    ensures w.Valid() && w.s.pc == After(r, Setup(Launch), Closing(Failed))
  {
    var apps := Call();
    var _ :- Do(w, Setup(AppList), apps);
    if apps.Fails? { return Returned(false); }
    var _ :- Do(w, Setup(SayLaunching), Succeeds);
    return Returned(true);
  }

  /** The first two stores of `start_stream`. */
  method OpenSink(w: Shared) returns (r: Unwinding<()>)
    requires w.Valid() && w.s.pc == Starting(InstallSink)
    modifies w
    ensures w.Valid() && w.s.pc == if r.Unwound? then Closing(Panicked) else Starting(CheckNul)
  {
    var _ :- Do(w, Starting(InstallSink), Succeeds);
    var _ :- Do(w, Starting(ResetTerminated), Succeeds);
    return Returned(());
  }

  /** `start_stream` */
  method StartStream(w: Shared) returns (r: Unwinding<bool>)
    requires w.Valid() && w.s.pc == Starting(InstallSink)
    modifies w
    ensures w.Valid() && w.s.pc == After(r, Starting(OnReady), Starting(CancelFailed))
  {
    var _ :- OpenSink(w);
    var _ :- Do(w, Starting(CheckNul), Succeeds);
    if w.cfg.hasNul { return Returned(false); }
    var rc := Call();
    var _ :- Do(w, Starting(LiStart), rc);
    if rc.Fails? {
      var _ :- Do(w, Starting(DropSink), Succeeds);
      return Returned(false);
    }
    return Returned(true);
  }

  datatype Flow = Again | Break | Return

  /** One turn of the streaming loop. */
  method Turn(w: Shared) returns (r: Unwinding<Flow>)
    requires w.Valid() && w.s.pc == Live(LoadStop)
    modifies w
    ensures w.Valid()
    ensures w.s.pc == match r
                      case Unwound => Closing(Panicked)
                      case Returned(Again) => Live(LoadStop)
                      case Returned(Break) => Live(EndStop)
                      case Returned(Return) => Live(TermStop)
  {
    var seen :- Do(w, Live(LoadStop), Succeeds);
    if seen.stop { return Returned(Break); }
    seen :- Do(w, Live(LoadTerminated), Succeeds);
    if seen.terminated { return Returned(Return); }
    seen :- Do(w, Live(Receive), Succeeds);
    if seen.queue != [] {
      var _ :- Do(w, Live(Deliver(seen.queue[0])), Succeeds);
    } else if !seen.sink {
      return Returned(Break);
    }
    return Returned(Again);
  }

  /** The streaming loop, for as many turns as we care to watch; `None` if it is still going. */
  method Stream(w: Shared, turns: nat) returns (r: Unwinding<Option<Reason>>)
    requires w.Valid() && w.s.pc == Live(LoadStop)
    modifies w
    ensures w.Valid()
    ensures w.s.pc == match r
                      case Unwound => Closing(Panicked)
                      case Returned(None) => Live(LoadStop)
                      case Returned(Some(x)) => Closing(x)
  {
    var flow := Again;
    for i := 0 to turns
      invariant w.Valid() && flow.Again? && w.s.pc == Live(LoadStop)
    {
      flow :- Turn(w);
      if !flow.Again? { break; }
    }
    match flow
    case Again => return Returned(None);
    case Return =>
      var _ :- ReturnTerminated(w);
      return Returned(Some(HostTerminated));
    case Break =>
      var _ :- ReturnEnded(w);
      return Returned(Some(Ended));
  }

  /** `stop_stream`, and an error. */
  method ReturnTerminated(w: Shared) returns (r: Unwinding<()>)
    requires w.Valid() && w.s.pc == Live(TermStop)
    modifies w
    ensures w.Valid() && w.s.pc == if r.Unwound? then Closing(Panicked) else Closing(HostTerminated)
  {
    var _ :- Do(w, Live(TermStop), Succeeds);
    var _ :- Do(w, Live(TermClear), Succeeds);
    return Returned(());
  }

  /** `stop_stream`, after the loop. */
  method StopStream(w: Shared) returns (r: Unwinding<()>)
    requires w.Valid() && w.s.pc == Live(EndStop)
    modifies w
    ensures w.Valid() && w.s.pc == if r.Unwound? then Closing(Panicked) else Live(EndCancel)
  {
    var _ :- Do(w, Live(EndStop), Succeeds);
    var _ :- Do(w, Live(EndClear), Succeeds);
    return Returned(());
  }

  /** After the loop: `stop_stream` and the release of the host. */
  method ReturnEnded(w: Shared) returns (r: Unwinding<()>)
    requires w.Valid() && w.s.pc == Live(EndStop)
    modifies w
    ensures w.Valid() && w.s.pc == if r.Unwound? then Closing(Panicked) else Closing(Ended)
  {
    var _ :- StopStream(w);
    var _ :- Do(w, Live(EndCancel), Succeeds);
    return Returned(());
  }

  /** From the launch on: start the stream, or release the host; then the loop. */
  method StreamLaunched(w: Shared, turns: nat) returns (r: Unwinding<Option<Reason>>)
    requires w.Valid() && w.s.pc == Starting(InstallSink)
    modifies w
    ensures w.Valid()
    ensures w.s.pc == match r
                      case Unwound => Closing(Panicked)
                      case Returned(None) => Live(LoadStop)
                      case Returned(Some(x)) => Closing(x)
  {
    var ok :- StartStream(w);
    if !ok {
      var _ :- Do(w, Starting(CancelFailed), Succeeds);
      return Returned(Some(Failed));
    }
    var _ :- Do(w, Starting(OnReady), Succeeds);
    var _ :- Do(w, Live(SayConnected), Succeeds);
    r := Stream(w, turns);
  }

  /** `run_moonlight` */
  method RunMoonlight(w: Shared, turns: nat) returns (r: Unwinding<Option<Reason>>)
    requires w.Valid() && w.s.pc == Setup(RestoreIdentity)
    modifies w
    ensures w.Valid()
    ensures w.s.pc == match r
                      case Unwound => Closing(Panicked)
                      case Returned(None) => Live(LoadStop)
                      case Returned(Some(x)) => Closing(x)
  {
    var ok :- Prepare(w);
    if !ok { return Returned(Some(Failed)); }
    ok :- SettlePairing(w);
    if !ok { return Returned(Some(Failed)); }
    var seen :- Do(w, Setup(CheckStop), Succeeds);
    if seen.stop { return Returned(Some(Ended)); }
    ok :- LaunchApp(w);
    if !ok { return Returned(Some(Failed)); }
    r := StreamLaunched(w, turns);
  }

  /**
   A finished run: the report is last and the only one, its reason is what the steps taken make it,
   and the launch was released unless the host terminated the session or a panic came before the cancel.
   */
  ghost predicate Reported(cfg: Config, states: seq<State>, actions: seq<Action>, reason: Reason)
    requires |states| == |actions| + 1
  {
    var n := |actions|;
    var t := states[n].trace;
    && t != [] && t[|t| - 1] == Closed(reason)
    && (forall i :: 0 <= i < |t| - 1 ==> !t[i].Closed?)
    && (reason.Panicked? <==> SomePanics(actions, n))
    && (!reason.Panicked? ==>
          && (reason.Failed? <==> SomeFails(cfg, states, actions, n))
          && (reason.Ended? <==> SomeFindsEnd(states, actions, n))
          && (reason.HostTerminated? <==> SomeFindsTermination(states, actions, n)))
    && (forall i :: 0 <= i < |t| && t[i].Launched? ==>
          (ReleasedAfter(t, i) <==>
             !reason.HostTerminated? && (reason.Panicked? ==> PanickedInCancel(states, actions, n))))
  }

  lemma RunReported(cfg: Config, states: seq<State>, actions: seq<Action>, reason: Reason)
    requires IsRun(cfg, states, actions) && states[|actions|].pc.Done?
    requires LastOf(states[|actions|].trace) == Some(Closed(reason))
    ensures Reported(cfg, states, actions, reason)
  {
    ClosedOnceAndLast(cfg, states, actions, |actions|);
    ReasonIff(cfg, states, actions, |actions|);
    EveryLaunchIsReleased(cfg, states, actions, |actions|);
  }

  /** The wrapper's last statement. */
  method Report(w: Shared, reason: Reason)
    requires w.Valid() && w.s.pc == Closing(reason)
    modifies w
    ensures w.Valid() && w.s.pc.Done? && Reported(w.cfg, w.states, w.actions, reason)
  {
    var _ := Do(w, Closing(reason), Succeeds);
    RunReported(w.cfg, w.states, w.actions, reason);
  }

  /**
   The thread: run, catch a panic if there is one, and report. Whatever the others did, the frames
   delivered are a prefix of the units admitted. `None` if the loop is still going.
   */
  method Thread(w: Shared, turns: nat) returns (r: Option<Reason>)
    requires w.Valid() && w.s.pc == Setup(RestoreIdentity)
    modifies w
    ensures w.Valid() && Frames(w.s.trace) <= Admitted(w.s.submissions)
    ensures match r
            case None => w.s.pc == Live(LoadStop)
            case Some(x) => w.s.pc.Done? && Reported(w.cfg, w.states, w.actions, x)
  {
    var outcome := RunMoonlight(w, turns);
    r := match outcome case Unwound => Some(Panicked) case Returned(x) => x;
    if r.Some? { Report(w, r.value); }
    FramesAreAPrefix(w.cfg, w.states, w.actions, |w.states| - 1);
  }
}
