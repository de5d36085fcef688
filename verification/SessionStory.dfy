/**
 What a finished session tells, and why: the one step that decides how it ends, and its whole trace,
 event by event. Nothing here speaks of the worker's control flow; it is written out from outside.
 */
module SessionStory {
  import opened Wrappers
  import opened DecodeUnits
  import opened Session
  import opened SessionSafety

  // ---- the step that decides ----

  /** The reason a step settles the session on: a failure, a NUL, or what it found when it looked. */
  function Decides(cfg: Config, s: State, a: Action): Option<Reason> {
    match a
    case Work(o) =>
      if o == Fails then Some(Failed)
      else if s.pc == Starting(CheckNul) && cfg.hasNul then Some(Failed)
      else if (s.pc == Setup(CheckStop) || s.pc == Live(LoadStop)) && s.stop then Some(Ended)
      else if s.pc == Live(Receive) && s.queue == [] && !s.sink then Some(Ended)
      else if s.pc == Live(LoadTerminated) && s.terminated then Some(HostTerminated)
      else None
    case _ => None
  }

  /** How a running worker is bound to end, by where it is. */
  function Fate(s: State): Option<Reason> {
    match s.pc
    case Starting(DropSink) | Starting(CancelFailed) => Some(Failed)
    case Live(TermStop) | Live(TermClear) => Some(HostTerminated)
    case Live(EndStop) | Live(EndClear) | Live(EndCancel) => Some(Ended)
    case Closing(_) | Done => EndReason(s)
    case _ => None
  }

  /** Once decided, a session does nothing but clean up and close; these are the events of that. */
  function Tail(at: Pc, r: Reason): seq<Event> {
    match at
    case Setup(Pair) => [PairFinished(false), Closed(r)]
    case Setup(_) | Live(LoadTerminated) => [Closed(r)]
    case _ => [Cancel, Closed(r)]
  }

  function TailSoFar(at: Pc, r: Reason, now: Pc): seq<Event> {
    if now.Done? then Tail(at, r) else if now.Closing? then Tail(at, r)[..|Tail(at, r)| - 1] else []
  }

  /** Where a decided worker can be, by the place of the decision. */
  predicate CleansUp(at: Pc, now: Pc) {
    match now
    case Starting(_) => at == Starting(CheckNul) || at == Starting(LiStart)
    case Live(TermStop) | Live(TermClear) => at == Live(LoadTerminated)
    case Live(_) => at == Live(LoadStop) || at == Live(Receive)
    case _ => true
  }

  lemma DecidingSetup(cfg: Config, s: State, o: Outcome3)
    requires s.pc.Setup? && Possible(s.pc, o)
    ensures var d, s' := Decides(cfg, s, Work(o)), WorkStep(cfg, s, o);
            && Fate(s') == d
            && (d.Some? ==> s'.trace == s.trace + TailSoFar(s.pc, d.value, s'.pc) && CleansUp(s.pc, s'.pc))
  {
  }

  lemma DecidingStarting(cfg: Config, s: State, o: Outcome3)
    requires s.pc.Starting? && Possible(s.pc, o) && Fate(s) == None
    ensures var d, s' := Decides(cfg, s, Work(o)), WorkStep(cfg, s, o);
            && Fate(s') == d
            && (d.Some? ==> s'.trace == s.trace + TailSoFar(s.pc, d.value, s'.pc) && CleansUp(s.pc, s'.pc))
  {
  }

  lemma DecidingLive(cfg: Config, s: State, o: Outcome3)
    requires s.pc.Live? && Possible(s.pc, o) && Fate(s) == None
    ensures var d, s' := Decides(cfg, s, Work(o)), WorkStep(cfg, s, o);
            && Fate(s') == d
            && (d.Some? ==> s'.trace == s.trace + TailSoFar(s.pc, d.value, s'.pc) && CleansUp(s.pc, s'.pc))
  {
  }

  /** After the decision the worker takes the next of the tail's events, or none. */
  lemma CleaningPc(cfg: Config, s: State, o: Outcome3, at: Pc)
    requires Possible(s.pc, o) && CleansUp(at, s.pc)
    requires Fate(s).Some? && (s.pc.Closing? ==> Fate(s) == Some(s.pc.reason))
    ensures Decides(cfg, s, Work(o)) == None && CleansUp(at, NextPc(cfg, s, o))
    ensures var r := Fate(s).value;
            Push(TailSoFar(at, r, s.pc), Emitted(s.pc, o)) == TailSoFar(at, r, NextPc(cfg, s, o))
  {
  }

  lemma CleaningFate(cfg: Config, s: State, o: Outcome3)
    requires Possible(s.pc, o) && Fate(s).Some?
    ensures Fate(WorkStep(cfg, s, o)) == Fate(s)
  {
  }

  lemma PushBehind(t: seq<Event>, u: seq<Event>, e: Option<Event>)
    ensures Push(t + u, e) == t + Push(u, e)
  {
  }

  /** A step before the decision: it decides, or the session stays open. */
  lemma OpenStep(cfg: Config, s: State, a: Action)
    requires Enabled(s, a) && !Panics(a) && Fate(s) == None
    ensures var d, s' := Decides(cfg, s, a), Step(cfg, s, a);
            && Fate(s') == d
            && (d.Some? ==>
                  s'.trace == s.trace + TailSoFar(s.pc, d.value, s'.pc) && CleansUp(s.pc, s'.pc) && Running(s.pc))
  {
    if a.Work? {
      match s.pc {
        case Setup(_) => DecidingSetup(cfg, s, a.outcome);
        case Starting(_) => DecidingStarting(cfg, s, a.outcome);
        case Live(_) => DecidingLive(cfg, s, a.outcome);
      }
    } else {
      assert Step(cfg, s, a).trace == s.trace;
    }
  }

  /** A step after it, which was taken at `at` with this trace before it. */
  lemma DecidedStep(cfg: Config, s: State, a: Action, at: Pc, t: seq<Event>)
    requires Enabled(s, a) && !Panics(a) && Fate(s).Some? && CleansUp(at, s.pc)
    requires s.trace == t + TailSoFar(at, Fate(s).value, s.pc)
    ensures var s' := Step(cfg, s, a);
            && Decides(cfg, s, a) == None && Fate(s') == Fate(s) && CleansUp(at, s'.pc)
            && s'.trace == t + TailSoFar(at, Fate(s).value, s'.pc)
  {
    if a.Work? {
      CleaningPc(cfg, s, a.outcome, at);
      CleaningFate(cfg, s, a.outcome);
      PushBehind(t, TailSoFar(at, Fate(s).value, s.pc), Emitted(s.pc, a.outcome));
    } else {
      assert Step(cfg, s, a).trace == s.trace;
    }
  }

  /** The decision was taken at `k` and nowhere else, and what has happened since is its tail so far. */
  ghost predicate DecidedAt(cfg: Config, states: seq<State>, actions: seq<Action>, n: nat, k: nat)
    requires n < |states| && n <= |actions|
  {
    match Fate(states[n])
    case None => forall j :: 0 <= j < n ==> Decides(cfg, states[j], actions[j]) == None
    case Some(r) =>
      && k < n && Decides(cfg, states[k], actions[k]) == Some(r)
      && (forall j :: 0 <= j < n && j != k ==> Decides(cfg, states[j], actions[j]) == None)
      && CleansUp(states[k].pc, states[n].pc) && Running(states[k].pc)
      && states[n].trace == states[k].trace + TailSoFar(states[k].pc, r, states[n].pc)
  }

  lemma DecidedNow(cfg: Config, states: seq<State>, actions: seq<Action>, n: nat)
    requires IsRun(cfg, states, actions) && n < |actions| && !Panics(actions[n])
    requires Fate(states[n]) == None && DecidedAt(cfg, states, actions, n, n)
    ensures DecidedAt(cfg, states, actions, n + 1, n)
  {
    OpenStep(cfg, states[n], actions[n]);
  }

  lemma DecidedBefore(cfg: Config, states: seq<State>, actions: seq<Action>, n: nat, k: nat)
    requires IsRun(cfg, states, actions) && n < |actions| && !Panics(actions[n])
    requires Fate(states[n]).Some? && DecidedAt(cfg, states, actions, n, k)
    ensures DecidedAt(cfg, states, actions, n + 1, k)
  {
    DecidedStep(cfg, states[n], actions[n], states[k].pc, states[k].trace);
  }

  lemma DecidedNext(cfg: Config, states: seq<State>, actions: seq<Action>, n: nat, k: nat) returns (k': nat)
    requires IsRun(cfg, states, actions) && n < |actions| && !Panics(actions[n])
    requires DecidedAt(cfg, states, actions, n, k)
    ensures DecidedAt(cfg, states, actions, n + 1, k')
  {
    if Fate(states[n]) == None {
      k' := n;
      DecidedNow(cfg, states, actions, n);
    } else {
      k' := k;
      DecidedBefore(cfg, states, actions, n, k);
    }
  }

  lemma UndecidedAtFirst(cfg: Config, states: seq<State>, actions: seq<Action>)
    requires IsRun(cfg, states, actions)
    ensures DecidedAt(cfg, states, actions, 0, 0)
  {
  }

  lemma PanicsShow(cfg: Config, s: State, a: Action)
    requires Enabled(s, a)
    ensures Step(cfg, s, a).panicked <==> s.panicked || Panics(a)
  {
    match a
    case Work(o) => assert WorkStep(cfg, s, o).panicked == s.panicked;
    case _ =>
  }

  lemma CalmBefore(cfg: Config, states: seq<State>, actions: seq<Action>, n: nat)
    requires IsRun(cfg, states, actions) && n < |actions| && !states[n + 1].panicked
    ensures !states[n].panicked && !Panics(actions[n])
  {
    PanicsShow(cfg, states[n], actions[n]);
  }

  lemma {:induction false} RunDecided(cfg: Config, states: seq<State>, actions: seq<Action>, n: nat) returns (k: nat)
    requires IsRun(cfg, states, actions) && n < |states| && !states[n].panicked
    ensures DecidedAt(cfg, states, actions, n, k)
  {
    if n == 0 {
      k := 0;
      UndecidedAtFirst(cfg, states, actions);
    } else {
      CalmBefore(cfg, states, actions, n - 1);
      k := RunDecided(cfg, states, actions, n - 1);
      k := DecidedNext(cfg, states, actions, n - 1, k);
    }
  }

  // ---- what has been told so far ----

  /** Whether the identity was generated, and whether the host turned out not to know the client. */
  predicate Generates(s: State, a: Action) {
    s.pc == Setup(RestoreIdentity) && (a == Work(Otherwise) || a == PanicAfter(Otherwise))
  }

  predicate IsUnknown(s: State, a: Action) {
    s.pc == Setup(ServerInfo) && a == Work(Otherwise)
  }

  ghost predicate Generated(states: seq<State>, actions: seq<Action>, n: nat)
    requires n < |states| && n <= |actions|
  {
    exists k :: 0 <= k < n && Generates(states[k], actions[k])
  }

  ghost predicate Unknown(states: seq<State>, actions: seq<Action>, n: nat)
    requires n < |states| && n <= |actions|
  {
    exists k :: 0 <= k < n && IsUnknown(states[k], actions[k])
  }

  function Identity(generated: bool): seq<Event> { if generated then [IdentityLearned] else [] }

  /** The events of a pairing that succeeded. */
  function Pairing(unknown: bool): seq<Event> {
    if unknown then [ServiceMessage, PairPrompt, PairFinished(true), ServiceMessage] else []
  }

  /** Everything told by a worker that has come this far, the frames aside. */
  function Head(at: Pc, generated: bool, unknown: bool): seq<Event> {
    var id := Identity(generated);
    var settled := id + [ServiceMessage] + Pairing(unknown);
    match at
    case Setup(RestoreIdentity) => []
    case Setup(BuildRuntime) | Setup(SayConnecting) => id
    case Setup(ServerInfo) | Setup(SayPairing) => id + [ServiceMessage]
    case Setup(Prompt) => id + [ServiceMessage, ServiceMessage]
    case Setup(Pair) => id + [ServiceMessage, ServiceMessage, PairPrompt]
    case Setup(SayPaired) => id + [ServiceMessage, ServiceMessage, PairPrompt, PairFinished(true)]
    case Setup(CheckStop) | Setup(AppList) | Setup(SayLaunching) => settled
    case Setup(Launch) => settled + [ServiceMessage]
    case Starting(_) => settled + [ServiceMessage, Launched]
    case Live(SayConnected) => settled + [ServiceMessage, Launched, Ready]
    case Live(_) => settled + [ServiceMessage, Launched, Ready, ServiceMessage]
    case _ => []
  }

  function Delivered(us: seq<VideoUnit>): seq<Event> { seq(|us|, i requires 0 <= i < |us| => Event.Frame(us[i])) }

  /** Nothing is known of the identity and the host before the first look at them; the dialog means it is unknown. */
  predicate FlagsFit(at: Pc, generated: bool, unknown: bool) {
    match at
    case Setup(RestoreIdentity) => !generated && !unknown
    case Setup(BuildRuntime) | Setup(SayConnecting) | Setup(ServerInfo) => !unknown
    case Setup(SayPairing) | Setup(Prompt) | Setup(Pair) | Setup(SayPaired) => unknown
    case _ => true
  }

  predicate Streams(at: Pc) { at.Live? && !at.live.SayConnected? }

  predicate Told(at: Pc, t: seq<Event>, frames: seq<VideoUnit>, generated: bool, unknown: bool) {
    Running(at) ==>
      && FlagsFit(at, generated, unknown)
      && t == Head(at, generated, unknown) + Delivered(frames)
      && (!Streams(at) ==> frames == [])
  }

  lemma HeadSetup(at: SetupPc, stop: bool, o: Outcome3, generated: bool, unknown: bool)
    requires Possible(Setup(at), o) && FlagsFit(Setup(at), generated, unknown)
    requires Running(AfterSetup(at, stop, o))
    ensures var g, u := generated || (at.RestoreIdentity? && o.Otherwise?), unknown || (at.ServerInfo? && o.Otherwise?);
            var next := AfterSetup(at, stop, o);
            && FlagsFit(next, g, u) && !Streams(next)
            && Push(Head(Setup(at), generated, unknown), SetupEvent(at, o)) == Head(next, g, u)
  {
  }

  lemma HeadStarting(at: StartPc, hasNul: bool, o: Outcome3, generated: bool, unknown: bool)
    requires Possible(Starting(at), o) && Running(AfterStarting(at, hasNul, o))
    ensures var next := AfterStarting(at, hasNul, o);
            && FlagsFit(next, generated, unknown) && !Streams(next)
            && Push(Head(Starting(at), generated, unknown), StartEvent(at)) == Head(next, generated, unknown)
  {
  }

  lemma HeadLive(at: LivePc, stop: bool, terminated: bool, sink: bool, queue: seq<VideoUnit>,
                 frames: seq<VideoUnit>, generated: bool, unknown: bool)
    requires Running(AfterLive(at, stop, terminated, sink, queue))
    requires !at.Deliver? && (at.SayConnected? ==> frames == [])
    ensures var next := AfterLive(at, stop, terminated, sink, queue);
            && Streams(next)
            && Push(Head(Live(at), generated, unknown) + Delivered(frames), LiveEvent(at))
            == Head(next, generated, unknown) + Delivered(frames)
  {
  }

  lemma OneMoreDelivered(head: seq<Event>, frames: seq<VideoUnit>, u: VideoUnit)
    ensures head + Delivered(frames) + [Event.Frame(u)] == head + Delivered(frames + [u])
  {
  }

  lemma ToldSetup(at: SetupPc, stop: bool, o: Outcome3, t: seq<Event>, generated: bool, unknown: bool)
    requires Possible(Setup(at), o) && Told(Setup(at), t, [], generated, unknown)
    ensures Told(AfterSetup(at, stop, o), Push(t, SetupEvent(at, o)), [],
                 generated || (at.RestoreIdentity? && o.Otherwise?), unknown || (at.ServerInfo? && o.Otherwise?))
  {
    assert t == Head(Setup(at), generated, unknown);
    if Running(AfterSetup(at, stop, o)) { HeadSetup(at, stop, o, generated, unknown); }
  }

  lemma ToldStarting(at: StartPc, hasNul: bool, o: Outcome3, t: seq<Event>, generated: bool, unknown: bool)
    requires Possible(Starting(at), o) && Told(Starting(at), t, [], generated, unknown)
    ensures Told(AfterStarting(at, hasNul, o), Push(t, StartEvent(at)), [], generated, unknown)
  {
    assert t == Head(Starting(at), generated, unknown);
    if Running(AfterStarting(at, hasNul, o)) { HeadStarting(at, hasNul, o, generated, unknown); }
  }

  lemma ToldLive(at: LivePc, stop: bool, terminated: bool, sink: bool, queue: seq<VideoUnit>,
                 t: seq<Event>, frames: seq<VideoUnit>, generated: bool, unknown: bool)
    requires Told(Live(at), t, frames, generated, unknown)
    ensures Told(AfterLive(at, stop, terminated, sink, queue), Push(t, LiveEvent(at)), frames + InHand(Live(at)),
                 generated, unknown)
  {
    if at.Deliver? {
      OneMoreDelivered(Head(Live(at), generated, unknown), frames, at.unit);
    } else if Running(AfterLive(at, stop, terminated, sink, queue)) {
      HeadLive(at, stop, terminated, sink, queue, frames, generated, unknown);
    }
  }

  lemma ToldWork(cfg: Config, s: State, o: Outcome3, generated: bool, unknown: bool)
    requires Possible(s.pc, o) && Running(s.pc) && Told(s.pc, s.trace, Frames(s.trace), generated, unknown)
    ensures Told(NextPc(cfg, s, o), Push(s.trace, Emitted(s.pc, o)), Frames(Push(s.trace, Emitted(s.pc, o))),
                 generated || Generates(s, Work(o)), unknown || IsUnknown(s, Work(o)))
  {
    FramesPush(s.trace, s.pc, o);
    match s.pc
    case Setup(at) => ToldSetup(at, s.stop, o, s.trace, generated, unknown);
    case Starting(at) => ToldStarting(at, cfg.hasNul, o, s.trace, generated, unknown);
    case Live(at) => ToldLive(at, s.stop, s.terminated, s.sink, s.queue, s.trace, Frames(s.trace), generated, unknown);
  }

  lemma ToldWorkStep(cfg: Config, s: State, o: Outcome3, generated: bool, unknown: bool)
    requires Enabled(s, Work(o)) && Told(s.pc, s.trace, Frames(s.trace), generated, unknown)
    ensures var s' := WorkStep(cfg, s, o);
            Told(s'.pc, s'.trace, Frames(s'.trace),
                 generated || Generates(s, Work(o)), unknown || IsUnknown(s, Work(o)))
  {
    if Running(s.pc) {
      ToldWork(cfg, s, o, generated, unknown);
    } else {
      assert NextPc(cfg, s, o) == Done;
    }
  }

  lemma ToldStep(cfg: Config, s: State, a: Action, generated: bool, unknown: bool)
    requires Enabled(s, a) && Told(s.pc, s.trace, Frames(s.trace), generated, unknown)
    ensures var s' := Step(cfg, s, a);
            Told(s'.pc, s'.trace, Frames(s'.trace), generated || Generates(s, a), unknown || IsUnknown(s, a))
  {
    if a.Work? {
      ToldWorkStep(cfg, s, a.outcome, generated, unknown);
    } else if Panics(a) {
      assert Step(cfg, s, a).pc == Closing(Panicked);
    } else {
      ToldOther(cfg, s, a);
    }
  }

  lemma ToldOther(cfg: Config, s: State, a: Action)
    requires Enabled(s, a) && !Works(a)
    ensures Step(cfg, s, a).pc == s.pc && Step(cfg, s, a).trace == s.trace
  {
    match a
    case Send =>
    case SetFormat(_) | Terminate =>
    case Submit(_, _) | LoadFormat =>
    case _ =>
  }

  lemma GeneratedStep(states: seq<State>, actions: seq<Action>, n: nat)
    requires n + 1 < |states| && n < |actions|
    ensures Generated(states, actions, n + 1) <==> Generated(states, actions, n) || Generates(states[n], actions[n])
  {
    if Generated(states, actions, n) {
      var k :| 0 <= k < n && Generates(states[k], actions[k]);
      assert Generates(states[k], actions[k]);
    }
  }

  lemma UnknownStep(states: seq<State>, actions: seq<Action>, n: nat)
    requires n + 1 < |states| && n < |actions|
    ensures Unknown(states, actions, n + 1) <==> Unknown(states, actions, n) || IsUnknown(states[n], actions[n])
  {
    if Unknown(states, actions, n) {
      var k :| 0 <= k < n && IsUnknown(states[k], actions[k]);
      assert IsUnknown(states[k], actions[k]);
    }
  }

  /** What a running session has told, at every moment of every run. */
  lemma {:induction false} RunTold(cfg: Config, states: seq<State>, actions: seq<Action>, n: nat)
    requires IsRun(cfg, states, actions) && n < |states|
    ensures var s := states[n];
            Told(s.pc, s.trace, Frames(s.trace), Generated(states, actions, n), Unknown(states, actions, n))
  {
    if n == 0 {
    } else {
      RunTold(cfg, states, actions, n - 1);
      GeneratedStep(states, actions, n - 1);
      UnknownStep(states, actions, n - 1);
      ToldStep(cfg, states[n - 1], actions[n - 1],
               Generated(states, actions, n - 1), Unknown(states, actions, n - 1));
    }
  }

  // ---- the theorems ----

  /**
   A session that finished without a panic was decided by exactly one step. Its whole trace is what
   had been told when that step came, the frames delivered by then, and the events of cleaning up.
   */
  lemma FinishedStory(cfg: Config, states: seq<State>, actions: seq<Action>, n: nat) returns (k: nat)
    requires IsRun(cfg, states, actions) && n < |states| && states[n].pc.Done? && !states[n].panicked
    ensures k < n && Running(states[k].pc) && Decides(cfg, states[k], actions[k]).Some?
    ensures forall j :: 0 <= j < n && Decides(cfg, states[j], actions[j]).Some? ==> j == k
    ensures var at := states[k].pc;
            states[n].trace == Head(at, Generated(states, actions, k), Unknown(states, actions, k))
                             + Delivered(Frames(states[k].trace))
                             + Tail(at, Decides(cfg, states[k], actions[k]).value)
  {
    RunKeepsInv(cfg, states, actions, n);
    k := RunDecided(cfg, states, actions, n);
    RunTold(cfg, states, actions, k);
  }

  /** A step that failed, or the NUL check of a launched session with a NUL. */
  predicate StepFails(cfg: Config, s: State, a: Action) {
    a == Work(Fails) || (a.Work? && s.pc == Starting(CheckNul) && cfg.hasNul)
  }

  /** A look at the stop flag that found it set, or a wait on a channel with nothing in it and no sender. */
  predicate FindsEnd(s: State, a: Action) {
    a.Work? && if s.pc == Live(Receive) then s.queue == [] && !s.sink
               else (s.pc == Setup(CheckStop) || s.pc == Live(LoadStop)) && s.stop
  }

  predicate FindsTermination(s: State, a: Action) {
    a.Work? && s.pc == Live(LoadTerminated) && s.terminated
  }

  ghost predicate SomeFails(cfg: Config, states: seq<State>, actions: seq<Action>, n: nat)
    requires n < |states| && n <= |actions|
  {
    exists k :: 0 <= k < n && StepFails(cfg, states[k], actions[k])
  }

  ghost predicate SomeFindsEnd(states: seq<State>, actions: seq<Action>, n: nat)
    requires n < |states| && n <= |actions|
  {
    exists k :: 0 <= k < n && FindsEnd(states[k], actions[k])
  }

  ghost predicate SomeFindsTermination(states: seq<State>, actions: seq<Action>, n: nat)
    requires n < |states| && n <= |actions|
  {
    exists k :: 0 <= k < n && FindsTermination(states[k], actions[k])
  }

  ghost predicate SomePanics(actions: seq<Action>, n: nat)
    requires n <= |actions|
  {
    exists k :: 0 <= k < n && Panics(actions[k])
  }

  lemma {:induction false} PanickedIff(cfg: Config, states: seq<State>, actions: seq<Action>, n: nat)
    requires IsRun(cfg, states, actions) && n < |states|
    ensures states[n].panicked <==> SomePanics(actions, n)
  {
    if n == 0 {
    } else {
      PanickedIff(cfg, states, actions, n - 1);
      PanicsShow(cfg, states[n - 1], actions[n - 1]);
      if SomePanics(actions, n - 1) {
        var k :| 0 <= k < n - 1 && Panics(actions[k]);
        assert Panics(actions[k]);
      }
    }
  }

  lemma DecidesByKind(cfg: Config, s: State, a: Action)
    requires Enabled(s, a)
    ensures Decides(cfg, s, a) == Some(Failed) <==> StepFails(cfg, s, a)
    ensures Decides(cfg, s, a) == Some(Ended) <==> FindsEnd(s, a)
    ensures Decides(cfg, s, a) == Some(HostTerminated) <==> FindsTermination(s, a)
  {
  }

  /**
   The reason reported, exactly: a panic if and only if some step panicked; otherwise a failure if and
   only if some step failed or a NUL was found, a clean end if and only if the stop flag was found set
   or the channel closed, and the host's termination if and only if its flag was found set.
   */
  lemma ReasonIff(cfg: Config, states: seq<State>, actions: seq<Action>, n: nat)
    requires IsRun(cfg, states, actions) && n < |states| && states[n].pc.Done?
    ensures var t := states[n].trace;
            && t != []
            && (t[|t| - 1] == Closed(Panicked) <==> SomePanics(actions, n))
            && (!SomePanics(actions, n) ==>
                  && (t[|t| - 1] == Closed(Failed) <==> SomeFails(cfg, states, actions, n))
                  && (t[|t| - 1] == Closed(Ended) <==> SomeFindsEnd(states, actions, n))
                  && (t[|t| - 1] == Closed(HostTerminated) <==> SomeFindsTermination(states, actions, n)))
  {
    PanickedIff(cfg, states, actions, n);
    RunKeepsInv(cfg, states, actions, n);
    if !states[n].panicked {
      var k := RunDecided(cfg, states, actions, n);
      forall j | 0 <= j < n
        ensures Decides(cfg, states[j], actions[j]) == Some(Failed) <==> StepFails(cfg, states[j], actions[j])
        ensures Decides(cfg, states[j], actions[j]) == Some(Ended) <==> FindsEnd(states[j], actions[j])
        ensures Decides(cfg, states[j], actions[j]) == Some(HostTerminated) <==> FindsTermination(states[j], actions[j])
      {
        DecidesByKind(cfg, states[j], actions[j]);
      }
    }
  }

  // ---- the order of the steps ----

  /** The step that leads to each place, with what it came out as or what it found. */
  predicate LeadsTo(cfg: Config, s: State, o: Outcome3, next: Pc) {
    match next
    case Setup(RestoreIdentity) => false
    case Setup(BuildRuntime) => s.pc == Setup(RestoreIdentity) && o != Fails
    case Setup(SayConnecting) => s.pc == Setup(BuildRuntime) && o == Succeeds
    case Setup(ServerInfo) => s.pc == Setup(SayConnecting)
    case Setup(SayPairing) => s.pc == Setup(ServerInfo) && o == Otherwise
    case Setup(Prompt) => s.pc == Setup(SayPairing)
    case Setup(Pair) => s.pc == Setup(Prompt)
    case Setup(SayPaired) => s.pc == Setup(Pair) && o == Succeeds
    case Setup(CheckStop) => (s.pc == Setup(ServerInfo) && o == Succeeds) || s.pc == Setup(SayPaired)
    case Setup(AppList) => s.pc == Setup(CheckStop) && !s.stop
    case Setup(SayLaunching) => s.pc == Setup(AppList) && o == Succeeds
    case Setup(Launch) => s.pc == Setup(SayLaunching)
    case Starting(InstallSink) => s.pc == Setup(Launch) && o == Succeeds
    case Starting(ResetTerminated) => s.pc == Starting(InstallSink)
    case Starting(CheckNul) => s.pc == Starting(ResetTerminated)
    case Starting(LiStart) => s.pc == Starting(CheckNul) && !cfg.hasNul
    case Starting(DropSink) => s.pc == Starting(LiStart) && o == Fails
    case Starting(CancelFailed) => s.pc == Starting(DropSink) || (s.pc == Starting(CheckNul) && cfg.hasNul)
    case Starting(OnReady) => s.pc == Starting(LiStart) && o == Succeeds
    case Live(SayConnected) => s.pc == Starting(OnReady)
    case Live(LoadStop) =>
      || s.pc == Live(SayConnected)
      || (s.pc.Live? && s.pc.live.Deliver?)
      || (s.pc == Live(Receive) && s.queue == [] && s.sink)
    case Live(LoadTerminated) => s.pc == Live(LoadStop) && !s.stop
    case Live(Receive) => s.pc == Live(LoadTerminated) && !s.terminated
    case Live(Deliver(u)) => s.pc == Live(Receive) && s.queue != [] && u == s.queue[0]
    case Live(TermStop) => s.pc == Live(LoadTerminated) && s.terminated
    case Live(TermClear) => s.pc == Live(TermStop)
    case Live(EndStop) =>
      (s.pc == Live(LoadStop) && s.stop) || (s.pc == Live(Receive) && s.queue == [] && !s.sink)
    case Live(EndClear) => s.pc == Live(EndStop)
    case Live(EndCancel) => s.pc == Live(EndClear)
    case Closing(_) => true
    case Done => s.pc.Closing?
  }

  lemma LeadsToSetup(cfg: Config, s: State, o: Outcome3)
    requires s.pc.Setup? && Possible(s.pc, o)
    ensures LeadsTo(cfg, s, o, NextPc(cfg, s, o))
  {
  }

  lemma LeadsToStarting(cfg: Config, s: State, o: Outcome3)
    requires s.pc.Starting? && Possible(s.pc, o)
    ensures LeadsTo(cfg, s, o, NextPc(cfg, s, o))
  {
  }

  lemma LeadsToLive(cfg: Config, s: State, o: Outcome3)
    requires s.pc.Live? && Possible(s.pc, o)
    ensures LeadsTo(cfg, s, o, NextPc(cfg, s, o))
  {
  }

  /** The worker's last step before place n, of one that is past its first and has not panicked. */
  ghost predicate CameBy(cfg: Config, states: seq<State>, actions: seq<Action>, n: nat, k: nat)
    requires n < |states| && n <= |actions|
  {
    && k < n && actions[k].Work? && LeadsTo(cfg, states[k], actions[k].outcome, states[n].pc)
    && forall j :: k < j < n ==> !Works(actions[j])
  }

  /**
   The worker's steps come in the order of the program: whatever it is about to do, its step before was
   the one that leads there, and had found or come out as what leads there. So the stop flag is looked
   at before the app list and first in every turn of the loop, and the termination flag next.
   */
  lemma {:induction false} StepsInOrder(cfg: Config, states: seq<State>, actions: seq<Action>, n: nat) returns (k: nat)
    requires IsRun(cfg, states, actions) && n < |states| && !states[n].panicked
    requires states[n].pc != Setup(RestoreIdentity)
    ensures CameBy(cfg, states, actions, n, k)
  {
    var s, a := states[n - 1], actions[n - 1];
    CalmBefore(cfg, states, actions, n - 1);
    if a.Work? {
      k := n - 1;
      match s.pc {
        case Setup(_) => LeadsToSetup(cfg, s, a.outcome);
        case Starting(_) => LeadsToStarting(cfg, s, a.outcome);
        case Live(_) => LeadsToLive(cfg, s, a.outcome);
        case Closing(_) =>
      }
    } else {
      ToldOther(cfg, s, a);
      k := StepsInOrder(cfg, states, actions, n - 1);
    }
  }

  // ---- the identity ----

  /** The identity, if it has been learned, is the first event, and there is no other such event. */
  predicate IdentityFirst(at: Pc, t: seq<Event>, generated: bool) {
    && (generated <==> t != [] && t[0] == IdentityLearned)
    && (forall i :: 0 < i < |t| ==> t[i] != IdentityLearned)
    && (at == Setup(RestoreIdentity) ==> t == [])
  }

  lemma IdentityPush(cfg: Config, s: State, o: Outcome3, generated: bool)
    requires Possible(s.pc, o) && IdentityFirst(s.pc, s.trace, generated)
    ensures var g := generated || (s.pc == Setup(RestoreIdentity) && o == Otherwise);
            IdentityFirst(NextPc(cfg, s, o), Push(s.trace, Emitted(s.pc, o)), g)
  {
    if s.pc.Setup? {
      assert Emitted(s.pc, o) == SetupEvent(s.pc.setup, o);
    } else {
      assert Emitted(s.pc, o) != Some(IdentityLearned);
    }
  }

  lemma IdentityStep(cfg: Config, s: State, a: Action, generated: bool)
    requires Enabled(s, a) && IdentityFirst(s.pc, s.trace, generated)
    ensures var s' := Step(cfg, s, a); IdentityFirst(s'.pc, s'.trace, generated || Generates(s, a))
  {
    if a.Work? || a.PanicAfter? {
      IdentityPush(cfg, s, a.outcome, generated);
    } else {
      assert Step(cfg, s, a).trace == s.trace;
    }
  }

  /** A generated identity, and no other, is told first and once, before anything can fail, in every run. */
  lemma {:induction false} IdentityIffGenerated(cfg: Config, states: seq<State>, actions: seq<Action>, n: nat)
    requires IsRun(cfg, states, actions) && n < |states|
    ensures IdentityFirst(states[n].pc, states[n].trace, Generated(states, actions, n))
  {
    if n == 0 {
    } else {
      IdentityIffGenerated(cfg, states, actions, n - 1);
      GeneratedStep(states, actions, n - 1);
      IdentityStep(cfg, states[n - 1], actions[n - 1], Generated(states, actions, n - 1));
    }
  }
}
