/** What every run of a session keeps, over every interleaving of its actors. */
module SessionSafety {
  import opened Wrappers
  import opened DecodeUnits
  import opened Session

  // ---- reading a trace ----

  /** How often each of four events has happened. */
  datatype Tally = Tally(launched: nat, cancels: nat, ready: nat, closed: nat)

  function Bump(n: Tally, e: Option<Event>): Tally {
    match e
    case Some(Launched) => n.(launched := n.launched + 1)
    case Some(Cancel) => n.(cancels := n.cancels + 1)
    case Some(Ready) => n.(ready := n.ready + 1)
    case Some(Closed(_)) => n.(closed := n.closed + 1)
    case _ => n
  }

  function TallyOf(t: seq<Event>): Tally {
    if t == [] then Tally(0, 0, 0, 0) else Bump(TallyOf(t[..|t| - 1]), Some(t[|t| - 1]))
  }

  /** The units handed to the frame sink, in order. */
  function Frames(t: seq<Event>): seq<VideoUnit> {
    if t == [] then []
    else Frames(t[..|t| - 1]) + match t[|t| - 1] case Frame(u) => [u] case _ => []
  }

  /** The units submitted while the sink was installed, in the order they reached its lock. */
  function Admitted(subs: seq<Submission>): seq<VideoUnit> {
    if subs == [] then []
    else Admitted(subs[..|subs| - 1]) + if subs[|subs| - 1].installed then [subs[|subs| - 1].unit] else []
  }

  lemma TallyPush(t: seq<Event>, e: Option<Event>)
    ensures TallyOf(Push(t, e)) == Bump(TallyOf(t), e)
  {
    if e.Some? { assert (t + [e.value])[..|t|] == t; }
  }

  lemma FramesAppend(t: seq<Event>, e: Event)
    ensures Frames(t + [e]) == Frames(t) + match e case Frame(u) => [u] case _ => []
  {
    assert (t + [e])[..|t|] == t;
  }

  lemma AdmittedAppend(subs: seq<Submission>, x: Submission)
    ensures Admitted(subs + [x]) == Admitted(subs) + if x.installed then [x.unit] else []
  {
    assert (subs + [x])[..|subs|] == subs;
  }

  /** How the worker left, once it has. */
  function EndReason(s: State): Option<Reason> {
    match s.pc
    case Closing(r) => Some(r)
    case Done => if s.trace != [] && s.trace[|s.trace| - 1].Closed? then Some(s.trace[|s.trace| - 1].reason) else None
    case _ => None
  }

  // ---- requests to the host and callbacks, counted ----

  /** What the tally must be, by where the worker is and how it left. */
  predicate TallyFits(pc: Pc, panicked: bool, left: Option<Reason>, n: Tally) {
    match pc
    case Setup(_) => !panicked && n == Tally(0, 0, 0, 0)
    case Starting(_) => !panicked && n == Tally(1, 0, 0, 0)
    case Live(_) => !panicked && n == Tally(1, 0, 1, 0)
    case _ =>
      && n.closed == (if pc.Done? then 1 else 0)
      && n.launched <= 1 && n.ready <= n.launched && n.cancels <= n.launched
      && left.Some? && (left.value.Panicked? <==> panicked)
      && n.cancels <= n.launched
      && (!panicked ==> n.cancels == if left.value.HostTerminated? then 0 else n.launched)
  }

  ghost predicate Counts(s: State) {
    && TallyFits(s.pc, s.panicked, EndReason(s), TallyOf(s.trace))
    && (s.pc.Done? ==> s.trace != [] && s.trace[|s.trace| - 1].Closed?)
  }

  function Leaving(pc: Pc, left: Option<Reason>): Option<Reason> { if pc.Closing? then Some(pc.reason) else left }

  lemma BumpSetup(at: SetupPc, stop: bool, o: Outcome3, left: Option<Reason>, n: Tally)
    requires Possible(Setup(at), o) && TallyFits(Setup(at), false, left, n)
    ensures var pc' := AfterSetup(at, stop, o);
            TallyFits(pc', false, Leaving(pc', left), Bump(n, SetupEvent(at, o)))
  {
  }

  lemma BumpStarting(at: StartPc, hasNul: bool, o: Outcome3, left: Option<Reason>, n: Tally)
    requires Possible(Starting(at), o) && TallyFits(Starting(at), false, left, n)
    ensures var pc' := AfterStarting(at, hasNul, o);
            TallyFits(pc', false, Leaving(pc', left), Bump(n, StartEvent(at)))
  {
  }

  lemma BumpLive(at: LivePc, stop: bool, terminated: bool, sink: bool, queue: seq<VideoUnit>,
                 left: Option<Reason>, n: Tally)
    requires TallyFits(Live(at), false, left, n)
    ensures var pc' := AfterLive(at, stop, terminated, sink, queue);
            TallyFits(pc', false, Leaving(pc', left), Bump(n, LiveEvent(at)))
  {
  }

  lemma BumpFits(cfg: Config, s: State, o: Outcome3, left: Option<Reason>, n: Tally)
    requires Possible(s.pc, o) && TallyFits(s.pc, s.panicked, left, n)
    requires s.pc.Closing? ==> left == Some(s.pc.reason)
    ensures var pc' := NextPc(cfg, s, o);
            TallyFits(pc', s.panicked, Leaving(pc', left), Bump(n, Emitted(s.pc, o)))
  {
    match s.pc
    case Setup(at) => BumpSetup(at, s.stop, o, left, n);
    case Starting(at) => BumpStarting(at, cfg.hasNul, o, left, n);
    case Live(at) => BumpLive(at, s.stop, s.terminated, s.sink, s.queue, left, n);
    case Closing(_) =>
  }

  /** A panic right after a step's effect: the step's event has been counted, and no more. */
  lemma BumpCrash(pc: Pc, o: Outcome3, left: Option<Reason>, n: Tally)
    requires Possible(pc, o) && Running(pc) && TallyFits(pc, false, left, n)
    ensures TallyFits(Closing(Panicked), true, Some(Panicked), Bump(n, Emitted(pc, o)))
  {
  }

  lemma EndReasonWork(cfg: Config, s: State, o: Outcome3)
    requires Possible(s.pc, o)
    ensures var s' := WorkStep(cfg, s, o);
            && EndReason(s') == Leaving(s'.pc, EndReason(s))
            && (s'.pc.Done? ==> s'.trace != [] && s'.trace[|s'.trace| - 1].Closed?)
  {
  }

  lemma CountsStep(cfg: Config, s: State, a: Action)
    requires Counts(s) && Enabled(s, a)
    ensures Counts(Step(cfg, s, a))
  {
    if a.Work? {
      TallyPush(s.trace, Emitted(s.pc, a.outcome));
      BumpFits(cfg, s, a.outcome, EndReason(s), TallyOf(s.trace));
      EndReasonWork(cfg, s, a.outcome);
    } else if a.PanicAfter? {
      TallyPush(s.trace, Emitted(s.pc, a.outcome));
      BumpCrash(s.pc, a.outcome, EndReason(s), TallyOf(s.trace));
    } else {
      assert Step(cfg, s, a).trace == s.trace;
    }
  }

  // ---- order ----

  /** A frame only after ready; ready and cancel only after a launch. */
  ghost predicate Ordered(t: seq<Event>) {
    forall i :: 0 <= i < |t| ==> InOrder(t[..i], t[i])
  }

  predicate InOrder(before: seq<Event>, e: Event) {
    && (e.Frame? ==> TallyOf(before).ready >= 1)
    && (e.Ready? || e.Cancel? ==> TallyOf(before).launched >= 1)
    && TallyOf(before).closed == 0
  }

  lemma OrderedPush(t: seq<Event>, e: Event)
    requires Ordered(t) && InOrder(t, e)
    ensures Ordered(t + [e])
  {
    var t' := t + [e];
    forall i | 0 <= i < |t'|
      ensures InOrder(t'[..i], t'[i])
    {
      if i < |t| { assert t'[..i] == t[..i]; } else { assert t'[..i] == t; }
    }
  }

  lemma OrderStep(cfg: Config, s: State, a: Action)
    requires Counts(s) && Ordered(s.trace) && Enabled(s, a)
    ensures Ordered(Step(cfg, s, a).trace)
  {
    if a.Work? || a.PanicAfter? {
      var e := Emitted(s.pc, a.outcome);
      if e.Some? { OrderedPush(s.trace, e.value); }
    } else {
      assert Step(cfg, s, a).trace == s.trace;
    }
  }

  function LastOf(t: seq<Event>): Option<Event> { if t == [] then None else Some(t[|t| - 1]) }

  /** What may come right after an event, as far as pairing goes. */
  predicate MayFollow(last: Option<Event>, e: Event) {
    && (e.PairFinished? ==> last == Some(PairPrompt))
    && (last == Some(PairPrompt) ==> e.PairFinished? || e == Closed(Panicked))
    && (last == Some(PairFinished(false)) ==> e.Closed?)
  }

  /** Prompts and their ends stand side by side, and a refusal is followed by nothing but the end. */
  ghost predicate Paired(t: seq<Event>) {
    forall i :: 0 <= i < |t| ==> MayFollow(LastOf(t[..i]), t[i])
  }

  /** A prompt is left open only by the call in flight, or by a panic in it; a refusal ends the session. */
  predicate PromptFits(pc: Pc, last: Option<Event>) {
    && (pc == Setup(Pair) ==> last == Some(PairPrompt))
    && (last == Some(PairPrompt) ==> pc == Setup(Pair) || pc == Closing(Panicked))
    && (last == Some(PairFinished(false)) ==> pc == Closing(Failed) || pc == Closing(Panicked))
  }

  ghost predicate Prompts(s: State) { Paired(s.trace) && PromptFits(s.pc, LastOf(s.trace)) }

  predicate PromptMoves(last: Option<Event>, e: Option<Event>, next: Pc) {
    match e
    case None => PromptFits(next, last)
    case Some(x) => MayFollow(last, x) && PromptFits(next, e)
  }

  lemma PairedPush(t: seq<Event>, e: Event)
    requires Paired(t) && MayFollow(LastOf(t), e)
    ensures Paired(t + [e])
  {
    var t' := t + [e];
    forall i | 0 <= i < |t'|
      ensures MayFollow(LastOf(t'[..i]), t'[i])
    {
      if i < |t| { assert t'[..i] == t[..i]; } else { assert t'[..i] == t; }
    }
  }

  lemma PromptSetup(at: SetupPc, stop: bool, o: Outcome3, last: Option<Event>)
    requires Possible(Setup(at), o) && PromptFits(Setup(at), last)
    ensures PromptMoves(last, SetupEvent(at, o), AfterSetup(at, stop, o))
  {
  }

  lemma PromptWork(cfg: Config, s: State, o: Outcome3, last: Option<Event>)
    requires Possible(s.pc, o) && PromptFits(s.pc, last)
    ensures PromptMoves(last, Emitted(s.pc, o), NextPc(cfg, s, o))
  {
    if s.pc.Setup? { PromptSetup(s.pc.setup, s.stop, o, last); }
  }

  lemma PromptsStep(cfg: Config, s: State, a: Action)
    requires Prompts(s) && Enabled(s, a)
    ensures Prompts(Step(cfg, s, a))
  {
    if a.Work? || a.PanicAfter? {
      var e := Emitted(s.pc, a.outcome);
      PromptWork(cfg, s, a.outcome, LastOf(s.trace));
      if e.Some? { PairedPush(s.trace, e.value); }
    } else {
      assert Step(cfg, s, a).trace == s.trace;
    }
  }

  // ---- the global sink ----

  /** What the sink must be, by where the worker is. */
  predicate SinkFits(hasNul: bool, pc: Pc, panicked: bool, sink: bool, idle: bool, cleared: bool, launched: bool) {
    match pc
    case Setup(_) => !sink && idle
    case Starting(at) =>
      (match at
       case InstallSink => !sink && idle
       case ResetTerminated | CheckNul => sink <==> !cleared
       case CancelFailed => sink <==> hasNul && !cleared
       case _ => !hasNul && (sink <==> !cleared))
    case Live(at) => !hasNul && if at.EndCancel? then !sink else sink <==> !cleared
    case _ => !panicked ==> (sink <==> hasNul && launched && !cleared)
  }

  ghost predicate Sink(cfg: Config, s: State) {
    SinkFits(cfg.hasNul, s.pc, s.panicked, s.sink, s.queue == [], s.clearedSinceInstall, TallyOf(s.trace).launched == 1)
  }

  /** The next place fits the sink as the step leaves it. */
  predicate SinkMoves(hasNul: bool, pc: Pc, next: Pc, sink: bool, idle: bool, cleared: bool) {
    SinkFits(hasNul, next, false, SinkAfter(pc, sink), idle, cleared && pc != Starting(InstallSink),
             pc.Starting? || pc.Live? || next.Starting?)
  }

  lemma SinkSetup(hasNul: bool, at: SetupPc, stop: bool, o: Outcome3, cleared: bool)
    requires Possible(Setup(at), o)
    ensures SinkMoves(hasNul, Setup(at), AfterSetup(at, stop, o), false, true, cleared)
  {
  }

  lemma SinkStarting(hasNul: bool, at: StartPc, o: Outcome3, sink: bool, idle: bool, cleared: bool)
    requires Possible(Starting(at), o) && SinkFits(hasNul, Starting(at), false, sink, idle, cleared, true)
    ensures SinkMoves(hasNul, Starting(at), AfterStarting(at, hasNul, o), sink, idle, cleared)
  {
  }

  lemma SinkLive(hasNul: bool, at: LivePc, stop: bool, terminated: bool, sink: bool,
                 queue: seq<VideoUnit>, idle: bool, cleared: bool)
    requires SinkFits(hasNul, Live(at), false, sink, idle, cleared, true)
    ensures SinkMoves(hasNul, Live(at), AfterLive(at, stop, terminated, sink, queue), sink, idle, cleared)
  {
  }

  lemma SinkWork(cfg: Config, s: State, o: Outcome3)
    requires Possible(s.pc, o) && Running(s.pc)
    requires SinkFits(cfg.hasNul, s.pc, false, s.sink, s.queue == [], s.clearedSinceInstall, !s.pc.Setup?)
    ensures var idle := QueueAfter(s.pc, s.queue) == [];
            SinkMoves(cfg.hasNul, s.pc, NextPc(cfg, s, o), s.sink, idle, s.clearedSinceInstall)
  {
    var idle := QueueAfter(s.pc, s.queue) == [];
    match s.pc
    case Setup(at) => SinkSetup(cfg.hasNul, at, s.stop, o, s.clearedSinceInstall);
    case Starting(at) => SinkStarting(cfg.hasNul, at, o, s.sink, s.queue == [], s.clearedSinceInstall);
    case Live(at) =>
      SinkLive(cfg.hasNul, at, s.stop, s.terminated, s.sink, s.queue, idle, s.clearedSinceInstall);
  }

  /** Launched or not, at the end of a worker step. */
  lemma LaunchedAfter(cfg: Config, s: State, o: Outcome3, n: Tally)
    requires Possible(s.pc, o) && Running(s.pc) && n.launched == if s.pc.Setup? then 0 else 1
    ensures Bump(n, Emitted(s.pc, o)).launched
         == if s.pc.Starting? || s.pc.Live? || NextPc(cfg, s, o).Starting? then 1 else 0
  {
  }

  lemma SinkWorkStep(cfg: Config, s: State, o: Outcome3)
    requires Counts(s) && Sink(cfg, s) && Possible(s.pc, o)
    ensures Sink(cfg, WorkStep(cfg, s, o))
  {
    TallyPush(s.trace, Emitted(s.pc, o));
    if Running(s.pc) {
      LaunchedAfter(cfg, s, o, TallyOf(s.trace));
      SinkWork(cfg, s, o);
    }
  }

  lemma SinkStep(cfg: Config, s: State, a: Action)
    requires Counts(s) && Sink(cfg, s) && Enabled(s, a)
    ensures Sink(cfg, Step(cfg, s, a))
  {
    if a.Work? {
      SinkWorkStep(cfg, s, a.outcome);
    } else if !Panics(a) {
      assert Step(cfg, s, a).trace == s.trace;
    }
  }

  // ---- frames ----

  function InHand(pc: Pc): seq<VideoUnit> {
    if pc.Live? && pc.live.Deliver? then [pc.live.unit] else []
  }

  lemma FramesPush(t: seq<Event>, pc: Pc, o: Outcome3)
    requires Possible(pc, o)
    ensures Frames(Push(t, Emitted(pc, o))) == Frames(t) + InHand(pc)
  {
    var e := Emitted(pc, o);
    if e.Some? { FramesAppend(t, e.value); }
  }

  /** The units still owed to the frame sink: one in hand, then the queue. */
  function Owed(pc: Pc, queue: seq<VideoUnit>): seq<VideoUnit> { InHand(pc) + queue }

  predicate FifoFits(pc: Pc, admitted: seq<VideoUnit>, frames: seq<VideoUnit>, queue: seq<VideoUnit>) {
    match pc
    case Setup(_) => admitted == [] && frames == []
    case Starting(_) | Live(_) => admitted == frames + Owed(pc, queue)
    case _ => frames <= admitted
  }

  ghost predicate Fifo(s: State) { FifoFits(s.pc, Admitted(s.submissions), Frames(s.trace), s.queue) }

  /** Taking the head of the queue in hand, or handing it over, keeps the whole in order. */
  lemma FifoLive(at: LivePc, stop: bool, terminated: bool, sink: bool, queue: seq<VideoUnit>,
                 admitted: seq<VideoUnit>, frames: seq<VideoUnit>)
    requires FifoFits(Live(at), admitted, frames, queue)
    ensures FifoFits(AfterLive(at, stop, terminated, sink, queue), admitted, frames + InHand(Live(at)),
                     QueueAfter(Live(at), queue))
  {
    if at.Receive? && queue != [] {
      assert queue == [queue[0]] + queue[1..];
    }
  }

  lemma FifoSetup(at: SetupPc, stop: bool, o: Outcome3, queue: seq<VideoUnit>)
    requires Possible(Setup(at), o) && queue == []
    ensures FifoFits(AfterSetup(at, stop, o), [], [], queue)
  {
  }

  lemma FifoStarting(at: StartPc, hasNul: bool, o: Outcome3,
                     admitted: seq<VideoUnit>, frames: seq<VideoUnit>, queue: seq<VideoUnit>)
    requires Possible(Starting(at), o) && FifoFits(Starting(at), admitted, frames, queue)
    ensures FifoFits(AfterStarting(at, hasNul, o), admitted, frames, queue)
  {
  }

  lemma FifoMoves(cfg: Config, s: State, o: Outcome3, admitted: seq<VideoUnit>, frames: seq<VideoUnit>)
    requires FifoFits(s.pc, admitted, frames, s.queue) && Possible(s.pc, o) && (s.pc.Setup? ==> s.queue == [])
    ensures FifoFits(NextPc(cfg, s, o), admitted, frames + InHand(s.pc), QueueAfter(s.pc, s.queue))
  {
    match s.pc
    case Setup(at) => FifoSetup(at, s.stop, o, s.queue);
    case Starting(at) => FifoStarting(at, cfg.hasNul, o, admitted, frames, s.queue);
    case Live(at) => FifoLive(at, s.stop, s.terminated, s.sink, s.queue, admitted, frames);
    case Closing(_) =>
  }

  lemma FifoWork(cfg: Config, s: State, o: Outcome3)
    requires Sink(cfg, s) && Fifo(s) && Possible(s.pc, o)
    ensures Fifo(WorkStep(cfg, s, o))
  {
    FramesPush(s.trace, s.pc, o);
    FifoMoves(cfg, s, o, Admitted(s.submissions), Frames(s.trace));
  }

  lemma FifoSend(cfg: Config, s: State)
    requires Sink(cfg, s) && Fifo(s) && Enabled(s, Send)
    ensures Fifo(Step(cfg, s, Send))
  {
    AdmittedAppend(s.submissions, Submission(s.core.unit, s.sink));
  }

  /** Leaving `run_moonlight` by a panic drops the queue, and what is in hand unless it has been handed over. */
  lemma FifoPanic(cfg: Config, s: State)
    requires Fifo(s) && Enabled(s, Action.Panic)
    ensures Fifo(Step(cfg, s, Action.Panic))
  {
  }

  lemma FifoCrash(pc: Pc, admitted: seq<VideoUnit>, frames: seq<VideoUnit>, queue: seq<VideoUnit>)
    requires Running(pc) && FifoFits(pc, admitted, frames, queue)
    ensures frames + InHand(pc) <= admitted
  {
  }

  lemma FifoPanicAfter(cfg: Config, s: State, o: Outcome3)
    requires Fifo(s) && Enabled(s, PanicAfter(o))
    ensures Fifo(Step(cfg, s, PanicAfter(o)))
  {
    FramesPush(s.trace, s.pc, o);
    FifoCrash(s.pc, Admitted(s.submissions), Frames(s.trace), s.queue);
  }

  lemma FifoOther(cfg: Config, s: State, a: Action)
    requires Fifo(s) && Enabled(s, a) && !Works(a) && !a.Send?
    ensures Fifo(Step(cfg, s, a))
  {
    var s' := Step(cfg, s, a);
    assert s'.pc == s.pc && s'.trace == s.trace && s'.submissions == s.submissions && s'.queue == s.queue;
  }

  lemma FifoStep(cfg: Config, s: State, a: Action)
    requires Sink(cfg, s) && Fifo(s) && Enabled(s, a)
    ensures Fifo(Step(cfg, s, a))
  {
    match a
    case Work(o) => FifoWork(cfg, s, o);
    case Send => FifoSend(cfg, s);
    case Panic => FifoPanic(cfg, s);
    case PanicAfter(o) => FifoPanicAfter(cfg, s, o);
    case _ => FifoOther(cfg, s, a);
  }

  // ---- who ends a session ----

  ghost predicate CleanEnds(s: State) {
    && (s.stop || !s.closer.NotClosing? || s.clearedSinceInstall ==> s.closeCalled)
    && (s.pc.Live? && (s.pc.live.EndStop? || s.pc.live.EndClear? || s.pc.live.EndCancel?) ==> s.closeCalled)
    && (EndReason(s) == Some(Ended) ==> s.closeCalled)
  }

  lemma CleanEndsStep(cfg: Config, s: State, a: Action)
    requires Counts(s) && Sink(cfg, s) && CleanEnds(s) && Enabled(s, a)
    ensures CleanEnds(Step(cfg, s, a))
  {
    if a.Work? { EndReasonWork(cfg, s, a.outcome); }
  }

  // ---- every reachable state ----

  ghost predicate Inv(cfg: Config, s: State) {
    Counts(s) && Ordered(s.trace) && Prompts(s) && Sink(cfg, s) && Fifo(s) && CleanEnds(s)
  }

  lemma {:induction false} RunKeepsInv(cfg: Config, states: seq<State>, actions: seq<Action>, n: nat)
    requires IsRun(cfg, states, actions) && n < |states|
    ensures Inv(cfg, states[n])
  {
    if n == 0 {
    } else {
      RunKeepsInv(cfg, states, actions, n - 1);
      var s, a := states[n - 1], actions[n - 1];
      CountsStep(cfg, s, a);
      OrderStep(cfg, s, a);
      PromptsStep(cfg, s, a);
      SinkStep(cfg, s, a);
      FifoStep(cfg, s, a);
      CleanEndsStep(cfg, s, a);
    }
  }
}
