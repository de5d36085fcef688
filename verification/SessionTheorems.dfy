/** What the invariants of SessionSafety come to, over every run of one session. */
module SessionTheorems {
  import opened Wrappers
  import opened DecodeUnits
  import opened Session
  import opened SessionSafety

  // ---- from tallies to places in the trace ----

  datatype Kind = OfLaunch | OfCancel | OfReady | OfClosed

  predicate Is(k: Kind, e: Event) {
    match k
    case OfLaunch => e.Launched?
    case OfCancel => e.Cancel?
    case OfReady => e.Ready?
    case OfClosed => e.Closed?
  }

  function Of(k: Kind, n: Tally): nat {
    match k
    case OfLaunch => n.launched
    case OfCancel => n.cancels
    case OfReady => n.ready
    case OfClosed => n.closed
  }

  lemma {:induction false} TallyFinds(k: Kind, t: seq<Event>)
    ensures Of(k, TallyOf(t)) > 0 <==> exists i :: 0 <= i < |t| && Is(k, t[i])
  {
    if t == [] {
    } else {
      var m := |t| - 1;
      TallyFinds(k, t[..m]);
      if Of(k, TallyOf(t[..m])) > 0 {
        var i :| 0 <= i < m && Is(k, t[..m][i]);
        assert Is(k, t[i]);
      }
    }
  }

  lemma {:induction false} TallyOnce(k: Kind, t: seq<Event>, i: nat, j: nat)
    requires Of(k, TallyOf(t)) <= 1 && i < j < |t| && Is(k, t[i])
    ensures !Is(k, t[j])
  {
    var m := |t| - 1;
    TallyFinds(k, t[..m]);
    if j < m { TallyOnce(k, t[..m], i, j); } else { assert Is(k, t[..m][i]); }
  }

  // ---- events ----

  /** `on_closed` is the last event of a worker that ended, and happens nowhere else, panic or not. */
  lemma ClosedOnceAndLast(cfg: Config, states: seq<State>, actions: seq<Action>, n: nat)
    requires IsRun(cfg, states, actions) && n < |states|
    ensures var t := states[n].trace;
            && (forall i :: 0 <= i < |t| ==> (t[i].Closed? <==> states[n].pc.Done? && i == |t| - 1))
            && (states[n].pc.Done? ==> t != [] && (t[|t| - 1] == Closed(Panicked) <==> states[n].panicked))
  {
    RunKeepsInv(cfg, states, actions, n);
    var s, t := states[n], states[n].trace;
    forall i | 0 <= i < |t|
      ensures t[i].Closed? <==> s.pc.Done? && i == |t| - 1
    {
      TallyFinds(OfClosed, t);
      if i < |t| - 1 {
        assert InOrder(t[..i + 1], t[i + 1]);
        TallyFinds(OfClosed, t[..i + 1]);
        assert Is(OfClosed, t[..i + 1][i]) <==> t[i].Closed?;
      } else {
        assert Is(OfClosed, t[i]) <==> t[i].Closed?;
      }
    }
  }

  /** `on_ready` happens at most once, after the launch, and before any frame. */
  lemma ReadyBeforeFrames(cfg: Config, states: seq<State>, actions: seq<Action>, n: nat)
    requires IsRun(cfg, states, actions) && n < |states|
    ensures var t := states[n].trace;
            && (forall i, j :: 0 <= i < j < |t| && t[i].Ready? ==> !t[j].Ready?)
            && (forall j :: 0 <= j < |t| && t[j].Frame? ==> exists i :: 0 <= i < j && t[i].Ready?)
            && (forall j :: 0 <= j < |t| && t[j].Ready? ==> exists i :: 0 <= i < j && t[i].Launched?)
  {
    RunKeepsInv(cfg, states, actions, n);
    var t := states[n].trace;
    forall i, j | 0 <= i < j < |t| && t[i].Ready?
      ensures !t[j].Ready?
    {
      assert Is(OfReady, t[i]);
      TallyOnce(OfReady, t, i, j);
    }
    forall j | 0 <= j < |t| && t[j].Frame?
      ensures exists i :: 0 <= i < j && t[i].Ready?
    {
      Earlier(OfReady, t, j);
    }
    forall j | 0 <= j < |t| && t[j].Ready?
      ensures exists i :: 0 <= i < j && t[i].Launched?
    {
      Earlier(OfLaunch, t, j);
    }
  }

  lemma Earlier(k: Kind, t: seq<Event>, j: nat)
    requires j < |t| && Of(k, TallyOf(t[..j])) > 0
    ensures exists i :: 0 <= i < j && Is(k, t[i])
  {
    TallyFinds(k, t[..j]);
    var i :| 0 <= i < j && Is(k, t[..j][i]);
    assert Is(k, t[i]);
  }

  /**
   A prompt is followed at once by its end, or is the last event so far; an end has its prompt right
   before it; and nothing but the close follows a refusal.
   */
  predicate SettledAt(t: seq<Event>, i: nat)
    requires i < |t|
  {
    && (t[i].PairPrompt? && i < |t| - 1 ==> t[i + 1].PairFinished?)
    && (t[i].PairFinished? ==> i > 0 && t[i - 1].PairPrompt?)
    && (t[i] == PairFinished(false) && i < |t| - 1 ==> i + 2 == |t| && t[i + 1].Closed?)
  }

  lemma SettledInTrace(t: seq<Event>, i: nat)
    requires Paired(t) && i < |t| && forall j :: 0 <= j < |t| && t[j].Closed? ==> j == |t| - 1
    requires t[i].PairPrompt? && i + 2 == |t| ==> !t[i + 1].Closed?
    ensures SettledAt(t, i)
  {
    assert MayFollow(LastOf(t[..i]), t[i]);
    if i < |t| - 1 { assert MayFollow(LastOf(t[..i + 1]), t[i + 1]); }
  }

  /** A panic that leaves the prompt without its end: in the pairing call, or as the prompt's own callback returns. */
  predicate LosesPrompt(s: State, a: Action) {
    (a == Action.Panic && s.pc == Setup(Pair)) || (a.PanicAfter? && s.pc == Setup(Prompt))
  }

  ghost predicate PromptLost(states: seq<State>, actions: seq<Action>, n: nat)
    requires n < |states| && n <= |actions|
  {
    exists k :: 0 <= k < n && LosesPrompt(states[k], actions[k])
  }

  /** The worker has left with a prompt that got no end. */
  predicate PromptLeft(s: State) {
    var t := s.trace;
    || (s.pc.Closing? && LastOf(t) == Some(PairPrompt))
    || (s.pc.Done? && |t| >= 2 && t[|t| - 2].PairPrompt?)
  }

  lemma OnlyPanicPanics(cfg: Config, s: State, o: Outcome3)
    requires Possible(s.pc, o) && Running(s.pc)
    ensures NextPc(cfg, s, o) != Closing(Panicked) && !NextPc(cfg, s, o).Done?
  {
  }

  lemma PromptLeftWork(cfg: Config, s: State, o: Outcome3)
    requires Prompts(s) && Possible(s.pc, o)
    ensures PromptLeft(WorkStep(cfg, s, o)) <==> PromptLeft(s)
  {
    if Running(s.pc) {
      OnlyPanicPanics(cfg, s, o);
      PromptsStep(cfg, s, Work(o));
    } else {
      var t, t' := s.trace, WorkStep(cfg, s, o).trace;
      assert t' == t + [Closed(s.pc.reason)];
      assert |t| > 0 ==> t'[|t'| - 2] == t[|t| - 1];
    }
  }

  lemma EmitsPrompt(pc: Pc, o: Outcome3)
    requires Possible(pc, o)
    ensures Emitted(pc, o) == Some(PairPrompt) <==> pc == Setup(Prompt)
    ensures pc == Setup(Pair) ==> Emitted(pc, o).Some?
  {
  }

  /** After a step's effect the prompt is the last event exactly if the step was the prompt. */
  lemma PromptEmitted(s: State, o: Outcome3)
    requires PromptFits(s.pc, LastOf(s.trace)) && Possible(s.pc, o) && Running(s.pc)
    ensures LastOf(Push(s.trace, Emitted(s.pc, o))) == Some(PairPrompt) <==> s.pc == Setup(Prompt)
  {
    EmitsPrompt(s.pc, o);
  }

  lemma PromptLeftStep(cfg: Config, s: State, a: Action)
    requires Prompts(s) && Enabled(s, a)
    ensures PromptLeft(Step(cfg, s, a)) <==> PromptLeft(s) || LosesPrompt(s, a)
  {
    match a
    case Work(o) => PromptLeftWork(cfg, s, o);
    case PanicAfter(o) => PromptEmitted(s, o);
    case _ => assert Step(cfg, s, a).trace == s.trace;
  }

  lemma {:induction false} PromptLeftIff(cfg: Config, states: seq<State>, actions: seq<Action>, n: nat)
    requires IsRun(cfg, states, actions) && n < |states|
    ensures PromptLeft(states[n]) <==> PromptLost(states, actions, n)
  {
    if n == 0 {
    } else {
      PromptLeftIff(cfg, states, actions, n - 1);
      RunKeepsInv(cfg, states, actions, n - 1);
      PromptLeftStep(cfg, states[n - 1], actions[n - 1]);
      if PromptLost(states, actions, n - 1) {
        var k :| 0 <= k < n - 1 && LosesPrompt(states[k], actions[k]);
        assert LosesPrompt(states[k], actions[k]);
      }
    }
  }

  /**
   Pairing is settled before anything else happens, at every place of the trace, in every run but one
   that panics between the prompt and its end; and then a prompt that is last is still being answered.
   */
  lemma PairingSettledFirst(cfg: Config, states: seq<State>, actions: seq<Action>, n: nat)
    requires IsRun(cfg, states, actions) && n < |states| && !PromptLost(states, actions, n)
    ensures forall i :: 0 <= i < |states[n].trace| ==> SettledAt(states[n].trace, i)
    ensures LastOf(states[n].trace) == Some(PairPrompt) ==> states[n].pc == Setup(Pair)
  {
    var s, t := states[n], states[n].trace;
    assert Paired(t) && PromptFits(s.pc, LastOf(t)) by { RunKeepsInv(cfg, states, actions, n); }
    ClosedOnceAndLast(cfg, states, actions, n);
    PromptLeftIff(cfg, states, actions, n);
    forall i | 0 <= i < |t|
      ensures SettledAt(t, i)
    {
      SettledInTrace(t, i);
    }
  }

  /**
   Exactly: a finished session has settled its pairing if and only if it did not panic between the
   prompt and its end.
   */
  lemma SettledIffPromptNotLost(cfg: Config, states: seq<State>, actions: seq<Action>, n: nat)
    requires IsRun(cfg, states, actions) && n < |states| && states[n].pc.Done?
    ensures (forall i :: 0 <= i < |states[n].trace| ==> SettledAt(states[n].trace, i))
       <==> !PromptLost(states, actions, n)
  {
    if PromptLost(states, actions, n) {
      var t := states[n].trace;
      PromptLeftIff(cfg, states, actions, n);
      ClosedOnceAndLast(cfg, states, actions, n);
      assert t[|t| - 1].Closed? && !SettledAt(t, |t| - 2);
    } else {
      PairingSettledFirst(cfg, states, actions, n);
    }
  }

  // ---- the host's session ----

  /** No cancel without a launch before it; never more than one of either. */
  lemma CancelNeedsLaunch(cfg: Config, states: seq<State>, actions: seq<Action>, n: nat)
    requires IsRun(cfg, states, actions) && n < |states|
    ensures var t := states[n].trace;
            && (forall j :: 0 <= j < |t| && t[j].Cancel? ==> exists i :: 0 <= i < j && t[i].Launched?)
            && (forall i, j :: 0 <= i < j < |t| ==>
                  !(t[i].Launched? && t[j].Launched?) && !(t[i].Cancel? && t[j].Cancel?))
  {
    RunKeepsInv(cfg, states, actions, n);
    var t := states[n].trace;
    forall j | 0 <= j < |t| && t[j].Cancel?
      ensures exists i :: 0 <= i < j && t[i].Launched?
    {
      Earlier(OfLaunch, t, j);
    }
    forall i, j | 0 <= i < j < |t|
      ensures !(t[i].Launched? && t[j].Launched?) && !(t[i].Cancel? && t[j].Cancel?)
    {
      if Is(OfLaunch, t[i]) { TallyOnce(OfLaunch, t, i, j); assert !Is(OfLaunch, t[j]); }
      if Is(OfCancel, t[i]) { TallyOnce(OfCancel, t, i, j); assert !Is(OfCancel, t[j]); }
    }
  }

  lemma CancelAfter(t: seq<Event>, i: nat)
    requires i < |t| && t[i].Launched? && TallyOf(t).launched <= 1 && TallyOf(t).cancels > 0 && Ordered(t)
    ensures exists j :: i < j < |t| && t[j].Cancel?
  {
    TallyFinds(OfCancel, t);
    var j :| 0 <= j < |t| && Is(OfCancel, t[j]);
    assert InOrder(t[..j], t[j]);
    Earlier(OfLaunch, t, j);
    var k :| 0 <= k < j && Is(OfLaunch, t[k]);
    assert Is(OfLaunch, t[i]);
    if i < k { TallyOnce(OfLaunch, t, i, k); } else if k < i { TallyOnce(OfLaunch, t, k, i); }
    assert t[j].Cancel?;
  }

  lemma NoCancel(t: seq<Event>)
    requires TallyOf(t).cancels == 0
    ensures forall j :: 0 <= j < |t| ==> !t[j].Cancel?
  {
    TallyFinds(OfCancel, t);
    forall j | 0 <= j < |t|
      ensures !t[j].Cancel?
    {
      assert !Is(OfCancel, t[j]);
    }
  }

  /** A launch at `i` that some later cancel releases. */
  ghost predicate ReleasedAfter(t: seq<Event>, i: nat) { exists j :: i < j < |t| && t[j].Cancel? }

  predicate Cancels(pc: Pc) { pc == Starting(CancelFailed) || pc == Live(EndCancel) }

  /** A panic in the call that cancels, once the request is out. */
  predicate PanicsInCancel(s: State, a: Action) { a.PanicAfter? && Cancels(s.pc) }

  ghost predicate PanickedInCancel(states: seq<State>, actions: seq<Action>, n: nat)
    requires n < |states| && n <= |actions|
  {
    exists k :: 0 <= k < n && PanicsInCancel(states[k], actions[k])
  }

  lemma BumpCancels(pc: Pc, o: Outcome3, n: Tally)
    requires Possible(pc, o)
    ensures Bump(n, Emitted(pc, o)).cancels == n.cancels + if Cancels(pc) then 1 else 0
  {
  }

  lemma CancelStep(cfg: Config, s: State, a: Action)
    requires Counts(s) && Enabled(s, a)
    ensures Step(cfg, s, a).panicked <==> s.panicked || Panics(a)
    ensures s.panicked ==> TallyOf(Step(cfg, s, a).trace).cancels == TallyOf(s.trace).cancels && !Panics(a)
    ensures !s.panicked && Panics(a) ==>
              TallyOf(Step(cfg, s, a).trace).cancels == if PanicsInCancel(s, a) then 1 else 0
  {
    match a
    case Work(o) =>
      TallyPush(s.trace, Emitted(s.pc, o));
      BumpCancels(s.pc, o, TallyOf(s.trace));
    case PanicAfter(o) =>
      TallyPush(s.trace, Emitted(s.pc, o));
      BumpCancels(s.pc, o, TallyOf(s.trace));
    case _ => assert Step(cfg, s, a).trace == s.trace;
  }

  /** Whether a panicked worker has attempted its cancel. */
  lemma {:induction false} PanickedTally(cfg: Config, states: seq<State>, actions: seq<Action>, n: nat)
    requires IsRun(cfg, states, actions) && n < |states|
    ensures if states[n].panicked
            then TallyOf(states[n].trace).cancels == if PanickedInCancel(states, actions, n) then 1 else 0
            else !PanickedInCancel(states, actions, n)
  {
    if n == 0 {
    } else {
      var s, a := states[n - 1], actions[n - 1];
      PanickedTally(cfg, states, actions, n - 1);
      RunKeepsInv(cfg, states, actions, n - 1);
      CancelStep(cfg, s, a);
      PanickedInCancelStep(states, actions, n);
    }
  }

  lemma PanickedInCancelStep(states: seq<State>, actions: seq<Action>, n: nat)
    requires 0 < n < |states| && n <= |actions|
    ensures PanickedInCancel(states, actions, n)
       <==> PanickedInCancel(states, actions, n - 1) || PanicsInCancel(states[n - 1], actions[n - 1])
  {
    if PanickedInCancel(states, actions, n - 1) {
      var k :| 0 <= k < n - 1 && PanicsInCancel(states[k], actions[k]);
      assert PanicsInCancel(states[k], actions[k]);
    }
  }

  /** The ways out that skip the cancel: the host's own end, and a panic anywhere but in the cancelling call. */
  ghost predicate Unreleased(states: seq<State>, actions: seq<Action>, n: nat)
    requires n < |states| && n <= |actions|
  {
    || LastOf(states[n].trace) == Some(Closed(HostTerminated))
    || (states[n].panicked && !PanickedInCancel(states, actions, n))
  }

  /**
   When a worker has ended, however it ended: its launch was followed by a cancel, which
   `CancelNeedsLaunch` makes the only one, if and only if the way out was neither the host's
   termination nor a panic short of the cancel; in those two cases no cancel was attempted at all.
   */
  lemma EveryLaunchIsReleased(cfg: Config, states: seq<State>, actions: seq<Action>, n: nat)
    requires IsRun(cfg, states, actions) && n < |states| && states[n].pc.Done?
    ensures var t := states[n].trace;
            && (forall i :: 0 <= i < |t| && t[i].Launched? ==>
                  (ReleasedAfter(t, i) <==> !Unreleased(states, actions, n)))
            && (Unreleased(states, actions, n) ==> forall j :: 0 <= j < |t| ==> !t[j].Cancel?)
  {
    RunKeepsInv(cfg, states, actions, n);
    PanickedTally(cfg, states, actions, n);
    var t := states[n].trace;
    if Unreleased(states, actions, n) {
      NoCancel(t);
    } else {
      forall i | 0 <= i < |t| && t[i].Launched?
        ensures ReleasedAfter(t, i)
      {
        LaunchTallied(t, i);
        CancelAfter(t, i);
      }
    }
  }

  /** A worker that panicked has attempted a cancel if and only if the panic came out of the cancelling call itself. */
  lemma PanickedCancelsIff(cfg: Config, states: seq<State>, actions: seq<Action>, n: nat)
    requires IsRun(cfg, states, actions) && n < |states| && states[n].panicked
    ensures (exists j :: 0 <= j < |states[n].trace| && states[n].trace[j].Cancel?)
       <==> PanickedInCancel(states, actions, n)
  {
    var t := states[n].trace;
    PanickedTally(cfg, states, actions, n);
    TallyFinds(OfCancel, t);
    if PanickedInCancel(states, actions, n) {
      var j :| 0 <= j < |t| && Is(OfCancel, t[j]);
      assert t[j].Cancel?;
    } else {
      NoCancel(t);
    }
  }

  lemma LaunchTallied(t: seq<Event>, i: nat)
    requires i < |t| && t[i].Launched?
    ensures TallyOf(t).launched > 0
  {
    TallyFinds(OfLaunch, t);
    assert Is(OfLaunch, t[i]);
  }

  /** "session ended", the reason the host reads as clean, is given only once `close` has been called. */
  lemma CleanEndNeedsClose(cfg: Config, states: seq<State>, actions: seq<Action>, n: nat)
    requires IsRun(cfg, states, actions) && n < |states|
    requires Closed(Ended) in states[n].trace
    ensures states[n].closeCalled
  {
    var s, t := states[n], states[n].trace;
    var i :| 0 <= i < |t| && t[i] == Closed(Ended);
    assert s.pc.Done? && i == |t| - 1 by { ClosedOnceAndLast(cfg, states, actions, n); assert t[i].Closed?; }
    assert CleanEnds(s) by { RunKeepsInv(cfg, states, actions, n); }
  }

  // ---- what the C core's callbacks store ----

  /** The argument of the last `dr_setup`, or what was stored before the run. */
  function LastFormat(before: int, actions: seq<Action>, n: nat): int
    requires n <= |actions|
  {
    if n == 0 then before
    else match actions[n - 1] case SetFormat(f) => f case _ => LastFormat(before, actions, n - 1)
  }

  lemma FlagsStep(cfg: Config, s: State, a: Action)
    requires Enabled(s, a)
    ensures Step(cfg, s, a).format == match a case SetFormat(f) => f case _ => s.format
    ensures Step(cfg, s, a).terminated <==> a.Terminate? || (s.terminated && !Resets(s, a))
  {
  }

  /** Only `dr_setup` changes the negotiated format, whatever else the session does. */
  lemma {:induction false} FormatIsLastSet(cfg: Config, states: seq<State>, actions: seq<Action>, n: nat)
    requires IsRun(cfg, states, actions) && n < |states|
    ensures states[n].format == LastFormat(states[0].format, actions, n)
  {
    if n == 0 {
    } else {
      FormatIsLastSet(cfg, states, actions, n - 1);
      FlagsStep(cfg, states[n - 1], actions[n - 1]);
    }
  }

  /** The callback came, and `start_stream` has not reset the flag since. */
  ghost predicate TerminatedSinceReset(states: seq<State>, actions: seq<Action>, n: nat)
    requires n < |states| && n <= |actions|
  {
    exists j :: 0 <= j < n && actions[j].Terminate? && NoResetBetween(states, actions, j, n)
  }

  ghost predicate NoResetBetween(states: seq<State>, actions: seq<Action>, j: nat, n: nat)
    requires n < |states| && n <= |actions|
  {
    forall k :: j < k < n ==> !Resets(states[k], actions[k])
  }

  predicate Resets(s: State, a: Action) { (a.Work? || a.PanicAfter?) && s.pc == Starting(ResetTerminated) }

  /** The termination flag is set exactly when the callback has come since the last reset. */
  lemma {:induction false} TerminatedIffSinceReset(cfg: Config, states: seq<State>, actions: seq<Action>, n: nat)
    requires IsRun(cfg, states, actions) && n < |states|
    ensures states[n].terminated <==> TerminatedSinceReset(states, actions, n)
  {
    if n == 0 {
    } else {
      var s, a := states[n - 1], actions[n - 1];
      TerminatedIffSinceReset(cfg, states, actions, n - 1);
      FlagsStep(cfg, s, a);
      if a.Terminate? {
        assert NoResetBetween(states, actions, n - 1, n);
      } else {
        SinceResetStep(states, actions, n);
      }
    }
  }

  lemma SinceResetStep(states: seq<State>, actions: seq<Action>, n: nat)
    requires 0 < n < |states| && n <= |actions| && !actions[n - 1].Terminate?
    ensures TerminatedSinceReset(states, actions, n)
       <==> TerminatedSinceReset(states, actions, n - 1) && !Resets(states[n - 1], actions[n - 1])
  {
    if TerminatedSinceReset(states, actions, n) {
      var j :| 0 <= j < n && actions[j].Terminate? && NoResetBetween(states, actions, j, n);
      assert actions[j].Terminate? && NoResetBetween(states, actions, j, n - 1);
    }
    if TerminatedSinceReset(states, actions, n - 1) && !Resets(states[n - 1], actions[n - 1]) {
      var j :| 0 <= j < n - 1 && actions[j].Terminate? && NoResetBetween(states, actions, j, n - 1);
      assert actions[j].Terminate? && NoResetBetween(states, actions, j, n);
    }
  }

  /** From the reset of the termination flag to the end of the loop. */
  predicate Streaming(pc: Pc) { pc.Live? || (pc.Starting? && !pc.start.InstallSink? && !pc.start.ResetTerminated?) }

  ghost predicate TerminatedWhileStreaming(states: seq<State>, actions: seq<Action>, n: nat)
    requires n < |states| && n <= |actions|
  {
    exists j :: 0 <= j < n && actions[j].Terminate? && Streaming(states[j].pc)
  }

  /** What may have made the worker blame the host. */
  predicate Blames(s: State) {
    || (Streaming(s.pc) && s.terminated)
    || s.pc == Live(TermStop) || s.pc == Live(TermClear) || EndReason(s) == Some(HostTerminated)
  }

  lemma BlameStep(cfg: Config, s: State, a: Action)
    requires Counts(s) && Enabled(s, a) && Blames(Step(cfg, s, a))
    ensures Blames(s) || (a.Terminate? && Streaming(s.pc))
  {
    if a.Work? { EndReasonWork(cfg, s, a.outcome); }
  }

  lemma {:induction false} BlameNeedsTermination(cfg: Config, states: seq<State>, actions: seq<Action>, n: nat)
    requires IsRun(cfg, states, actions) && n < |states| && Blames(states[n])
    ensures TerminatedWhileStreaming(states, actions, n)
  {
    if n == 0 {
    } else {
      RunKeepsInv(cfg, states, actions, n - 1);
      BlameStep(cfg, states[n - 1], actions[n - 1]);
      if Blames(states[n - 1]) {
        BlameNeedsTermination(cfg, states, actions, n - 1);
        var j :| 0 <= j < n - 1 && actions[j].Terminate? && Streaming(states[j].pc);
        assert actions[j].Terminate? && Streaming(states[j].pc);
      }
    }
  }

  /**
   "host terminated the session" is said only if the termination callback came after the flag was reset
   for this stream.
   */
  lemma HostEndNeedsTermination(cfg: Config, states: seq<State>, actions: seq<Action>, n: nat)
    requires IsRun(cfg, states, actions) && n < |states|
    requires Closed(HostTerminated) in states[n].trace
    ensures TerminatedWhileStreaming(states, actions, n)
  {
    var s, t := states[n], states[n].trace;
    var i :| 0 <= i < |t| && t[i] == Closed(HostTerminated);
    assert s.pc.Done? && i == |t| - 1 by { ClosedOnceAndLast(cfg, states, actions, n); assert t[i].Closed?; }
    BlameNeedsTermination(cfg, states, actions, n);
  }

  // ---- frames ----

  /**
   The frames handed over are a prefix of the units submitted while the sink was installed; while
   the loop runs, what is missing is exactly the unit in hand and the queue.
   */
  lemma FramesAreAPrefix(cfg: Config, states: seq<State>, actions: seq<Action>, n: nat)
    requires IsRun(cfg, states, actions) && n < |states|
    ensures var s := states[n];
            && Frames(s.trace) <= Admitted(s.submissions)
            && (s.pc.Live? ==> Admitted(s.submissions) == Frames(s.trace) + Owed(s.pc, s.queue))
  {
    RunKeepsInv(cfg, states, actions, n);
  }

  lemma QueueOnceLeft(cfg: Config, s: State, a: Action)
    requires Enabled(s, a) && (s.pc.Closing? || s.pc.Done?)
    ensures var s' := Step(cfg, s, a); s'.queue == s.queue && (s'.pc.Closing? || s'.pc.Done?)
  {
    match a
    case Work(o) => assert QueueAfter(s.pc, s.queue) == s.queue;
    case _ =>
  }

  /** Once the worker has left, the channel takes nothing more in. */
  lemma {:induction false} NothingQueuedOnceLeft(cfg: Config, states: seq<State>, actions: seq<Action>, k: nat, n: nat)
    requires IsRun(cfg, states, actions) && k <= n < |states| && (states[k].pc.Closing? || states[k].pc.Done?)
    ensures (states[n].pc.Closing? || states[n].pc.Done?) && states[n].queue == states[k].queue
  {
    if n == k {
    } else {
      NothingQueuedOnceLeft(cfg, states, actions, k, n - 1);
      QueueOnceLeft(cfg, states[n - 1], actions[n - 1]);
    }
  }

  /** The access units the C core handed to `dr_submit`, in order. */
  function Submitted(actions: seq<Action>, n: nat): seq<(seq<Buffer>, int)>
    requires n <= |actions|
  {
    if n == 0 then [] else Submitted(actions, n - 1) + NewChain(actions[n - 1])
  }

  predicate Carries(u: VideoUnit, from: (seq<Buffer>, int), format: int) {
    && AllReadable(from.0)
    && u == VideoUnit(CodecOf(format), from.1 == FRAME_TYPE_IDR, Concatenation(from.0))
  }

  /** The negotiated formats the decode callback found, in order. */
  function Found(states: seq<State>, actions: seq<Action>, n: nat): seq<int>
    requires n <= |actions| && n <= |states|
  {
    if n == 0 then [] else Found(states, actions, n - 1) + NewFormat(states[n - 1], actions[n - 1])
  }

  function NewChain(a: Action): seq<(seq<Buffer>, int)> { match a case Submit(bs, ft) => [(bs, ft)] case _ => [] }

  function NewFormat(s: State, a: Action): seq<int> { if a.LoadFormat? then [s.format] else [] }

  /** The decode callback's progress: everything submitted has reached the lock, except the one under way. */
  ghost predicate Faithful(s: State, given: seq<(seq<Buffer>, int)>, found: seq<int>) {
    && |given| == |s.submissions| + (if s.core.Outside? then 0 else 1)
    && |found| == |s.submissions| + (if s.core.Built? then 1 else 0)
    && (forall k :: 0 <= k < |s.submissions| ==> Carries(s.submissions[k].unit, given[k], found[k]))
    && (s.core.Reassembled? ==> given[|given| - 1] == (s.core.buffers, s.core.frameType))
    && (s.core.Built? ==> Carries(s.core.unit, given[|given| - 1], found[|found| - 1]))
  }

  lemma FaithfulStep(cfg: Config, s: State, a: Action, given: seq<(seq<Buffer>, int)>, found: seq<int>)
    requires Faithful(s, given, found) && Enabled(s, a)
    ensures Faithful(Step(cfg, s, a), given + NewChain(a), found + NewFormat(s, a))
  {
  }

  /**
   Unit by unit, in order: what reaches the sink's lock is the concatenation of the chain `dr_submit`
   was given, its keyframe flag, and the codec of the format then negotiated.
   */
  lemma {:induction false} UnitsAreTheChainsSubmitted(cfg: Config, states: seq<State>, actions: seq<Action>, n: nat)
    requires IsRun(cfg, states, actions) && n < |states|
    ensures Faithful(states[n], Submitted(actions, n), Found(states, actions, n))
  {
    if n == 0 {
    } else {
      UnitsAreTheChainsSubmitted(cfg, states, actions, n - 1);
      FaithfulStep(cfg, states[n - 1], actions[n - 1], Submitted(actions, n - 1), Found(states, actions, n - 1));
    }
  }

  /** Whether the sink was installed when each unit reached its lock, in order. */
  function Gates(states: seq<State>, actions: seq<Action>, n: nat): seq<bool>
    requires n <= |actions| && n <= |states|
  {
    if n == 0 then [] else Gates(states, actions, n - 1) + NewGate(states[n - 1], actions[n - 1])
  }

  function NewGate(s: State, a: Action): seq<bool> { if a.Send? then [s.sink] else [] }

  lemma {:induction false} GatesAreRecorded(cfg: Config, states: seq<State>, actions: seq<Action>, n: nat)
    requires IsRun(cfg, states, actions) && n < |states|
    ensures var subs, gates := states[n].submissions, Gates(states, actions, n);
            |gates| == |subs| && forall k :: 0 <= k < |subs| ==> gates[k] == subs[k].installed
  {
    if n == 0 {
    } else {
      GatesAreRecorded(cfg, states, actions, n - 1);
      SubmissionsStep(cfg, states[n - 1], actions[n - 1]);
    }
  }

  lemma SubmissionsStep(cfg: Config, s: State, a: Action)
    requires Enabled(s, a)
    ensures Step(cfg, s, a).submissions == s.submissions + if a.Send? then [Submission(s.core.unit, s.sink)] else []
  {
    match a
    case Work(o) => assert WorkStep(cfg, s, o).submissions == s.submissions;
    case PanicAfter(o) => assert WorkStep(cfg, s, o).submissions == s.submissions;
    case _ =>
  }

  ghost predicate Buildable(given: seq<(seq<Buffer>, int)>, found: seq<int>, m: nat) {
    m <= |given| && m <= |found| && forall k :: 0 <= k < m ==> AllReadable(given[k].0)
  }

  /** The units built from the chains given and the formats found, at the places where the gate was open. */
  function Chosen(given: seq<(seq<Buffer>, int)>, found: seq<int>, gates: seq<bool>): seq<VideoUnit>
    requires Buildable(given, found, |gates|)
    decreases |gates|
  {
    if gates == [] then []
    else
      var m := |gates| - 1;
      Chosen(given, found, gates[..m]) + if gates[m] then [UnitOf(given[m].0, given[m].1, found[m])] else []
  }

  lemma {:induction false} AdmittedIsChosen(subs: seq<Submission>, given: seq<(seq<Buffer>, int)>,
                                            found: seq<int>, gates: seq<bool>)
    requires |gates| == |subs| && forall k :: 0 <= k < |subs| ==> gates[k] == subs[k].installed
    requires |subs| <= |given| && |subs| <= |found|
    requires forall k :: 0 <= k < |subs| ==> Carries(subs[k].unit, given[k], found[k])
    ensures Buildable(given, found, |gates|) && Admitted(subs) == Chosen(given, found, gates)
    decreases |subs|
  {
    if subs == [] {
    } else {
      var m := |subs| - 1;
      AdmittedIsChosen(subs[..m], given, found, gates[..m]);
      assert Carries(subs[m].unit, given[m], found[m]);
    }
  }

  /**
   The units admitted, from the actions of the run alone: the chains given to `dr_submit`, each with the
   format then stored, at the places where the sink was installed.
   */
  lemma AdmittedAreTheChainsSubmitted(cfg: Config, states: seq<State>, actions: seq<Action>, n: nat)
    requires IsRun(cfg, states, actions) && n < |states|
    ensures var given, found, gates := Submitted(actions, n), Found(states, actions, n), Gates(states, actions, n);
            && Buildable(given, found, |gates|)
            && Admitted(states[n].submissions) == Chosen(given, found, gates)
  {
    UnitsAreTheChainsSubmitted(cfg, states, actions, n);
    GatesAreRecorded(cfg, states, actions, n);
    var given, found, gates := Submitted(actions, n), Found(states, actions, n), Gates(states, actions, n);
    AdmittedIsChosen(states[n].submissions, given, found, gates);
  }

  // ---- the sink at exit ----

  /** At an exit without a panic the global sink is left installed in exactly one case. */
  lemma SinkAtExit(cfg: Config, states: seq<State>, actions: seq<Action>, n: nat)
    requires IsRun(cfg, states, actions) && n < |states| && !Running(states[n].pc) && !states[n].panicked
    ensures states[n].sink <==> cfg.hasNul && TallyOf(states[n].trace).launched == 1 && !states[n].clearedSinceInstall
  {
    RunKeepsInv(cfg, states, actions, n);
  }

  /** No `close` has cleared the sink between two places of a run. */
  ghost predicate NoClearBetween(actions: seq<Action>, k: nat, n: nat)
    requires n <= |actions|
  {
    forall i :: k <= i < n ==> !actions[i].CloseClearSink?
  }

  lemma SinkOnceLeft(cfg: Config, s: State, a: Action)
    requires Enabled(s, a) && !Running(s.pc)
    ensures !Running(Step(cfg, s, a).pc)
    ensures Step(cfg, s, a).sink <==> s.sink && !a.CloseClearSink?
  {
    if a.Work? { assert SinkAfter(s.pc, s.sink) == s.sink; }
  }

  /** After a panic at step `k` the sink is what that step left, unless `close` has cleared it since. */
  lemma {:induction false} SinkAfterPanic(cfg: Config, states: seq<State>, actions: seq<Action>, k: nat, n: nat)
    requires IsRun(cfg, states, actions) && k < n < |states| && Panics(actions[k])
    ensures !Running(states[n].pc)
    ensures states[n].sink <==> states[k + 1].sink && NoClearBetween(actions, k + 1, n)
  {
    if n == k + 1 {
    } else {
      SinkAfterPanic(cfg, states, actions, k, n - 1);
      SinkOnceLeft(cfg, states[n - 1], actions[n - 1]);
    }
  }

  // ---- after stop ----

  /** With the stop flag set: worker steps still possible, at most. */
  function Fuel(pc: Pc): nat {
    match pc
    case Setup(at) =>
      (match at
       case RestoreIdentity => 10 case BuildRuntime => 9 case SayConnecting => 8 case ServerInfo => 7
       case SayPairing => 6 case Prompt => 5 case Pair => 4 case SayPaired => 3 case CheckStop => 2
       case AppList => 14 case SayLaunching => 13 case Launch => 12)
    case Starting(at) =>
      (match at
       case InstallSink => 11 case ResetTerminated => 10 case CheckNul => 9 case LiStart => 8
       case DropSink => 3 case CancelFailed => 2 case OnReady => 7)
    case Live(at) =>
      (match at
       case SayConnected => 6 case LoadStop => 5 case LoadTerminated => 8 case Receive => 7 case Deliver(_) => 6
       case TermStop => 3 case TermClear => 2 case EndStop => 4 case EndClear => 3 case EndCancel => 2)
    case Closing(_) => 1
    case Done => 0
  }

  function ReceivesLeft(pc: Pc): nat { if pc == Live(LoadTerminated) || pc == Live(Receive) then 1 else 0 }

  function FramesLeft(pc: Pc): nat { ReceivesLeft(pc) + |InHand(pc)| }

  function LaunchesLeft(pc: Pc): nat {
    if pc == Setup(AppList) || pc == Setup(SayLaunching) || pc == Setup(Launch) then 1 else 0
  }

  /** How many of the actions from `i` up to `j` are the worker's. */
  function WorkerSteps(actions: seq<Action>, i: nat, j: nat): nat
    requires i <= j <= |actions|
  {
    if i == j then 0
    else WorkerSteps(actions, i, j - 1) + if Works(actions[j - 1]) then 1 else 0
  }

  /** What has happened plus what is left, for each thing that stop bounds. */
  datatype Budget = Budget(fuel: nat, received: nat, frames: nat, launched: nat)

  function BudgetOf(s: State): Budget {
    Budget(Fuel(s.pc), s.received + ReceivesLeft(s.pc), |Frames(s.trace)| + FramesLeft(s.pc),
           TallyOf(s.trace).launched + LaunchesLeft(s.pc))
  }

  /** Nothing in the budget grows, and each worker step uses up fuel. */
  predicate Within(after: Budget, before: Budget, steps: nat) {
    && after.fuel + steps <= before.fuel && after.received <= before.received
    && after.frames <= before.frames && after.launched <= before.launched
  }

  ghost predicate Spent(before: State, after: State, steps: nat) {
    after.stop && Within(BudgetOf(after), BudgetOf(before), steps)
  }

  lemma SpendSetup(at: SetupPc, o: Outcome3)
    requires Possible(Setup(at), o)
    ensures var pc' := AfterSetup(at, true, o);
            && Fuel(pc') < Fuel(Setup(at)) && ReceivesLeft(pc') == 0 && InHand(pc') == []
            && (if SetupEvent(at, o) == Some(Launched) then 1 else 0) + LaunchesLeft(pc') <= LaunchesLeft(Setup(at))
  {
  }

  lemma SpendStarting(at: StartPc, hasNul: bool, o: Outcome3)
    requires Possible(Starting(at), o)
    ensures var pc' := AfterStarting(at, hasNul, o);
            Fuel(pc') < Fuel(Starting(at)) && ReceivesLeft(pc') == 0 && InHand(pc') == [] && LaunchesLeft(pc') == 0
  {
  }

  lemma SpendLive(at: LivePc, terminated: bool, sink: bool, queue: seq<VideoUnit>)
    ensures var pc' := AfterLive(at, true, terminated, sink, queue);
            && Fuel(pc') < Fuel(Live(at)) && LaunchesLeft(pc') == 0
            && ReceivesLeft(pc') <= ReceivesLeft(Live(at)) - (if at.Receive? then 1 else 0)
            && ReceivesLeft(pc') + |InHand(pc')| <= ReceivesLeft(Live(at))
  {
  }

  lemma BumpLaunched(n: Tally, e: Option<Event>)
    ensures Bump(n, e).launched == n.launched + if e == Some(Launched) then 1 else 0
  {
  }

  lemma SpendPc(cfg: Config, s: State, o: Outcome3)
    requires s.stop && Possible(s.pc, o)
    ensures var pc' := NextPc(cfg, s, o);
            && Fuel(pc') < Fuel(s.pc)
            && ReceivesLeft(pc') + (if s.pc == Live(Receive) then 1 else 0) <= ReceivesLeft(s.pc)
            && |InHand(s.pc)| + FramesLeft(pc') <= FramesLeft(s.pc)
            && (if Emitted(s.pc, o) == Some(Launched) then 1 else 0) + LaunchesLeft(pc') <= LaunchesLeft(s.pc)
  {
    match s.pc
    case Setup(at) => SpendSetup(at, o);
    case Starting(at) => SpendStarting(at, cfg.hasNul, o);
    case Live(at) => SpendLive(at, s.terminated, s.sink, s.queue);
    case Closing(_) =>
  }

  lemma SpendWork(cfg: Config, s: State, o: Outcome3)
    requires s.stop && Possible(s.pc, o)
    ensures Spent(s, WorkStep(cfg, s, o), 1)
  {
    var e := Emitted(s.pc, o);
    TallyPush(s.trace, e);
    FramesPush(s.trace, s.pc, o);
    BumpLaunched(TallyOf(s.trace), e);
    SpendPc(cfg, s, o);
  }

  lemma SpendCrash(cfg: Config, s: State, o: Outcome3)
    requires s.stop && Possible(s.pc, o) && Running(s.pc)
    ensures Spent(s, Crash(WorkStep(cfg, s, o)), 1)
  {
    SpendWork(cfg, s, o);
    CrashSpends(cfg, s, o);
  }

  /** Where a step leads there is at least as much left as after a crash. */
  lemma CrashSpends(cfg: Config, s: State, o: Outcome3)
    requires Possible(s.pc, o) && Running(s.pc)
    ensures Fuel(NextPc(cfg, s, o)) >= 1 && EndFuel(NextPc(cfg, s, o)) >= 1
  {
    OnlyPanicPanics(cfg, s, o);
  }

  lemma SpendStep(cfg: Config, s: State, a: Action)
    requires s.stop && Enabled(s, a)
    ensures Spent(s, Step(cfg, s, a), if Works(a) then 1 else 0)
  {
    match a
    case Work(o) => SpendWork(cfg, s, o);
    case PanicAfter(o) => SpendCrash(cfg, s, o);
    case _ => assert Step(cfg, s, a).trace == s.trace;
  }

  lemma SpendMore(cfg: Config, before: State, s: State, a: Action, steps: nat)
    requires Spent(before, s, steps) && Enabled(s, a)
    ensures Spent(before, Step(cfg, s, a), steps + if Works(a) then 1 else 0)
  {
    SpendStep(cfg, s, a);
    WithinTrans(BudgetOf(Step(cfg, s, a)), BudgetOf(s), BudgetOf(before), if Works(a) then 1 else 0, steps);
  }

  lemma WithinTrans(c: Budget, b: Budget, a: Budget, m: nat, n: nat)
    requires Within(c, b, m) && Within(b, a, n)
    ensures Within(c, a, n + m)
  {
  }

  lemma {:induction false} StopSpends(cfg: Config, states: seq<State>, actions: seq<Action>, i: nat, j: nat)
    requires IsRun(cfg, states, actions) && i <= j < |states| && states[i].stop
    ensures Spent(states[i], states[j], WorkerSteps(actions, i, j))
  {
    if i == j {
    } else {
      StopSpends(cfg, states, actions, i, j - 1);
      SpendMore(cfg, states[i], states[j - 1], actions[j - 1], WorkerSteps(actions, i, j - 1));
    }
  }

  /**
   Once the stop flag is set: at most one more receive, at most one more frame, at most 14 worker
   steps to the end of the thread, and the worker is never stuck short of it.
   */
  lemma BoundedStop(cfg: Config, states: seq<State>, actions: seq<Action>, i: nat, j: nat)
    requires IsRun(cfg, states, actions) && i <= j < |states| && states[i].stop
    ensures states[j].received <= states[i].received + 1
    ensures |Frames(states[j].trace)| <= |Frames(states[i].trace)| + 1
    ensures WorkerSteps(actions, i, j) <= 14
    ensures WorkerSteps(actions, i, j) == 14 ==> states[j].pc.Done?
    ensures states[j].pc.Done? || Enabled(states[j], Work(Succeeds))
  {
    StopSpends(cfg, states, actions, i, j);
  }

  predicate BeforeStopCheck(pc: Pc) {
    pc.Setup? && !pc.setup.AppList? && !pc.setup.SayLaunching? && !pc.setup.Launch?
  }

  /** A stop that is set before the check ahead of the launch keeps the launch from ever being sent. */
  lemma StopBeforeLaunch(cfg: Config, states: seq<State>, actions: seq<Action>, i: nat, j: nat)
    requires IsRun(cfg, states, actions) && i <= j < |states| && states[i].stop && BeforeStopCheck(states[i].pc)
    ensures Launched !in states[j].trace
  {
    RunKeepsInv(cfg, states, actions, i);
    StopSpends(cfg, states, actions, i, j);
    var t := states[j].trace;
    TallyFinds(OfLaunch, t);
    forall k | 0 <= k < |t|
      ensures t[k] != Launched
    {
      assert !Is(OfLaunch, t[k]);
    }
  }

  // ---- after the host has terminated the stream ----

  /** With the termination flag set while this stream is up: worker steps still possible, at most. */
  function EndFuel(pc: Pc): nat {
    match pc
    case Setup(_) => 11
    case Starting(at) =>
      (match at
       case InstallSink => 11 case ResetTerminated => 10 case CheckNul => 9 case LiStart => 8
       case DropSink => 3 case CancelFailed => 2 case OnReady => 7)
    case Live(at) =>
      (match at
       case SayConnected => 6 case LoadStop => 5 case LoadTerminated => 4 case Receive => 7 case Deliver(_) => 6
       case TermStop => 3 case TermClear => 2 case EndStop => 4 case EndClear => 3 case EndCancel => 2)
    case Closing(_) => 1
    case Done => 0
  }

  function FramesYet(pc: Pc): nat { |InHand(pc)| + if pc == Live(Receive) then 1 else 0 }

  predicate Past(pc: Pc) { Streaming(pc) || pc.Closing? || pc.Done? }

  /** The flag is never lost while it matters, and what is left to the worker shrinks. */
  ghost predicate Drained(before: State, after: State, steps: nat) {
    && Past(after.pc) && (Streaming(after.pc) ==> after.terminated)
    && Within(EndBudgetOf(after), EndBudgetOf(before), steps)
  }

  /** The budget of a stream the host has terminated: only fuel and frames are bounded. */
  function EndBudgetOf(s: State): Budget {
    Budget(EndFuel(s.pc), 0, |Frames(s.trace)| + FramesYet(s.pc), 0)
  }

  lemma DrainPc(cfg: Config, s: State, o: Outcome3)
    requires Past(s.pc) && (Streaming(s.pc) ==> s.terminated) && Possible(s.pc, o)
    ensures var pc' := NextPc(cfg, s, o);
            Past(pc') && EndFuel(pc') < EndFuel(s.pc) && |InHand(s.pc)| + FramesYet(pc') <= FramesYet(s.pc)
  {
  }

  lemma DrainWork(cfg: Config, s: State, o: Outcome3)
    requires Past(s.pc) && (Streaming(s.pc) ==> s.terminated) && Possible(s.pc, o)
    ensures Drained(s, WorkStep(cfg, s, o), 1)
  {
    DrainPc(cfg, s, o);
    FramesPush(s.trace, s.pc, o);
  }

  lemma DrainCrash(cfg: Config, s: State, o: Outcome3)
    requires Past(s.pc) && (Streaming(s.pc) ==> s.terminated) && Possible(s.pc, o) && Running(s.pc)
    ensures Drained(s, Crash(WorkStep(cfg, s, o)), 1)
  {
    DrainWork(cfg, s, o);
    CrashSpends(cfg, s, o);
  }

  lemma DrainStep(cfg: Config, s: State, a: Action)
    requires Past(s.pc) && (Streaming(s.pc) ==> s.terminated) && Enabled(s, a)
    ensures Drained(s, Step(cfg, s, a), if Works(a) then 1 else 0)
  {
    match a
    case Work(o) => DrainWork(cfg, s, o);
    case PanicAfter(o) => DrainCrash(cfg, s, o);
    case _ => assert Step(cfg, s, a).trace == s.trace;
  }

  lemma DrainMore(cfg: Config, before: State, s: State, a: Action, steps: nat)
    requires Drained(before, s, steps) && Enabled(s, a)
    ensures Drained(before, Step(cfg, s, a), steps + if Works(a) then 1 else 0)
  {
    DrainStep(cfg, s, a);
    WithinTrans(EndBudgetOf(Step(cfg, s, a)), EndBudgetOf(s), EndBudgetOf(before), if Works(a) then 1 else 0, steps);
  }

  lemma DrainedSelf(s: State)
    requires Streaming(s.pc) && s.terminated
    ensures Drained(s, s, 0)
  {
  }

  lemma {:induction false} TerminationDrains(cfg: Config, states: seq<State>, actions: seq<Action>, i: nat, j: nat)
    requires IsRun(cfg, states, actions) && i <= j < |states| && Streaming(states[i].pc) && states[i].terminated
    ensures Drained(states[i], states[j], WorkerSteps(actions, i, j))
  {
    if i == j {
      DrainedSelf(states[i]);
    } else {
      TerminationDrains(cfg, states, actions, i, j - 1);
      var s, a, steps := states[j - 1], actions[j - 1], WorkerSteps(actions, i, j - 1);
      DrainMore(cfg, states[i], s, a, steps);
      assert states[j] == Step(cfg, s, a);
      assert WorkerSteps(actions, i, j) == steps + if Works(a) then 1 else 0;
    }
  }

  /** Once the host has terminated the stream: at most one more frame, and at most nine worker steps to the end. */
  lemma BoundedTermination(cfg: Config, states: seq<State>, actions: seq<Action>, i: nat, j: nat)
    requires IsRun(cfg, states, actions) && i <= j < |states| && Streaming(states[i].pc) && states[i].terminated
    ensures |Frames(states[j].trace)| <= |Frames(states[i].trace)| + 1
    ensures WorkerSteps(actions, i, j) <= 9
    ensures WorkerSteps(actions, i, j) == 9 ==> states[j].pc.Done?
  {
    TerminationDrains(cfg, states, actions, i, j);
  }
}
