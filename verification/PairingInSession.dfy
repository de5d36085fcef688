/** The handshake inside the session: what the host's replies make of the pairing prompt. */
module PairingInSession {
  import opened Wrappers
  import opened Session
  import opened SessionTheorems
  import P = Pairing

  /** What the worker does at the pairing call, if the handshake comes out like this. */
  predicate Agrees(a: Action, outcome: Outcome<()>) {
    match a
    case Work(o) => !outcome.Panic? && (o.Succeeds? <==> outcome.Ok?)
    case PanicAfter(o) => !outcome.Panic? && (o.Succeeds? <==> outcome.Ok?)
    case Panic => outcome.Panic?
    case _ => true
  }

  /** Whenever the worker acts at the pairing call, it is as the handshake comes out. */
  ghost predicate Follows(states: seq<State>, actions: seq<Action>, n: nat, outcome: Outcome<()>)
    requires n < |states| && n <= |actions|
  {
    forall k :: 0 <= k < n && states[k].pc == Setup(Pair) ==> Agrees(actions[k], outcome)
  }

  /** `on_pair_prompt` itself unwinds, once the dialog is up. */
  ghost predicate PromptUnwinds(states: seq<State>, actions: seq<Action>, n: nat)
    requires n < |states| && n <= |actions|
  {
    exists k :: 0 <= k < n && actions[k].PanicAfter? && states[k].pc == Setup(Prompt)
  }

  ghost predicate PairCalled(states: seq<State>, actions: seq<Action>, n: nat)
    requires n < |states| && n <= |actions|
  {
    exists k :: 0 <= k < n && Works(actions[k]) && states[k].pc == Setup(Pair)
  }

  predicate Prompted(t: seq<Event>) { exists i :: 0 <= i < |t| && t[i].PairPrompt? }

  lemma PromptedStep(cfg: Config, s: State, a: Action)
    requires Enabled(s, a)
    ensures Prompted(Step(cfg, s, a).trace) ==>
              Prompted(s.trace) || (s.pc == Setup(Prompt) && (a.Work? || a.PanicAfter?))
    ensures !Works(a) ==> Step(cfg, s, a).pc == s.pc
  {
    if a.Work? || a.PanicAfter? {
      EmitsPrompt(s.pc, a.outcome);
      var t' := Push(s.trace, Emitted(s.pc, a.outcome));
      assert Step(cfg, s, a).trace == t';
      if Prompted(t') {
        var i :| 0 <= i < |t'| && t'[i].PairPrompt?;
        if i < |s.trace| { assert s.trace[i].PairPrompt?; }
      }
    } else {
      assert Step(cfg, s, a).trace == s.trace;
    }
  }

  /** A prompt is answered by the pairing call, unless the call is still ahead or the prompt unwound. */
  lemma {:induction false} PromptIsAnswered(cfg: Config, states: seq<State>, actions: seq<Action>, n: nat)
    requires IsRun(cfg, states, actions) && n < |states| && Prompted(states[n].trace)
    ensures states[n].pc == Setup(Pair) || PromptUnwinds(states, actions, n) || PairCalled(states, actions, n)
  {
    if n == 0 {
    } else {
      var s, a := states[n - 1], actions[n - 1];
      PromptedStep(cfg, s, a);
      if Prompted(s.trace) {
        PromptIsAnswered(cfg, states, actions, n - 1);
        if PromptUnwinds(states, actions, n - 1) {
          var k :| 0 <= k < n - 1 && actions[k].PanicAfter? && states[k].pc == Setup(Prompt);
          assert actions[k].PanicAfter?;
        } else if PairCalled(states, actions, n - 1) {
          var k :| 0 <= k < n - 1 && Works(actions[k]) && states[k].pc == Setup(Pair);
          assert Works(actions[k]);
        }
      } else if a.PanicAfter? {
        assert actions[n - 1].PanicAfter?;
      }
    }
  }

  /**
   A finished session that has prompted leaves its prompt open if and only if the host's last reply
   breaks the hex decoder, or the prompt's own callback unwinds.
   */
  lemma PromptOpenIffReplyBreaks(cfg: Config, states: seq<State>, actions: seq<Action>, n: nat,
                                 c: P.Crypto, cl: P.Client, host: P.Host)
    requires IsRun(cfg, states, actions) && n < |states| && states[n].pc.Done? && Prompted(states[n].trace)
    requires Follows(states, actions, n, P.Handshake(c, cl, host).outcome)
    ensures PromptLeft(states[n])
       <==> P.LastReplyBreaks(host, P.Handshake(c, cl, host).sent) || PromptUnwinds(states, actions, n)
  {
    P.HandshakeUnwindsIff(c, cl, host);
    PromptLeftIff(cfg, states, actions, n);
    PromptIsAnswered(cfg, states, actions, n);
    if PromptLost(states, actions, n) {
      var k :| 0 <= k < n && LosesPrompt(states[k], actions[k]);
      if actions[k].PanicAfter? { assert PromptUnwinds(states, actions, n); }
    }
    if PromptUnwinds(states, actions, n) {
      var k :| 0 <= k < n && actions[k].PanicAfter? && states[k].pc == Setup(Prompt);
      assert LosesPrompt(states[k], actions[k]);
    } else if P.LastReplyBreaks(host, P.Handshake(c, cl, host).sent) {
      var k :| 0 <= k < n && Works(actions[k]) && states[k].pc == Setup(Pair);
      assert LosesPrompt(states[k], actions[k]);
    }
  }

  /** A host that answers in ASCII never leaves a prompt open: then only the prompt's own callback can. */
  lemma AsciiHostSettlesPrompt(cfg: Config, states: seq<State>, actions: seq<Action>, n: nat,
                               c: P.Crypto, cl: P.Client, host: P.Host)
    requires IsRun(cfg, states, actions) && n < |states| && states[n].pc.Done? && P.AsciiHost(host)
    requires Follows(states, actions, n, P.Handshake(c, cl, host).outcome)
    ensures PromptLeft(states[n]) <==> PromptUnwinds(states, actions, n)
  {
    P.AsciiHostNeverUnwinds(c, cl, host);
    PromptLeftIff(cfg, states, actions, n);
    if PromptLost(states, actions, n) {
      var k :| 0 <= k < n && LosesPrompt(states[k], actions[k]);
      assert actions[k].PanicAfter?;
    }
    if PromptUnwinds(states, actions, n) {
      var k :| 0 <= k < n && actions[k].PanicAfter? && states[k].pc == Setup(Prompt);
      assert LosesPrompt(states[k], actions[k]);
    }
  }

  lemma EmitsFinished(pc: Pc, o: Outcome3)
    requires Possible(pc, o)
    ensures Emitted(pc, o).Some? && Emitted(pc, o).value.PairFinished? ==>
              pc == Setup(Pair) && Emitted(pc, o).value.ok == o.Succeeds?
  {
  }

  lemma FinishedStep(cfg: Config, s: State, a: Action, i: nat)
    requires Enabled(s, a) && i < |Step(cfg, s, a).trace| && Step(cfg, s, a).trace[i].PairFinished?
    ensures |s.trace| <= |Step(cfg, s, a).trace|
    ensures i < |s.trace| ==> Step(cfg, s, a).trace[i] == s.trace[i]
    ensures i >= |s.trace| ==>
              s.pc == Setup(Pair) && (a.Work? || a.PanicAfter?) && Step(cfg, s, a).trace[i].ok == a.outcome.Succeeds?
  {
    if a.Work? || a.PanicAfter? {
      EmitsFinished(s.pc, a.outcome);
      assert Step(cfg, s, a).trace == Push(s.trace, Emitted(s.pc, a.outcome));
    } else {
      assert Step(cfg, s, a).trace == s.trace;
    }
  }

  /** What `on_pair_finished` tells is how the handshake came out. */
  lemma {:induction false} FinishedTellsOutcome(cfg: Config, states: seq<State>, actions: seq<Action>, n: nat,
                                                outcome: Outcome<()>, i: nat)
    requires IsRun(cfg, states, actions) && n < |states| && Follows(states, actions, n, outcome)
    requires i < |states[n].trace| && states[n].trace[i].PairFinished?
    ensures !outcome.Panic? && (states[n].trace[i].ok <==> outcome.Ok?)
  {
    if n == 0 {
    } else {
      var s, a := states[n - 1], actions[n - 1];
      FinishedStep(cfg, s, a, i);
      if i < |s.trace| { FinishedTellsOutcome(cfg, states, actions, n - 1, outcome, i); }
    }
  }

  /**
   A session with an honest host whose user typed the PIN never reports a refusal, and loses its prompt
   only by the prompt's callback.
   */
  lemma HonestHostIsNeverRefused(cfg: Config, states: seq<State>, actions: seq<Action>, n: nat,
                                 c: P.Crypto, cl: P.Client, s: P.Server, host: P.Host)
    requires IsRun(cfg, states, actions) && n < |states|
    requires P.Laws(c) && P.ValidServer(c, s) && P.HonestHost(c, s, host) && P.Matched(c, cl, s)
    requires Follows(states, actions, n, P.Handshake(c, cl, host).outcome)
    ensures PairFinished(false) !in states[n].trace
    ensures PromptLost(states, actions, n) ==> PromptUnwinds(states, actions, n)
  {
    P.HonestHostPairs(c, cl, s, host);
    var t, outcome := states[n].trace, P.Handshake(c, cl, host).outcome;
    forall i | 0 <= i < |t|
      ensures t[i] != PairFinished(false)
    {
      if t[i].PairFinished? { FinishedTellsOutcome(cfg, states, actions, n, outcome, i); }
    }
    if PromptLost(states, actions, n) {
      var k :| 0 <= k < n && LosesPrompt(states[k], actions[k]);
      assert actions[k].PanicAfter?;
    }
  }
}
