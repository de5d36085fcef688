/** Runs in which a session does not do what its comments say, and the exact conditions. */
module SessionFailures {
  import opened Session
  import opened SessionRuns
  import opened SessionTheorems

  /**
   A panic in `on_ready`, or in the cancelling call before its request is out: the session ends with the
   host's session never cancelled, and leaves the sink behind.
   */
  lemma PanicLeavesHostBusy(cfg: Config) returns (s: State)
    ensures Reachable(cfg, s) && s.pc.Done? && s.sink
    ensures s.trace == [ServiceMessage, ServiceMessage, Launched, Closed(Panicked)]
  {
    s := UpToStream(cfg);
    s := Take(cfg, s, Action.Panic);
    s := Go(cfg, s, Closing(Panicked), Succeeds);
  }

  /** A panic in the cancelling call once its request is out: the launch has been released. */
  lemma PanicAfterCancel(cfg: Config) returns (s: State)
    requires cfg.hasNul
    ensures Reachable(cfg, s) && s.pc.Done? && s.panicked
    ensures s.trace == [ServiceMessage, ServiceMessage, Launched, Cancel, Closed(Panicked)]
  {
    s := UpToStream(cfg);
    s := Take(cfg, s, PanicAfter(Succeeds));
    s := Go(cfg, s, Closing(Panicked), Succeeds);
  }

  /** A panic in the pairing call: the session ends with the prompt never followed by `on_pair_finished`. */
  lemma PanicLeavesPromptOpen(cfg: Config) returns (s: State)
    ensures Reachable(cfg, s) && s.pc.Done?
    ensures s.trace == [ServiceMessage, ServiceMessage, PairPrompt, Closed(Panicked)]
  {
    s := UpToServerInfo(cfg);
    s := Go(cfg, s, Setup(ServerInfo), Otherwise);
    s := Go(cfg, s, Setup(SayPairing), Succeeds);
    s := Go(cfg, s, Setup(Prompt), Succeeds);
    s := Take(cfg, s, Action.Panic);
    s := Go(cfg, s, Closing(Panicked), Succeeds);
  }

  /**
   With a NUL in the host name or a version: the session launches, fails, cancels, and ends with the
   sink installed.
   */
  lemma NulLeavesSink(cfg: Config) returns (s: State)
    requires cfg.hasNul
    ensures Reachable(cfg, s) && s.pc.Done? && !s.panicked && s.sink
    ensures s.trace == [ServiceMessage, ServiceMessage, Launched, Cancel, Closed(Failed)]
  {
    s := UpToStream(cfg);
    s := Go(cfg, s, Starting(CancelFailed), Succeeds);
    s := Go(cfg, s, Closing(Failed), Succeeds);
  }

  /** Every session that ends without a panic ends with the sink gone. */
  ghost predicate AlwaysCleansUp(cfg: Config) {
    forall s | Reachable(cfg, s) :: s.pc.Done? && !s.panicked ==> !s.sink
  }

  /** It does if, and only if, no NUL can stop `start_stream` early. */
  lemma CleansUpIffNoNul(cfg: Config)
    ensures AlwaysCleansUp(cfg) <==> !cfg.hasNul
  {
    if cfg.hasNul {
      var s := NulLeavesSink(cfg);
    } else {
      forall s | Reachable(cfg, s)
        ensures s.pc.Done? && !s.panicked ==> !s.sink
      {
        var states, actions :| IsRun(cfg, states, actions) && states[|states| - 1] == s;
        if s.pc.Done? && !s.panicked { SinkAtExit(cfg, states, actions, |states| - 1); }
      }
    }
  }
}
