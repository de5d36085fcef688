/**
 The state that a session's actors share, for programs that act on it. Between any two statements of one
 actor the others may do anything they can, so whatever such a program does is a run of `Session`.
 */
module World {
  import opened Session

  datatype Actor = TheWorker | TheDecoder | TheCloser | TheListener

  function ActorOf(a: Action): Actor {
    match a
    case Work(_) | Panic | PanicAfter(_) => TheWorker
    case Submit(_, _) | LoadFormat | Send => TheDecoder
    case CloseStopConn | CloseClearSink | CloseSetFlag | CloseReleaseHandle => TheCloser
    case SetFormat(_) | Terminate => TheListener
  }

  /** What only the actor itself can change. */
  predicate SameFor(me: Actor, before: State, after: State) {
    match me
    case TheWorker => after.pc == before.pc && after.trace == before.trace && after.panicked == before.panicked
    case TheDecoder => after.core == before.core && after.submissions == before.submissions
    case TheCloser =>
      after.closer == before.closer && after.stop == before.stop && after.closeCalled == before.closeCalled
    case TheListener => after.format == before.format
  }

  lemma OthersLeaveMine(cfg: Config, s: State, a: Action, me: Actor)
    requires Enabled(s, a) && ActorOf(a) != me
    ensures SameFor(me, s, Step(cfg, s, a))
  {
  }

  /** What the decoder or the closer can do next depends only on what is its own. */
  lemma StaysEnabled(before: State, after: State, a: Action)
    requires Enabled(before, a) && (ActorOf(a) == TheDecoder || ActorOf(a) == TheCloser)
    requires SameFor(ActorOf(a), before, after)
    ensures Enabled(after, a)
  {
  }

  class Shared {
    const cfg: Config
    var s: State
    /** The run that has led to it. */
    ghost var states: seq<State>
    ghost var actions: seq<Action>

    ghost predicate Valid()
      reads this
    {
      IsRun(cfg, states, actions) && s == states[|states| - 1]
    }

    /** The run so far has only been added to. */
    twostate predicate Grown()
      reads this
    {
      && |old(states)| <= |states| && states[..|old(states)|] == old(states)
      && |old(actions)| <= |actions| && actions[..|old(actions)|] == old(actions)
    }

    constructor (cfg: Config)
      ensures Valid() && Init(s)
    {
      this.cfg := cfg;
      var start := Initial(0);
      s, states, actions := start, [start], [];
    }

    method Take(a: Action)
      requires Valid() && Enabled(s, a)
      modifies this
      ensures Valid() && Grown() && s == Step(cfg, old(s), a)
      ensures actions == old(actions) + [a] && states == old(states) + [s]
    {
      var next := Step(cfg, s, a);
      states, actions := states + [next], actions + [a];
      s := next;
    }

    /** Any number of steps of the others. */
    method Others(me: Actor)
      requires Valid()
      modifies this
      ensures Valid() && Grown() && SameFor(me, old(s), s)
    {
      var turns: int := *;
      for i := 0 to if turns < 0 then 0 else turns
        invariant Valid() && Grown() && SameFor(me, old(s), s)
      {
        var a: Action := *;
        if ActorOf(a) != me && Enabled(s, a) {
          OthersLeaveMine(cfg, s, a, me);
          Take(a);
        }
      }
    }

    /** A step of the decoder or the closer, after whatever the others do; it is taken at `at`. */
    method Act(a: Action) returns (ghost at: nat)
      requires Valid() && Enabled(s, a) && (ActorOf(a) == TheDecoder || ActorOf(a) == TheCloser)
      modifies this
      ensures Valid() && Grown()
      ensures |old(actions)| <= at == |actions| - 1 && at + 1 < |states| && actions[at] == a
      ensures SameFor(ActorOf(a), old(s), states[at]) && Enabled(states[at], a) && s == Step(cfg, states[at], a)
    {
      Others(ActorOf(a));
      StaysEnabled(old(s), s, a);
      at := |actions|;
      Take(a);
    }
  }
}
