/**
 Any number of threads sharing one writer. Each thread sends its own list of messages through
 `raw`: it computes the length, takes the lock, writes the length, the kind and the payload one
 after the other, flushes and lets go. A step is one of these actions of one thread; a run is any
 interleaving of steps. Every underlying write succeeds.
 */
module LockedWriter {
  import opened Words32
  import opened Bytes
  import opened Wrappers
  import opened Framing

  datatype Pc = Idle | Locked | WroteLength | WroteKind | WrotePayload

  /** A message and the thread that sent it. */
  type Sending = (nat, Message)

  /**
   `sent[t]` is how many of its messages thread t is done with. `taken` records the lock
   acquisitions, `done` the releases; the running program has neither.
   */
  datatype State = State(out: seq<byte>, holder: Option<nat>, pc: Pc, sent: seq<nat>,
                         taken: seq<Sending>, done: seq<Sending>)

  type Programs = seq<seq<Message>>

  predicate Init(programs: Programs, s: State) {
    && s.out == [] && s.holder == None && s.pc == Idle && s.taken == [] && s.done == []
    && |s.sent| == |programs| && forall t :: 0 <= t < |programs| ==> s.sent[t] == 0
  }

  /** Only the holder is anywhere but between messages, so one program counter is enough. */
  predicate WellFormed(programs: Programs, s: State) {
    && |s.sent| == |programs|
    && (forall t :: 0 <= t < |programs| ==> s.sent[t] <= |programs[t]|)
    && (s.holder.None? <==> s.pc == Idle)
    && (s.holder.Some? ==>
         && s.holder.value < |programs| && s.sent[s.holder.value] < |programs[s.holder.value]|
         && Accepted(programs[s.holder.value][s.sent[s.holder.value]]))
  }

  datatype Action = Refuse(t: nat) | Acquire(t: nat) | WriteLength(t: nat) | WriteKind(t: nat)
                  | WritePayload(t: nat) | Release(t: nat)

  /** Thread t has a message to send. */
  predicate Pending(programs: Programs, s: State, t: nat)
    requires WellFormed(programs, s)
  {
    t < |programs| && s.sent[t] < |programs[t]|
  }

  predicate Enabled(programs: Programs, s: State, a: Action)
    requires WellFormed(programs, s)
  {
    && Pending(programs, s, a.t)
    && match a
       case Refuse(t) => s.holder != Some(t) && !Accepted(programs[t][s.sent[t]])
       case Acquire(t) => s.holder == None && Accepted(programs[t][s.sent[t]])
       case WriteLength(t) => s.holder == Some(t) && s.pc == Locked
       case WriteKind(t) => s.holder == Some(t) && s.pc == WroteLength
       case WritePayload(t) => s.holder == Some(t) && s.pc == WroteKind
       case Release(t) => s.holder == Some(t) && s.pc == WrotePayload
  }

  function Step(programs: Programs, s: State, a: Action): (s': State)
    requires WellFormed(programs, s) && Enabled(programs, s, a)
    ensures WellFormed(programs, s')
  {
    var m := programs[a.t][s.sent[a.t]];
    match a
    case Refuse(t) => s.(sent := s.sent[t := s.sent[t] + 1])
    case Acquire(t) => s.(holder := Some(t), pc := Locked, taken := s.taken + [(t, m)])
    case WriteLength(t) => s.(out := s.out + Le32(LengthField(|m.payload|).value), pc := WroteLength)
    case WriteKind(t) => s.(out := s.out + [m.kind], pc := WroteKind)
    case WritePayload(t) => s.(out := s.out + m.payload, pc := WrotePayload)
    case Release(t) => s.(holder := None, pc := Idle, sent := s.sent[t := s.sent[t] + 1], done := s.done + [(t, m)])
  }

  // ---- what holds in every reachable state ----

  predicate AllSendable(h: seq<Sending>) { forall i :: 0 <= i < |h| ==> Accepted(h[i].1) }

  function Messages(h: seq<Sending>): (ms: seq<Message>)
    requires AllSendable(h)
    ensures |ms| == |h| && AllAccepted(ms) && forall i :: 0 <= i < |h| ==> ms[i] == h[i].1
  {
    seq(|h|, i requires 0 <= i < |h| => h[i].1)
  }

  /** The messages thread t contributed, in order. */
  function Project(h: seq<Sending>, t: nat): seq<Message> {
    if h == [] then []
    else Project(h[..|h| - 1], t) + (if h[|h| - 1].0 == t then [h[|h| - 1].1] else [])
  }

  /** The messages of a program that `raw` accepts. */
  function Acceptable(ms: seq<Message>): seq<Message> {
    if ms == [] then []
    else Acceptable(ms[..|ms| - 1]) + (if Accepted(ms[|ms| - 1]) then [ms[|ms| - 1]] else [])
  }

  /** The message in hand while the lock is held. */
  function Current(programs: Programs, s: State): Sending
    requires WellFormed(programs, s) && s.holder.Some?
  {
    (s.holder.value, programs[s.holder.value][s.sent[s.holder.value]])
  }

  /** How many bytes of its message the holder has written. */
  function Progress(m: Message, pc: Pc): (n: nat)
    ensures n <= 5 + |m.payload|
  {
    match pc
    case WroteLength => 4
    case WroteKind => 5
    case WrotePayload => 5 + |m.payload|
    case _ => 0
  }

  /** The bytes of the message in hand that are out. */
  function Unfinished(programs: Programs, s: State): seq<byte>
    requires WellFormed(programs, s)
  {
    if s.holder.None? then [] else Encode(Current(programs, s).1)[..Progress(Current(programs, s).1, s.pc)]
  }

  ghost predicate OutputInv(programs: Programs, s: State)
    requires WellFormed(programs, s)
  {
    && AllSendable(s.done)
    && s.out == EncodeAll(Messages(s.done)) + Unfinished(programs, s)
  }

  ghost predicate OrderInv(programs: Programs, s: State)
    requires WellFormed(programs, s)
  {
    && s.taken == s.done + (if s.holder.None? then [] else [Current(programs, s)])
    && forall t :: 0 <= t < |programs| ==> Project(s.done, t) == Acceptable(programs[t][..s.sent[t]])
  }

  ghost predicate Inv(programs: Programs, s: State) {
    WellFormed(programs, s) && OutputInv(programs, s) && OrderInv(programs, s)
  }

  lemma {:induction false} EncodeAllAppend(ms: seq<Message>, m: Message)
    requires AllAccepted(ms) && Accepted(m)
    ensures EncodeAll(ms + [m]) == EncodeAll(ms) + Encode(m)
  {
    if ms == [] {
      assert [m][1..] == [];
    } else {
      assert (ms + [m])[1..] == ms[1..] + [m];
      EncodeAllAppend(ms[1..], m);
    }
  }

  lemma AcceptableNext(ms: seq<Message>, n: nat)
    requires n < |ms|
    ensures Acceptable(ms[..n + 1]) == Acceptable(ms[..n]) + if Accepted(ms[n]) then [ms[n]] else []
  {
    assert ms[..n + 1][..n] == ms[..n];
  }

  lemma ProjectNext(h: seq<Sending>, x: Sending, t: nat)
    ensures Project(h + [x], t) == Project(h, t) + if x.0 == t then [x.1] else []
  {
    assert (h + [x])[..|h|] == h;
  }

  /** The three writes put out the encoding piece by piece. */
  lemma Pieces(m: Message)
    requires Accepted(m)
    ensures Encode(m)[..4] == Le32(LengthField(|m.payload|).value)
    ensures Encode(m)[..5] == Encode(m)[..4] + [m.kind]
    ensures Encode(m)[..5 + |m.payload|] == Encode(m) == Encode(m)[..5] + m.payload
  {
  }

  /** What a step adds to the output is what it adds to the unfinished message. */
  lemma StepWrites(programs: Programs, s: State, a: Action)
    requires WellFormed(programs, s) && Enabled(programs, s, a) && !a.Release?
    ensures var s' := Step(programs, s, a);
            exists piece :: s'.out == s.out + piece && Unfinished(programs, s') == Unfinished(programs, s) + piece
  {
    var m := programs[a.t][s.sent[a.t]];
    var s' := Step(programs, s, a);
    var piece := s'.out[|s.out|..];
    assert s'.out == s.out + piece;
    if Accepted(m) { Pieces(m); }
    assert Unfinished(programs, s') == Unfinished(programs, s) + piece;
  }

  lemma StepKeepsOutput(programs: Programs, s: State, a: Action)
    requires Inv(programs, s) && Enabled(programs, s, a)
    ensures OutputInv(programs, Step(programs, s, a))
  {
    var s' := Step(programs, s, a);
    if a.Release? {
      ReleaseKeepsOutput(programs, s, a.t);
    } else {
      assert s'.done == s.done;
      StepWrites(programs, s, a);
      var piece :| s'.out == s.out + piece && Unfinished(programs, s') == Unfinished(programs, s) + piece;
      Regroup(EncodeAll(Messages(s.done)), Unfinished(programs, s), piece);
    }
  }

  lemma Regroup(a: seq<byte>, b: seq<byte>, c: seq<byte>)
    ensures a + b + c == a + (b + c)
  {
  }

  lemma ReleaseKeepsOutput(programs: Programs, s: State, t: nat)
    requires Inv(programs, s) && Enabled(programs, s, Release(t))
    ensures OutputInv(programs, Step(programs, s, Release(t)))
  {
    var s' := Step(programs, s, Release(t));
    var m := Current(programs, s).1;
    Pieces(m);
    assert s'.done == s.done + [(t, m)] && s'.out == s.out && s'.holder.None?;
    assert Messages(s'.done) == Messages(s.done) + [m];
    EncodeAllAppend(Messages(s.done), m);
    assert s.out == EncodeAll(Messages(s.done)) + Encode(m);
    assert s'.out + [] == s'.out;
  }

  /** One more message of the program, sent or refused. */
  lemma OneMore(h: seq<Sending>, t: nat, ms: seq<Message>, n: nat)
    requires n < |ms| && Project(h, t) == Acceptable(ms[..n])
    ensures if Accepted(ms[n]) then Project(h + [(t, ms[n])], t) == Acceptable(ms[..n + 1])
                               else Project(h, t) == Acceptable(ms[..n + 1])
  {
    ProjectNext(h, (t, ms[n]), t);
    AcceptableNext(ms, n);
  }

  /** What a step does to the histories. */
  lemma StepRecords(programs: Programs, s: State, a: Action)
    requires WellFormed(programs, s) && Enabled(programs, s, a)
    ensures var s' := Step(programs, s, a);
            && s'.done == s.done + (if a.Release? then [(a.t, programs[a.t][s.sent[a.t]])] else [])
            && s'.sent == if a.Release? || a.Refuse? then s.sent[a.t := s.sent[a.t] + 1] else s.sent
  {
  }

  /** Thread t's order after a step, from what the step adds to the history and to t's count. */
  lemma KeepsOrderOf(h: seq<Sending>, added: seq<Sending>, t: nat, ms: seq<Message>, n: nat, n': nat)
    requires n <= n' <= |ms| && Project(h, t) == Acceptable(ms[..n])
    requires if n' == n then added == [] || (|added| == 1 && added[0].0 != t)
             else n' == n + 1 && added == if Accepted(ms[n]) then [(t, ms[n])] else []
    ensures Project(h + added, t) == Acceptable(ms[..n'])
  {
    if n' == n + 1 {
      OneMore(h, t, ms, n);
    } else if added != [] {
      ProjectNext(h, added[0], t);
    }
    if added == [] { assert h + added == h; } else { assert added == [added[0]]; }
  }

  lemma StepKeepsOrderOf(programs: Programs, s: State, a: Action, t: nat)
    requires WellFormed(programs, s) && Enabled(programs, s, a) && t < |programs|
    requires Project(s.done, t) == Acceptable(programs[t][..s.sent[t]])
    ensures var s' := Step(programs, s, a); Project(s'.done, t) == Acceptable(programs[t][..s'.sent[t]])
  {
    var s' := Step(programs, s, a);
    var added := if a.Release? then [(a.t, programs[a.t][s.sent[a.t]])] else [];
    StepRecords(programs, s, a);
    KeepsOrderOf(s.done, added, t, programs[t], s.sent[t], s'.sent[t]);
  }

  lemma StepKeepsOrder(programs: Programs, s: State, a: Action)
    requires Inv(programs, s) && Enabled(programs, s, a)
    ensures OrderInv(programs, Step(programs, s, a))
  {
    var s' := Step(programs, s, a);
    forall t | 0 <= t < |programs|
      ensures Project(s'.done, t) == Acceptable(programs[t][..s'.sent[t]])
    {
      StepKeepsOrderOf(programs, s, a, t);
    }
    assert s'.taken == s'.done + (if s'.holder.None? then [] else [Current(programs, s')]);
  }

  // ---- runs ----

  /** A run: states joined by steps of any threads, in any order. */
  ghost predicate IsRun(programs: Programs, states: seq<State>, actions: seq<Action>) {
    && |states| == |actions| + 1
    && Init(programs, states[0])
    && forall i :: 0 <= i < |actions| ==>
         WellFormed(programs, states[i]) && Enabled(programs, states[i], actions[i])
         && states[i + 1] == Step(programs, states[i], actions[i])
  }

  lemma {:induction false} RunKeepsInv(programs: Programs, states: seq<State>, actions: seq<Action>, n: nat)
    requires IsRun(programs, states, actions) && n < |states|
    ensures Inv(programs, states[n])
  {
    if n == 0 {
    } else {
      RunKeepsInv(programs, states, actions, n - 1);
      StepKeepsOutput(programs, states[n - 1], actions[n - 1]);
      StepKeepsOrder(programs, states[n - 1], actions[n - 1]);
    }
  }

  /**
   Non-interleaving: whenever the lock is free, the bytes written are whole encoded messages, in
   the order the lock was taken, and each thread's messages are the accepted ones of its program
   up to where it is, in program order.
   */
  lemma OutputIsWholeMessages(programs: Programs, states: seq<State>, actions: seq<Action>, n: nat)
    requires IsRun(programs, states, actions) && n < |states| && states[n].holder.None?
    ensures var s := states[n];
            && AllSendable(s.taken) && s.out == EncodeAll(Messages(s.taken))
            && |s.sent| == |programs|
            && forall t :: 0 <= t < |programs| ==>
                 s.sent[t] <= |programs[t]| && Project(s.taken, t) == Acceptable(programs[t][..s.sent[t]])
  {
    RunKeepsInv(programs, states, actions, n);
    assert states[n].taken == states[n].done;
  }

  /** No deadlock: while any thread has a message left, some thread can step. */
  lemma NeverStuck(programs: Programs, s: State, t: nat) returns (a: Action)
    requires WellFormed(programs, s) && Pending(programs, s, t)
    ensures Enabled(programs, s, a)
  {
    match s.holder
    case None => a := if Accepted(programs[t][s.sent[t]]) then Acquire(t) else Refuse(t);
    case Some(h) =>
      a := match s.pc
        case Locked => WriteLength(h)
        case WroteLength => WriteKind(h)
        case WroteKind => WritePayload(h)
        case _ => Release(h);
  }

  /** The message in hand, once its last byte is out (the lock may still be held for the flush). */
  function Complete(programs: Programs, s: State): seq<Message>
    requires WellFormed(programs, s)
  {
    if s.holder.None? then []
    else
      var m := Current(programs, s).1;
      if Progress(m, s.pc) == 5 + |m.payload| then [m] else []
  }

  /**
   Nothing that the narrowing cast has distorted shows yet: every payload sent is shorter than 2^32
   bytes, and so is the one in hand, or less of it is out than its length field announces.
   */
  ghost predicate Intact(programs: Programs, s: State)
    requires WellFormed(programs, s)
  {
    && (forall i :: 0 <= i < |s.done| ==> Short(s.done[i].1))
    && HandIntact(programs, s)
  }

  predicate HandIntact(programs: Programs, s: State)
    requires WellFormed(programs, s)
  {
    s.holder.Some? ==>
      var m := Current(programs, s).1;
      Short(m) || Progress(m, s.pc) < 5 + |m.payload| % TWO32
  }

  /**
   Exactly, at every instant, in the middle of a message too: the host on the other end reads the
   messages whose last byte is out, and no others, if and only if no distorted length shows yet.
   */
  lemma HostReadsFinishedMessages(programs: Programs, states: seq<State>, actions: seq<Action>, n: nat)
    requires IsRun(programs, states, actions) && n < |states|
    ensures WellFormed(programs, states[n]) && AllSendable(states[n].done)
    ensures DecodeAll(states[n].out, false).messages == Messages(states[n].done) + Complete(programs, states[n])
       <==> Intact(programs, states[n])
  {
    RunKeepsInv(programs, states, actions, n);
    var s := states[n];
    ReadsOnIff(Messages(s.done), Unfinished(programs, s), Complete(programs, s));
    UnfinishedReads(programs, s);
    MessagesShort(s.done);
  }

  lemma CompleteIsShort(programs: Programs, s: State)
    requires WellFormed(programs, s) && HandIntact(programs, s) && Complete(programs, s) != []
    ensures s.holder.Some? && Complete(programs, s) == [Current(programs, s).1]
    ensures Accepted(Current(programs, s).1) && Short(Current(programs, s).1)
  {
    var n := |Current(programs, s).1.payload|;
    assert n % TWO32 <= n;
  }

  lemma MessagesShort(h: seq<Sending>)
    requires AllSendable(h)
    ensures AllShort(Messages(h)) <==> forall i :: 0 <= i < |h| ==> Short(h[i].1)
  {
    var ms := Messages(h);
    assert forall i :: 0 <= i < |h| ==> ms[i] == h[i].1;
  }

  lemma UnfinishedReads(programs: Programs, s: State)
    requires WellFormed(programs, s)
    ensures DecodeAll(Unfinished(programs, s), false).messages == Complete(programs, s) <==> HandIntact(programs, s)
  {
    if s.holder.Some? {
      var m := Current(programs, s).1;
      CutMessageIff(m, Progress(m, s.pc));
    }
  }

  /** No program holds a message that the narrowing cast would let through with a wrong length. */
  ghost predicate AllUndistorted(programs: Programs) {
    forall t, i :: 0 <= t < |programs| && 0 <= i < |programs[t]| ==> Undistorted(|programs[t][i].payload|)
  }

  /** Then none ever shows. */
  lemma {:induction false} UndistortedStaysIntact(programs: Programs, states: seq<State>, actions: seq<Action>, n: nat)
    requires IsRun(programs, states, actions) && n < |states| && AllUndistorted(programs)
    ensures WellFormed(programs, states[n]) && Intact(programs, states[n])
  {
    RunKeepsInv(programs, states, actions, n);
    if n == 0 {
    } else {
      UndistortedStaysIntact(programs, states, actions, n - 1);
      var s, a := states[n - 1], actions[n - 1];
      UndistortedIsShort(programs[a.t][s.sent[a.t]]);
      if states[n].holder.Some? { UndistortedIsShort(Current(programs, states[n]).1); }
    }
  }

  // ---- runs that send everything ----

  lemma Extend(programs: Programs, states: seq<State>, actions: seq<Action>, a: Action)
    returns (states': seq<State>, actions': seq<Action>)
    requires IsRun(programs, states, actions)
    requires WellFormed(programs, states[|actions|]) && Enabled(programs, states[|actions|], a)
    ensures IsRun(programs, states', actions') && |actions'| == |actions| + 1
    ensures states'[|actions'|] == Step(programs, states[|actions|], a)
  {
    states', actions' := states + [Step(programs, states[|actions|], a)], actions + [a];
  }

  lemma SoloStart(program: seq<Message>, states: seq<State>, actions: seq<Action>)
    returns (states': seq<State>, actions': seq<Action>)
    requires IsRun([program], states, actions) && WellFormed([program], states[|actions|])
    requires Enabled([program], states[|actions|], Acquire(0))
    ensures IsRun([program], states', actions')
    ensures states'[|actions'|].sent == states[|actions|].sent
    ensures states'[|actions'|].holder == Some(0) && states'[|actions'|].pc == WroteKind
  {
    states', actions' := Extend([program], states, actions, Acquire(0));
    states', actions' := Extend([program], states', actions', WriteLength(0));
    states', actions' := Extend([program], states', actions', WriteKind(0));
  }

  /** One thread alone sends its first k messages. */
  lemma {:induction false} SoloRun(program: seq<Message>, k: nat) returns (states: seq<State>, actions: seq<Action>)
    requires AllAccepted(program) && k <= |program|
    ensures IsRun([program], states, actions)
    ensures states[|actions|].sent == [k] && states[|actions|].holder.None?
  {
    if k == 0 {
      states, actions := [State([], None, Idle, [0], [], [])], [];
    } else {
      states, actions := SoloRun(program, k - 1);
      RunKeepsInv([program], states, actions, |actions|);
      states, actions := SoloStart(program, states, actions);
      states, actions := Extend([program], states, actions, WritePayload(0));
      states, actions := Extend([program], states, actions, Release(0));
    }
  }
}
