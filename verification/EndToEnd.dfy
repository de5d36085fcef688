/** From the decode callback to the host: one session's frames through the worker, the shared writer and the stream. */
module EndToEnd {
  import opened Words32
  import opened Bytes
  import opened Wrappers
  import opened DecodeUnits
  import opened Framing
  import opened Proto
  import S = Session
  import Safety = SessionSafety
  import Theorems = SessionTheorems
  import L = LockedWriter

  /** What a session stamps on its frames: its id and the size its connect document asked for. */
  datatype View = View(session: nat, width: nat, height: nat)

  predicate InRange(v: View) { v.session < TWO32 && v.width < TWO16 && v.height < TWO16 }

  function CodecNumber(c: VideoCodec): byte { match c case H264 => 4 case Hevc => 5 }

  /** The whole-surface frame update made of a unit. */
  function FrameOf(v: View, u: VideoUnit): Frame {
    Frame(v.session, 0, CodecNumber(u.codec), u.keyFrame, v.width, v.height, 0, 0, v.width, v.height, 0, 0, u.data)
  }

  /** The callbacks that become control messages; the launch and the cancel are requests to the streaming host. */
  predicate IsCallback(e: S.Event) { !e.Frame? && !e.Launched? && !e.Cancel? }

  /**
   The JSON of each callback, by its place in the trace as well, so that two callbacks of one kind, such
   as two service messages, may have different texts.
   */
  type Encoder = (nat, S.Event) -> seq<byte>

  /** The message the k-th event becomes; the two requests to the host become none. */
  function MessageOf(v: View, json: Encoder, k: nat, e: S.Event): seq<Message>
    requires InRange(v)
  {
    if e.Frame? then [FrameMessage(FrameOf(v, e.unit))]
    else if IsCallback(e) then [Message(KIND_CONTROL, json(k, e))]
    else []
  }

  /** A frame becomes a FRAME message, a callback a message of kind 1, the launch and the cancel nothing. */
  lemma MessageByEvent(v: View, json: Encoder, k: nat, e: S.Event)
    requires InRange(v)
    ensures MessageOf(v, json, k, e)
         == match e
            case Frame(u) => [FrameMessage(FrameOf(v, u))]
            case Launched | Cancel => []
            case _ => [Message(1, json(k, e))]
  {
  }

  /** The messages the worker hands to the writer, in order. */
  function Outgoing(v: View, json: Encoder, trace: seq<S.Event>): seq<Message>
    requires InRange(v)
  {
    if trace == [] then []
    else
      var k := |trace| - 1;
      Outgoing(v, json, trace[..k]) + MessageOf(v, json, k, trace[k])
  }

  /** A FRAME message as the host files it under a session. */
  predicate IsFrameOf(m: Message, session: nat) {
    m.kind == 2 && |m.payload| >= 26 && ReadFrame(m.payload).session == session
  }

  /** What the host makes of one message of a session: a callback of the worker, or a frame. */
  datatype Heard = Told(event: S.Event) | Shown(frame: Frame)

  /** A host listening for one session; `read` is its decoder of control messages, `None` for those of others. */
  datatype Ear = Ear(session: nat, read: seq<byte> -> Option<S.Event>)

  function Tell(ear: Ear, payload: seq<byte>): seq<Heard> {
    match ear.read(payload) case None => [] case Some(e) => [Told(e)]
  }

  function Hear(ear: Ear, m: Message): seq<Heard> {
    if m.kind == 1 then Tell(ear, m.payload)
    else if IsFrameOf(m, ear.session) then [Shown(ReadFrame(m.payload))]
    else []
  }

  /** Everything of the session in the messages the host reads. */
  function HearAll(ear: Ear, ms: seq<Message>): seq<Heard> {
    if ms == [] then [] else HearAll(ear, ms[..|ms| - 1]) + Hear(ear, ms[|ms| - 1])
  }

  /** The frames among it. */
  function FramesIn(hs: seq<Heard>): seq<Frame> {
    if hs == [] then []
    else FramesIn(hs[..|hs| - 1]) + if hs[|hs| - 1].Shown? then [hs[|hs| - 1].frame] else []
  }

  /** The frames these units should arrive as: too large a unit is left out whole, the rest is untouched. */
  function Arriving(v: View, us: seq<VideoUnit>): seq<Frame> {
    if us == [] then []
    else
      var u := us[|us| - 1];
      Arriving(v, us[..|us| - 1]) + if |u.data| <= MAX_FRAME_BYTES - 27 then [FrameOf(v, u)] else []
  }

  // ---- prefixes ----

  lemma {:induction false} HearPrefix(ear: Ear, a: seq<Message>, b: seq<Message>)
    requires a <= b
    ensures HearAll(ear, a) <= HearAll(ear, b)
    decreases |b|
  {
    if a == b {
    } else {
      assert a <= b[..|b| - 1];
      HearPrefix(ear, a, b[..|b| - 1]);
    }
  }

  lemma {:induction false} FramesInPrefix(a: seq<Heard>, b: seq<Heard>)
    requires a <= b
    ensures FramesIn(a) <= FramesIn(b)
    decreases |b|
  {
    if a == b {
    } else {
      assert a <= b[..|b| - 1];
      FramesInPrefix(a, b[..|b| - 1]);
    }
  }

  lemma {:induction false} ArrivingPrefix(v: View, a: seq<VideoUnit>, b: seq<VideoUnit>)
    requires a <= b
    ensures Arriving(v, a) <= Arriving(v, b)
    decreases |b|
  {
    if a == b {
    } else {
      assert a <= b[..|b| - 1];
      ArrivingPrefix(v, a, b[..|b| - 1]);
    }
  }

  lemma {:induction false} AcceptablePrefix(ms: seq<Message>, n: nat)
    requires n <= |ms|
    ensures L.Acceptable(ms[..n]) <= L.Acceptable(ms)
    decreases |ms|
  {
    if n == |ms| {
      assert ms[..n] == ms;
    } else {
      AcceptablePrefix(ms[..|ms| - 1], n);
      assert ms[..|ms| - 1][..n] == ms[..n];
    }
  }

  lemma HearAppend(ear: Ear, ms: seq<Message>, m: Message)
    ensures HearAll(ear, ms + [m]) == HearAll(ear, ms) + Hear(ear, m)
  {
    assert (ms + [m])[..|ms|] == ms;
  }

  lemma AcceptableAppend(ms: seq<Message>, m: Message)
    ensures L.Acceptable(ms + [m]) == L.Acceptable(ms) + if Accepted(m) then [m] else []
  {
    assert (ms + [m])[..|ms|] == ms;
  }

  // ---- one worker's messages ----

  /** No unit is so long that the narrowing cast would let its message through with a wrong length. */
  ghost predicate SoundUnits(us: seq<VideoUnit>) { forall i :: 0 <= i < |us| ==> Undistorted(26 + |us[i].data|) }

  /** A unit's frame message is accepted exactly when it is small enough. */
  lemma FrameAccepted(v: View, u: VideoUnit)
    requires InRange(v) && Undistorted(26 + |u.data|)
    ensures Accepted(FrameMessage(FrameOf(v, u))) <==> |u.data| <= MAX_FRAME_BYTES - 27
  {
    FrameFitsIff(FrameOf(v, u));
  }

  /** And it is heard as the frame it was. */
  lemma FrameHeard(v: View, ear: Ear, u: VideoUnit)
    requires InRange(v) && ear.session == v.session
    ensures Hear(ear, FrameMessage(FrameOf(v, u))) == [Shown(FrameOf(v, u))]
  {
    var m := FrameMessage(FrameOf(v, u));
    FrameRoundTrip(FrameOf(v, u));
    assert m.kind == 2 && |m.payload| >= 26;
  }

  /** What one more message adds to what the host hears of those the writer accepts. */
  lemma HearOneMore(ear: Ear, ms: seq<Message>, m: Message)
    ensures HearAll(ear, L.Acceptable(ms + [m]))
         == HearAll(ear, L.Acceptable(ms)) + if Accepted(m) then Hear(ear, m) else []
  {
    AcceptableAppend(ms, m);
    var own := L.Acceptable(ms);
    if Accepted(m) { HearAppend(ear, own, m); } else { assert own + [] == own; }
  }

  /** What the host should hear of one event. */
  function HeardOf(v: View, json: Encoder, ear: Ear, k: nat, e: S.Event): seq<Heard>
    requires InRange(v)
  {
    if e.Frame? then if |e.unit.data| <= MAX_FRAME_BYTES - 27 then [Shown(FrameOf(v, e.unit))] else []
    else if IsCallback(e) && Accepted(Message(KIND_CONTROL, json(k, e))) then Tell(ear, json(k, e))
    else []
  }

  function HeardOfAll(v: View, json: Encoder, ear: Ear, trace: seq<S.Event>): seq<Heard>
    requires InRange(v)
  {
    if trace == [] then []
    else
      var k := |trace| - 1;
      HeardOfAll(v, json, ear, trace[..k]) + HeardOf(v, json, ear, k, trace[k])
  }

  predicate SoundEvent(e: S.Event) { e.Frame? ==> Undistorted(26 + |e.unit.data|) }

  lemma SoundUnitsAppend(us: seq<VideoUnit>, u: VideoUnit)
    ensures SoundUnits(us + [u]) <==> SoundUnits(us) && Undistorted(26 + |u.data|)
  {
    var all := us + [u];
    assert all[|us|] == u && forall i :: 0 <= i < |us| ==> all[i] == us[i];
  }

  lemma SoundUnitsFront(trace: seq<S.Event>)
    requires trace != []
    ensures SoundUnits(Safety.Frames(trace))
       <==> SoundUnits(Safety.Frames(trace[..|trace| - 1])) && SoundEvent(trace[|trace| - 1])
  {
    var fs, e := Safety.Frames(trace[..|trace| - 1]), trace[|trace| - 1];
    if e.Frame? {
      assert Safety.Frames(trace) == fs + [e.unit];
      SoundUnitsAppend(fs, e.unit);
    } else {
      assert Safety.Frames(trace) == fs;
    }
  }

  lemma OneFrameHeard(v: View, ear: Ear, ms: seq<Message>, u: VideoUnit)
    requires InRange(v) && ear.session == v.session && Undistorted(26 + |u.data|)
    ensures HearAll(ear, L.Acceptable(ms + [FrameMessage(FrameOf(v, u))]))
         == HearAll(ear, L.Acceptable(ms)) + if |u.data| <= MAX_FRAME_BYTES - 27 then [Shown(FrameOf(v, u))] else []
  {
    FrameAccepted(v, u);
    FrameHeard(v, ear, u);
    HearOneMore(ear, ms, FrameMessage(FrameOf(v, u)));
  }

  lemma OneControlHeard(ear: Ear, ms: seq<Message>, payload: seq<byte>)
    ensures HearAll(ear, L.Acceptable(ms + [Message(KIND_CONTROL, payload)]))
         == HearAll(ear, L.Acceptable(ms)) + if Accepted(Message(KIND_CONTROL, payload)) then Tell(ear, payload) else []
  {
    HearOneMore(ear, ms, Message(KIND_CONTROL, payload));
  }

  lemma OneEventHeard(v: View, json: Encoder, ear: Ear, ms: seq<Message>, k: nat, e: S.Event)
    requires InRange(v) && ear.session == v.session && SoundEvent(e)
    ensures HearAll(ear, L.Acceptable(ms + MessageOf(v, json, k, e)))
         == HearAll(ear, L.Acceptable(ms)) + HeardOf(v, json, ear, k, e)
  {
    if e.Frame? {
      OneFrameHeard(v, ear, ms, e.unit);
    } else if IsCallback(e) {
      OneControlHeard(ear, ms, json(k, e));
    } else {
      assert ms + [] == ms;
    }
  }

  /** Event by event, the host hears of the worker what it should. */
  lemma {:induction false} WorkerIsHeard(v: View, json: Encoder, ear: Ear, trace: seq<S.Event>)
    requires InRange(v) && ear.session == v.session && SoundUnits(Safety.Frames(trace))
    ensures HearAll(ear, L.Acceptable(Outgoing(v, json, trace))) == HeardOfAll(v, json, ear, trace)
  {
    if trace == [] {
    } else {
      var k := |trace| - 1;
      SoundUnitsFront(trace);
      WorkerIsHeard(v, json, ear, trace[..k]);
      OneEventHeard(v, json, ear, Outgoing(v, json, trace[..k]), k, trace[k]);
    }
  }

  /** A frame whose length is distorted is accepted, though it should have been refused. */
  lemma DistortedIsHeard(v: View, ear: Ear, ms: seq<Message>, u: VideoUnit)
    requires InRange(v) && ear.session == v.session && !Undistorted(26 + |u.data|)
    ensures |u.data| > MAX_FRAME_BYTES - 27
    ensures HearAll(ear, L.Acceptable(ms + [FrameMessage(FrameOf(v, u))]))
         == HearAll(ear, L.Acceptable(ms)) + [Shown(FrameOf(v, u))]
  {
    DistortedIsAccepted(v, u);
    FrameHeard(v, ear, u);
    HearOneMore(ear, ms, FrameMessage(FrameOf(v, u)));
  }

  lemma DistortedIsAccepted(v: View, u: VideoUnit)
    requires InRange(v) && !Undistorted(26 + |u.data|)
    ensures Accepted(FrameMessage(FrameOf(v, u))) && |u.data| > MAX_FRAME_BYTES - 27
  {
    FrameFitsIff(FrameOf(v, u));
  }

  lemma DistortedEventLength(v: View, json: Encoder, ear: Ear, ms: seq<Message>, k: nat, e: S.Event)
    requires InRange(v) && ear.session == v.session && !SoundEvent(e)
    ensures |HearAll(ear, L.Acceptable(ms + MessageOf(v, json, k, e)))| == |HearAll(ear, L.Acceptable(ms))| + 1
    ensures HeardOf(v, json, ear, k, e) == []
  {
    DistortedIsHeard(v, ear, ms, e.unit);
    assert MessageOf(v, json, k, e) == [FrameMessage(FrameOf(v, e.unit))];
  }

  /** What a message adds, at least what it should, and no more exactly if no distorted frame gets through. */
  lemma OneEventLength(v: View, json: Encoder, ear: Ear, ms: seq<Message>, k: nat, e: S.Event)
    requires InRange(v) && ear.session == v.session
    ensures var before := HearAll(ear, L.Acceptable(ms));
            var after := HearAll(ear, L.Acceptable(ms + MessageOf(v, json, k, e)));
            && |after| >= |before| + |HeardOf(v, json, ear, k, e)|
            && (|after| == |before| + |HeardOf(v, json, ear, k, e)| ==> SoundEvent(e))
  {
    if !SoundEvent(e) {
      DistortedEventLength(v, json, ear, ms, k, e);
    } else {
      OneEventHeard(v, json, ear, ms, k, e);
    }
  }

  lemma {:induction false} HeardLength(v: View, json: Encoder, ear: Ear, trace: seq<S.Event>)
    requires InRange(v) && ear.session == v.session
    ensures var heard, all := HearAll(ear, L.Acceptable(Outgoing(v, json, trace))), HeardOfAll(v, json, ear, trace);
            |heard| >= |all| && (|heard| == |all| ==> SoundUnits(Safety.Frames(trace)))
  {
    if trace == [] {
    } else {
      var k := |trace| - 1;
      SoundUnitsFront(trace);
      HeardLength(v, json, ear, trace[..k]);
      OneEventLength(v, json, ear, Outgoing(v, json, trace[..k]), k, trace[k]);
    }
  }

  /**
   Exactly: the host hears of the worker's accepted messages what it should if and only if no distorted
   frame is among them.
   */
  lemma WorkerIsHeardIff(v: View, json: Encoder, ear: Ear, trace: seq<S.Event>)
    requires InRange(v) && ear.session == v.session
    ensures HearAll(ear, L.Acceptable(Outgoing(v, json, trace))) == HeardOfAll(v, json, ear, trace)
       <==> SoundUnits(Safety.Frames(trace))
  {
    HeardLength(v, json, ear, trace);
    if SoundUnits(Safety.Frames(trace)) { WorkerIsHeard(v, json, ear, trace); }
  }

  lemma FramesInAppend(hs: seq<Heard>, h: seq<Heard>)
    requires |h| <= 1
    ensures FramesIn(hs + h) == FramesIn(hs) + if h != [] && h[0].Shown? then [h[0].frame] else []
  {
    if h == [] { assert hs + h == hs; } else { assert (hs + h)[..|hs|] == hs; }
  }

  /** At most one thing is heard of an event, and it is a frame exactly when the event is. */
  lemma HeardOfOne(v: View, json: Encoder, ear: Ear, k: nat, e: S.Event)
    requires InRange(v)
    ensures var h := HeardOf(v, json, ear, k, e);
            |h| <= 1 && (!e.Frame? && h != [] ==> h[0].Told?)
  {
  }

  lemma FramesHeardStep(v: View, hs: seq<Heard>, h: seq<Heard>, fs: seq<VideoUnit>, e: S.Event)
    requires |h| <= 1 && FramesIn(hs) == Arriving(v, fs)
    requires if e.Frame? then h == if |e.unit.data| <= MAX_FRAME_BYTES - 27 then [Shown(FrameOf(v, e.unit))] else []
             else h == [] || h[0].Told?
    ensures FramesIn(hs + h) == Arriving(v, if e.Frame? then fs + [e.unit] else fs)
  {
    FramesInAppend(hs, h);
    if e.Frame? { assert (fs + [e.unit])[..|fs|] == fs; }
  }

  /**
   The frames in it are the units delivered, the oversized left out whole, whatever the host makes of
   the control messages.
   */
  lemma {:induction false} FramesHeard(v: View, json: Encoder, ear: Ear, trace: seq<S.Event>)
    requires InRange(v)
    ensures FramesIn(HeardOfAll(v, json, ear, trace)) == Arriving(v, Safety.Frames(trace))
  {
    if trace == [] {
    } else {
      var k := |trace| - 1;
      var before, e := trace[..k], trace[k];
      FramesHeard(v, json, ear, before);
      HeardOfOne(v, json, ear, k, e);
      FramesHeardStep(v, HeardOfAll(v, json, ear, before), HeardOf(v, json, ear, k, e), Safety.Frames(before), e);
      assert Safety.Frames(trace) == if e.Frame? then Safety.Frames(before) + [e.unit] else Safety.Frames(before);
    }
  }

  // ---- the shared stream ----

  /** Only thread t sends what the host hears as this session's. */
  ghost predicate Alone(programs: L.Programs, t: nat, ear: Ear) {
    forall o, i :: 0 <= o < |programs| && o != t && 0 <= i < |programs[o]| ==> Hear(ear, programs[o][i]) == []
  }

  ghost predicate FromAlone(h: seq<L.Sending>, t: nat, ear: Ear) {
    forall i :: 0 <= i < |h| && h[i].0 != t ==> Hear(ear, h[i].1) == []
  }

  lemma {:induction false} RunKeepsAlone(programs: L.Programs, states: seq<L.State>, actions: seq<L.Action>, n: nat,
                                         t: nat, ear: Ear)
    requires L.IsRun(programs, states, actions) && n < |states| && Alone(programs, t, ear)
    ensures FromAlone(states[n].done, t, ear)
  {
    if n == 0 {
    } else {
      RunKeepsAlone(programs, states, actions, n - 1, t, ear);
      var s, a := states[n - 1], actions[n - 1];
      if a.Release? {
        assert states[n].done == s.done + [(a.t, programs[a.t][s.sent[a.t]])];
      } else {
        assert states[n].done == s.done;
      }
    }
  }

  lemma HeardIsOwnStep(ear: Ear, all: seq<Message>, own: seq<Message>, m: Message, isOwn: bool)
    requires HearAll(ear, all) == HearAll(ear, own) && (!isOwn ==> Hear(ear, m) == [])
    ensures HearAll(ear, all + [m]) == HearAll(ear, own + if isOwn then [m] else [])
  {
    HearAppend(ear, all, m);
    if isOwn { HearAppend(ear, own, m); } else { assert own + [] == own; }
  }

  lemma {:induction false} HeardIsOwn(h: seq<L.Sending>, t: nat, ear: Ear)
    requires L.AllSendable(h) && FromAlone(h, t, ear)
    ensures HearAll(ear, L.Messages(h)) == HearAll(ear, L.Project(h, t))
  {
    if h == [] {
    } else {
      var before, x := h[..|h| - 1], h[|h| - 1];
      assert h == before + [x] && L.AllSendable(before) && FromAlone(before, t, ear);
      HeardIsOwn(before, t, ear);
      L.ProjectNext(before, x, t);
      assert L.Messages(h) == L.Messages(before) + [x.1];
      HeardIsOwnStep(ear, L.Messages(before), L.Project(before, t), x.1, x.0 == t);
    }
  }

  /** One more message read: heard if it is thread t's, and then the next of its program. */
  lemma HeardOneMore(h: seq<L.Sending>, x: L.Sending, program: seq<Message>, k: nat, t: nat, ear: Ear)
    requires L.AllSendable(h) && k <= |program| && Accepted(x.1)
    requires HearAll(ear, L.Messages(h)) == HearAll(ear, L.Acceptable(program[..k]))
    requires if x.0 == t then k < |program| && x.1 == program[k] else Hear(ear, x.1) == []
    ensures HearAll(ear, L.Messages(h) + [x.1]) == HearAll(ear, L.Acceptable(program[..if x.0 == t then k + 1 else k]))
  {
    HearAppend(ear, L.Messages(h), x.1);
    if x.0 == t {
      L.AcceptableNext(program, k);
      HearAppend(ear, L.Acceptable(program[..k]), x.1);
    }
  }

  // What has been sent is short, seen from thread t.

  lemma {:induction false} ProjectShort(h: seq<L.Sending>, t: nat)
    requires forall i :: 0 <= i < |h| ==> Short(h[i].1)
    ensures AllShort(L.Project(h, t))
  {
    if h == [] {
    } else {
      ProjectShort(h[..|h| - 1], t);
    }
  }

  /** Of the first k messages, those accepted are short. */
  ghost predicate SentShort(program: seq<Message>, k: nat)
    requires k <= |program|
  {
    forall j :: 0 <= j < k && Accepted(program[j]) ==> Short(program[j])
  }

  lemma {:induction false} AcceptableShort(program: seq<Message>, k: nat)
    requires k <= |program| && AllShort(L.Acceptable(program[..k]))
    ensures SentShort(program, k)
  {
    if k == 0 {
    } else {
      L.AcceptableNext(program, k - 1);
      var a, b := L.Acceptable(program[..k - 1]), L.Acceptable(program[..k]);
      assert forall j :: 0 <= j < |a| ==> b[j] == a[j];
      AcceptableShort(program, k - 1);
      if Accepted(program[k - 1]) { assert b[|a|] == program[k - 1]; }
    }
  }

  /** The messages sent sound, of this session, like what thread t is done with, and those it sent are short. */
  lemma DoneIsHeard(programs: L.Programs, states: seq<L.State>, actions: seq<L.Action>, n: nat, t: nat, ear: Ear)
    requires L.IsRun(programs, states, actions) && n < |states|
    requires L.WellFormed(programs, states[n]) && L.AllSendable(states[n].done)
    requires forall i :: 0 <= i < |states[n].done| ==> Short(states[n].done[i].1)
    requires t < |programs| && Alone(programs, t, ear)
    ensures var s := states[n];
            && HearAll(ear, L.Messages(s.done)) == HearAll(ear, L.Acceptable(programs[t][..s.sent[t]]))
            && SentShort(programs[t], s.sent[t])
  {
    var s := states[n];
    L.RunKeepsInv(programs, states, actions, n);
    RunKeepsAlone(programs, states, actions, n, t, ear);
    HeardIsOwn(s.done, t, ear);
    ProjectShort(s.done, t);
    AcceptableShort(programs[t], s.sent[t]);
  }

  /** And with the message in hand, once it is out: one more of thread t's, or none. */
  lemma CompleteIsHeard(programs: L.Programs, s: L.State, t: nat, ear: Ear) returns (k: nat)
    requires L.WellFormed(programs, s) && L.AllSendable(s.done) && L.HandIntact(programs, s)
    requires t < |programs| && Alone(programs, t, ear) && SentShort(programs[t], s.sent[t])
    requires HearAll(ear, L.Messages(s.done)) == HearAll(ear, L.Acceptable(programs[t][..s.sent[t]]))
    ensures k <= |programs[t]| && s.sent[t] <= k && SentShort(programs[t], k)
    ensures HearAll(ear, L.Messages(s.done) + L.Complete(programs, s)) == HearAll(ear, L.Acceptable(programs[t][..k]))
  {
    k := s.sent[t];
    if L.Complete(programs, s) == [] {
      assert L.Messages(s.done) + [] == L.Messages(s.done);
    } else {
      L.CompleteIsShort(programs, s);
      var x := L.Current(programs, s);
      assert x.0 != t ==> Hear(ear, programs[x.0][s.sent[x.0]]) == [];
      HeardOneMore(s.done, x, programs[t], k, t, ear);
      if x.0 == t {
        SentShortNext(programs[t], k);
        k := k + 1;
      }
    }
  }

  lemma SentShortNext(program: seq<Message>, k: nat)
    requires k < |program| && SentShort(program, k) && Short(program[k])
    ensures SentShort(program, k + 1)
  {
  }

  /**
   At any instant before a distorted length shows, the host has heard, of this session, what the
   messages thread t is done with amount to, and those it sent are short.
   */
  lemma HeardIsProgramSoFar(programs: L.Programs, states: seq<L.State>, actions: seq<L.Action>, n: nat,
                            t: nat, ear: Ear)
    returns (k: nat)
    requires L.IsRun(programs, states, actions) && n < |states|
    requires L.WellFormed(programs, states[n]) && L.Intact(programs, states[n])
    requires t < |programs| && Alone(programs, t, ear)
    ensures k <= |programs[t]| && states[n].sent[t] <= k && SentShort(programs[t], k)
    ensures HearAll(ear, DecodeAll(states[n].out, false).messages) == HearAll(ear, L.Acceptable(programs[t][..k]))
  {
    L.HostReadsFinishedMessages(programs, states, actions, n);
    DoneIsHeard(programs, states, actions, n, t, ear);
    k := CompleteIsHeard(programs, states[n], t, ear);
  }

  // ---- the whole way ----

  /**
   A session's run, up to a point, and a run of the writers, up to a point before any distorted length
   shows, in which thread t sends that session's messages.
   */
  ghost predicate Setting(cfg: S.Config, ss: seq<S.State>, sas: seq<S.Action>, i: nat,
                          programs: L.Programs, ls: seq<L.State>, las: seq<L.Action>, n: nat, t: nat,
                          v: View, json: Encoder, ear: Ear) {
    && S.IsRun(cfg, ss, sas) && i < |ss|
    && L.IsRun(programs, ls, las) && n < |ls|
    && L.WellFormed(programs, ls[n]) && L.Intact(programs, ls[n])
    && InRange(v) && ear.session == v.session
    && t < |programs| && programs[t] == Outgoing(v, json, ss[i].trace)
    && Alone(programs, t, ear)
  }

  /** The first k messages are those of some prefix of the trace. */
  lemma {:induction false} OutgoingPrefix(v: View, json: Encoder, trace: seq<S.Event>, k: nat) returns (p: nat)
    requires InRange(v) && k <= |Outgoing(v, json, trace)|
    ensures p <= |trace| && Outgoing(v, json, trace[..p]) == Outgoing(v, json, trace)[..k]
    ensures k == |Outgoing(v, json, trace)| ==> p == |trace|
    decreases |trace|
  {
    if k == |Outgoing(v, json, trace)| {
      p := |trace|;
      assert trace[..p] == trace;
    } else {
      var front := trace[..|trace| - 1];
      p := OutgoingPrefix(v, json, front, k);
      assert front[..p] == trace[..p];
      assert Outgoing(v, json, trace)[..k] == Outgoing(v, json, front)[..k];
    }
  }

  /** Short messages come of sound units. */
  lemma {:induction false} ShortUnits(v: View, json: Encoder, trace: seq<S.Event>)
    requires InRange(v) && SentShort(Outgoing(v, json, trace), |Outgoing(v, json, trace)|)
    ensures SoundUnits(Safety.Frames(trace))
  {
    if trace == [] {
    } else {
      var k := |trace| - 1;
      var ms, all := Outgoing(v, json, trace[..k]), Outgoing(v, json, trace);
      assert forall j :: 0 <= j < |ms| ==> all[j] == ms[j];
      ShortUnits(v, json, trace[..k]);
      if trace[k].Frame? {
        var m := FrameMessage(FrameOf(v, trace[k].unit));
        assert all[|ms|] == m && |m.payload| == 26 + |trace[k].unit.data|;
        UndistortedIsShort(m);
      }
    }
  }

  lemma {:induction false} HeardOfPrefix(v: View, json: Encoder, ear: Ear, trace: seq<S.Event>, p: nat)
    requires InRange(v) && p <= |trace|
    ensures HeardOfAll(v, json, ear, trace[..p]) <= HeardOfAll(v, json, ear, trace)
    decreases |trace|
  {
    if p == |trace| {
      assert trace[..p] == trace;
    } else {
      var front := trace[..|trace| - 1];
      HeardOfPrefix(v, json, ear, front, p);
      assert front[..p] == trace[..p];
    }
  }

  /**
   At every instant the host has heard what it should of a prefix of the worker's trace; of all of it,
   once all is out.
   */
  lemma HostHearsThePrefix(cfg: S.Config, ss: seq<S.State>, sas: seq<S.Action>, i: nat,
                           programs: L.Programs, ls: seq<L.State>, las: seq<L.Action>, n: nat, t: nat,
                           v: View, json: Encoder, ear: Ear) returns (p: nat)
    requires Setting(cfg, ss, sas, i, programs, ls, las, n, t, v, json, ear)
    ensures p <= |ss[i].trace|
    ensures HearAll(ear, DecodeAll(ls[n].out, false).messages) == HeardOfAll(v, json, ear, ss[i].trace[..p])
    ensures ls[n].sent[t] == |programs[t]| ==> p == |ss[i].trace|
  {
    var trace := ss[i].trace;
    var k := HeardIsProgramSoFar(programs, ls, las, n, t, ear);
    p := OutgoingPrefix(v, json, trace, k);
    ShortUnits(v, json, trace[..p]);
    WorkerIsHeard(v, json, ear, trace[..p]);
  }

  /**
   End to end, for one session whose writes succeed, next to any other threads that send nothing of it:
   at every instant, the frames of the session that the host reads off the stream are a prefix of the
   units that `dr_submit` was given as chains while the sink was installed, with the units too large for
   a message left out whole; session, size, codec, keyframe flag and data as they were. Once the
   worker's messages are out, they are all the units it was delivered.
   */
  lemma FramesArriveInOrder(cfg: S.Config, ss: seq<S.State>, sas: seq<S.Action>, i: nat,
                            programs: L.Programs, ls: seq<L.State>, las: seq<L.Action>, n: nat, t: nat,
                            v: View, json: Encoder, ear: Ear)
    requires Setting(cfg, ss, sas, i, programs, ls, las, n, t, v, json, ear)
    ensures var given, found := Theorems.Submitted(sas, i), Theorems.Found(ss, sas, i);
            var gates := Theorems.Gates(ss, sas, i);
            && Theorems.Buildable(given, found, |gates|)
            && FramesIn(HearAll(ear, DecodeAll(ls[n].out, false).messages))
               <= Arriving(v, Theorems.Chosen(given, found, gates))
    ensures ls[n].sent[t] == |programs[t]| ==>
              FramesIn(HearAll(ear, DecodeAll(ls[n].out, false).messages)) == Arriving(v, Safety.Frames(ss[i].trace))
  {
    var trace := ss[i].trace;
    var p := HostHearsThePrefix(cfg, ss, sas, i, programs, ls, las, n, t, v, json, ear);
    HeardOfPrefix(v, json, ear, trace, p);
    FramesInPrefix(HeardOfAll(v, json, ear, trace[..p]), HeardOfAll(v, json, ear, trace));
    FramesHeard(v, json, ear, trace);
    if p == |trace| { assert trace[..p] == trace; }
    Theorems.FramesAreAPrefix(cfg, ss, sas, i);
    Theorems.AdmittedAreTheChainsSubmitted(cfg, ss, sas, i);
    ArrivingPrefix(v, Safety.Frames(trace), Safety.Admitted(ss[i].submissions));
  }

  // ---- the frames, field by field ----

  /**
   A frame of the session, all of its surface, holding this chain's bytes: HEVC (5) if bit 8 of the
   format is set and H.264 (4) otherwise, and a keyframe exactly if the chain's frame type is 1.
   */
  predicate Describes(f: Frame, v: View, chain: (seq<Buffer>, int), format: int)
    requires AllReadable(chain.0)
  {
    && f.session == v.session && f.frameId == 0
    && f.codec == (if format / 256 % 2 == 1 then 5 else 4)
    && (f.key <==> chain.1 == 1)
    && f.width == v.width && f.height == v.height && f.w == v.width && f.h == v.height
    && f.x == 0 && f.y == 0 && f.sx == 0 && f.sy == 0
    && f.data == Concatenation(chain.0)
  }

  /** The places of the chains that met an open gate and leave room for a frame's header in 32 MiB. */
  function Kept(given: seq<(seq<Buffer>, int)>, gates: seq<bool>): seq<nat>
    requires |gates| <= |given| && forall k :: 0 <= k < |gates| ==> AllReadable(given[k].0)
    decreases |gates|
  {
    if gates == [] then []
    else
      var m := |gates| - 1;
      Kept(given, gates[..m]) + if gates[m] && |Concatenation(given[m].0)| + 27 <= 33_554_432 then [m] else []
  }

  /** Just those places, each once, in order. */
  lemma {:induction false} KeptExactly(given: seq<(seq<Buffer>, int)>, gates: seq<bool>)
    requires |gates| <= |given| && forall k :: 0 <= k < |gates| ==> AllReadable(given[k].0)
    ensures forall j: nat :: j in Kept(given, gates)
                        <==> j < |gates| && gates[j] && |Concatenation(given[j].0)| + 27 <= 33_554_432
    ensures Ascending(Kept(given, gates))
    decreases |gates|
  {
    if gates == [] {
    } else {
      var m := |gates| - 1;
      var before := Kept(given, gates[..m]);
      KeptExactly(given, gates[..m]);
      AscendingAppend(before, m);
      forall j: nat
        ensures j in Kept(given, gates) <==> j < |gates| && gates[j] && |Concatenation(given[j].0)| + 27 <= 33_554_432
      {
        assert j in Kept(given, gates) <==> j in before || (j == m && Kept(given, gates) != before);
        assert j < m ==> gates[..m][j] == gates[j];
      }
    }
  }

  predicate Ascending(ns: seq<nat>) { forall a, b :: 0 <= a < b < |ns| ==> ns[a] < ns[b] }

  lemma AscendingAppend(ns: seq<nat>, m: nat)
    requires Ascending(ns) && forall n: nat :: n in ns ==> n < m
    ensures Ascending(ns + [m])
  {
    forall a, b | 0 <= a < b < |ns| + 1
      ensures (ns + [m])[a] < (ns + [m])[b]
    {
      assert ns[a] in ns;
    }
  }

  /** Frame by frame, these are described by the chains and formats at these places. */
  predicate AllDescribed(frames: seq<Frame>, places: seq<nat>, v: View,
                         given: seq<(seq<Buffer>, int)>, found: seq<int>, m: nat)
    requires Theorems.Buildable(given, found, m)
  {
    && |frames| == |places|
    && forall k :: 0 <= k < |places| ==>
         places[k] < m && Describes(frames[k], v, given[places[k]], found[places[k]])
  }

  lemma AllDescribedAppend(frames: seq<Frame>, places: seq<nat>, v: View,
                           given: seq<(seq<Buffer>, int)>, found: seq<int>, m: nat, f: Frame)
    requires Theorems.Buildable(given, found, m + 1) && AllDescribed(frames, places, v, given, found, m)
    requires Describes(f, v, given[m], found[m])
    ensures AllDescribed(frames, places, v, given, found, m + 1)
    ensures AllDescribed(frames + [f], places + [m], v, given, found, m + 1)
  {
  }

  lemma ArrivingOneMore(v: View, us: seq<VideoUnit>, u: VideoUnit)
    ensures Arriving(v, us + [u]) == Arriving(v, us) + if |u.data| <= MAX_FRAME_BYTES - 27 then [FrameOf(v, u)] else []
  {
    assert (us + [u])[..|us|] == us;
  }

  /** The frames that should arrive, k-th by k-th, are those of the chains kept. */
  lemma {:induction false} ArrivingByPlace(v: View, given: seq<(seq<Buffer>, int)>, found: seq<int>, gates: seq<bool>)
    requires Theorems.Buildable(given, found, |gates|)
    ensures var frames := Arriving(v, Theorems.Chosen(given, found, gates));
            AllDescribed(frames, Kept(given, gates), v, given, found, |gates|)
    decreases |gates|
  {
    if gates == [] {
    } else {
      var m := |gates| - 1;
      ArrivingByPlace(v, given, found, gates[..m]);
      ArrivingStep(v, given, found, m, gates[m], Theorems.Chosen(given, found, gates[..m]), Kept(given, gates[..m]));
    }
  }

  lemma ArrivingStep(v: View, given: seq<(seq<Buffer>, int)>, found: seq<int>, m: nat, open: bool,
                     us: seq<VideoUnit>, places: seq<nat>)
    requires Theorems.Buildable(given, found, m + 1) && AllDescribed(Arriving(v, us), places, v, given, found, m)
    ensures var more := if open then [UnitOf(given[m].0, given[m].1, found[m])] else [];
            var place := if open && |Concatenation(given[m].0)| + 27 <= 33_554_432 then [m] else [];
            AllDescribed(Arriving(v, us + more), places + place, v, given, found, m + 1)
  {
    var u := UnitOf(given[m].0, given[m].1, found[m]);
    FrameDescribes(v, given[m], found[m]);
    AllDescribedAppend(Arriving(v, us), places, v, given, found, m, FrameOf(v, u));
    ArrivingOneMore(v, us, u);
    assert us + [] == us && places + [] == places && Arriving(v, us) + [] == Arriving(v, us);
  }

  lemma FrameDescribes(v: View, chain: (seq<Buffer>, int), format: int)
    requires AllReadable(chain.0)
    ensures Describes(FrameOf(v, UnitOf(chain.0, chain.1, format)), v, chain, format)
  {
  }

  /**
   From the decode callback to the host, field by field: the k-th frame the host has read of the session
   is that of the k-th chain which met the installed sink and is not too large, described by the chain
   itself and the format stored when it was built.
   */
  lemma FramesDescribeTheChains(cfg: S.Config, ss: seq<S.State>, sas: seq<S.Action>, i: nat,
                                programs: L.Programs, ls: seq<L.State>, las: seq<L.Action>, n: nat, t: nat,
                                v: View, json: Encoder, ear: Ear)
    requires Setting(cfg, ss, sas, i, programs, ls, las, n, t, v, json, ear)
    ensures var given, found := Theorems.Submitted(sas, i), Theorems.Found(ss, sas, i);
            var gates := Theorems.Gates(ss, sas, i);
            && Theorems.Buildable(given, found, |gates|)
            && var kept, frames := Kept(given, gates), FramesIn(HearAll(ear, DecodeAll(ls[n].out, false).messages));
               && |frames| <= |kept|
               && forall k :: 0 <= k < |frames| ==>
                    kept[k] < |gates| && Describes(frames[k], v, given[kept[k]], found[kept[k]])
  {
    FramesArriveInOrder(cfg, ss, sas, i, programs, ls, las, n, t, v, json, ear);
    ArrivingByPlace(v, Theorems.Submitted(sas, i), Theorems.Found(ss, sas, i), Theorems.Gates(ss, sas, i));
  }

  // ---- the order the host sees ----

  /** The host's decoder undoes the sidecar's encoder, on the callbacks of this session. */
  ghost predicate Understands(ear: Ear, json: Encoder) {
    forall k: nat, e: S.Event :: IsCallback(e) ==> ear.read(json(k, e)) == Some(e)
  }

  /** The `sessionReady` message is within the cap. */
  ghost predicate ReadyFits(json: Encoder) { forall k: nat :: Fits(Message(KIND_CONTROL, json(k, S.Ready))) }

  predicate IsReady(h: Heard) { h == Told(S.Ready) }

  predicate IsClosed(h: Heard) { h.Told? && h.event.Closed? }

  ghost predicate ReadyIn(hs: seq<Heard>) { exists i :: 0 <= i < |hs| && IsReady(hs[i]) }

  ghost predicate ClosedIn(hs: seq<Heard>) { exists i :: 0 <= i < |hs| && IsClosed(hs[i]) }

  /** `sessionReady` before every frame and only once, and nothing after `sessionClosed`. */
  ghost predicate WellOrdered(hs: seq<Heard>) {
    forall j :: 0 <= j < |hs| ==>
      && (hs[j].Shown? ==> ReadyIn(hs[..j]))
      && (IsReady(hs[j]) ==> !ReadyIn(hs[..j]))
      && !ClosedIn(hs[..j])
  }

  lemma ReadyAppend(hs: seq<Heard>, h: Heard)
    ensures ReadyIn(hs + [h]) <==> ReadyIn(hs) || IsReady(h)
    ensures ClosedIn(hs + [h]) <==> ClosedIn(hs) || IsClosed(h)
  {
    var hs' := hs + [h];
    assert hs'[|hs|] == h && forall i :: 0 <= i < |hs| ==> hs'[i] == hs[i];
    if ReadyIn(hs') { var i :| 0 <= i < |hs'| && IsReady(hs'[i]); if i < |hs| { assert IsReady(hs[i]); } }
    if ReadyIn(hs) { var i :| 0 <= i < |hs| && IsReady(hs[i]); assert IsReady(hs'[i]); }
    if ClosedIn(hs') { var i :| 0 <= i < |hs'| && IsClosed(hs'[i]); if i < |hs| { assert IsClosed(hs[i]); } }
    if ClosedIn(hs) { var i :| 0 <= i < |hs| && IsClosed(hs[i]); assert IsClosed(hs'[i]); }
  }

  lemma WellOrderedAppend(hs: seq<Heard>, h: Heard)
    requires WellOrdered(hs) && !ClosedIn(hs)
    requires (h.Shown? ==> ReadyIn(hs)) && (IsReady(h) ==> !ReadyIn(hs))
    ensures WellOrdered(hs + [h])
  {
    var hs' := hs + [h];
    forall j | 0 <= j < |hs'|
      ensures (hs'[j].Shown? ==> ReadyIn(hs'[..j])) && (IsReady(hs'[j]) ==> !ReadyIn(hs'[..j])) && !ClosedIn(hs'[..j])
    {
      if j < |hs| { assert hs'[..j] == hs[..j] && hs'[j] == hs[j]; } else { assert hs'[..j] == hs; }
    }
  }

  lemma WellOrderedPrefix(a: seq<Heard>, b: seq<Heard>)
    requires a <= b && WellOrdered(b)
    ensures WellOrdered(a)
  {
    forall j | 0 <= j < |a|
      ensures (a[j].Shown? ==> ReadyIn(a[..j])) && (IsReady(a[j]) ==> !ReadyIn(a[..j])) && !ClosedIn(a[..j])
    {
      assert a[j] == b[j] && a[..j] == b[..j];
    }
  }

  lemma HeardInOrderStep(hs: seq<Heard>, h: seq<Heard>, e: S.Event, before: seq<S.Event>)
    requires |h| <= 1 && (h != [] ==> (e.Frame? && h[0].Shown?) || h[0] == Told(e)) && (e.Ready? ==> h == [Told(e)])
    requires WellOrdered(hs)
    requires ReadyIn(hs) <==> Safety.TallyOf(before).ready > 0
    requires ClosedIn(hs) ==> Safety.TallyOf(before).closed > 0
    requires Safety.InOrder(before, e) && Safety.TallyOf(before + [e]).ready <= 1
    ensures WellOrdered(hs + h)
    ensures ReadyIn(hs + h) <==> Safety.TallyOf(before + [e]).ready > 0
    ensures ClosedIn(hs + h) ==> Safety.TallyOf(before + [e]).closed > 0
  {
    Safety.TallyPush(before, Some(e));
    if h == [] {
      assert hs + h == hs;
    } else {
      assert h == [h[0]];
      ReadyAppend(hs, h[0]);
      WellOrderedAppend(hs, h[0]);
    }
  }

  lemma OrderedFront(before: seq<S.Event>, e: S.Event, trace: seq<S.Event>)
    requires trace == before + [e] && Safety.Ordered(trace) && Safety.TallyOf(trace).ready <= 1
    ensures Safety.Ordered(before) && Safety.InOrder(before, e) && Safety.TallyOf(before).ready <= 1
  {
    Safety.TallyPush(before, Some(e));
    assert trace[..|before|] == before && Safety.InOrder(trace[..|before|], trace[|before|]);
    forall i | 0 <= i < |before|
      ensures Safety.InOrder(before[..i], before[i])
    {
      assert before[..i] == trace[..i] && before[i] == trace[i];
    }
  }

  lemma {:induction false} HeardInOrder(v: View, json: Encoder, ear: Ear, trace: seq<S.Event>)
    requires InRange(v) && Understands(ear, json) && ReadyFits(json)
    requires Safety.Ordered(trace) && Safety.TallyOf(trace).ready <= 1
    ensures WellOrdered(HeardOfAll(v, json, ear, trace))
    ensures ReadyIn(HeardOfAll(v, json, ear, trace)) <==> Safety.TallyOf(trace).ready > 0
    ensures ClosedIn(HeardOfAll(v, json, ear, trace)) ==> Safety.TallyOf(trace).closed > 0
  {
    if trace == [] {
    } else {
      var k := |trace| - 1;
      var before, e := trace[..k], trace[k];
      OrderedFront(before, e, trace);
      HeardInOrder(v, json, ear, before);
      FitsIsAcceptedAndShort(Message(KIND_CONTROL, json(k, e)));
      HeardInOrderStep(HeardOfAll(v, json, ear, before), HeardOf(v, json, ear, k, e), e, before);
    }
  }

  /**
   Event order as the host sees it: at every instant, of what it has read of the session, the
   `sessionReady` message comes before every frame and only once, and nothing comes after `sessionClosed`.
   */
  lemma HostHearsInOrder(cfg: S.Config, ss: seq<S.State>, sas: seq<S.Action>, i: nat,
                         programs: L.Programs, ls: seq<L.State>, las: seq<L.Action>, n: nat, t: nat,
                         v: View, json: Encoder, ear: Ear)
    requires Setting(cfg, ss, sas, i, programs, ls, las, n, t, v, json, ear)
    requires Understands(ear, json) && ReadyFits(json)
    ensures WellOrdered(HearAll(ear, DecodeAll(ls[n].out, false).messages))
  {
    var p := HostHearsThePrefix(cfg, ss, sas, i, programs, ls, las, n, t, v, json, ear);
    Safety.RunKeepsInv(cfg, ss, sas, i);
    HeardInOrder(v, json, ear, ss[i].trace);
    HeardOfPrefix(v, json, ear, ss[i].trace, p);
    WellOrderedPrefix(HeardOfAll(v, json, ear, ss[i].trace[..p]), HeardOfAll(v, json, ear, ss[i].trace));
  }

  // ---- the frame sink ----

  ghost predicate AllInRange(batch: seq<Frame>) { forall i :: 0 <= i < |batch| ==> FieldsInRange(batch[i]) }

  /** What a frame puts on the wire: its message, or nothing if it is too large. */
  function Piece(f: Frame): seq<byte>
    requires FieldsInRange(f)
  {
    if Accepted(FrameMessage(f)) then Encode(FrameMessage(f)) else []
  }

  /** A batch, up to the first frame the writer refuses. */
  function UpToRefused(batch: seq<Frame>): seq<byte>
    requires AllInRange(batch)
  {
    if batch == [] || Piece(batch[0]) == [] then [] else Piece(batch[0]) + UpToRefused(batch[1..])
  }

  /** The messages of the first k frames. */
  function MessagesOf(batch: seq<Frame>, k: nat): (ms: seq<Message>)
    requires AllInRange(batch) && k <= |batch|
    ensures |ms| == k && forall i :: 0 <= i < k ==> ms[i] == FrameMessage(batch[i])
  {
    seq(k, i requires 0 <= i < k => FrameMessage(batch[i]))
  }

  lemma MessagesOfTail(batch: seq<Frame>, k: nat)
    requires AllInRange(batch) && k < |batch|
    ensures AllInRange(batch[1..]) && MessagesOf(batch, k + 1)[1..] == MessagesOf(batch[1..], k)
  {
    assert forall i :: 0 <= i < k ==> batch[1..][i] == batch[i + 1];
  }

  /** By place: the batch's messages before the first frame that is refused, each accepted and whole. */
  lemma {:induction false} BatchByPlace(batch: seq<Frame>) returns (k: nat)
    requires AllInRange(batch)
    ensures k <= |batch| && (k < |batch| ==> !Accepted(FrameMessage(batch[k])))
    ensures AllAccepted(MessagesOf(batch, k)) && UpToRefused(batch) == EncodeAll(MessagesOf(batch, k))
  {
    if batch == [] || !Accepted(FrameMessage(batch[0])) {
      k := 0;
    } else {
      var more := BatchByPlace(batch[1..]);
      k := more + 1;
      MessagesOfTail(batch, more);
    }
  }

  method WritePiece(writer: Writer, f: Frame) returns (r: WriteResult)
    requires FieldsInRange(f)
    modifies writer
    ensures !r.WriteError? ==> writer.out == old(writer.out) + Piece(f)
    ensures r.WriteError? ==> old(writer.out) <= writer.out <= old(writer.out) + Piece(f)
    ensures r.TooLarge? <==> Piece(f) == []
    ensures writer.failed == (old(writer.failed) || r.WriteError?)
  {
    ghost var before := writer.out;
    r := writer.WriteFrame(f);
    assert before + [] == before;
  }

  /** One frame of a batch: `left` is what the batch still puts out from it on, `rest` what comes after it. */
  method WriteNext(writer: Writer, f: Frame, ghost before: seq<byte>, ghost written: seq<byte>,
                   ghost left: seq<byte>, ghost rest: seq<byte>)
    returns (r: WriteResult, ghost written': seq<byte>)
    requires FieldsInRange(f) && writer.out == before + written
    requires left == if Piece(f) == [] then [] else Piece(f) + rest
    modifies writer
    ensures writer.failed == (old(writer.failed) || r.WriteError?)
    ensures r.Written? ==> writer.out == before + written' && written' + rest == written + left
    ensures r.TooLarge? ==> left == [] && writer.out == before + written
    ensures r.WriteError? ==> before <= writer.out <= before + (written + left)
  {
    ghost var e := Piece(f);
    r := WritePiece(writer, f);
    written' := written + e;
    Regroup(before, written, e, rest);
    assert before + written + [] == before + written;
  }

  lemma Regroup(before: seq<byte>, written: seq<byte>, e: seq<byte>, rest: seq<byte>)
    ensures before + written + e == before + (written + e)
    ensures written + (e + rest) == written + e + rest
    ensures before <= before + written && before + written + e <= before + (written + (e + rest))
  {
  }

  /** `frame_sink`: write each frame of the batch, and give up on the rest at the first that fails. */
  method FrameSink(writer: Writer, batch: seq<Frame>) returns (ioError: bool)
    requires AllInRange(batch)
    modifies writer
    ensures var all := UpToRefused(batch);
            && (!ioError ==> writer.out == old(writer.out) + all)
            && (ioError ==> old(writer.out) <= writer.out <= old(writer.out) + all)
    ensures writer.failed == (old(writer.failed) || ioError)
  {
    ghost var all, before, written: seq<byte> := UpToRefused(batch), writer.out, [];
    for i := 0 to |batch|
      invariant writer.out == before + written && written + UpToRefused(batch[i..]) == all
      invariant writer.failed == old(writer.failed)
    {
      assert batch[i..][1..] == batch[i + 1..];
      var r: WriteResult;
      ghost var written';
      r, written' := WriteNext(writer, batch[i], before, written, UpToRefused(batch[i..]), UpToRefused(batch[i + 1..]));
      if r.TooLarge? { return false; }
      if r.WriteError? { return true; }
      written := written';
    }
    return false;
  }

  /**
   The batch of one that the streaming loop passes is written whole, or dropped whole if too large, if
   and only if the narrowing cast does not distort its length.
   */
  lemma BatchOfOne(f: Frame)
    requires FieldsInRange(f)
    ensures (if |f.data| <= MAX_FRAME_BYTES - 27
             then Accepted(FrameMessage(f)) && UpToRefused([f]) == Encode(FrameMessage(f))
             else UpToRefused([f]) == [])
       <==> Undistorted(26 + |f.data|)
  {
    FrameFitsIff(f);
    assert [f][1..] == [] && Piece(f) + [] == Piece(f);
  }
}
