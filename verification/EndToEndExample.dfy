/** What the end-to-end theorems ask for can be had, with a frame that the host reads. */
module EndToEndExample {
  import opened Bytes
  import opened Wrappers
  import opened DecodeUnits
  import opened Framing
  import opened EndToEnd
  import Runs = SessionRuns

  /** An encoder of callbacks as two bytes, the kind and the place, and its decoder. */
  function ByteOf(e: S.Event): byte {
    match e
    case IdentityLearned => 0
    case ServiceMessage => 1
    case PairPrompt => 2
    case PairFinished(ok) => if ok then 3 else 4
    case Ready => 5
    case Closed(r) => (match r case Ended => 6 case Failed => 7 case HostTerminated => 8 case Panicked => 9)
    case _ => 10
  }

  function OfByte(b: byte): Option<S.Event> {
    match b
    case 0 => Some(S.IdentityLearned)
    case 1 => Some(S.ServiceMessage)
    case 2 => Some(S.PairPrompt)
    case 3 => Some(S.PairFinished(true))
    case 4 => Some(S.PairFinished(false))
    case 5 => Some(S.Ready)
    case 6 => Some(S.Closed(S.Ended))
    case 7 => Some(S.Closed(S.Failed))
    case 8 => Some(S.Closed(S.HostTerminated))
    case 9 => Some(S.Closed(S.Panicked))
    case _ => None
  }

  lemma OfByteOf(e: S.Event)
    requires IsCallback(e)
    ensures OfByte(ByteOf(e)) == Some(e)
  {
  }

  ghost predicate TwoBytes(json: Encoder) { forall k: nat, e: S.Event :: |json(k, e)| == 2 }

  /** Callbacks of one kind at nearby places have different texts. */
  lemma CodecExists(session: nat) returns (json: Encoder, ear: Ear)
    ensures ear.session == session && Understands(ear, json) && ReadyFits(json) && TwoBytes(json)
    ensures forall k: nat, m: nat, e: S.Event :: k < m < 256 ==> json(k, e) != json(m, e)
  {
    json := (k, e) => [ByteOf(e), k % 256];
    ear := Ear(session, p => if |p| == 2 then OfByte(p[0]) else None);
    forall k: nat, e: S.Event | IsCallback(e)
      ensures ear.read(json(k, e)) == Some(e)
    {
      OfByteOf(e);
    }
    forall k: nat, m: nat, e: S.Event | k < m < 256
      ensures json(k, e) != json(m, e)
    {
      assert json(k, e)[1] == k && json(m, e)[1] == m;
    }
  }

  ghost predicate SmallUnits(us: seq<VideoUnit>) { forall i :: 0 <= i < |us| ==> |us[i].data| <= MAX_FRAME_BYTES - 27 }

  lemma {:induction false} OutgoingFits(v: View, json: Encoder, trace: seq<S.Event>)
    requires InRange(v) && TwoBytes(json) && SmallUnits(Safety.Frames(trace))
    ensures AllFit(Outgoing(v, json, trace))
  {
    if trace == [] {
    } else {
      var k := |trace| - 1;
      var fs, all := Safety.Frames(trace[..k]), Safety.Frames(trace);
      assert forall i :: 0 <= i < |fs| ==> all[i] == fs[i];
      if trace[k].Frame? { assert all[|fs|] == trace[k].unit; }
      OutgoingFits(v, json, trace[..k]);
    }
  }

  /** A worker's messages, all of them within the cap, sent by that worker alone. */
  lemma SentAlone(program: seq<Message>) returns (ls: seq<L.State>, las: seq<L.Action>)
    requires AllFit(program)
    ensures L.IsRun([program], ls, las) && L.WellFormed([program], ls[|las|]) && L.Intact([program], ls[|las|])
    ensures ls[|las|].sent == [|program|]
  {
    forall i | 0 <= i < |program|
      ensures Accepted(program[i]) && Undistorted(|program[i].payload|)
    {
      FitsIsAcceptedAndShort(program[i]);
    }
    ls, las := L.SoloRun(program, |program|);
    L.UndistortedStaysIntact([program], ls, las, |las|);
  }

  /**
   For any chain that is not too large there is a setting in which the host reads its frame off the
   stream, last of all, behind two service messages with different texts.
   */
  lemma SettingExists(v: View, bs: seq<Buffer>, frameType: int)
    returns (ss: seq<S.State>, sas: seq<S.Action>, programs: L.Programs, ls: seq<L.State>, las: seq<L.Action>,
             json: Encoder, ear: Ear)
    requires InRange(v) && AllReadable(bs) && |Concatenation(bs)| <= MAX_FRAME_BYTES - 27
    ensures Setting(S.Config(false), ss, sas, |sas|, programs, ls, las, |las|, 0, v, json, ear)
    ensures Understands(ear, json) && ReadyFits(json)
    ensures json(0, S.ServiceMessage) != json(1, S.ServiceMessage)
    ensures var heard := HearAll(ear, DecodeAll(ls[|las|].out, false).messages);
            && heard != [] && heard[|heard| - 1].Shown?
            && Describes(heard[|heard| - 1].frame, v, (bs, frameType), 0)
  {
    var s := Runs.UpToFrame(bs, frameType);
    json, ear := CodecExists(v.session);
    OneFrame(s.trace);
    ss, sas, programs, ls, las := SettingFor(v, s, json, ear);
    LastHeard(v, json, ear, s.trace);
    FrameDescribes(v, (bs, frameType), 0);
  }

  /** Any reachable trace with small units has a setting in which the host hears all of it. */
  lemma SettingFor(v: View, s: S.State, json: Encoder, ear: Ear)
    returns (ss: seq<S.State>, sas: seq<S.Action>, programs: L.Programs, ls: seq<L.State>, las: seq<L.Action>)
    requires InRange(v) && Runs.Reachable(S.Config(false), s) && SmallUnits(Safety.Frames(s.trace))
    requires ear.session == v.session && TwoBytes(json)
    ensures Setting(S.Config(false), ss, sas, |sas|, programs, ls, las, |las|, 0, v, json, ear)
    ensures HearAll(ear, DecodeAll(ls[|las|].out, false).messages) == HeardOfAll(v, json, ear, s.trace)
  {
    ss, sas :| S.IsRun(S.Config(false), ss, sas) && ss[|ss| - 1] == s;
    OutgoingFits(v, json, s.trace);
    var program := Outgoing(v, json, s.trace);
    programs := [program];
    ls, las := SentAlone(program);
    var p := HostHearsThePrefix(S.Config(false), ss, sas, |sas|, programs, ls, las, |las|, 0, v, json, ear);
    assert s.trace[..p] == s.trace;
  }

  lemma LastHeard(v: View, json: Encoder, ear: Ear, trace: seq<S.Event>)
    requires InRange(v) && trace != [] && trace[|trace| - 1].Frame?
    requires |trace[|trace| - 1].unit.data| <= MAX_FRAME_BYTES - 27
    ensures var heard := HeardOfAll(v, json, ear, trace);
            heard != [] && heard[|heard| - 1] == Shown(FrameOf(v, trace[|trace| - 1].unit))
  {
  }

  /** The one frame of that trace. */
  lemma OneFrame(trace: seq<S.Event>)
    requires |trace| == 6 && trace[5].Frame? && forall i :: 0 <= i < 5 ==> !trace[i].Frame?
    ensures Safety.Frames(trace) == [trace[5].unit]
  {
    NoFrames(trace[..5]);
  }

  lemma {:induction false} NoFrames(trace: seq<S.Event>)
    requires forall i :: 0 <= i < |trace| ==> !trace[i].Frame?
    ensures Safety.Frames(trace) == []
  {
    if trace == [] {
    } else {
      NoFrames(trace[..|trace| - 1]);
    }
  }
}
