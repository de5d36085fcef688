/** The sidecar's main loop: the handshake, the map of sessions, and who closes an engine. */
module Dispatcher {
  import opened Bytes
  import opened Wrappers
  import opened Framing
  import opened Proto

  const ABI: nat := 1

  /** What a control message says, once its JSON is decoded; an input is opaque here. */
  datatype HostMsg =
    | Hello(abi: nat)
    | Connect(session: nat)
    | Input(session: nat, input: seq<byte>)
    | Resize(session: nat)
    | FrameAck(session: nat)
    | Close(session: nat)
    | Shutdown

  // ---- what each message does, on values ----

  /** An engine's history: the id it was created for, how often it was closed, and what it was sent. */
  datatype Record = Record(session: nat, closes: nat, inputs: seq<seq<byte>>)

  /** Every engine ever created, and which of them the map holds, by position. */
  datatype Desk = Desk(open: map<nat, nat>, engines: seq<Record>)

  ghost predicate Sound(d: Desk) {
    && (forall id :: id in d.open ==> d.open[id] < |d.engines| && d.engines[d.open[id]].session == id)
    && (forall k :: 0 <= k < |d.engines| ==> (d.engines[k].closes == 0 <==> IsOpen(d, k)))
  }

  predicate IsOpen(d: Desk, k: nat)
    requires k < |d.engines|
  {
    d.engines[k].session in d.open && d.open[d.engines[k].session] == k
  }

  function CloseAt(es: seq<Record>, k: nat, times: nat): seq<Record>
    requires k < |es|
  {
    es[k := es[k].(closes := es[k].closes + times)]
  }

  function Fed(es: seq<Record>, k: nat, x: seq<byte>): seq<Record>
    requires k < |es|
  {
    es[k := es[k].(inputs := es[k].inputs + [x])]
  }

  /** A replaced engine is dropped, and closed by its Drop. */
  function Replaced(d: Desk, id: nat): (es: seq<Record>)
    requires Sound(d)
    ensures |es| == |d.engines|
  {
    if id in d.open then CloseAt(d.engines, d.open[id], 1) else d.engines
  }

  function Handle(d: Desk, m: HostMsg): Desk
    requires Sound(d)
  {
    match m
    case Connect(id) =>
      Desk(d.open[id := |d.engines|], Replaced(d, id) + [Record(id, 0, [])])
    case Input(id, x) =>
      if id !in d.open then d else d.(engines := Fed(d.engines, d.open[id], x))
    case Close(id) =>
      // closed, then dropped
      if id !in d.open then d else Desk(d.open - {id}, CloseAt(d.engines, d.open[id], 2))
    case _ => d
  }

  lemma ConnectSound(d: Desk, id: nat)
    requires Sound(d)
    ensures Sound(Handle(d, Connect(id)))
  {
  }

  lemma CloseSound(d: Desk, id: nat)
    requires Sound(d)
    ensures Sound(Handle(d, Close(id)))
  {
  }

  lemma HandleSound(d: Desk, m: HostMsg)
    requires Sound(d)
    ensures Sound(Handle(d, m))
  {
    match m
    case Connect(id) => ConnectSound(d, id);
    case Close(id) => CloseSound(d, id);
    case _ =>
  }

  function Play(d: Desk, ms: seq<HostMsg>): (d': Desk)
    requires Sound(d)
    ensures Sound(d')
    decreases |ms|
  {
    if ms == [] then d
    else
      HandleSound(d, ms[0]);
      Play(Handle(d, ms[0]), ms[1..])
  }

  lemma PlayOne(d: Desk, m: HostMsg, ms: seq<HostMsg>)
    requires Sound(d)
    ensures Sound(Handle(d, m)) && Play(d, [m] + ms) == Play(Handle(d, m), ms)
  {
    HandleSound(d, m);
    assert ([m] + ms)[1..] == ms;
  }

  const EMPTY: Desk := Desk(map[], [])

  /** How the loop ended: `shutdown`, the end of input, or an error that `?` returned. */
  datatype Ending = Stopped | Eof | Fault

  /** On the way out every engine still in the map is closed and dropped, or only dropped after an error. */
  function Finish(d: Desk, e: Ending): seq<Record> { FinishBut(d, {}, e) }

  function Times(e: Ending): nat { if e.Fault? then 1 else 2 }

  /** The same while these ids are still in the map. */
  function FinishBut(d: Desk, still: set<nat>, e: Ending): seq<Record> {
    seq(|d.engines|, k requires 0 <= k < |d.engines| =>
      var r := d.engines[k];
      if IsOpen(d, k) && r.session !in still then r.(closes := r.closes + Times(e)) else r)
  }

  /** The map as only the messages say it: `k` is the latest engine connected under `id`, and not closed since. */
  ghost predicate OpenAt(ms: seq<HostMsg>, id: nat, k: nat) {
    exists i :: 0 <= i < |ms| && ms[i] == Connect(id) && Connects(ms[..i]) == k && Untouched(ms, i, id)
  }

  ghost predicate Untouched(ms: seq<HostMsg>, i: nat, id: nat) {
    forall j :: i < j < |ms| ==> ms[j] != Connect(id) && ms[j] != Close(id)
  }

  function Connects(ms: seq<HostMsg>): nat {
    if ms == [] then 0 else Connects(ms[..|ms| - 1]) + if ms[|ms| - 1].Connect? then 1 else 0
  }

  lemma {:induction false} PlayLast(d: Desk, ms: seq<HostMsg>, m: HostMsg)
    requires Sound(d)
    ensures Play(d, ms + [m]) == Handle(Play(d, ms), m)
    decreases |ms|
  {
    if ms == [] {
      assert ms + [m] == [m] && [m][1..] == [];
      HandleSound(d, m);
    } else {
      assert (ms + [m])[0] == ms[0] && (ms + [m])[1..] == ms[1..] + [m];
      HandleSound(d, ms[0]);
      PlayLast(Handle(d, ms[0]), ms[1..], m);
    }
  }

  lemma OpenAtStep(ms: seq<HostMsg>, m: HostMsg, id: nat, k: nat)
    ensures OpenAt(ms + [m], id, k)
       <==> if m == Connect(id) then k == Connects(ms) else OpenAt(ms, id, k) && m != Close(id)
  {
    var ms' := ms + [m];
    if m == Connect(id) {
      assert ms'[..|ms|] == ms;
      if k == Connects(ms) { assert ms'[|ms|] == Connect(id) && Untouched(ms', |ms|, id); }
    } else {
      if OpenAt(ms', id, k) {
        var i :| 0 <= i < |ms'| && ms'[i] == Connect(id) && Connects(ms'[..i]) == k && Untouched(ms', i, id);
        assert i < |ms| && ms'[..i] == ms[..i];
        assert forall j :: i < j < |ms| ==> ms[j] == ms'[j];
        assert m == ms'[|ms|];
      }
      if OpenAt(ms, id, k) && m != Close(id) {
        var i :| 0 <= i < |ms| && ms[i] == Connect(id) && Connects(ms[..i]) == k && Untouched(ms, i, id);
        assert ms'[..i] == ms[..i] && Untouched(ms', i, id);
      }
    }
  }

  /** After any messages the map holds exactly the latest engine of each id connected and not closed since. */
  lemma {:induction false} MapHoldsLatest(ms: seq<HostMsg>, id: nat, k: nat)
    ensures |Play(EMPTY, ms).engines| == Connects(ms)
    ensures var open := Play(EMPTY, ms).open;
            id in open && open[id] == k <==> OpenAt(ms, id, k)
  {
    if ms == [] {
    } else {
      var before, m := ms[..|ms| - 1], ms[|ms| - 1];
      assert ms == before + [m];
      MapHoldsLatest(before, id, k);
      PlayLast(EMPTY, before, m);
      OpenAtStep(before, m, id, k);
    }
  }

  /** The inputs for `id` up to its next connect or close. */
  function InputsUntilGone(ms: seq<HostMsg>, id: nat): seq<seq<byte>> {
    if ms == [] || ms[0] == Connect(id) || ms[0] == Close(id) then []
    else (if ms[0].Input? && ms[0].session == id then [ms[0].input] else []) + InputsUntilGone(ms[1..], id)
  }

  /** One engine's future: it keeps its id, its closes only grow, and while it is the current one it gets the inputs. */
  predicate Routed(d: Desk, d': Desk, ms: seq<HostMsg>, k: nat)
    requires k < |d.engines|
  {
    var r := d.engines[k];
    && k < |d'.engines|
    && d'.engines[k].session == r.session && d'.engines[k].closes >= r.closes
    && d'.engines[k].inputs == r.inputs + if IsOpen(d, k) then InputsUntilGone(ms, r.session) else []
  }

  lemma {:induction false} Routing(d: Desk, ms: seq<HostMsg>, k: nat)
    requires Sound(d) && k < |d.engines|
    ensures Routed(d, Play(d, ms), ms, k)
    decreases |ms|
  {
    if ms == [] {
    } else {
      HandleSound(d, ms[0]);
      RoutingOne(d, ms[0], k);
      Routing(Handle(d, ms[0]), ms[1..], k);
      RoutingMore(d, Handle(d, ms[0]), Play(d, ms), ms, k);
    }
  }

  predicate RoutedOne(d: Desk, d': Desk, m: HostMsg, k: nat)
    requires k < |d.engines|
  {
    var r := d.engines[k];
    && k < |d'.engines|
    && d'.engines[k].session == r.session && d'.engines[k].closes >= r.closes
    && d'.engines[k].inputs == r.inputs + (if IsOpen(d, k) && m.Input? && m.session == r.session then [m.input] else [])
    && (IsOpen(d', k) <==> IsOpen(d, k) && m != Connect(r.session) && m != Close(r.session))
  }

  lemma RoutingOne(d: Desk, m: HostMsg, k: nat)
    requires Sound(d) && k < |d.engines|
    ensures RoutedOne(d, Handle(d, m), m, k)
  {
  }

  lemma RoutingMore(d: Desk, d1: Desk, d2: Desk, ms: seq<HostMsg>, k: nat)
    requires ms != [] && k < |d.engines| && RoutedOne(d, d1, ms[0], k) && Routed(d1, d2, ms[1..], k)
    ensures Routed(d, d2, ms, k)
  {
  }

  /** The engine of the i-th message gets exactly the inputs for its id before the id is connected again or closed. */
  lemma InputsReachTheCurrentEngine(ms: seq<HostMsg>, i: nat)
    requires i < |ms| && ms[i].Connect?
    ensures var k, es := Connects(ms[..i]), Play(EMPTY, ms).engines;
            k < |es| && es[k].session == ms[i].session && es[k].inputs == InputsUntilGone(ms[i + 1..], ms[i].session)
  {
    var d := Play(EMPTY, ms[..i]);
    MapHoldsLatest(ms[..i], 0, 0);
    HandleSound(d, ms[i]);
    PlaySplit(EMPTY, ms, i);
    PlayOne(d, ms[i], ms[i + 1..]);
    assert [ms[i]] + ms[i + 1..] == ms[i..];
    Routing(Handle(d, ms[i]), ms[i + 1..], Connects(ms[..i]));
  }

  lemma {:induction false} PlaySplit(d: Desk, ms: seq<HostMsg>, i: nat)
    requires Sound(d) && i <= |ms|
    ensures Play(d, ms) == Play(Play(d, ms[..i]), ms[i..])
    decreases i
  {
    if i == 0 {
      assert ms[..0] == [] && ms[0..] == ms;
    } else {
      HandleSound(d, ms[0]);
      PlaySplit(Handle(d, ms[0]), ms[1..], i - 1);
      assert ms[..i][1..] == ms[1..][..i - 1] && ms[1..][i - 1..] == ms[i..];
    }
  }

  /**
   However the loop ends, by shutdown, end of input or error: there is one engine for each connect,
   and every one of them has been closed.
   */
  lemma EveryEngineClosed(ms: seq<HostMsg>, e: Ending)
    ensures var es := Finish(Play(EMPTY, ms), e);
            |es| == Connects(ms) && forall k :: 0 <= k < |es| ==> es[k].closes >= 1
  {
    MapHoldsLatest(ms, 0, 0);
  }

  /**
   How often an engine is closed from here on: by its Drop alone when its id is connected again or an
   error ends the loop, by `close` and then its Drop when it is closed or drained.
   */
  function ClosesUntilGone(ms: seq<HostMsg>, id: nat, e: Ending): nat {
    if ms == [] then if e == Fault then 1 else 2
    else if ms[0] == Connect(id) then 1
    else if ms[0] == Close(id) then 2
    else ClosesUntilGone(ms[1..], id, e)
  }

  lemma ClosingOne(d: Desk, m: HostMsg, k: nat)
    requires Sound(d) && k < |d.engines|
    ensures var id, d' := d.engines[k].session, Handle(d, m);
            && k < |d'.engines|
            && d'.engines[k].closes
               == if !IsOpen(d, k) then d.engines[k].closes
                  else if m == Connect(id) then 1 else if m == Close(id) then 2 else 0
  {
  }

  lemma {:induction false} Closings(d: Desk, ms: seq<HostMsg>, k: nat, e: Ending)
    requires Sound(d) && k < |d.engines|
    ensures var es := Finish(Play(d, ms), e);
            && k < |es|
            && es[k].closes
               == if IsOpen(d, k) then ClosesUntilGone(ms, d.engines[k].session, e) else d.engines[k].closes
    decreases |ms|
  {
    if ms == [] {
    } else {
      HandleSound(d, ms[0]);
      RoutingOne(d, ms[0], k);
      ClosingOne(d, ms[0], k);
      Closings(Handle(d, ms[0]), ms[1..], k, e);
    }
  }

  /** The engine of the i-th message is closed just as often as its own end calls for. */
  lemma EngineClosedBy(ms: seq<HostMsg>, i: nat, e: Ending)
    requires i < |ms| && ms[i].Connect?
    ensures var k, es := Connects(ms[..i]), Finish(Play(EMPTY, ms), e);
            k < |es| && es[k].closes == ClosesUntilGone(ms[i + 1..], ms[i].session, e)
  {
    var d := Play(EMPTY, ms[..i]);
    MapHoldsLatest(ms[..i], 0, 0);
    HandleSound(d, ms[i]);
    PlaySplit(EMPTY, ms, i);
    PlayOne(d, ms[i], ms[i + 1..]);
    assert [ms[i]] + ms[i + 1..] == ms[i..];
    Closings(Handle(d, ms[i]), ms[i + 1..], Connects(ms[..i]), e);
  }

  /** Before the end, the engines that have not been closed are exactly the latest of their ids, not closed since. */
  lemma UnclosedIsOpen(ms: seq<HostMsg>, k: nat)
    requires k < |Play(EMPTY, ms).engines|
    ensures var d := Play(EMPTY, ms);
            d.engines[k].closes == 0 <==> OpenAt(ms, d.engines[k].session, k)
  {
    MapHoldsLatest(ms, Play(EMPTY, ms).engines[k].session, k);
  }

  lemma FinishNone(d: Desk, still: set<nat>, e: Ending)
    requires Sound(d) && still == d.open.Keys
    ensures FinishBut(d, still, e) == d.engines
  {
  }

  lemma FinishOne(d: Desk, still: set<nat>, id: nat, e: Ending)
    requires Sound(d) && id in still && still <= d.open.Keys
    ensures FinishBut(d, still - {id}, e) == CloseAt(FinishBut(d, still, e), d.open[id], Times(e))
  {
  }

  /** The messages `run` acts on after the handshake, and how they end. */
  datatype Script = Script(msgs: seq<HostMsg>, ending: Ending)

  function ScriptOf(bytes: seq<byte>, faulty: bool, decode: seq<byte> -> Option<HostMsg>): Script
    decreases |bytes|
  {
    NextControlShrinks(bytes, faulty);
    match NextControl(bytes, faulty)
    case End => Script([], Eof)
    case Broken => Script([], Fault)
    case Control(payload, rest) =>
      match decode(payload)
      case None => Script([], Fault)
      case Some(Shutdown) => Script([], Stopped)
      case Some(m) => var more := ScriptOf(rest, faulty, decode); Script([m] + more.msgs, more.ending)
  }

  /**
   A script by place, for these control payloads and whether the stream ended cleanly behind them:
   the messages are the payloads before the first that is a shutdown or cannot be decoded, and that
   one, or the way the stream ended, is the ending.
   */
  predicate Obeys(ps: seq<seq<byte>>, clean: bool, decode: seq<byte> -> Option<HostMsg>, s: Script) {
    var n := |s.msgs|;
    && n <= |ps|
    && (forall k :: 0 <= k < n ==> decode(ps[k]) == Some(s.msgs[k]) && s.msgs[k] != Shutdown)
    && (s.ending == Stopped <==> n < |ps| && decode(ps[n]) == Some(Shutdown))
    && (s.ending == Eof <==> n == |ps| && clean)
    && (s.ending == Fault <==> if n == |ps| then !clean else decode(ps[n]) == None)
  }

  lemma ObeysOneMore(ps: seq<seq<byte>>, clean: bool, decode: seq<byte> -> Option<HostMsg>, m: HostMsg, s: Script)
    requires ps != [] && decode(ps[0]) == Some(m) && m != Shutdown && Obeys(ps[1..], clean, decode, s)
    ensures Obeys(ps, clean, decode, Script([m] + s.msgs, s.ending))
  {
    var n := |s.msgs|;
    assert forall k :: 0 <= k < n ==> ([m] + s.msgs)[k + 1] == s.msgs[k] && ps[1..][k] == ps[k + 1];
    assert n < |ps[1..]| ==> ps[1..][n] == ps[n + 1];
  }

  /** The script of a byte stream, by the places of its control payloads. */
  lemma {:induction false} ScriptByPlace(bytes: seq<byte>, faulty: bool, decode: seq<byte> -> Option<HostMsg>)
    ensures var s := DecodeAll(bytes, faulty);
            Obeys(ControlPayloads(s.messages), s.clean, decode, ScriptOf(bytes, faulty, decode))
    decreases |bytes|
  {
    NextControlShrinks(bytes, faulty);
    NextControlExactly(bytes, faulty);
    match NextControl(bytes, faulty)
    case Control(payload, rest) =>
      ScriptByPlace(rest, faulty, decode);
      var d := decode(payload);
      if d.Some? && d.value != Shutdown {
        var s := DecodeAll(bytes, faulty);
        ObeysOneMore(ControlPayloads(s.messages), s.clean, decode, d.value, ScriptOf(rest, faulty, decode));
      }
    case _ =>
  }

  lemma ObeysToTheEnd(ps: seq<seq<byte>>, clean: bool, decode: seq<byte> -> Option<HostMsg>, a: Script, b: Script)
    requires Obeys(ps, clean, decode, a) && Obeys(ps, clean, decode, b)
    ensures |b.msgs| <= |a.msgs|
  {
    var n := |a.msgs|;
    assert n < |ps| ==> decode(ps[n]) == None || decode(ps[n]) == Some(Shutdown);
  }

  /** There is only one such script. */
  lemma ObeysOnce(ps: seq<seq<byte>>, clean: bool, decode: seq<byte> -> Option<HostMsg>, a: Script, b: Script)
    requires Obeys(ps, clean, decode, a) && Obeys(ps, clean, decode, b)
    ensures a == b
  {
    ObeysToTheEnd(ps, clean, decode, a, b);
    ObeysToTheEnd(ps, clean, decode, b, a);
    assert forall k :: 0 <= k < |a.msgs| ==> Some(a.msgs[k]) == Some(b.msgs[k]);
    assert a.msgs == b.msgs;
  }

  // ---- the program ----

  /** A session engine as the dispatcher sees it: its stop flag and worker handle, and what it was asked. */
  class Engine {
    const session: nat
    var stop: bool
    var handle: bool
    var closes: nat
    var inputs: seq<seq<byte>>

    /** `spawned`: whether the thread could be started. */
    constructor (session: nat, spawned: bool)
      ensures this.session == session && !stop && handle == spawned && closes == 0 && inputs == []
    {
      this.session, stop, handle, closes, inputs := session, false, spawned, 0, [];
    }

    /** `close`, and so `Drop`: idempotent on the flag and the handle. */
    method Close()
      modifies this
      ensures stop && !handle && closes == old(closes) + 1 && inputs == old(inputs)
    {
      stop := true;
      handle := false;
      closes := closes + 1;
    }

    method SendInput(x: seq<byte>)
      modifies this`inputs
      ensures inputs == old(inputs) + [x]
    {
      inputs := inputs + [x];
    }

    predicate Mirrors(r: Record)
      reads this
    {
      && session == r.session && closes == r.closes && inputs == r.inputs
      && (closes > 0 ==> stop && !handle) && (closes == 0 ==> !stop)
    }
  }

  /** Engines and records side by side, the engines all distinct. */
  ghost predicate AllMirror(es: seq<Engine>, rs: seq<Record>)
    reads es
  {
    && |es| == |rs|
    && (forall j, k :: 0 <= j < k < |es| ==> es[j] != es[k])
    && (forall k :: 0 <= k < |es| ==> es[k].Mirrors(rs[k]))
  }

  /** Close one of them, some number of times. */
  method CloseTimes(engine: Engine, times: nat, ghost es: seq<Engine>, ghost k: nat, ghost rs: seq<Record>)
    requires times > 0 && AllMirror(es, rs) && k < |es| && es[k] == engine
    modifies engine
    ensures AllMirror(es, CloseAt(rs, k, times))
  {
    for i := 0 to times
      invariant engine.closes == rs[k].closes + i && engine.inputs == rs[k].inputs
      invariant engine.closes > 0 ==> engine.stop && !engine.handle
      invariant engine.closes == 0 ==> !engine.stop
    {
      engine.Close();
    }
  }

  lemma MirrorOneMore(es: seq<Engine>, rs: seq<Record>, e: Engine, r: Record)
    requires AllMirror(es, rs) && e.Mirrors(r) && forall k :: 0 <= k < |es| ==> es[k] != e
    ensures AllMirror(es + [e], rs + [r])
  {
  }

  /** The map holds the engines at the desk's positions. */
  ghost predicate Points(held: map<nat, Engine>, open: map<nat, nat>, es: seq<Engine>) {
    && held.Keys == open.Keys
    && (forall id :: id in held ==> open[id] < |es| && held[id] == es[open[id]])
  }

  lemma PointOneMore(held: map<nat, Engine>, open: map<nat, nat>, es: seq<Engine>, id: nat, e: Engine)
    requires Points(held, open, es)
    ensures Points(held[id := e], open[id := |es|], es + [e])
  {
  }

  lemma PointOneLess(held: map<nat, Engine>, open: map<nat, nat>, es: seq<Engine>, id: nat)
    requires Points(held, open, es)
    ensures Points(held - {id}, open - {id}, es)
  {
  }

  /** One turn of the drain, or of the drop of the map. */
  method CloseOne(engine: Engine, ghost still: set<nat>, ghost id: nat, e: Ending, ghost es: seq<Engine>, ghost d: Desk)
    requires Sound(d) && id in still && still <= d.open.Keys && d.open[id] < |es| && es[d.open[id]] == engine
    requires AllMirror(es, FinishBut(d, still, e))
    modifies engine
    ensures AllMirror(es, FinishBut(d, still - {id}, e))
  {
    CloseTimes(engine, Times(e), es, d.open[id], FinishBut(d, still, e));
    FinishOne(d, still, id, e);
  }

  method CloseAll(held: map<nat, Engine>, e: Ending, ghost es: seq<Engine>, ghost d: Desk)
    requires Sound(d) && AllMirror(es, d.engines) && Points(held, d.open, es)
    modifies es
    ensures AllMirror(es, Finish(d, e))
  {
    var left := held;
    FinishNone(d, left.Keys, e);
    while left != map[]
      invariant left.Keys <= d.open.Keys && forall id :: id in left ==> left[id] == es[d.open[id]]
      invariant AllMirror(es, FinishBut(d, left.Keys, e))
      decreases left.Keys
    {
      var id :| id in left;
      CloseOne(left[id], left.Keys, id, e, es, d);
      assert (left - {id}).Keys == left.Keys - {id};
      left := left - {id};
    }
    assert left.Keys == {};
  }

  method CloseRemoved(engine: Engine, id: nat, ghost es: seq<Engine>, ghost d: Desk)
    requires Sound(d) && AllMirror(es, d.engines) && id in d.open && es[d.open[id]] == engine
    modifies engine
    ensures AllMirror(es, Handle(d, HostMsg.Close(id)).engines)
  {
    CloseTimes(engine, 2, es, d.open[id], d.engines);
  }

  /** Drop the engine an id is being taken from, if there is one. */
  method DropReplaced(held: map<nat, Engine>, id: nat, ghost es: seq<Engine>, ghost d: Desk)
    requires Sound(d) && AllMirror(es, d.engines) && Points(held, d.open, es)
    modifies es
    ensures AllMirror(es, Replaced(d, id))
  {
    if id in held { CloseTimes(held[id], 1, es, d.open[id], d.engines); }
  }

  class SessionMap {
    var sessions: map<nat, Engine>
    /** Every engine ever created, and what the messages so far make of them. */
    ghost var engines: seq<Engine>
    ghost var desk: Desk
    ghost var footprint: set<Engine>

    ghost predicate Valid()
      reads this, engines
    {
      && Sound(desk)
      && AllMirror(engines, desk.engines)
      && Points(sessions, desk.open, engines)
      && (forall k :: 0 <= k < |engines| ==> engines[k] in footprint)
    }

    constructor ()
      ensures Valid() && desk == EMPTY && fresh(footprint)
    {
      sessions, engines, desk, footprint := map[], [], EMPTY, {};
    }

    method Connect(id: nat)
      requires Valid()
      modifies this, footprint
      ensures Valid() && desk == Handle(old(desk), HostMsg.Connect(id))
      ensures fresh(footprint - old(footprint))
    {
      HandleSound(desk, HostMsg.Connect(id));
      var spawned := *;
      var engine := new Engine(id, spawned);
      DropReplaced(sessions, id, engines, desk);
      ghost var rs := Replaced(desk, id);
      desk := Handle(desk, HostMsg.Connect(id));
      MirrorOneMore(engines, rs, engine, Record(id, 0, []));
      PointOneMore(sessions, old(desk).open, engines, id, engine);
      sessions := sessions[id := engine];
      engines, footprint := engines + [engine], footprint + {engine};
    }

    method Input(id: nat, x: seq<byte>)
      requires Valid()
      modifies this`desk, footprint
      ensures Valid() && desk == Handle(old(desk), HostMsg.Input(id, x))
    {
      HandleSound(desk, HostMsg.Input(id, x));
      if id in sessions { sessions[id].SendInput(x); }
      desk := Handle(desk, HostMsg.Input(id, x));
    }

    method Close(id: nat)
      requires Valid()
      modifies this`desk, this`sessions, footprint
      ensures Valid() && desk == Handle(old(desk), HostMsg.Close(id))
    {
      CloseSound(desk, id);
      if id in sessions {
        PointOneLess(sessions, desk.open, engines, id);
        var engine := sessions[id];
        sessions := sessions - {id};
        CloseRemoved(engine, id, engines, desk);
      }
      desk := Handle(desk, HostMsg.Close(id));
    }

    method Dispatch(m: HostMsg)
      requires Valid()
      modifies this, footprint
      ensures Valid() && desk == Handle(old(desk), m)
      ensures fresh(footprint - old(footprint))
    {
      match m
      case Connect(id) => Connect(id);
      case Input(id, x) => Input(id, x);
      case Close(id) => Close(id);
      case _ =>
    }

    /** Empty the map: `drain` closes each engine before it is dropped, an error return only drops it. */
    method Leave(e: Ending)
      requires Valid()
      modifies this`sessions, footprint
      ensures sessions == map[]
      ensures AllMirror(engines, Finish(desk, e))
    {
      var left := sessions;
      sessions := map[];
      CloseAll(left, e, engines, desk);
    }
  }

  datatype NextMsg = Msg(msg: HostMsg) | Leaving(ending: Ending)

  /** A message in hand and the rest of the script make up this script. */
  predicate Pending(next: NextMsg, rest: Script, whole: Script) {
    match next
    case Msg(m) => whole == Script([m] + rest.msgs, rest.ending)
    case Leaving(e) => whole == Script([], e)
  }

  /** One turn's read: a message to act on, or the way the loop ends. */
  method ReadNext(stdin: Reader, decode: seq<byte> -> Option<HostMsg>) returns (next: NextMsg)
    modifies stdin
    ensures Pending(next, ScriptOf(stdin.bytes, stdin.faulty, decode), ScriptOf(old(stdin.bytes), stdin.faulty, decode))
    ensures next.Msg? ==> |stdin.bytes| < |old(stdin.bytes)|
  {
    var read := ReadControl(stdin);
    if read.Err? { return Leaving(Fault); }
    if read.value.None? { return Leaving(Eof); }
    var decoded := decode(read.value.value);
    if decoded.None? { return Leaving(Fault); }
    if decoded.value.Shutdown? { return Leaving(Stopped); }
    return Msg(decoded.value);
  }

  /** The loop: act on each message until `shutdown`, the end of input or an error. */
  method Serve(stdin: Reader, decode: seq<byte> -> Option<HostMsg>) returns (table: SessionMap, ending: Ending)
    modifies stdin
    ensures fresh(table) && table.Valid() && fresh(table.footprint)
    ensures var script := ScriptOf(old(stdin.bytes), stdin.faulty, decode);
            table.desk == Play(EMPTY, script.msgs) && ending == script.ending
  {
    table := new SessionMap();
    ghost var script := ScriptOf(stdin.bytes, stdin.faulty, decode);
    ghost var left := script;
    var next := ReadNext(stdin, decode);
    while next.Msg?
      invariant fresh(table) && table.Valid() && fresh(table.footprint)
      invariant Play(table.desk, left.msgs) == Play(EMPTY, script.msgs) && left.ending == script.ending
      invariant Pending(next, ScriptOf(stdin.bytes, stdin.faulty, decode), left)
      decreases next.Msg?, |stdin.bytes|
    {
      ghost var before := table.desk;
      table.Dispatch(next.msg);
      left := ScriptOf(stdin.bytes, stdin.faulty, decode);
      PlayOne(before, next.msg, left.msgs);
      next := ReadNext(stdin, decode);
    }
    ending := next.ending;
  }

  /**
   `run`: ready exactly if the first control message is a hello of version 1. Otherwise there are no
   engines, and success only if the stream closes cleanly before any control message. After the
   hello the further control messages are the script, the engines are what it makes of them, and
   every one of them ends stopped and released.
   */
  method Run(stdin: Reader, decode: seq<byte> -> Option<HostMsg>)
    returns (ok: bool, ready: bool, ghost engines: seq<Engine>, ghost served: Script)
    modifies stdin
    ensures var s := DecodeAll(old(stdin.bytes), stdin.faulty);
            var ps := ControlPayloads(s.messages);
            && (ready <==> ps != [] && decode(ps[0]) == Some(Hello(1)))
            && (!ready ==> engines == [] && (ok <==> ps == [] && s.clean))
            && (ready ==>
                  && Obeys(ps[1..], s.clean, decode, served)
                  && (ok <==> served.ending != Fault)
                  && AllMirror(engines, Finish(Play(EMPTY, served.msgs), served.ending)))
    ensures forall k :: 0 <= k < |engines| ==> engines[k].stop && !engines[k].handle && engines[k].closes >= 1
  {
    ok, ready, engines, served := false, false, [], Script([], Fault);
    NextControlExactly(stdin.bytes, stdin.faulty);
    var first := ReadControl(stdin);
    if first.Err? { return; }
    if first.value.None? { ok := true; return; }
    if decode(first.value.value) != Some(Hello(ABI)) { return; }
    ready := true;
    ScriptByPlace(stdin.bytes, stdin.faulty, decode);
    served := ScriptOf(stdin.bytes, stdin.faulty, decode);
    var table, ending := Serve(stdin, decode);
    table.Leave(ending);
    engines := table.engines;
    ok := !ending.Fault?;
  }
}
