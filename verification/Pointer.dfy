/** The pointer branch of `send_input`: a button mask on every input, a press or release on every change. */
module Pointer {
  import opened Bytes

  const ACTION_PRESS: int := 7
  const ACTION_RELEASE: int := 8

  /** The buttons a pointer mask has a bit for; the other five bits mean nothing. */
  datatype Button = Left | Middle | Right

  function Mask(b: Button): nat { match b case Left => 1 case Middle => 2 case Right => 4 }

  function Code(b: Button): int { match b case Left => 1 case Middle => 2 case Right => 3 }

  predicate Down(buttons: byte, b: Button) { buttons / Mask(b) % 2 == 1 }

  /** What the C core is told. */
  datatype Sent =
    | Moved(x: int, y: int, refWidth: int, refHeight: int)
    | Clicked(action: int, code: int)

  /** `v as c_short` */
  function AsShort(v: nat): int
    requires v < TWO16
  {
    if v < TWO16 / 2 then v else v - TWO16
  }

  /** The same sixteen bits, read as a signed number. */
  lemma AsShortIsModulo(v: nat)
    requires v < 0x1_0000
    ensures (v - AsShort(v)) % 0x1_0000 == 0 && -0x8000 <= AsShort(v) < 0x8000
  {
  }

  // ---- what is promised of a run ----

  function LastMask(masks: seq<byte>): byte { if masks == [] then 0 else masks[|masks| - 1] }

  /** The button events of a log. */
  function Clicks(log: seq<Sent>): seq<Sent> {
    if log == [] then []
    else Clicks(log[..|log| - 1]) + if log[|log| - 1].Clicked? then [log[|log| - 1]] else []
  }

  /** The events with one code. */
  function OfCode(code: int, log: seq<Sent>): seq<Sent> {
    if log == [] then []
    else
      var e := log[|log| - 1];
      OfCode(code, log[..|log| - 1]) + if e.Clicked? && e.code == code then [e] else []
  }

  /** The events of one button. */
  function Of(b: Button, log: seq<Sent>): seq<Sent> { OfCode(Code(b), log) }

  /** Press (7), release (8), press, … */
  predicate Alternates(events: seq<Sent>) {
    forall i :: 0 <= i < |events| ==>
      events[i].Clicked? && events[i].action == if i % 2 == 0 then 7 else 8
  }

  function After(e: Sent, held: set<int>): set<int> {
    if e.Moved? then held else if e.action == 7 then held + {e.code} else held - {e.code}
  }

  /** What a receiver holds down after replaying the log. */
  function Replay(log: seq<Sent>): set<int> {
    if log == [] then {}
    else
      var held := Replay(log[..|log| - 1]);
      After(log[|log| - 1], held)
  }

  function Differs(a: byte, b: byte, k: Button): nat { if Down(a, k) != Down(b, k) then 1 else 0 }

  /** In how many of the three bits consecutive masks differ, summed over the run from 0. */
  function Changes(masks: seq<byte>): nat {
    if masks == [] then 0
    else
      var prev, now := LastMask(masks[..|masks| - 1]), masks[|masks| - 1];
      Changes(masks[..|masks| - 1]) + Differs(prev, now, Left) + Differs(prev, now, Middle) + Differs(prev, now, Right)
  }

  // ---- the events of one input ----

  function Edge(prev: byte, now: byte, b: Button): seq<Sent> {
    if Down(prev, b) == Down(now, b) then []
    else [Clicked(if Down(now, b) then ACTION_PRESS else ACTION_RELEASE, Code(b))]
  }

  function Edges(prev: byte, now: byte, bs: seq<Button>): seq<Sent> {
    if bs == [] then [] else Edges(prev, now, bs[..|bs| - 1]) + Edge(prev, now, bs[|bs| - 1])
  }

  const BUTTONS: seq<Button> := [Left, Middle, Right]

  class Session {
    const refWidth: nat
    const refHeight: nat
    var lastButtons: byte
    /** What has gone out, in order. */
    var log: seq<Sent>
    /** The masks that have come in. */
    ghost var masks: seq<byte>

    ghost predicate Valid()
      reads this
    {
      && refWidth < TWO16 && refHeight < TWO16
      && lastButtons == LastMask(masks)
      && Clean(log, masks)
    }

    constructor (refWidth: nat, refHeight: nat)
      requires refWidth < TWO16 && refHeight < TWO16
      ensures Valid() && masks == [] && log == []
    {
      this.refWidth, this.refHeight := refWidth, refHeight;
      lastButtons, log, masks := 0, [], [];
    }

    method SendPointer(x: nat, y: nat, buttons: byte)
      requires Valid() && x < TWO16 && y < TWO16
      modifies this
      ensures Valid() && masks == old(masks) + [buttons] && lastButtons == buttons
      ensures log == old(log) + [Moved(AsShort(x), AsShort(y), AsShort(refWidth), AsShort(refHeight))]
                     + Edges(old(lastButtons), buttons, BUTTONS)
    {
      log := log + [Moved(AsShort(x), AsShort(y), AsShort(refWidth), AsShort(refHeight))];
      ghost var moved := log;
      var prev := lastButtons;
      lastButtons := buttons;
      SendClicks(prev, buttons);
      CleanMove(old(log), masks, Moved(AsShort(x), AsShort(y), AsShort(refWidth), AsShort(refHeight)));
      CleanEdges(moved, masks, buttons);
      masks := masks + [buttons];
    }

    /** The loop over the three masks. */
    method SendClicks(prev: byte, buttons: byte)
      modifies this`log
      ensures log == old(log) + Edges(prev, buttons, BUTTONS)
    {
      for k := 0 to |BUTTONS|
        invariant log == old(log) + Edges(prev, buttons, BUTTONS[..k])
      {
        assert BUTTONS[..k + 1][..k] == BUTTONS[..k];
        var was := prev / Mask(BUTTONS[k]) % 2 == 1;
        var now := buttons / Mask(BUTTONS[k]) % 2 == 1;
        if now != was {
          var action := if now then ACTION_PRESS else ACTION_RELEASE;
          log := log + [Clicked(action, Code(BUTTONS[k]))];
        }
      }
      assert BUTTONS[..|BUTTONS|] == BUTTONS;
    }
  }

  // ---- what every run keeps ----

  /** For each button: strict alternation from a press, ending as the mask says. */
  predicate Tracks(b: Button, log: seq<Sent>, down: bool) {
    && Alternates(Of(b, log))
    && (|Of(b, log)| % 2 == 1 <==> down)
    && (Code(b) in Replay(log) <==> down)
  }

  predicate Clean(log: seq<Sent>, masks: seq<byte>) {
    && (forall b: Button :: Tracks(b, log, Down(LastMask(masks), b)))
    && KnownCodes(log)
    && |Clicks(log)| == Changes(masks)
  }

  lemma AppendOne(log: seq<Sent>, e: Sent)
    ensures Clicks(log + [e]) == Clicks(log) + if e.Clicked? then [e] else []
    ensures forall b: Button :: Of(b, log + [e]) == Of(b, log) + if e.Clicked? && e.code == Code(b) then [e] else []
    ensures Replay(log + [e]) == After(e, Replay(log))
  {
    assert (log + [e])[..|log|] == log;
  }

  lemma CleanMove(log: seq<Sent>, masks: seq<byte>, e: Sent)
    requires Clean(log, masks) && e.Moved?
    ensures Clean(log + [e], masks)
  {
    AppendOne(log, e);
  }

  predicate KnownCodes(log: seq<Sent>) { Replay(log) <= {Code(Left), Code(Middle), Code(Right)} }

  /** One button's edge brings that button from the old mask to the new one and leaves the others alone. */
  lemma TrackEdge(log: seq<Sent>, prev: byte, now: byte, b: Button, c: Button, down: bool)
    requires Tracks(c, log, down) && (b == c ==> down == Down(prev, c))
    ensures Tracks(c, log + Edge(prev, now, b), if b == c then Down(now, c) else down)
  {
    if Down(prev, b) != Down(now, b) {
      var e := Edge(prev, now, b)[0];
      AppendOne(log, e);
    } else {
      assert log + Edge(prev, now, b) == log;
    }
  }

  lemma CountEdge(log: seq<Sent>, prev: byte, now: byte, b: Button)
    requires KnownCodes(log)
    ensures var log' := log + Edge(prev, now, b);
            KnownCodes(log') && |Clicks(log')| == |Clicks(log)| + Differs(prev, now, b)
  {
    if Down(prev, b) != Down(now, b) {
      AppendOne(log, Edge(prev, now, b)[0]);
    } else {
      assert log + Edge(prev, now, b) == log;
    }
  }

  function AllEdges(log: seq<Sent>, prev: byte, now: byte): seq<Sent> {
    log + Edge(prev, now, Left) + Edge(prev, now, Middle) + Edge(prev, now, Right)
  }

  lemma TrackEdges(log: seq<Sent>, prev: byte, now: byte, c: Button)
    requires Tracks(c, log, Down(prev, c))
    ensures Tracks(c, AllEdges(log, prev, now), Down(now, c))
  {
    var l1 := log + Edge(prev, now, Left);
    var l2 := l1 + Edge(prev, now, Middle);
    TrackEdge(log, prev, now, Left, c, Down(prev, c));
    TrackEdge(l1, prev, now, Middle, c, if c.Left? then Down(now, c) else Down(prev, c));
    TrackEdge(l2, prev, now, Right, c, if c.Right? then Down(prev, c) else Down(now, c));
  }

  lemma CountEdges(log: seq<Sent>, prev: byte, now: byte)
    requires KnownCodes(log)
    ensures KnownCodes(AllEdges(log, prev, now))
    ensures |Clicks(AllEdges(log, prev, now))|
         == |Clicks(log)| + Differs(prev, now, Left) + Differs(prev, now, Middle) + Differs(prev, now, Right)
  {
    var l1 := log + Edge(prev, now, Left);
    var l2 := l1 + Edge(prev, now, Middle);
    CountEdge(log, prev, now, Left);
    CountEdge(l1, prev, now, Middle);
    CountEdge(l2, prev, now, Right);
  }

  lemma EdgesInOrder(log: seq<Sent>, prev: byte, now: byte)
    ensures log + Edges(prev, now, BUTTONS) == AllEdges(log, prev, now)
  {
    assert BUTTONS[..2] == [Left, Middle] && [Left, Middle][..1] == [Left];
    assert Edges(prev, now, [Left]) == Edge(prev, now, Left);
  }

  /** The events of one input in the protocol's own numbers: the left, the middle, then the right button. */
  lemma EdgesInNumbers(prev: byte, now: byte)
    ensures Edges(prev, now, BUTTONS)
         == (if prev % 2 == now % 2 then [] else [Clicked(if now % 2 == 1 then 7 else 8, 1)])
            + (if prev / 2 % 2 == now / 2 % 2 then [] else [Clicked(if now / 2 % 2 == 1 then 7 else 8, 2)])
            + (if prev / 4 % 2 == now / 4 % 2 then [] else [Clicked(if now / 4 % 2 == 1 then 7 else 8, 3)])
  {
    EdgesInOrder([], prev, now);
    assert [] + Edges(prev, now, BUTTONS) == Edges(prev, now, BUTTONS);
    assert prev / 1 == prev && now / 1 == now;
  }

  lemma CleanEdges(log: seq<Sent>, masks: seq<byte>, now: byte)
    requires Clean(log, masks)
    ensures Clean(log + Edges(LastMask(masks), now, BUTTONS), masks + [now])
  {
    var prev := LastMask(masks);
    EdgesInOrder(log, prev, now);
    CountEdges(log, prev, now);
    assert (masks + [now])[..|masks|] == masks;
    forall c: Button
      ensures Tracks(c, AllEdges(log, prev, now), Down(LastMask(masks + [now]), c))
    {
      assert Tracks(c, log, Down(prev, c));
      TrackEdges(log, prev, now, c);
    }
  }

  /** What a run amounts to: replaying its log leaves down exactly the buttons of the last mask's three low bits. */
  lemma ReplayIsLastMask(log: seq<Sent>, masks: seq<byte>)
    requires Clean(log, masks)
    ensures Replay(log) == set b: Button | Down(LastMask(masks), b) :: Code(b)
  {
    assert forall b: Button :: Tracks(b, log, Down(LastMask(masks), b));
    forall code | code in Replay(log)
      ensures code in set b: Button | Down(LastMask(masks), b) :: Code(b)
    {
      var b := if code == Code(Left) then Left else if code == Code(Middle) then Middle else Right;
      assert Tracks(b, log, Down(LastMask(masks), b));
    }
  }

  /**
   The whole promise in the protocol's own numbers. The codes 1, 2 and 3 are the left, middle and right
   button, the bits 1, 2 and 4 of a mask: each is held exactly if its bit of the last mask is set, no
   other code is, and each one's events are a press, a release, a press, and so on.
   */
  lemma ButtonsInNumbers(log: seq<Sent>, masks: seq<byte>)
    requires Clean(log, masks)
    ensures var m := if masks == [] then 0 else masks[|masks| - 1];
            && (1 in Replay(log) <==> m % 2 == 1)
            && (2 in Replay(log) <==> m / 2 % 2 == 1)
            && (3 in Replay(log) <==> m / 4 % 2 == 1)
    ensures Replay(log) <= {1, 2, 3}
    ensures Alternates(OfCode(1, log)) && Alternates(OfCode(2, log)) && Alternates(OfCode(3, log))
  {
    var m := LastMask(masks);
    assert Tracks(Left, log, Down(m, Left)) && Tracks(Middle, log, Down(m, Middle));
    assert Tracks(Right, log, Down(m, Right));
    assert m / 1 == m;
  }

  /** And how many events there are: one for each of those three bits that changed, from one mask to the next. */
  lemma CountInBits(log: seq<Sent>, masks: seq<byte>)
    requires Clean(log, masks)
    ensures |Clicks(log)| == BitChanges(masks)
  {
    ChangesAreBitChanges(masks);
  }

  function BitChanges(masks: seq<byte>): nat {
    if masks == [] then 0
    else
      var k := |masks| - 1;
      var a, b := if k == 0 then 0 else masks[k - 1], masks[k];
      BitChanges(masks[..k])
      + (if a % 2 != b % 2 then 1 else 0)
      + (if a / 2 % 2 != b / 2 % 2 then 1 else 0)
      + (if a / 4 % 2 != b / 4 % 2 then 1 else 0)
  }

  lemma {:induction false} ChangesAreBitChanges(masks: seq<byte>)
    ensures Changes(masks) == BitChanges(masks)
  {
    if masks == [] {
    } else {
      var k := |masks| - 1;
      ChangesAreBitChanges(masks[..k]);
      assert LastMask(masks[..k]) == if k == 0 then 0 else masks[k - 1];
    }
  }
}
