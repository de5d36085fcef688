/** The wire format between the sidecar and its host: length-prefixed messages, read and written. */
module Framing {
  import opened Words32
  import opened Bytes
  import opened Wrappers

  const KIND_CONTROL: byte := 1
  const KIND_FRAME: byte := 2
  const MAX_FRAME_BYTES: nat := 32 * 1024 * 1024

  datatype Message = Message(kind: byte, payload: seq<byte>)

  // ---- the format as functions ----

  /**
   The length field `raw` computes: the payload length narrowed to 32 bits, plus one, if that does
   not overflow and stays within the cap.
   */
  function LengthField(n: nat): Option<nat> {
    var narrowed := n % TWO32;
    if narrowed + 1 < TWO32 && narrowed + 1 <= MAX_FRAME_BYTES then Some(narrowed + 1) else None
  }

  predicate Accepted(m: Message) { LengthField(|m.payload|).Some? }

  /** What `raw` writes for a message it accepts. */
  function Encode(m: Message): (b: seq<byte>)
    requires Accepted(m)
    ensures |b| == 5 + |m.payload|
  {
    Le32(LengthField(|m.payload|).value) + [m.kind] + m.payload
  }

  /** What is accepted, in numbers: the cap is 32 MiB, for the payload and the kind byte together. */
  lemma AcceptedInBytes(m: Message)
    ensures Accepted(m) <==> |m.payload| % 0x1_0000_0000 + 1 <= 33_554_432
    ensures Fits(m) <==> |m.payload| + 1 <= 33_554_432
  {
  }

  /** The bytes on the wire: four of length, least significant first, one of kind, and the payload. */
  lemma EncodedBytes(m: Message)
    requires Fits(m)
    ensures Accepted(m)
    ensures var n := |m.payload| + 1;
            Encode(m) == [n % 0x100, n / 0x100 % 0x100, n / 0x1_0000 % 0x100, n / 0x100_0000, m.kind] + m.payload
  {
    Le32Bytes(|m.payload| + 1);
    assert LengthField(|m.payload|) == Some(|m.payload| + 1);
  }

  datatype Read = Got(message: Message, rest: seq<byte>) | Closed | Failed

  /**
   `read_message` on a reader that will deliver these bytes and then end, or fail if `faulty`.
   An end of file inside the length field counts as a clean close.
   */
  function Decode(bytes: seq<byte>, faulty: bool): Read {
    if |bytes| < 4 then if faulty then Failed else Closed
    else
      var len := FromLe(bytes[..4]);
      if len < 1 || len > MAX_FRAME_BYTES then Failed
      else if |bytes| < 4 + len then Failed
      else Got(Message(bytes[4], bytes[5..4 + len]), bytes[4 + len..])
  }

  /** The messages whose length field is their length. */
  predicate Fits(m: Message) { |m.payload| + 1 <= MAX_FRAME_BYTES }

  lemma FitsIsAcceptedAndShort(m: Message)
    ensures Fits(m) <==> Accepted(m) && |m.payload| < TWO32
  {
  }

  /** A message that fits is read back, and the reader stops right behind it. */
  lemma DecodeEncode(m: Message, rest: seq<byte>, faulty: bool)
    requires Fits(m)
    ensures Accepted(m) && Decode(Encode(m) + rest, faulty) == Got(m, rest)
  {
    Header(m, rest, |m.payload|);
    assert m.payload[..|m.payload|] == m.payload && m.payload[|m.payload|..] + rest == rest;
  }

  /** The parts of an encoded message, as a reader that takes n bytes for the payload takes them apart. */
  lemma Header(m: Message, rest: seq<byte>, n: nat)
    requires Accepted(m) && n <= |m.payload|
    ensures var b := Encode(m) + rest;
            && FromLe(b[..4]) == LengthField(|m.payload|).value
            && b[4] == m.kind
            && b[5..5 + n] == m.payload[..n]
            && b[5 + n..] == m.payload[n..] + rest
  {
    var len := LengthField(|m.payload|).value;
    var b := Encode(m) + rest;
    Le32Inverse(len);
    assert b[..4] == Le32(len);
    assert b[5..] == m.payload + rest;
    assert b[5..5 + n] == b[5..][..n] && b[5 + n..] == b[5..][n..];
  }

  /** A payload of n bytes that `raw` gives its true length, or refuses. */
  predicate Undistorted(n: nat) { n < TWO32 || n % TWO32 + 1 > MAX_FRAME_BYTES }

  lemma UndistortedIsFits(m: Message)
    ensures Undistorted(|m.payload|) <==> (Accepted(m) <==> Fits(m))
  {
  }

  /**
   Beyond 2^32 the narrowing cast lets a message through with a length field that is too small:
   the reader gets a shorter payload and is left standing inside the real one.
   */
  lemma NarrowingDesynchronises(m: Message, rest: seq<byte>, faulty: bool)
    requires Accepted(m) && |m.payload| >= TWO32
    ensures var n := |m.payload| % TWO32;
            Decode(Encode(m) + rest, faulty) == Got(Message(m.kind, m.payload[..n]), m.payload[n..] + rest)
  {
    Header(m, rest, |m.payload| % TWO32);
  }

  /** An accepted message is faithfully framed exactly when its payload is shorter than 2^32 bytes. */
  lemma AcceptedReadsBackIff(m: Message, faulty: bool)
    requires Accepted(m)
    ensures Decode(Encode(m), faulty) == Got(m, []) <==> |m.payload| < TWO32
  {
    FitsIsAcceptedAndShort(m);
    assert Encode(m) + [] == Encode(m);
    if Fits(m) {
      DecodeEncode(m, [], faulty);
    } else {
      NarrowingDesynchronises(m, [], faulty);
    }
  }

  lemma InFour(bytes: seq<byte>, n: nat)
    requires 5 <= n <= |bytes|
    ensures bytes == bytes[..4] + [bytes[4]] + bytes[5..n] + bytes[n..]
  {
  }

  /** A message taken out by its length field was encoded that way. */
  lemma TakenOut(bytes: seq<byte>, len: nat)
    requires 4 + len <= |bytes| && FromLe(bytes[..4]) == len && 1 <= len <= MAX_FRAME_BYTES
    ensures var m := Message(bytes[4], bytes[5..4 + len]);
            Fits(m) && Accepted(m) && bytes == Encode(m) + bytes[4 + len..]
  {
    FromLe32Inverse(bytes[..4]);
    InFour(bytes, 4 + len);
  }

  /** Canonicity: whatever is read was encoded in one way only, and at least five bytes were consumed. */
  lemma EncodeDecode(bytes: seq<byte>, faulty: bool)
    requires Decode(bytes, faulty).Got?
    ensures var r := Decode(bytes, faulty);
            && Fits(r.message) && Accepted(r.message)
            && bytes == Encode(r.message) + r.rest
            && |bytes| == |r.rest| + 5 + |r.message.payload|
  {
    TakenOut(bytes, FromLe(bytes[..4]));
  }

  // ---- streams of messages ----

  predicate AllFit(ms: seq<Message>) { forall i :: 0 <= i < |ms| ==> Fits(ms[i]) }

  predicate AllAccepted(ms: seq<Message>) { forall i :: 0 <= i < |ms| ==> Accepted(ms[i]) }

  function EncodeAll(ms: seq<Message>): seq<byte>
    requires AllAccepted(ms)
  {
    if ms == [] then [] else Encode(ms[0]) + EncodeAll(ms[1..])
  }

  datatype Stream = Stream(messages: seq<Message>, clean: bool)

  /** `read_message` until it stops returning messages. */
  function DecodeAll(bytes: seq<byte>, faulty: bool): Stream
    decreases |bytes|
  {
    match Decode(bytes, faulty)
    case Closed => Stream([], true)
    case Failed => Stream([], false)
    case Got(m, rest) =>
      var more := DecodeAll(rest, faulty);
      Stream([m] + more.messages, more.clean)
  }

  /** How many messages lie wholly before a cut. */
  function WholeBefore(ms: seq<Message>, cut: nat): (k: nat)
    requires AllAccepted(ms)
    ensures k <= |ms|
  {
    if ms == [] || cut < |Encode(ms[0])| then 0 else 1 + WholeBefore(ms[1..], cut - |Encode(ms[0])|)
  }

  /** It is the largest number of messages whose encoding the cut leaves whole. */
  lemma {:induction false} WholeBeforeIsLargest(ms: seq<Message>, cut: nat)
    requires AllAccepted(ms)
    ensures var k := WholeBefore(ms, cut);
            && |EncodeAll(ms[..k])| <= cut
            && (k < |ms| ==> cut < |EncodeAll(ms[..k + 1])|)
  {
    if ms == [] {
    } else {
      var n := |Encode(ms[0])|;
      if cut < n {
        assert ms[..1] == [ms[0]] && EncodeAll(ms[..1]) == Encode(ms[0]) + [];
      } else {
        var k := WholeBefore(ms[1..], cut - n);
        WholeBeforeIsLargest(ms[1..], cut - n);
        assert ms[..k + 1][1..] == ms[1..][..k];
        if k + 1 < |ms| { assert ms[..k + 2][1..] == ms[1..][..k + 1]; }
      }
    }
  }

  /**
   Truncation, every case: cut the encoding of any messages anywhere, and the reader sees exactly
   the messages before the cut, then a clean close if at most three bytes are left over, and an
   error otherwise. A reader that fails instead of ending never closes cleanly.
   */
  lemma {:induction false} TruncatedStream(ms: seq<Message>, cut: nat, faulty: bool)
    requires AllFit(ms) && AllAccepted(ms) && cut <= |EncodeAll(ms)|
    ensures |EncodeAll(ms[..WholeBefore(ms, cut)])| <= cut
    ensures var k := WholeBefore(ms, cut);
            var left := cut - |EncodeAll(ms[..k])|;
            DecodeAll(EncodeAll(ms)[..cut], faulty) == Stream(ms[..k], left <= 3 && !faulty)
    decreases |ms|
  {
    WholeBeforeIsLargest(ms, cut);
    if ms == [] {
    } else {
      var first, rest := Encode(ms[0]), EncodeAll(ms[1..]);
      if cut < |first| {
        assert (first + rest)[..cut] == first[..cut];
        TruncatedMessage(ms[0], cut, faulty);
      } else {
        var cut' := cut - |first|;
        assert (first + rest)[..cut] == first + rest[..cut'];
        DecodeAllStep(ms[0], rest[..cut'], faulty);
        TruncatedStream(ms[1..], cut', faulty);
        EncodeAllStep(ms, WholeBefore(ms[1..], cut'));
      }
    }
  }

  lemma DecodeAllStep(m: Message, bytes: seq<byte>, faulty: bool)
    requires Fits(m) && Accepted(m)
    ensures var more := DecodeAll(bytes, faulty);
            DecodeAll(Encode(m) + bytes, faulty) == Stream([m] + more.messages, more.clean)
  {
    DecodeEncode(m, bytes, faulty);
  }

  lemma EncodeAllStep(ms: seq<Message>, k: nat)
    requires AllAccepted(ms) && k < |ms|
    ensures ms[..k + 1] == [ms[0]] + ms[1..][..k]
    ensures |EncodeAll(ms[..k + 1])| == |Encode(ms[0])| + |EncodeAll(ms[1..][..k])|
  {
    assert ms[..k + 1][1..] == ms[1..][..k];
  }

  /** A message cut short is an error once its length field is whole. */
  lemma TruncatedMessage(m: Message, cut: nat, faulty: bool)
    requires Fits(m) && Accepted(m) && cut < |Encode(m)|
    ensures Decode(Encode(m)[..cut], faulty) == if cut <= 3 && !faulty then Closed else Failed
  {
    if cut > 3 {
      var len := |m.payload| + 1;
      Le32Inverse(len);
      assert Encode(m)[..cut][..4] == Le32(len);
    }
  }

  /** Any messages that fit are read back exactly, then the end. */
  lemma StreamRoundTrip(ms: seq<Message>)
    requires AllFit(ms) && AllAccepted(ms)
    ensures DecodeAll(EncodeAll(ms), false) == Stream(ms, true)
  {
    var b := EncodeAll(ms);
    TruncatedStream(ms, |b|, false);
    WholeBeforeIsLargest(ms, |b|);
    AllWhole(ms);
    assert b[..|b|] == b && ms[..|ms|] == ms;
  }

  predicate Short(m: Message) { |m.payload| < TWO32 }

  predicate AllShort(ms: seq<Message>) { forall i :: 0 <= i < |ms| ==> Short(ms[i]) }

  lemma UndistortedIsShort(m: Message)
    ensures Undistorted(|m.payload|) <==> (Accepted(m) ==> Short(m))
  {
  }

  /**
   What is read of accepted messages with any bytes behind them: if all payloads are shorter than 2^32
   bytes, the messages and then whatever those bytes give; if not, something else than the messages.
   */
  lemma {:induction false} ReadsOn(ms: seq<Message>, tail: seq<byte>)
    requires AllAccepted(ms)
    ensures var read := DecodeAll(EncodeAll(ms) + tail, false).messages;
            if AllShort(ms) then read == ms + DecodeAll(tail, false).messages else !(ms <= read)
  {
    if ms == [] {
      assert [] + tail == tail;
    } else {
      var m, rest := ms[0], ms[1..];
      ReadsOn(rest, tail);
      assert Encode(m) + EncodeAll(rest) + tail == Encode(m) + (EncodeAll(rest) + tail);
      assert AllShort(ms) <==> Short(m) && AllShort(rest);
      ReadsOnStep(m, rest, EncodeAll(rest) + tail, DecodeAll(tail, false).messages);
      assert ms == [m] + rest;
    }
  }

  /** One message, and then bytes that are read as `rest` and `more`, or as something else than `rest`. */
  lemma ReadsOnStep(m: Message, rest: seq<Message>, bytes: seq<byte>, more: seq<Message>)
    requires Accepted(m)
    ensures var after, read := DecodeAll(bytes, false).messages, DecodeAll(Encode(m) + bytes, false).messages;
            && (Short(m) && after == rest + more ==> read == [m] + rest + more)
            && ([m] + rest <= read ==> Short(m) && rest <= after)
  {
    var after, read := DecodeAll(bytes, false).messages, DecodeAll(Encode(m) + bytes, false).messages;
    ReadsOne(m, bytes);
    ConsPrefix(m, rest, after, more);
    if [m] + rest <= read { assert read[0] == ([m] + rest)[0]; }
  }

  lemma ReadsOne(m: Message, bytes: seq<byte>)
    requires Accepted(m)
    ensures var read := DecodeAll(Encode(m) + bytes, false).messages;
            if Short(m) then read == [m] + DecodeAll(bytes, false).messages else read != [] && read[0] != m
  {
    FitsIsAcceptedAndShort(m);
    if Short(m) {
      DecodeAllStep(m, bytes, false);
    } else {
      NarrowingDesynchronises(m, bytes, false);
    }
  }

  lemma ConsPrefix(m: Message, rest: seq<Message>, after: seq<Message>, more: seq<Message>)
    ensures after == rest + more ==> [m] + after == [m] + rest + more
    ensures [m] + rest <= [m] + after ==> rest <= after
  {
    assert ([m] + rest)[1..] == rest && ([m] + after)[1..] == after;
  }

  lemma ReadsOnIff(ms: seq<Message>, tail: seq<byte>, more: seq<Message>)
    requires AllAccepted(ms)
    ensures DecodeAll(EncodeAll(ms) + tail, false).messages == ms + more
       <==> AllShort(ms) && DecodeAll(tail, false).messages == more
  {
    ReadsOn(ms, tail);
    var read := DecodeAll(tail, false).messages;
    assert (ms + read)[|ms|..] == read && (ms + more)[|ms|..] == more;
  }

  /** Exactly: what the writer accepts is read back message by message if and only if every payload is short. */
  lemma StreamReadsBackIff(ms: seq<Message>)
    requires AllAccepted(ms)
    ensures DecodeAll(EncodeAll(ms), false).messages == ms <==> AllShort(ms)
  {
    ReadsOn(ms, []);
    assert EncodeAll(ms) + [] == EncodeAll(ms);
  }

  /**
   The first `k` bytes of one message give the message if they are all of it and nothing otherwise,
   if and only if the payload is short or they fall short of what the length field announces.
   */
  lemma CutMessageIff(m: Message, k: nat)
    requires Accepted(m) && k <= |Encode(m)|
    ensures DecodeAll(Encode(m)[..k], false).messages == (if k == |Encode(m)| then [m] else [])
       <==> Short(m) || k < 5 + |m.payload| % TWO32
  {
    var b, n := Encode(m)[..k], |m.payload| % TWO32;
    if 4 <= k {
      Header(m, [], n);
      assert Encode(m) + [] == Encode(m) && b[..4] == Encode(m)[..4];
      if 5 + n <= k {
        assert Decode(b, false).message == Message(m.kind, b[5..5 + n]);
        if Short(m) { assert b == Encode(m) && b[5..5 + n] == m.payload[..n] == m.payload && b[5 + n..] == []; }
      }
    }
  }

  lemma {:induction false} AllWhole(ms: seq<Message>)
    requires AllAccepted(ms)
    ensures WholeBefore(ms, |EncodeAll(ms)|) == |ms|
  {
    if ms == [] {
    } else {
      AllWhole(ms[1..]);
    }
  }

  /** The encoding of message sequences is injective. */
  lemma EncodingInjective(a: seq<Message>, b: seq<Message>)
    requires AllFit(a) && AllFit(b) && AllAccepted(a) && AllAccepted(b)
    requires EncodeAll(a) == EncodeAll(b)
    ensures a == b
  {
    StreamRoundTrip(a);
    StreamRoundTrip(b);
  }

  /** And every stream the reader gets through is the encoding of what it read, up to three stray bytes. */
  lemma {:induction false} CleanStreamIsEncoding(bytes: seq<byte>) returns (stray: seq<byte>)
    requires DecodeAll(bytes, false).clean
    ensures var ms := DecodeAll(bytes, false).messages;
            && AllFit(ms) && AllAccepted(ms) && |stray| <= 3 && bytes == EncodeAll(ms) + stray
    decreases |bytes|
  {
    match Decode(bytes, false)
    case Closed => stray := bytes;
    case Got(m, rest) =>
      EncodeDecode(bytes, false);
      stray := CleanStreamIsEncoding(rest);
      var more := DecodeAll(rest, false).messages;
      assert ([m] + more)[1..] == more;
  }

  /** Up to three bytes behind any messages that fit do not disturb a clean close. */
  lemma {:induction false} StrayBytesAreClean(ms: seq<Message>, stray: seq<byte>)
    requires AllFit(ms) && AllAccepted(ms) && |stray| <= 3
    ensures DecodeAll(EncodeAll(ms) + stray, false) == Stream(ms, true)
  {
    if ms == [] {
      assert [] + stray == stray;
    } else {
      assert Encode(ms[0]) + EncodeAll(ms[1..]) + stray == Encode(ms[0]) + (EncodeAll(ms[1..]) + stray);
      StrayBytesAreClean(ms[1..], stray);
      DecodeAllStep(ms[0], EncodeAll(ms[1..]) + stray, false);
    }
  }

  /**
   Exactly: a stream closes cleanly on these messages if and only if it is their encoding and at most
   three stray bytes.
   */
  lemma CleanCloseIff(bytes: seq<byte>, ms: seq<Message>)
    ensures DecodeAll(bytes, false) == Stream(ms, true)
       <==> AllFit(ms) && AllAccepted(ms) && EncodeAll(ms) <= bytes && |bytes| <= |EncodeAll(ms)| + 3
  {
    if DecodeAll(bytes, false) == Stream(ms, true) {
      var stray := CleanStreamIsEncoding(bytes);
    } else if AllFit(ms) && AllAccepted(ms) && EncodeAll(ms) <= bytes && |bytes| <= |EncodeAll(ms)| + 3 {
      StrayIsRest(bytes, ms);
    }
  }

  lemma StrayIsRest(bytes: seq<byte>, ms: seq<Message>)
    requires AllFit(ms) && AllAccepted(ms) && EncodeAll(ms) <= bytes && |bytes| <= |EncodeAll(ms)| + 3
    ensures DecodeAll(bytes, false) == Stream(ms, true)
  {
    var stray := bytes[|EncodeAll(ms)|..];
    PrefixAndRest(EncodeAll(ms), bytes);
    StrayBytesAreClean(ms, stray);
  }

  lemma PrefixAndRest(a: seq<byte>, b: seq<byte>)
    requires a <= b
    ensures b == a + b[|a|..]
  {
  }

  // ---- control messages ----

  datatype Next = Control(payload: seq<byte>, rest: seq<byte>) | End | Broken

  /** `read_control` before the JSON: other kinds are skipped. */
  function NextControl(bytes: seq<byte>, faulty: bool): Next
    decreases |bytes|
  {
    match Decode(bytes, faulty)
    case Closed => End
    case Failed => Broken
    case Got(m, rest) => if m.kind == KIND_CONTROL then Control(m.payload, rest) else NextControl(rest, faulty)
  }

  /** The payloads of the messages of kind 1. */
  function ControlPayloads(ms: seq<Message>): seq<seq<byte>> {
    if ms == [] then []
    else (if ms[0].kind == 1 then [ms[0].payload] else []) + ControlPayloads(ms[1..])
  }

  lemma {:induction false} NextControlShrinks(bytes: seq<byte>, faulty: bool)
    ensures NextControl(bytes, faulty).Control? ==> |NextControl(bytes, faulty).rest| < |bytes|
    decreases |bytes|
  {
    match Decode(bytes, faulty)
    case Got(m, rest) => NextControlShrinks(rest, faulty);
    case _ =>
  }

  /** The first of them, by what the whole stream holds: a control payload, the clean end, or an error. */
  lemma {:induction false} NextControlExactly(bytes: seq<byte>, faulty: bool)
    ensures var s := DecodeAll(bytes, faulty);
            var ps := ControlPayloads(s.messages);
            match NextControl(bytes, faulty)
            case Control(payload, rest) =>
              var more := DecodeAll(rest, faulty);
              ps != [] && payload == ps[0] && ControlPayloads(more.messages) == ps[1..] && more.clean == s.clean
            case End => ps == [] && s.clean
            case Broken => ps == [] && !s.clean
    decreases |bytes|
  {
    match Decode(bytes, faulty)
    case Got(m, rest) =>
      NextControlExactly(rest, faulty);
      var more := DecodeAll(rest, faulty).messages;
      assert ([m] + more)[1..] == more;
    case _ =>
  }

  /** Every control payload of a stream, by repeated `read_control`. */
  function AllControls(bytes: seq<byte>, faulty: bool): seq<seq<byte>>
    decreases |bytes|
  {
    NextControlShrinks(bytes, faulty);
    match NextControl(bytes, faulty)
    case Control(payload, rest) => [payload] + AllControls(rest, faulty)
    case _ => []
  }

  /** Repeated `read_control` yields exactly the control payloads of the stream, in order. */
  lemma {:induction false} ControlsInOrder(bytes: seq<byte>, faulty: bool)
    ensures AllControls(bytes, faulty) == ControlPayloads(DecodeAll(bytes, faulty).messages)
    decreases |bytes|
  {
    match Decode(bytes, faulty)
    case Got(m, rest) =>
      ControlsInOrder(rest, faulty);
      var more := DecodeAll(rest, faulty).messages;
      assert ([m] + more)[1..] == more;
    case _ =>
  }
}
