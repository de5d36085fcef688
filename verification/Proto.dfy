/** The reader and the writer of the wire protocol, in place, against the functions of Framing. */
module Proto {
  import opened Words32
  import opened Bytes
  import opened Wrappers
  import opened Framing

  // ---- reading ----

  datatype Exact = Full(b: seq<byte>) | UnexpectedEof | IoError

  /** A byte source: it delivers `bytes`, then the end of the file, or a fault. */
  class Reader {
    var bytes: seq<byte>
    const faulty: bool

    constructor (bytes: seq<byte>, faulty: bool)
      ensures this.bytes == bytes && this.faulty == faulty
    {
      this.bytes, this.faulty := bytes, faulty;
    }

    /** `Read::read_exact` */
    method ReadExact(n: nat) returns (r: Exact)
      modifies this
      ensures if n <= |old(bytes)|
              then r == Full(old(bytes)[..n]) && bytes == old(bytes)[n..]
              else r == (if faulty then IoError else UnexpectedEof) && bytes == []
    {
      if n <= |bytes| {
        r := Full(bytes[..n]);
        bytes := bytes[n..];
      } else {
        r := if faulty then IoError else UnexpectedEof;
        bytes := [];
      }
    }
  }

  method ReadMessage(r: Reader) returns (res: Outcome<Option<Message>>)
    modifies r
    ensures match Decode(old(r.bytes), r.faulty)
            case Got(m, rest) => res == Ok(Some(m)) && r.bytes == rest
            case Closed => res == Ok(None)
            case Failed => res == Err
  {
    ghost var all := r.bytes;
    var lenBuf := r.ReadExact(4);
    if lenBuf.UnexpectedEof? { return Ok(None); }
    if lenBuf.IoError? { return Err; }
    var len := FromLe(lenBuf.b);
    if len < 1 || len > MAX_FRAME_BYTES { return Err; }
    var kind := r.ReadExact(1);
    if !kind.Full? { return Err; }
    var payload := r.ReadExact(len - 1);
    if !payload.Full? { return Err; }
    assert all[4..][1..] == all[5..] && all[5..][..len - 1] == all[5..4 + len] && all[5..][len - 1..] == all[4 + len..];
    return Ok(Some(Message(kind.b[0], payload.b)));
  }

  /** `read_control`, up to the JSON: other kinds of message are skipped. */
  method ReadControl(r: Reader) returns (res: Outcome<Option<seq<byte>>>)
    modifies r
    ensures match NextControl(old(r.bytes), r.faulty)
            case Control(payload, rest) => res == Ok(Some(payload)) && r.bytes == rest
            case End => res == Ok(None)
            case Broken => res == Err
    ensures res.Ok? && res.value.Some? ==> |r.bytes| < |old(r.bytes)|
  {
    while true
      invariant NextControl(r.bytes, r.faulty) == NextControl(old(r.bytes), r.faulty)
      invariant |r.bytes| <= |old(r.bytes)|
      decreases |r.bytes|
    {
      var m := ReadMessage(r);
      if m.Err? { return Err; }
      if m.value.None? { return Ok(None); }
      if m.value.value.kind != KIND_CONTROL { continue; }
      return Ok(Some(m.value.value.payload));
    }
  }

  // ---- writing ----

  datatype Frame = Frame(session: nat, frameId: nat, codec: byte, key: bool, width: nat, height: nat,
                         x: nat, y: nat, w: nat, h: nat, sx: nat, sy: nat, data: seq<byte>)

  predicate FieldsInRange(f: Frame) {
    && f.session < TWO32 && f.frameId < TWO32 && f.width < TWO16 && f.height < TWO16
    && f.x < TWO16 && f.y < TWO16 && f.w < TWO16 && f.h < TWO16 && f.sx < TWO16 && f.sy < TWO16
  }

  function Shorts(vs: seq<nat>): (b: seq<byte>)
    requires forall i :: 0 <= i < |vs| ==> vs[i] < TWO16
    ensures |b| == 2 * |vs|
  {
    if vs == [] then [] else Le16(vs[0]) + Shorts(vs[1..])
  }

  /** The u16 fields in wire order. */
  function ShortFields(f: Frame): (vs: seq<nat>)
    ensures |vs| == 8
  {
    [f.width, f.height, f.x, f.y, f.w, f.h, f.sx, f.sy]
  }

  function FrameHeader(f: Frame): (b: seq<byte>)
    requires FieldsInRange(f)
    ensures |b| == 26
  {
    Le32(f.session) + Le32(f.frameId) + [f.codec, if f.key then 1 else 0]
    + Shorts(ShortFields(f))
  }

  /** The FRAME message of a frame: the 26-byte header, then the data. */
  function FrameMessage(f: Frame): Message
    requires FieldsInRange(f)
  {
    Message(KIND_FRAME, FrameHeader(f) + f.data)
  }

  /** The i-th u16 field, which starts at offset 10. */
  function ShortIn(p: seq<byte>, i: nat): nat
    requires |p| >= 26 && i < 8
  {
    FromLe(p[10 + 2 * i..12 + 2 * i])
  }

  /** The header as the host takes it apart, field by field at the offsets of the protocol. */
  function ReadFrame(p: seq<byte>): Frame
    requires |p| >= 26
  {
    Frame(FromLe(p[0..4]), FromLe(p[4..8]), p[8], p[9] % 2 == 1, ShortIn(p, 0), ShortIn(p, 1),
          ShortIn(p, 2), ShortIn(p, 3), ShortIn(p, 4), ShortIn(p, 5), ShortIn(p, 6), ShortIn(p, 7), p[26..])
  }

  lemma SliceAt(a: seq<byte>, b: seq<byte>, i: nat, j: nat)
    requires i <= j <= |b|
    ensures (a + b)[|a| + i..|a| + j] == b[i..j]
  {
  }

  lemma {:induction false} ShortAt(vs: seq<nat>, i: nat)
    requires i < |vs| && forall j :: 0 <= j < |vs| ==> vs[j] < TWO16
    ensures FromLe(Shorts(vs)[2 * i..2 * i + 2]) == vs[i]
  {
    if i == 0 {
      assert Shorts(vs)[0..2] == Le16(vs[0]);
      Le16Inverse(vs[0]);
    } else {
      ShortAt(vs[1..], i - 1);
      SliceAt(Le16(vs[0]), Shorts(vs[1..]), 2 * (i - 1), 2 * (i - 1) + 2);
    }
  }

  lemma HeaderShort(f: Frame, i: nat)
    requires FieldsInRange(f) && i < 8
    ensures ShortIn(FrameMessage(f).payload, i) == ShortFields(f)[i]
  {
    var p, b := FrameMessage(f).payload, Shorts(ShortFields(f));
    var before := Le32(f.session) + Le32(f.frameId) + [f.codec, if f.key then 1 else 0];
    assert p == before + (b + f.data) && |before| == 10;
    SliceAt(before, b + f.data, 2 * i, 2 * i + 2);
    assert (b + f.data)[2 * i..2 * i + 2] == b[2 * i..2 * i + 2];
    ShortAt(ShortFields(f), i);
  }

  /** Every field of the header, the keyframe flag and the data come back. */
  lemma FrameRoundTrip(f: Frame)
    requires FieldsInRange(f)
    ensures ReadFrame(FrameMessage(f).payload) == f && FrameMessage(f).kind == 2
  {
    var p := FrameMessage(f).payload;
    Le32Inverse(f.session);
    Le32Inverse(f.frameId);
    assert p[0..4] == Le32(f.session) && p[4..8] == Le32(f.frameId) && p[26..] == f.data;
    HeaderShort(f, 0);
    HeaderShort(f, 1);
    HeaderShort(f, 2);
    HeaderShort(f, 3);
    HeaderShort(f, 4);
    HeaderShort(f, 5);
    HeaderShort(f, 6);
    HeaderShort(f, 7);
  }

  lemma {:induction false} ShortBytes(vs: seq<nat>, i: nat)
    requires i < |vs| && forall j :: 0 <= j < |vs| ==> vs[j] < TWO16
    ensures Shorts(vs)[2 * i] == vs[i] % 0x100 && Shorts(vs)[2 * i + 1] == vs[i] / 0x100
  {
    Le16Bytes(vs[0]);
    if i == 0 {
    } else {
      ShortBytes(vs[1..], i - 1);
    }
  }

  /** Which bytes a frame is: the header at its offsets, least significant byte first, and the data behind it. */
  lemma FrameBytes(f: Frame)
    requires FieldsInRange(f)
    ensures var p, s, id := FrameMessage(f).payload, f.session, f.frameId;
            var shorts := [f.width, f.height, f.x, f.y, f.w, f.h, f.sx, f.sy];
            && |p| == 26 + |f.data| && p[26..] == f.data
            && p[0..4] == [s % 0x100, s / 0x100 % 0x100, s / 0x1_0000 % 0x100, s / 0x100_0000]
            && p[4..8] == [id % 0x100, id / 0x100 % 0x100, id / 0x1_0000 % 0x100, id / 0x100_0000]
            && p[8] == f.codec && p[9] == (if f.key then 1 else 0)
            && forall i :: 0 <= i < 8 ==> p[10 + 2 * i] == shorts[i] % 0x100 && p[11 + 2 * i] == shorts[i] / 0x100
  {
    var p, shorts := FrameMessage(f).payload, [f.width, f.height, f.x, f.y, f.w, f.h, f.sx, f.sy];
    Le32Bytes(f.session);
    Le32Bytes(f.frameId);
    assert p[0..4] == Le32(f.session) && p[4..8] == Le32(f.frameId) && p[26..] == f.data;
    forall i | 0 <= i < 8
      ensures p[10 + 2 * i] == shorts[i] % 0x100 && p[11 + 2 * i] == shorts[i] / 0x100
    {
      assert shorts == ShortFields(f);
      ShortBytes(shorts, i);
      assert p[10 + 2 * i] == Shorts(shorts)[2 * i] && p[11 + 2 * i] == Shorts(shorts)[2 * i + 1];
    }
  }

  datatype WriteResult = Written | TooLarge | WriteError

  /** Standard output behind the writer: a write may fail after any part of it. */
  class Writer {
    var out: seq<byte>
    /** Whether a write or a flush has ever failed. */
    ghost var failed: bool

    constructor ()
      ensures out == [] && !failed
    {
      out, failed := [], false;
    }

    /** `Write::write_all` */
    method WriteAll(b: seq<byte>) returns (ok: bool)
      modifies this
      ensures failed == (old(failed) || !ok)
      ensures ok ==> out == old(out) + b
      ensures !ok ==> old(out) <= out <= old(out) + b
    {
      if * {
        out := out + b;
        return true;
      }
      var k :| 0 <= k <= |b|;
      out, failed := out + b[..k], true;
      return false;
    }

    /** `Write::flush` */
    method Flush() returns (ok: bool)
      modifies this`failed
      ensures failed == (old(failed) || !ok)
    {
      ok := *;
      failed := failed || !ok;
    }

    /** Each of the three writes leaves a prefix of the message behind, and together they make it up. */
    static lemma Pieces(before: seq<byte>, m: Message)
      requires Accepted(m)
      ensures var len, all := Le32(LengthField(|m.payload|).value), before + Encode(m);
              before + len <= all && before + len + [m.kind] <= all && before + len + [m.kind] + m.payload == all
    {
    }

    /**
     `raw`: three writes and a flush, under the lock. A message over the cap is refused before any
     byte is written; an I/O error leaves a prefix of the message behind.
     */
    method Raw(m: Message) returns (r: WriteResult)
      modifies this
      ensures r.TooLarge? <==> !Accepted(m)
      ensures failed == (old(failed) || r.WriteError?)
      ensures r.TooLarge? ==> out == old(out)
      ensures r.Written? ==> out == old(out) + Encode(m)
      ensures r.WriteError? ==> old(out) <= out <= old(out) + Encode(m)
    {
      var len := LengthField(|m.payload|);
      if len.None? { return TooLarge; }
      Pieces(out, m);
      var ok := WriteAll(Le32(len.value));
      if !ok { return WriteError; }
      ok := WriteAll([m.kind]);
      if !ok { return WriteError; }
      ok := WriteAll(m.payload);
      if !ok { return WriteError; }
      ok := Flush();
      return if ok then Written else WriteError;
    }

    /** `frame`: the header is appended to a buffer field by field, then the data. */
    method WriteFrame(f: Frame) returns (r: WriteResult)
      requires FieldsInRange(f)
      modifies this
      ensures r.TooLarge? <==> !Accepted(FrameMessage(f))
      ensures failed == (old(failed) || r.WriteError?)
      ensures r.TooLarge? ==> out == old(out)
      ensures r.Written? ==> out == old(out) + Encode(FrameMessage(f))
      ensures r.WriteError? ==> old(out) <= out <= old(out) + Encode(FrameMessage(f))
    {
      var buf := HeaderBytes(f);
      buf := buf + f.data;
      r := Raw(Message(KIND_FRAME, buf));
    }

    /** The header, field by field. */
    static method HeaderBytes(f: Frame) returns (buf: seq<byte>)
      requires FieldsInRange(f)
      ensures buf == FrameHeader(f)
    {
      buf := Le32(f.session);
      buf := buf + Le32(f.frameId);
      buf := buf + [f.codec];
      buf := buf + [if f.key then 1 else 0];
      buf := WithShorts(buf, [f.width, f.height, f.x, f.y, f.w, f.h, f.sx, f.sy]);
    }

    /** The loop over the u16 fields. */
    static method WithShorts(head: seq<byte>, vs: seq<nat>) returns (buf: seq<byte>)
      requires forall i :: 0 <= i < |vs| ==> vs[i] < TWO16
      ensures buf == head + Shorts(vs)
    {
      buf := head;
      assert vs[0..] == vs;
      for i := 0 to |vs|
        invariant buf + Shorts(vs[i..]) == head + Shorts(vs)
      {
        OneShort(buf, vs, i);
        buf := buf + Le16(vs[i]);
      }
      assert buf + [] == buf;
    }

    static lemma OneShort(buf: seq<byte>, vs: seq<nat>, i: nat)
      requires i < |vs| && forall j :: 0 <= j < |vs| ==> vs[j] < TWO16
      ensures buf + Le16(vs[i]) + Shorts(vs[i + 1..]) == buf + Shorts(vs[i..])
    {
      assert vs[i..][1..] == vs[i + 1..];
    }
  }

  /**
   Which frames fit: those whose data leaves room for the header and the kind byte. The writer lets
   through exactly those if and only if the narrowing cast does not distort the length.
   */
  lemma FrameFitsIff(f: Frame)
    requires FieldsInRange(f)
    ensures Fits(FrameMessage(f)) <==> |f.data| <= MAX_FRAME_BYTES - 27
    ensures (Accepted(FrameMessage(f)) <==> Fits(FrameMessage(f))) <==> Undistorted(26 + |f.data|)
  {
    UndistortedIsFits(FrameMessage(f));
  }
}
