/** The decode callback: one access unit out of the C core's linked list of buffers. */
module DecodeUnits {
  import opened Bytes
  import opened Wrappers
  import opened Words32

  const VIDEO_FORMAT_H265: int := 0x100
  const FRAME_TYPE_IDR: int := 1

  datatype VideoCodec = H264 | Hevc

  datatype VideoUnit = VideoUnit(codec: VideoCodec, keyFrame: bool, data: seq<byte>)

  /** One list entry: a pointer that may be null, and a signed length. */
  datatype Buffer = Buffer(data: Option<seq<byte>>, length: int)

  /** The C core's promise: a buffer holds at least as many bytes as its length says. */
  predicate Readable(b: Buffer) {
    b.data.Some? && b.length > 0 ==> b.length <= |b.data.value|
  }

  /** Entries with a null pointer or a length that is not positive contribute nothing. */
  function Contribution(b: Buffer): seq<byte>
    requires Readable(b)
  {
    if b.data.None? || b.length <= 0 then [] else b.data.value[..b.length]
  }

  predicate AllReadable(bs: seq<Buffer>) { forall i :: 0 <= i < |bs| ==> Readable(bs[i]) }

  /** The access unit's bytes: every contribution, in list order. */
  function Concatenation(bs: seq<Buffer>): seq<byte>
    requires AllReadable(bs)
  {
    if bs == [] then [] else Contribution(bs[0]) + Concatenation(bs[1..])
  }

  /** `format & VIDEO_FORMAT_H265 != 0` on a two's complement integer: bit 8. */
  function CodecOf(format: int): VideoCodec {
    if format / VIDEO_FORMAT_H265 % 2 == 1 then Hevc else H264
  }

  /** In bits: a 32-bit two's complement integer with bit 8 set. */
  lemma HevcIsBit8(format: int)
    requires -0x8000_0000 <= format < 0x8000_0000
    ensures CodecOf(format).Hevc? <==> Bit(if format >= 0 then format else format + 0x1_0000_0000, 8)
  {
    var u := if format >= 0 then format else format + 0x1_0000_0000;
    BitEight(u);
    assert u / 0x100 % 2 == format / 0x100 % 2;
  }

  lemma BitEight(u: nat)
    ensures Bit(u, 8) <==> u / 0x100 % 2 == 1
  {
    var u1, u2, u3, u4 := u / 2, u / 4, u / 8, u / 16;
    var u5, u6, u7, u8 := u / 32, u / 64, u / 128, u / 256;
    assert u1 / 2 == u2 && u2 / 2 == u3 && u3 / 2 == u4 && u4 / 2 == u5;
    assert u5 / 2 == u6 && u6 / 2 == u7 && u7 / 2 == u8;
    assert Bit(u, 8) == Bit(u1, 7) && Bit(u1, 7) == Bit(u2, 6) && Bit(u2, 6) == Bit(u3, 5) && Bit(u3, 5) == Bit(u4, 4);
    assert Bit(u4, 4) == Bit(u5, 3) && Bit(u5, 3) == Bit(u6, 2) && Bit(u6, 2) == Bit(u7, 1) && Bit(u7, 1) == Bit(u8, 0);
  }

  /** Where the i-th entry's bytes start: behind those of every entry before it that has any. */
  function Offset(bs: seq<Buffer>, i: nat): nat
    requires i <= |bs|
  {
    if i == 0 then 0
    else
      var b := bs[i - 1];
      Offset(bs, i - 1) + if b.data.Some? && b.length > 0 then b.length else 0
  }

  lemma {:induction false} OffsetTail(bs: seq<Buffer>, i: nat)
    requires 0 < i <= |bs|
    ensures Offset(bs, i) == Offset(bs[..1], 1) + Offset(bs[1..], i - 1)
  {
    if i == 1 {
    } else {
      OffsetTail(bs, i - 1);
    }
  }

  lemma OffsetOne(bs: seq<Buffer>)
    requires bs != [] && Readable(bs[0])
    ensures Offset(bs[..1], 1) == |Contribution(bs[0])|
  {
    assert Offset(bs[..1], 0) == 0;
  }

  /** How long the unit is. */
  lemma {:induction false} ConcatenationLength(bs: seq<Buffer>)
    requires AllReadable(bs)
    ensures |Concatenation(bs)| == Offset(bs, |bs|)
  {
    if bs == [] {
    } else {
      ConcatenationLength(bs[1..]);
      OffsetTail(bs, |bs|);
      OffsetOne(bs);
    }
  }

  lemma IndexBehind(front: seq<byte>, rest: seq<byte>, k: nat)
    requires k < |rest|
    ensures (front + rest)[|front| + k] == rest[k]
  {
  }

  /** And which bytes it holds: at its offset, each entry's, one by one. */
  lemma {:induction false} ConcatenationAt(bs: seq<Buffer>, i: nat, j: nat)
    requires AllReadable(bs) && i < |bs| && bs[i].data.Some? && j < bs[i].length
    ensures Offset(bs, i) + j < |Concatenation(bs)|
    ensures Concatenation(bs)[Offset(bs, i) + j] == bs[i].data.value[j]
    decreases |bs|
  {
    if i == 0 {
    } else {
      ConcatenationAt(bs[1..], i - 1, j);
      OffsetTail(bs, i);
      OffsetOne(bs);
      IndexBehind(Contribution(bs[0]), Concatenation(bs[1..]), Offset(bs[1..], i - 1) + j);
    }
  }

  function UnitOf(bs: seq<Buffer>, frameType: int, format: int): VideoUnit
    requires AllReadable(bs)
  {
    VideoUnit(CodecOf(format), frameType == FRAME_TYPE_IDR, Concatenation(bs))
  }

  /** `LENTRY` */
  class Entry {
    const buffer: Buffer
    const next: Entry?

    constructor (buffer: Buffer, next: Entry?)
      ensures this.buffer == buffer && this.next == next
    {
      this.buffer, this.next := buffer, next;
    }
  }

  /** The list from `head` on holds these buffers, and ends. */
  ghost predicate Holds(head: Entry?, bs: seq<Buffer>) {
    if bs == [] then head == null
    else head != null && head.buffer == bs[0] && Holds(head.next, bs[1..])
  }

  /** `DECODE_UNIT` */
  class DecodeUnit {
    const frameType: int
    const bufferList: Entry?

    constructor (frameType: int, bufferList: Entry?)
      ensures this.frameType == frameType && this.bufferList == bufferList
    {
      this.frameType, this.bufferList := frameType, bufferList;
    }
  }

  lemma WalkStep(data: seq<byte>, left: seq<Buffer>)
    requires left != [] && AllReadable(left)
    ensures AllReadable(left[1..])
    ensures data + Contribution(left[0]) + Concatenation(left[1..]) == data + Concatenation(left)
  {
    var c, rest := Contribution(left[0]), Concatenation(left[1..]);
    assert data + c + rest == data + (c + rest);
  }

  /** The walk along the list, entry by entry. */
  method Walk(head: Entry?, ghost bs: seq<Buffer>) returns (data: seq<byte>)
    requires Holds(head, bs) && AllReadable(bs)
    ensures data == Concatenation(bs)
  {
    data := [];
    var entry := head;
    ghost var left := bs;
    while entry != null
      invariant Holds(entry, left) && AllReadable(left)
      invariant data + Concatenation(left) == Concatenation(bs)
      decreases |left|
    {
      WalkStep(data, left);
      if entry.buffer.data.Some? && entry.buffer.length > 0 {
        data := data + entry.buffer.data.value[..entry.buffer.length];
      } else {
        assert data + [] == data;
      }
      entry := entry.next;
      left := left[1..];
    }
    assert left == [] && data + [] == data;
  }

  /** Splitting the list anywhere splits the unit's bytes there, so nothing is lost, added or reordered. */
  lemma {:induction false} ConcatenationSplits(a: seq<Buffer>, b: seq<Buffer>)
    requires AllReadable(a) && AllReadable(b)
    ensures AllReadable(a + b) && Concatenation(a + b) == Concatenation(a) + Concatenation(b)
  {
    if a == [] {
      assert a + b == b;
    } else {
      assert (a + b)[1..] == a[1..] + b;
      ConcatenationSplits(a[1..], b);
    }
  }
}
