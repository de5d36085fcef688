/** The streaming hasher of the packaging tool, proved against FIPS 180-4. */
module Sha256Stream {
  import opened Bytes
  import opened Words32
  import opened Fips180
  import opened Wrappers
  import opened Text

  /**
   What the 64-byte buffer holds after absorbing m, at every index: the bytes of the unfinished
   block, and behind them what is left of the block before (or the initial zeros).
   */
  function BufferByte(m: seq<byte>, i: nat): byte
    requires i < 64
  {
    var done := |m| / 64 * 64;
    if i < |m| % 64 then m[done + i]
    else if done > 0 then m[done - 64 + i]
    else 0
  }

  function BufferImage(m: seq<byte>): (b: seq<byte>)
    ensures |b| == 64
  {
    seq(64, i requires 0 <= i < 64 => BufferByte(m, i))
  }

  /** The code adds the four schedule terms in the opposite order. */
  lemma ScheduleSum(x: nat, y: nat, z: nat, t: nat)
    ensures Plus(Plus(Plus(x, y), z), t) == Plus(t, Plus(z, Plus(y, x)))
  {
  }

  /**
   f is the compression function. Stated so that it says nothing until the standard's function is
   itself in play: only CompressBlock has to know what a compression is.
   */
  ghost predicate IsCompress(f: (HashValue, Block) -> HashValue) {
    forall h: HashValue, b: Block {:trigger Compress(h, b)} :: f(h, b) == Compress(h, b)
  }

  class Sha256 {
    var state: array<Word>
    var buf: array<byte>
    var buffered: nat
    var len: nat
    /** Every byte passed to Update so far. */
    ghost var absorbed: seq<byte>
    /** How often CompressBlock has run. */
    ghost var compressions: nat
    /** The compression function of the standard. */
    ghost const f: (HashValue, Block) -> HashValue

    /** All of the object but `len` is a function of the bytes m it has absorbed. */
    ghost predicate Holds(m: seq<byte>)
      reads this, state, buf
    {
      && state.Length == 8 && buf.Length == 64
      && state[..] == Chain(f, m, |m| / 64)
      && buf[..] == BufferImage(m)
      && buffered == |m| % 64
      && compressions == |m| / 64
      && IsCompress(f)
    }

    /** The whole object is a function of the bytes it has absorbed, however they were cut up. */
    ghost predicate Valid()
      reads this, state, buf
    {
      Holds(absorbed) && len == |absorbed| % TWO64
    }

    constructor ()
      ensures Valid() && absorbed == []
      ensures fresh(state) && fresh(buf)
    {
      state := new Word[8] [0x6a09e667, 0xbb67ae85, 0x3c6ef372, 0xa54ff53a,
                            0x510e527f, 0x9b05688c, 0x1f83d9ab, 0x5be0cd19];
      buf := new byte[64](i => 0);
      buffered, len := 0, 0;
      absorbed, compressions, f := [], 0, Compress;
      new;
      assert state[..] == H0;
    }

    method Update(data: seq<byte>)
      requires Valid()
      modifies this, state, buf
      ensures Valid() && absorbed == old(absorbed) + data
      ensures state == old(state) && buf == old(buf)
    {
      len := (len + |data|) % TWO64;
      var rest := data;
      while rest != []
        invariant state == old(state) && buf == old(buf)
        invariant len == (|old(absorbed)| + |data|) % TWO64
        invariant absorbed + rest == old(absorbed) + data
        invariant Holds(absorbed)
        decreases |rest|
      {
        var n := if 64 - buffered < |rest| then 64 - buffered else |rest|;
        ghost var before := absorbed;
        Absorb(rest[..n]);
        Regroup(before, rest, n);
        rest := rest[n..];
      }
      assert absorbed + [] == absorbed;
    }

    static lemma Regroup(a: seq<byte>, rest: seq<byte>, n: nat)
      requires n <= |rest|
      ensures a + rest[..n] + rest[n..] == a + rest
    {
    }

    /** One turn of the loop in `update`: copy a chunk that fits, compress if that fills the buffer. */
    method Absorb(chunk: seq<byte>)
      requires Holds(absorbed) && |chunk| <= 64 - buffered
      modifies this`buffered, this`absorbed, this`compressions, state, buf
      ensures Holds(absorbed) && absorbed == old(absorbed) + chunk
    {
      Position(|absorbed|, |chunk|);
      ChainAfterCopy(f, absorbed, chunk);
      CopyIn(chunk);
      absorbed := absorbed + chunk;
      buffered := buffered + |chunk|;
      if buffered == 64 {
        CompressBlock(buf[..]);
        buffered := 0;
      }
    }

    /** `copy_from_slice` into the free part of the buffer. */
    method CopyIn(chunk: seq<byte>)
      requires buf.Length == 64 && buf[..] == BufferImage(absorbed)
      requires buffered == |absorbed| % 64 && |chunk| <= 64 - buffered
      modifies buf
      ensures buf[..] == BufferImage(absorbed + chunk)
    {
      forall i | 0 <= i < |chunk| {
        buf[buffered + i] := chunk[i];
      }
      BufferAfterCopy(absorbed, chunk);
    }

    /** The buffer position after copying c bytes that fit. */
    static lemma Position(n: nat, c: nat)
      requires n % 64 + c <= 64
      ensures (n + c) / 64 == n / 64 + (if n % 64 + c == 64 then 1 else 0)
      ensures (n + c) % 64 == if n % 64 + c == 64 then 0 else n % 64 + c
    {
    }

    /** Copying up to one block's worth of bytes over the buffer image. */
    static lemma BufferAfterCopy(m: seq<byte>, chunk: seq<byte>)
      requires |m| % 64 + |chunk| <= 64
      ensures var r := |m| % 64;
              BufferImage(m + chunk) == BufferImage(m)[..r] + chunk + BufferImage(m)[r + |chunk|..]
    {
      var r := |m| % 64;
      Position(|m|, |chunk|);
      forall i | 0 <= i < 64
        ensures BufferByte(m + chunk, i) == if r <= i < r + |chunk| then chunk[i - r] else BufferByte(m, i)
      {
      }
    }

    static lemma ChainAfterCopy(f: (HashValue, Block) -> HashValue, m: seq<byte>, chunk: seq<byte>)
      requires |m| % 64 + |chunk| <= 64
      ensures var k := |m| / 64;
              if |m| % 64 + |chunk| == 64
              then |m + chunk| / 64 == k + 1
                   && Chain(f, m + chunk, k + 1) == f(Chain(f, m, k), BufferImage(m + chunk))
              else Chain(f, m + chunk, k) == Chain(f, m, k)
    {
      var k := |m| / 64;
      ChainPrefix(f, m, chunk, k);
      Position(|m|, |chunk|);
      if |m| % 64 + |chunk| == 64 {
        assert |m + chunk| == 64 * (k + 1);
        assert BufferImage(m + chunk) == (m + chunk)[64 * (k + 1 - 1)..64 * (k + 1)];
      }
    }

    /** Section 6.2.2 in place: the hash value in `state`, the schedule in a local array. */
    method CompressBlock(block: Block)
      requires state.Length == 8 && IsCompress(f)
      modifies this`compressions, state
      ensures state[..] == f(old(state[..]), block)
      ensures compressions == old(compressions) + 1
    {
      ghost var h0 := state[..];
      var w := new Word[64](i => 0);
      LoadBlock(block, w);
      ExpandSchedule(block, w);
      var v := RunRounds(state[..], w[..]);
      AddToState(v);
      assert state[..] == Compress(h0, block);
      compressions := compressions + 1;
    }

    /** The first loop of `compress`. */
    static method LoadBlock(block: Block, w: array<Word>)
      requires w.Length == 64
      modifies w
      ensures w[..16] == Words(block)
    {
      for i := 0 to 16
        invariant forall t :: 0 <= t < i ==> w[t] == Words(block)[t]
      {
        WordAt(block, i);
        w[i] := WordOf(block[i * 4], block[i * 4 + 1], block[i * 4 + 2], block[i * 4 + 3]);
      }
    }

    /** The second loop of `compress`. */
    static method ExpandSchedule(block: Block, w: array<Word>)
      requires w.Length == 64 && w[..16] == Words(block)
      modifies w
      ensures w[..] == Schedule(block)
    {
      for i := 16 to 64
        invariant Extend(w[..i]) == Schedule(block)
      {
        ghost var before := w[..i];
        var s0 := Xor(Xor(RotateRight(w[i - 15], 7), RotateRight(w[i - 15], 18)), ShiftRight(w[i - 15], 3));
        var s1 := Xor(Xor(RotateRight(w[i - 2], 17), RotateRight(w[i - 2], 19)), ShiftRight(w[i - 2], 10));
        ScheduleSum(w[i - 16], s0, w[i - 7], s1);
        w[i] := Plus(Plus(Plus(w[i - 16], s0), w[i - 7]), s1);
        assert w[..i + 1] == before + [w[i]];
      }
      assert w[..64] == w[..];
    }

    /** The 64 rounds. */
    static method RunRounds(h: HashValue, w: seq<Word>) returns (v: Working)
      requires |w| == 64
      ensures v == Rounds(Initial(h), K(), w)
    {
      v := Working(h[0], h[1], h[2], h[3], h[4], h[5], h[6], h[7]);
      var k := K();
      for i := 0 to 64
        invariant Rounds(v, k[i..], w[i..]) == Rounds(Initial(h), K(), w)
      {
        v := RoundStep(v, k[i], w[i]);
        assert k[i..][1..] == k[i + 1..] && w[i..][1..] == w[i + 1..];
      }
    }

    static method RoundStep(v: Working, k: Word, w: Word) returns (v': Working)
      ensures v' == Round(v, k, w)
    {
      var Working(a, b, c, d, e, f, g, h) := v;
      var s1 := Xor(Xor(RotateRight(e, 6), RotateRight(e, 11)), RotateRight(e, 25));
      var ch := Xor(And(e, f), And(Not(e), g));
      var t1 := Plus(Plus(Plus(Plus(h, s1), ch), k), w);
      var s0 := Xor(Xor(RotateRight(a, 2), RotateRight(a, 13)), RotateRight(a, 22));
      var maj := Xor(Xor(And(a, b), And(a, c)), And(b, c));
      var t2 := Plus(s0, maj);
      h := g;
      g := f;
      f := e;
      e := Plus(d, t1);
      d := c;
      c := b;
      b := a;
      a := Plus(t1, t2);
      v' := Working(a, b, c, d, e, f, g, h);
    }

    /** The last loop of `compress`. */
    method AddToState(v: Working)
      requires state.Length == 8
      modifies state
      ensures state[..] == AddWorking(old(state[..]), v)
    {
      ghost var h0 := state[..];
      var vs := [v.a, v.b, v.c, v.d, v.e, v.f, v.g, v.h];
      for j := 0 to 8
        invariant forall t :: 0 <= t < j ==> state[t] == Plus(h0[t], vs[t])
        invariant forall t :: j <= t < 8 ==> state[t] == h0[t]
      {
        state[j] := Plus(state[j], vs[j]);
      }
      assert state[..] == AddWorking(h0, v);
    }

    /**
     The digest of everything absorbed. The code's length field is 8 * len in wrapping 64-bit
     arithmetic, which is the standard's length field for every message the standard admits.
     */
    method Finish() returns (out: seq<byte>)
      requires Valid()
      modifies this, state, buf
      ensures Valid() && absorbed == PadWith(old(absorbed), 8 * |old(absorbed)| % TWO64)
      ensures buffered == 0 && compressions == (|old(absorbed)| + 8) / 64 + 1
      ensures out == WordsBytes(Chain(f, absorbed, |absorbed| / 64))
      ensures |old(absorbed)| < TWO61 ==> out == DigestWith(f, old(absorbed))
    {
      ghost var m := absorbed;
      var bits := len * 8 % TWO64;
      WrappedBits(|m|);
      PadToLengthField();
      Update(Be64(bits));
      PaddedLength(m, bits);
      out := StateBytes();
    }

    /** The 0x80 byte and the zero loop of `finish`, driven by the buffer position. */
    method PadToLengthField()
      requires Valid()
      modifies this, state, buf
      ensures Valid() && state == old(state) && buf == old(buf)
      ensures absorbed == old(absorbed) + Marker(ZeroBytes(|old(absorbed)|))
    {
      ghost var m := absorbed;
      Update([0x80]);
      ghost var z := 0;
      assert Marker(0) == [0x80];
      ZerosSoFar(|m|, 0);
      while buffered != 56
        invariant Valid() && state == old(state) && buf == old(buf)
        invariant z <= ZeroBytes(|m|) && absorbed == m + Marker(z) && buffered == (|m| + 1 + z) % 64
        decreases ZeroBytes(|m|) - z
      {
        ZerosSoFar(|m|, z);
        ZeroByte(m, z);
        z := z + 1;
      }
      ZerosSoFar(|m|, z);
    }

    /** One turn of the zero loop. */
    method ZeroByte(ghost m: seq<byte>, ghost z: nat)
      requires Valid() && absorbed == m + Marker(z)
      modifies this, state, buf
      ensures Valid() && state == old(state) && buf == old(buf)
      ensures absorbed == m + Marker(z + 1) && buffered == (|m| + 1 + (z + 1)) % 64
    {
      Update([0]);
      AppendZero(m, z);
    }

    /** The padding after z zero bytes. */
    static ghost function Marker(z: nat): (b: seq<byte>)
      ensures |b| == z + 1
    {
      [0x80] + Zeros(z)
    }

    static lemma AppendZero(m: seq<byte>, z: nat)
      ensures m + Marker(z) + [0] == m + Marker(z + 1)
      ensures |m + Marker(z + 1)| == |m| + 1 + (z + 1)
    {
    }

    /** The buffer position reaches 56 exactly when the standard's zero count is reached. */
    static lemma ZerosSoFar(n: nat, z: nat)
      requires z <= ZeroBytes(n)
      ensures (n + 1 + z) % 64 == 56 <==> z == ZeroBytes(n)
    {
      var r := n % 64;
      assert n == 64 * (n / 64) + r;
      assert (n + 1 + z) % 64 == (r + 1 + z) % 64;
    }

    static lemma WrappedBits(n: nat)
      ensures n % TWO64 * 8 % TWO64 == 8 * n % TWO64
      ensures n < TWO61 ==> 8 * n % TWO64 == 8 * n
    {
      assert n == TWO64 * (n / TWO64) + n % TWO64;
    }

    /** The output loop of `finish`. */
    method StateBytes() returns (out: seq<byte>)
      requires state.Length == 8
      ensures out == WordsBytes(state[..])
    {
      var o := new byte[32](i => 0);
      ghost var expected := WordsBytes(state[..]);
      for i := 0 to 8
        invariant forall j :: 0 <= j < 4 * i ==> o[j] == expected[j]
      {
        WordBytesAt(state[..], i);
        var b := WordBytes(state[i]);
        assert forall j :: 0 <= j < 4 ==> b[j] == expected[4 * i..4 * i + 4][j];
        forall j | 0 <= j < 4 { o[4 * i + j] := b[j]; }
      }
      out := o[..];
    }
  }

  /** With the standard's compression function, the digest is the standard's. */
  lemma DigestIsStandard(f: (HashValue, Block) -> HashValue, m: seq<byte>)
    requires IsCompress(f) && |m| < TWO61
    ensures DigestWith(f, m) == Fips180.Sha256(m)
  {
    forall h: HashValue, b: Block
      ensures f(h, b) == Compress(h, b)
    {
    }
    var p := Pad(m);
    ChainAgrees(f, Compress, p, |p| / 64);
  }

  /**
   Chunk independence of the whole object: two hashers that have absorbed the same bytes, cut up
   in any two ways, are equal in every field, the stale part of the buffer included.
   */
  lemma ChunkIndependence(a: Sha256, b: Sha256)
    requires a.Valid() && b.Valid() && a.absorbed == b.absorbed
    ensures a.state[..] == b.state[..] && a.buf[..] == b.buf[..]
    ensures a.buffered == b.buffered < 64 && a.len == b.len && a.compressions == b.compressions
  {
    var m := a.absorbed;
    forall h: HashValue, c: Block
      ensures a.f(h, c) == b.f(h, c)
    {
      assert a.f(h, c) == Compress(h, c);
    }
    ChainAgrees(a.f, b.f, m, |m| / 64);
  }

  /** A file being read front to back. Each read may return less than was asked for, or fail. */
  class FileReader {
    const content: seq<byte>
    var pos: nat
    /** Whether a read has ever failed. */
    ghost var failed: bool

    ghost predicate Valid()
      reads this
    {
      pos <= |content|
    }

    constructor (content: seq<byte>)
      ensures Valid() && this.content == content && pos == 0 && !failed
    {
      this.content := content;
      pos, failed := 0, false;
    }

    /** `Read::read`: zero bytes only at the end of the file. */
    method Read(buf: array<byte>) returns (r: Outcome<nat>)
      requires Valid() && buf.Length > 0
      modifies this, buf
      ensures Valid() && !r.Panic?
      ensures failed == (old(failed) || r.Err?)
      ensures r.Ok? ==> r.value <= buf.Length && pos == old(pos) + r.value
                        && buf[..r.value] == content[old(pos)..pos]
                        && (r.value == 0 ==> pos == |content|)
    {
      if * {
        failed := true;
        return Err;
      }
      var n := 0;
      if pos < |content| {
        n :| 1 <= n <= buf.Length && n <= |content| - pos;
      }
      forall i | 0 <= i < n { buf[i] := content[pos + i]; }
      pos := pos + n;
      return Ok(n);
    }
  }

  /** The text is the bytes in lower-case hex, two digits a byte, the high one first; and it reads back. */
  predicate IsLowerHexOf(s: string, b: seq<byte>) {
    && |s| == 2 * |b|
    && (forall i :: 0 <= i < |b| ==>
          s[2 * i] == "0123456789abcdef"[b[i] / 16] && s[2 * i + 1] == "0123456789abcdef"[b[i] % 16])
    && FromHex(s) == Ok(b)
  }

  lemma PrintedDigest(b: seq<byte>)
    ensures IsLowerHexOf(ToLowerHex(b), b)
  {
    forall i | 0 <= i < |b|
      ensures ToLowerHex(b)[2 * i] == "0123456789abcdef"[b[i] / 16]
      ensures ToLowerHex(b)[2 * i + 1] == "0123456789abcdef"[b[i] % 16]
    {
      ToLowerHexAt(b, i);
    }
    LowerHexRoundTrip(b);
  }

  /** `sha256_hex`: the digest of a whole file, in lower-case hex, however the reads cut it up. */
  method Sha256Hex(file: FileReader) returns (r: Outcome<string>)
    requires file.Valid() && file.pos == 0
    modifies file
    ensures !r.Panic?
    ensures file.failed == (old(file.failed) || r.Err?)
    ensures r.Ok? && |file.content| < TWO61 ==> IsLowerHexOf(r.value, Fips180.Sha256(file.content))
  {
    var h := new Sha256();
    var buf := new byte[64 * 1024](i => 0);
    assert file.content[..0] == [];
    while true
      invariant file.Valid() && h.Valid() && fresh(h) && fresh(h.state) && fresh(h.buf) && fresh(buf) && h.buf != buf
      invariant buf.Length == 64 * 1024
      invariant h.absorbed == file.content[..file.pos] && file.failed == old(file.failed)
      decreases |file.content| - file.pos
    {
      ghost var before := file.pos;
      var n := file.Read(buf);
      if n.Err? { return Err; }
      if n.value == 0 { break; }
      h.Update(buf[..n.value]);
      assert file.content[..before] + file.content[before..file.pos] == file.content[..file.pos];
    }
    ghost var m, f := h.absorbed, h.f;
    assert m == file.content;
    var d := h.Finish();
    if |m| < TWO61 { DigestIsStandard(f, m); }
    PrintedDigest(d);
    return Ok(ToLowerHex(d));
  }
}
