/**
 SHA-256 as FIPS 180-4 defines it: one-shot, over a whole message. The streaming
 hasher is proved against this module; nothing here is stateful.
 */
module Fips180 {
  import opened Bytes
  import opened Words32

  type Block = b: seq<byte> | |b| == 64 witness seq(64, i => 0)
  type HashValue = h: seq<Word> | |h| == 8 witness seq(8, i => 0)

  // The six functions of section 4.1.2.

  function Ch(x: Word, y: Word, z: Word): nat { Xor(And(x, y), And(Not(x), z)) }

  function Maj(x: Word, y: Word, z: Word): nat { Xor(Xor(And(x, y), And(x, z)), And(y, z)) }

  function BigSigma0(x: Word): nat { Xor(Xor(RotateRight(x, 2), RotateRight(x, 13)), RotateRight(x, 22)) }

  function BigSigma1(x: Word): nat { Xor(Xor(RotateRight(x, 6), RotateRight(x, 11)), RotateRight(x, 25)) }

  function SmallSigma0(x: Word): nat { Xor(Xor(RotateRight(x, 7), RotateRight(x, 18)), ShiftRight(x, 3)) }

  function SmallSigma1(x: Word): nat { Xor(Xor(RotateRight(x, 17), RotateRight(x, 19)), ShiftRight(x, 10)) }

  // The same bit by bit: the words Ch, Maj and the sums stand for.

  /** x chooses between y and z. */
  lemma ChBit(x: Word, y: Word, z: Word, i: nat)
    requires i < 32
    ensures Bit(Ch(x, y, z), i) <==> if Bit(x, i) then Bit(y, i) else Bit(z, i)
  {
    XorBit(And(x, y), And(Not(x), z), i);
    AndBit(x, y, i);
    AndBit(Not(x), z, i);
    NotBit(x, i);
  }

  /** The majority of the three. */
  lemma MajBit(x: Word, y: Word, z: Word, i: nat)
    ensures Bit(Maj(x, y, z), i)
       <==> (Bit(x, i) && Bit(y, i)) || (Bit(x, i) && Bit(z, i)) || (Bit(y, i) && Bit(z, i))
  {
    XorBit(Xor(And(x, y), And(x, z)), And(y, z), i);
    XorBit(And(x, y), And(x, z), i);
    AndBit(x, y, i);
    AndBit(x, z, i);
    AndBit(y, z, i);
  }

  /** An odd number of the three. */
  predicate Odd3(a: bool, b: bool, c: bool) { (a != b) != c }

  lemma Xor3Bit(x: nat, y: nat, z: nat, i: nat)
    ensures Bit(Xor(Xor(x, y), z), i) <==> Odd3(Bit(x, i), Bit(y, i), Bit(z, i))
  {
    XorBit(Xor(x, y), z, i);
    XorBit(x, y, i);
  }

  lemma RotatedBit(x: Word, n: nat, i: nat)
    requires n < 32 && i < 32
    ensures Bit(RotateRight(x, n), i) == Bit(x, (i + n) % 32)
  {
    RotateBit(x, n, i);
  }

  lemma SigmaBit(x: Word, a: nat, b: nat, c: nat, i: nat)
    requires a < 32 && b < 32 && c < 32 && i < 32
    ensures Bit(Xor(Xor(RotateRight(x, a), RotateRight(x, b)), RotateRight(x, c)), i)
       <==> Odd3(Bit(x, (i + a) % 32), Bit(x, (i + b) % 32), Bit(x, (i + c) % 32))
    ensures Bit(Xor(Xor(RotateRight(x, a), RotateRight(x, b)), ShiftRight(x, c)), i)
       <==> Odd3(Bit(x, (i + a) % 32), Bit(x, (i + b) % 32), Bit(x, i + c))
  {
    Xor3Bit(RotateRight(x, a), RotateRight(x, b), RotateRight(x, c), i);
    Xor3Bit(RotateRight(x, a), RotateRight(x, b), ShiftRight(x, c), i);
    RotatedBit(x, a, i);
    RotatedBit(x, b, i);
    RotatedBit(x, c, i);
    ShiftBit(x, c, i);
  }

  lemma BigSigmaBits(x: Word, i: nat)
    requires i < 32
    ensures Bit(BigSigma0(x), i)
       <==> Odd3(Bit(x, (i + 2) % 32), Bit(x, (i + 13) % 32), Bit(x, (i + 22) % 32))
    ensures Bit(BigSigma1(x), i)
       <==> Odd3(Bit(x, (i + 6) % 32), Bit(x, (i + 11) % 32), Bit(x, (i + 25) % 32))
  {
    SigmaBit(x, 2, 13, 22, i);
    SigmaBit(x, 6, 11, 25, i);
  }

  lemma SmallSigmaBits(x: Word, i: nat)
    requires i < 32
    ensures Bit(SmallSigma0(x), i) <==> Odd3(Bit(x, (i + 7) % 32), Bit(x, (i + 18) % 32), Bit(x, i + 3))
    ensures Bit(SmallSigma1(x), i) <==> Odd3(Bit(x, (i + 17) % 32), Bit(x, (i + 19) % 32), Bit(x, i + 10))
  {
    SigmaBit(x, 7, 18, 3, i);
    SigmaBit(x, 17, 19, 10, i);
  }

  /** The constants of section 4.2.2, eight to a row. */
  function KRow(r: nat): (k: seq<Word>)
    requires r < 8
    ensures |k| == 8
  {
    match r
    case 0 => [0x428a2f98, 0x71374491, 0xb5c0fbcf, 0xe9b5dba5, 0x3956c25b, 0x59f111f1, 0x923f82a4, 0xab1c5ed5]
    case 1 => [0xd807aa98, 0x12835b01, 0x243185be, 0x550c7dc3, 0x72be5d74, 0x80deb1fe, 0x9bdc06a7, 0xc19bf174]
    case 2 => [0xe49b69c1, 0xefbe4786, 0x0fc19dc6, 0x240ca1cc, 0x2de92c6f, 0x4a7484aa, 0x5cb0a9dc, 0x76f988da]
    case 3 => [0x983e5152, 0xa831c66d, 0xb00327c8, 0xbf597fc7, 0xc6e00bf3, 0xd5a79147, 0x06ca6351, 0x14292967]
    case 4 => [0x27b70a85, 0x2e1b2138, 0x4d2c6dfc, 0x53380d13, 0x650a7354, 0x766a0abb, 0x81c2c92e, 0x92722c85]
    case 5 => [0xa2bfe8a1, 0xa81a664b, 0xc24b8b70, 0xc76c51a3, 0xd192e819, 0xd6990624, 0xf40e3585, 0x106aa070]
    case 6 => [0x19a4c116, 0x1e376c08, 0x2748774c, 0x34b0bcb5, 0x391c0cb3, 0x4ed8aa4a, 0x5b9cca4f, 0x682e6ff3]
    case _ => [0x748f82ee, 0x78a5636f, 0x84c87814, 0x8cc70208, 0x90befffa, 0xa4506ceb, 0xbef9a3f7, 0xc67178f2]
  }

  function K(): (k: seq<Word>)
    ensures |k| == 64
  {
    KRow(0) + KRow(1) + KRow(2) + KRow(3) + KRow(4) + KRow(5) + KRow(6) + KRow(7)
  }

  /** The initial hash value of section 5.3.3. */
  const H0: seq<Word> := [
    0x6a09e667, 0xbb67ae85, 0x3c6ef372, 0xa54ff53a, 0x510e527f, 0x9b05688c, 0x1f83d9ab, 0x5be0cd19]

  /** Bytes and words are read big-endian (section 3.1): `u32::from_be_bytes`. */
  function WordOf(b0: byte, b1: byte, b2: byte, b3: byte): Word {
    0x100_0000 * b0 as int + 0x1_0000 * b1 as int + 0x100 * b2 as int + b3 as int
  }

  /** `u32::to_be_bytes` */
  function WordBytes(w: Word): (b: seq<byte>)
    ensures |b| == 4
  {
    [w / 0x100_0000, w / 0x1_0000 % 256, w / 0x100 % 256, w % 256]
  }

  /** Writing a word as bytes and reading it back loses nothing, so a digest determines its hash value. */
  lemma WordBytesInverse(w: Word)
    ensures var b := WordBytes(w); WordOf(b[0], b[1], b[2], b[3]) == w
  {
    var q1, q2 := w / 0x100, w / 0x1_0000;
    assert q1 / 0x100 == q2 && q2 / 0x100 == w / 0x100_0000;
  }

  /** And the bytes are the word's, most significant first. */
  lemma WordBytesAreBigEndian(w: Word)
    ensures FromBe(WordBytes(w)) == w
  {
    var b := WordBytes(w);
    var q1, q2, q3 := w / 0x100, w / 0x1_0000, w / 0x100_0000;
    assert q1 / 0x100 == q2 && q2 / 0x100 == q3;
    assert FromBe(b[..1]) == q3 by { assert b[..1][..0] == [] && FromBe(b[..0]) == 0; }
    assert FromBe(b[..2]) == q2 by { assert b[..2][..1] == b[..1]; }
    assert FromBe(b[..3]) == q1 by { assert b[..3][..2] == b[..2]; }
    assert b[..4] == b;
  }

  /** The 32-bit words of a byte string (section 5.2.1). */
  function Words(b: seq<byte>): (w: seq<Word>)
    ensures |w| == |b| / 4
  {
    if |b| < 4 then [] else [WordOf(b[0], b[1], b[2], b[3])] + Words(b[4..])
  }

  lemma {:induction false} WordAt(b: seq<byte>, i: nat)
    requires 4 * i + 4 <= |b|
    ensures Words(b)[i] == WordOf(b[4 * i], b[4 * i + 1], b[4 * i + 2], b[4 * i + 3])
  {
    if i == 0 {
    } else {
      WordAt(b[4..], i - 1);
    }
  }

  /** W_t for t >= 16, from W_(t-16), W_(t-15), W_(t-7) and W_(t-2). */
  function ScheduleWord(w16: Word, w15: Word, w7: Word, w2: Word): Word {
    Plus(SmallSigma1(w2), Plus(w7, Plus(SmallSigma0(w15), w16)))
  }

  /** Extends the first words of a message schedule to all 64. */
  function Extend(w: seq<Word>): (r: seq<Word>)
    requires 16 <= |w| <= 64
    ensures |r| == 64
    decreases 64 - |w|
  {
    var t := |w|;
    if t == 64 then w
    else Extend(w + [ScheduleWord(w[t - 16], w[t - 15], w[t - 7], w[t - 2])])
  }

  /** The message schedule of section 6.2.2, step 1. */
  function Schedule(block: Block): (w: seq<Word>)
    ensures |w| == 64
  {
    Extend(Words(block))
  }

  lemma {:induction false} ExtendKeeps(w: seq<Word>, t: nat)
    requires 16 <= |w| <= 64 && t < |w|
    ensures Extend(w)[t] == w[t]
    decreases 64 - |w|
  {
    if |w| == 64 {
    } else {
      ExtendKeeps(w + [ScheduleWord(w[|w| - 16], w[|w| - 15], w[|w| - 7], w[|w| - 2])], t);
    }
  }

  lemma {:induction false} ExtendRecurrence(w: seq<Word>, t: nat)
    requires 16 <= |w| <= t < 64
    ensures var r := Extend(w); r[t] == ScheduleWord(r[t - 16], r[t - 15], r[t - 7], r[t - 2])
    decreases t - |w|
  {
    var k := |w|;
    var more := w + [ScheduleWord(w[k - 16], w[k - 15], w[k - 7], w[k - 2])];
    if k == t {
      ExtendKeeps(more, t);
      ExtendKeeps(more, t - 16);
      ExtendKeeps(more, t - 15);
      ExtendKeeps(more, t - 7);
      ExtendKeeps(more, t - 2);
    } else {
      ExtendRecurrence(more, t);
    }
  }

  /** The recurrence of the schedule in plain sums. */
  predicate IsScheduleSum(w: Word, w16: Word, w15: Word, w7: Word, w2: Word) {
    w == (SmallSigma1(w2) + w7 + SmallSigma0(w15) + w16) % 0x1_0000_0000
  }

  /** The schedule by index, as section 6.2.2 has it. */
  lemma ScheduleByIndex(block: Block, t: nat)
    requires t < 64
    ensures var w := Schedule(block);
            if t < 16 then w[t] == WordOf(block[4 * t], block[4 * t + 1], block[4 * t + 2], block[4 * t + 3])
            else IsScheduleSum(w[t], w[t - 16], w[t - 15], w[t - 7], w[t - 2])
  {
    if t < 16 {
      ExtendKeeps(Words(block), t);
      WordAt(block, t);
    } else {
      ScheduleGoesOn(block, t);
    }
  }

  lemma ScheduleGoesOn(block: Block, t: nat)
    requires 16 <= t < 64
    ensures var w := Schedule(block); IsScheduleSum(w[t], w[t - 16], w[t - 15], w[t - 7], w[t - 2])
  {
    var w := Schedule(block);
    ExtendRecurrence(Words(block), t);
    ScheduleWordIsSum(w[t - 16], w[t - 15], w[t - 7], w[t - 2]);
  }

  lemma ScheduleWordIsSum(w16: Word, w15: Word, w7: Word, w2: Word)
    ensures IsScheduleSum(ScheduleWord(w16, w15, w7, w2), w16, w15, w7, w2)
  {
    SumOfFour(SmallSigma1(w2), w7, SmallSigma0(w15), w16);
  }

  lemma SumOfFour(a: nat, b: nat, c: nat, d: nat)
    ensures Plus(a, Plus(b, Plus(c, d))) == (a + b + c + d) % 0x1_0000_0000
  {
  }

  /** The eight working variables of section 6.2.2. */
  datatype Working = Working(a: Word, b: Word, c: Word, d: Word, e: Word, f: Word, g: Word, h: Word)

  /** One iteration of section 6.2.2, step 3. */
  function Round(v: Working, k: Word, w: Word): Working {
    var t1 := Plus(Plus(Plus(Plus(v.h, BigSigma1(v.e)), Ch(v.e, v.f, v.g)), k), w);
    var t2 := Plus(BigSigma0(v.a), Maj(v.a, v.b, v.c));
    Working(Plus(t1, t2), v.a, v.b, v.c, Plus(v.d, t1), v.e, v.f, v.g)
  }

  /** The same in plain sums: two of the variables are new, the others move up by one. */
  predicate IsRound(v: Working, next: Working, k: Word, w: Word) {
    && next.b == v.a && next.c == v.b && next.d == v.c && next.f == v.e && next.g == v.f && next.h == v.g
    && next.e == (v.d + v.h + BigSigma1(v.e) + Ch(v.e, v.f, v.g) + k + w) % 0x1_0000_0000
    && next.a == (v.h + BigSigma1(v.e) + Ch(v.e, v.f, v.g) + k + w + BigSigma0(v.a) + Maj(v.a, v.b, v.c))
                 % 0x1_0000_0000
  }

  lemma SumOfFive(a: nat, b: nat, c: nat, d: nat, e: nat)
    ensures Plus(Plus(Plus(Plus(a, b), c), d), e) == (a + b + c + d + e) % 0x1_0000_0000
  {
  }

  lemma ReduceLater(s: nat, x: nat)
    ensures (s % 0x1_0000_0000 + x) % 0x1_0000_0000 == (s + x) % 0x1_0000_0000
  {
  }

  lemma SumOfSums(s: nat, x: nat, y: nat)
    ensures Plus(s % 0x1_0000_0000, Plus(x, y)) == (s + x + y) % 0x1_0000_0000
  {
    ReduceLater(s, Plus(x, y));
    ReduceLater(x + y, s);
  }

  lemma RoundInSums(v: Working, k: Word, w: Word)
    ensures IsRound(v, Round(v, k, w), k, w)
  {
    var s1, ch := BigSigma1(v.e), Ch(v.e, v.f, v.g);
    SumOfFive(v.h, s1, ch, k, w);
    SumOfSums(v.h + s1 + ch + k + w, BigSigma0(v.a), Maj(v.a, v.b, v.c));
    ReduceLater(v.h + s1 + ch + k + w, v.d);
  }

  /** Step 3: one round for each pair of a constant and a schedule word. */
  function Rounds(v: Working, k: seq<Word>, w: seq<Word>): Working
    requires |k| == |w|
    decreases |w|
  {
    if w == [] then v else Rounds(Round(v, k[0], w[0]), k[1..], w[1..])
  }

  /** Step 2. */
  function Initial(h: HashValue): Working {
    Working(h[0], h[1], h[2], h[3], h[4], h[5], h[6], h[7])
  }

  /** Step 4: the next intermediate hash value. */
  function AddWorking(h: HashValue, v: Working): HashValue {
    [Plus(h[0], v.a), Plus(h[1], v.b), Plus(h[2], v.c), Plus(h[3], v.d),
     Plus(h[4], v.e), Plus(h[5], v.f), Plus(h[6], v.g), Plus(h[7], v.h)]
  }

  function Compress(h: HashValue, block: Block): HashValue {
    AddWorking(h, Rounds(Initial(h), K(), Schedule(block)))
  }

  /** The working variables before each round, and after the last. */
  lemma {:induction false} RoundByRound(v: Working, k: seq<Word>, w: seq<Word>) returns (vs: seq<Working>)
    requires |k| == |w|
    ensures |vs| == |w| + 1 && vs[0] == v && vs[|w|] == Rounds(v, k, w)
    ensures forall t :: 0 <= t < |w| ==> IsRound(vs[t], vs[t + 1], k[t], w[t])
    decreases |w|
  {
    if w == [] {
      vs := [v];
    } else {
      RoundInSums(v, k[0], w[0]);
      var rest := RoundByRound(Round(v, k[0], w[0]), k[1..], w[1..]);
      vs := [v] + rest;
      forall t | 0 <= t < |w|
        ensures IsRound(vs[t], vs[t + 1], k[t], w[t])
      {
        if t > 0 { assert IsRound(rest[t - 1], rest[t], k[1..][t - 1], w[1..][t - 1]); }
      }
    }
  }

  lemma AddedInSums(h: HashValue, v: Working)
    ensures var next := AddWorking(h, v);
            && next[0] == (h[0] + v.a) % 0x1_0000_0000 && next[1] == (h[1] + v.b) % 0x1_0000_0000
            && next[2] == (h[2] + v.c) % 0x1_0000_0000 && next[3] == (h[3] + v.d) % 0x1_0000_0000
            && next[4] == (h[4] + v.e) % 0x1_0000_0000 && next[5] == (h[5] + v.f) % 0x1_0000_0000
            && next[6] == (h[6] + v.g) % 0x1_0000_0000 && next[7] == (h[7] + v.h) % 0x1_0000_0000
  {
  }

  lemma CompressIs(h: HashValue, block: Block, k: seq<Word>, w: seq<Word>)
    requires k == K() && w == Schedule(block)
    ensures |k| == |w| == 64 && Compress(h, block) == AddWorking(h, Rounds(Initial(h), k, w))
  {
  }

  /** Section 6.2.2 on one block, by the working variables of its 64 rounds. */
  lemma CompressByRounds(h: HashValue, block: Block) returns (vs: seq<Working>)
    ensures |vs| == 65 && vs[0] == Working(h[0], h[1], h[2], h[3], h[4], h[5], h[6], h[7])
    ensures forall t :: 0 <= t < 64 ==> IsRound(vs[t], vs[t + 1], K()[t], Schedule(block)[t])
    ensures var v, next := vs[64], Compress(h, block);
            && next[0] == (h[0] + v.a) % 0x1_0000_0000 && next[1] == (h[1] + v.b) % 0x1_0000_0000
            && next[2] == (h[2] + v.c) % 0x1_0000_0000 && next[3] == (h[3] + v.d) % 0x1_0000_0000
            && next[4] == (h[4] + v.e) % 0x1_0000_0000 && next[5] == (h[5] + v.f) % 0x1_0000_0000
            && next[6] == (h[6] + v.g) % 0x1_0000_0000 && next[7] == (h[7] + v.h) % 0x1_0000_0000
  {
    var k, w := K(), Schedule(block);
    CompressIs(h, block, k, w);
    vs := RoundByRound(Initial(h), k, w);
    AddedInSums(h, vs[64]);
  }

  /**
   The intermediate hash value after the first n blocks of m, for any compression function f:
   H(i) = f(H(i-1), M(i)), as section 6.2.2 chains its blocks.
   */
  function Chain(f: (HashValue, Block) -> HashValue, m: seq<byte>, n: nat): HashValue
    requires 64 * n <= |m|
  {
    if n == 0 then H0 else f(Chain(f, m, n - 1), m[64 * (n - 1)..64 * n])
  }

  /** Section 5.1.1 for a whole number of bytes: how many zero bytes follow the 0x80. */
  function ZeroBytes(n: nat): (z: nat)
    ensures z < 64
  {
    (119 - n % 64) % 64
  }

  function Zeros(n: nat): (z: seq<byte>)
    ensures |z| == n && forall i :: 0 <= i < n ==> z[i] == 0
  {
    seq(n, i => 0)
  }

  /** A message padded with a given 64-bit length field. */
  function PadWith(m: seq<byte>, bits: nat): seq<byte>
    requires bits < TWO64
  {
    m + ([0x80] + Zeros(ZeroBytes(|m|))) + Be64(bits)
  }

  /** Section 5.1.1; defined for messages of fewer than 2^64 bits, that is 2^61 bytes. */
  function Pad(m: seq<byte>): seq<byte>
    requires |m| < TWO61
  {
    PadWith(m, 8 * |m|)
  }

  /** Words written out big-endian, one after the other. */
  function WordsBytes(w: seq<Word>): (b: seq<byte>)
    ensures |b| == 4 * |w|
  {
    if w == [] then [] else WordBytes(w[0]) + WordsBytes(w[1..])
  }

  lemma {:induction false} WordBytesAt(w: seq<Word>, i: nat)
    requires i < |w|
    ensures WordsBytes(w)[4 * i..4 * i + 4] == WordBytes(w[i])
  {
    if i == 0 {
    } else {
      WordBytesAt(w[1..], i - 1);
      assert WordsBytes(w)[4 * i..4 * i + 4] == WordsBytes(w[1..])[4 * (i - 1)..4 * (i - 1) + 4];
    }
  }

  /** Nothing is lost between a hash value and its digest. */
  lemma {:induction false} WordsBytesInverse(w: seq<Word>)
    ensures Words(WordsBytes(w)) == w
  {
    if w == [] {
    } else {
      WordBytesInverse(w[0]);
      WordsBytesInverse(w[1..]);
      assert WordsBytes(w)[4..] == WordsBytes(w[1..]);
    }
  }

  /** Section 6.2 for any compression function: pad, chain, write out the last hash value. */
  function DigestWith(f: (HashValue, Block) -> HashValue, m: seq<byte>): (d: seq<byte>)
    requires |m| < TWO61
    ensures |d| == 32
  {
    var p := Pad(m);
    WordsBytes(Chain(f, p, |p| / 64))
  }

  /** Section 6.2: the message digest. */
  function Sha256(m: seq<byte>): (d: seq<byte>)
    requires |m| < TWO61
    ensures |d| == 32
  {
    DigestWith(Compress, m)
  }

  lemma {:induction false} ChainByBlock(f: (HashValue, Block) -> HashValue, m: seq<byte>, n: nat)
    returns (hs: seq<HashValue>)
    requires 64 * n <= |m|
    ensures |hs| == n + 1 && hs[0] == H0 && hs[n] == Chain(f, m, n)
    ensures forall i :: 0 <= i < n ==> hs[i + 1] == f(hs[i], m[64 * i..64 * i + 64])
  {
    if n == 0 {
      hs := [H0];
    } else {
      var before := ChainByBlock(f, m, n - 1);
      hs := before + [f(before[n - 1], m[64 * (n - 1)..64 * n])];
      forall i | 0 <= i < n
        ensures hs[i + 1] == f(hs[i], m[64 * i..64 * i + 64])
      {
        if i < n - 1 { assert before[i + 1] == f(before[i], m[64 * i..64 * i + 64]); }
      }
    }
  }

  /** The digest by its blocks: one hash value after each, and the last of them written out big-endian. */
  lemma DigestByBlocks(f: (HashValue, Block) -> HashValue, m: seq<byte>) returns (hs: seq<HashValue>)
    requires |m| < TWO61
    ensures var p, n := Pad(m), |hs| - 1;
            && n >= 0 && 64 * n == |p| && hs[0] == H0
            && (forall i :: 0 <= i < n ==> hs[i + 1] == f(hs[i], p[64 * i..64 * i + 64]))
            && DigestWith(f, m) == WordsBytes(hs[n])
  {
    var p := Pad(m);
    PaddedLength(m, 8 * |m|);
    hs := ChainByBlock(f, p, |p| / 64);
  }

  /** The bytes of a digest: each word, most significant byte first. */
  lemma DigestBytes(h: HashValue, i: nat)
    requires i < 8
    ensures var w := h[i];
            WordsBytes(h)[4 * i..4 * i + 4]
            == [w / 0x100_0000, w / 0x1_0000 % 0x100, w / 0x100 % 0x100, w % 0x100]
  {
    WordBytesAt(h, i);
  }

  /** The hash after n blocks depends on those blocks only. */
  lemma {:induction false} ChainPrefix(f: (HashValue, Block) -> HashValue, m: seq<byte>, more: seq<byte>, n: nat)
    requires 64 * n <= |m|
    ensures Chain(f, m + more, n) == Chain(f, m, n)
  {
    if n == 0 {
    } else {
      ChainPrefix(f, m, more, n - 1);
      assert (m + more)[64 * (n - 1)..64 * n] == m[64 * (n - 1)..64 * n];
    }
  }

  lemma {:induction false} ChainAgrees(f: (HashValue, Block) -> HashValue, g: (HashValue, Block) -> HashValue,
                                       m: seq<byte>, n: nat)
    requires 64 * n <= |m|
    requires forall h, b :: f(h, b) == g(h, b)
    ensures Chain(f, m, n) == Chain(g, m, n)
  {
    if n == 0 {
    } else {
      ChainAgrees(f, g, m, n - 1);
    }
  }

  /** The congruence of section 5.1.1, for a message of l bits and k zero bits. */
  predicate SolvesPadding(l: nat, k: nat) { (l + 1 + k) % 512 == 448 }

  /**
   Section 5.1.1 read literally, in bits: with l = 8n, the padding is a one bit, then the least
   k >= 0 of zero bits with l + 1 + k = 448 mod 512, then a 64-bit field. The 0x80 byte holds the
   one bit and the first seven zeros.
   */
  lemma PaddingIsLeast(n: nat)
    ensures var k := 7 + 8 * ZeroBytes(n);
            && SolvesPadding(8 * n, k)
            && forall j: nat :: j < k ==> !SolvesPadding(8 * n, j)
  {
    var r, q := n % 64, n / 64;
    assert 8 * n == 512 * q + 8 * r;
    var k := 7 + 8 * ZeroBytes(n);
    forall j: nat | j <= k
      ensures SolvesPadding(8 * n, j) == (8 * r + 1 + j == 448 || 8 * r + 1 + j == 960)
    {
      Mod512(q, 8 * r + 1 + j);
    }
  }

  lemma Mod512(q: nat, x: nat)
    requires x < 1024
    ensures (512 * q + x) % 512 == if x < 512 then x else x - 512
  {
  }

  /** The padded message is a whole number of blocks. */
  lemma PaddedLength(m: seq<byte>, bits: nat)
    requires bits < TWO64
    ensures |PadWith(m, bits)| == 64 * ((|m| + 8) / 64 + 1)
  {
  }

  /** The padded message byte by byte: the message, 0x80, zeros, and the length field, most significant byte first. */
  lemma PaddedBytes(m: seq<byte>, bits: nat)
    requires bits < TWO64
    ensures var p, n := PadWith(m, bits), |m|;
            && n + 9 <= |p| && p[..n] == m && p[n] == 0x80
            && (forall i :: n < i < |p| - 8 ==> p[i] == 0)
            && FromBe(p[|p| - 8..]) == bits
  {
    var p := PadWith(m, bits);
    assert Pow256(8) == TWO64;
    BeInverse(bits, 8);
    assert p[|p| - 8..] == Be64(bits);
  }

  /** Two messages with the same padded form are the same message. */
  lemma PaddingInjective(m: seq<byte>, m': seq<byte>, bits: nat, bits': nat)
    requires bits < TWO64 && bits' < TWO64
    requires PadWith(m, bits) == PadWith(m', bits')
    ensures m == m'
  {
    var p, p' := PadWith(m, bits), PadWith(m', bits');
    var body := m + ([0x80] + Zeros(ZeroBytes(|m|)));
    var body' := m' + ([0x80] + Zeros(ZeroBytes(|m'|)));
    assert body == p[..|p| - 8] && body' == p'[..|p'| - 8];
    // The 0x80 is the last non-zero byte of the body, so it stands at one place only.
    assert body[|m|] == 0x80 && body'[|m'|] == 0x80;
    assert forall i :: |m| < i < |body| ==> body[i] == 0;
    assert forall i :: |m'| < i < |body'| ==> body'[i] == 0;
    assert m == body[..|m|] && m' == body'[..|m'|];
  }
}
