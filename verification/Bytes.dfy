/** Bytes, and integers written as bytes. */
module Bytes {
  import opened Words32

  type byte = x: int | 0 <= x < 256

  const TWO16: nat := 0x1_0000
  const TWO61: nat := 0x2000_0000_0000_0000
  const TWO64: nat := 0x1_0000_0000_0000_0000

  /** The n low bytes of v, least significant first. */
  function Le(v: nat, n: nat): (b: seq<byte>)
    ensures |b| == n
    decreases n, v
  {
    if n == 0 then [] else [v % 256] + Le(v / 256, n - 1)
  }

  function FromLe(b: seq<byte>): nat {
    if b == [] then 0 else b[0] as int + 256 * FromLe(b[1..])
  }

  /** The n low bytes of v, most significant first. */
  function Be(v: nat, n: nat): (b: seq<byte>)
    ensures |b| == n
    decreases n, v
  {
    if n == 0 then [] else Be(v / 256, n - 1) + [v % 256]
  }

  function Pow256(n: nat): nat {
    if n == 0 then 1 else 256 * Pow256(n - 1)
  }

  lemma {:induction false} FromLeInverse(v: nat, n: nat)
    requires v < Pow256(n)
    ensures FromLe(Le(v, n)) == v
    decreases n
  {
    if n == 0 {
    } else {
      FromLeInverse(v / 256, n - 1);
    }
  }

  lemma {:induction false} LeInverse(b: seq<byte>)
    ensures FromLe(b) < Pow256(|b|) && Le(FromLe(b), |b|) == b
  {
    if b == [] {
    } else {
      LeInverse(b[1..]);
      LeStep(b[0], FromLe(b[1..]), |b|);
      assert b == [b[0]] + b[1..];
    }
  }

  lemma LeStep(low: byte, high: nat, n: nat)
    requires n > 0
    ensures Le(low + 256 * high, n) == [low] + Le(high, n - 1)
    ensures high < Pow256(n - 1) ==> low + 256 * high < Pow256(n)
  {
    assert (low + 256 * high) % 256 == low && (low + 256 * high) / 256 == high;
  }

  // The widths in use.

  /** `u16::to_le_bytes` */
  function Le16(v: nat): (b: seq<byte>)
    requires v < TWO16
    ensures |b| == 2
  {
    Le(v, 2)
  }

  /** `u32::to_le_bytes` */
  function Le32(v: nat): (b: seq<byte>)
    requires v < TWO32
    ensures |b| == 4
  {
    Le(v, 4)
  }

  /** `u64::to_be_bytes` */
  function Be64(v: nat): (b: seq<byte>)
    requires v < TWO64
    ensures |b| == 8
  {
    Be(v, 8)
  }

  lemma Le16Inverse(v: nat)
    requires v < TWO16
    ensures FromLe(Le16(v)) == v
  {
    assert Pow256(2) == TWO16;
    FromLeInverse(v, 2);
  }

  lemma Le32Inverse(v: nat)
    requires v < TWO32
    ensures FromLe(Le32(v)) == v
  {
    assert Pow256(4) == TWO32;
    FromLeInverse(v, 4);
  }

  lemma FromLe32Inverse(b: seq<byte>)
    requires |b| == 4
    ensures FromLe(b) < TWO32 && Le32(FromLe(b)) == b
  {
    assert Pow256(4) == TWO32;
    LeInverse(b);
  }

  // The bytes themselves.

  lemma Le16Bytes(v: nat)
    requires v < TWO16
    ensures Le16(v) == [v % 0x100, v / 0x100]
  {
    assert Le(v / 256, 1) == [v / 256 % 256] + Le(v / 256 / 256, 0);
  }

  lemma Le32Bytes(v: nat)
    requires v < TWO32
    ensures Le32(v) == [v % 0x100, v / 0x100 % 0x100, v / 0x1_0000 % 0x100, v / 0x100_0000]
  {
    var v1, v2, v3 := v / 0x100, v / 0x1_0000, v / 0x100_0000;
    assert v1 / 256 == v2 && v2 / 256 == v3;
    assert Le(v, 4) == [v % 256] + Le(v1, 3);
    assert Le(v1, 3) == [v1 % 256] + Le(v2, 2);
    assert Le(v2, 2) == [v2 % 256] + Le(v3, 1);
    assert Le(v3, 1) == [v3 % 256] + Le(v3 / 256, 0);
  }

  /** A big-endian number: each byte further counts the ones before it 256 times. */
  function FromBe(b: seq<byte>): nat {
    if b == [] then 0 else 256 * FromBe(b[..|b| - 1]) + b[|b| - 1]
  }

  lemma {:induction false} BeInverse(v: nat, n: nat)
    requires v < Pow256(n)
    ensures FromBe(Be(v, n)) == v
    decreases n
  {
    if n == 0 {
    } else {
      BeInverse(v / 256, n - 1);
      assert Be(v, n)[..n - 1] == Be(v / 256, n - 1);
    }
  }
}
