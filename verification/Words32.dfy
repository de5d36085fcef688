/**
 The operations on 32-bit words that SHA-256 needs, as arithmetic, with what each does to single
 bits (FIPS 180-4, sections 2.2.2 and 3.2).
 */
module Words32 {

  const TWO32: nat := 0x1_0000_0000

  type Word = x: int | 0 <= x < TWO32

  /** `wrapping_add` */
  function Plus(x: nat, y: nat): Word { (x + y) % TWO32 }

  function Xor(x: nat, y: nat): nat {
    if x == 0 then y else if y == 0 then x else (x + y) % 2 + 2 * Xor(x / 2, y / 2)
  }

  function And(x: nat, y: nat): nat {
    if x == 0 || y == 0 then 0
    else (if x % 2 == 1 && y % 2 == 1 then 1 else 0) + 2 * And(x / 2, y / 2)
  }

  function Not(x: Word): Word { 0xffff_ffff - x }

  /** `x >> n` */
  function ShiftRight(x: Word, n: nat): Word
    decreases n, x
  {
    if n == 0 then x else ShiftRight(x, n - 1) / 2
  }

  /** `x.rotate_right(n)`, one place at a time. */
  function RotateRight(x: Word, n: nat): Word
    decreases n, x
  {
    if n == 0 then x else RotateOnce(RotateRight(x, n - 1))
  }

  function RotateOnce(x: Word): Word {
    x / 2 + if x % 2 == 1 then 0x8000_0000 else 0
  }

  /** Bit i of x, bit 0 being the least significant. */
  predicate Bit(x: nat, i: nat) {
    if i == 0 then x % 2 == 1 else Bit(x / 2, i - 1)
  }

  function Pow2(n: nat): (p: nat)
    ensures p > 0
  {
    if n == 0 then 1 else 2 * Pow2(n - 1)
  }

  lemma {:induction false} ZeroBit(i: nat)
    ensures !Bit(0, i)
  {
    if i == 0 {
    } else {
      ZeroBit(i - 1);
    }
  }

  lemma {:induction false} XorHalves(x: nat, y: nat)
    ensures Xor(x, y) % 2 == (x + y) % 2
    ensures Xor(x, y) / 2 == Xor(x / 2, y / 2)
  {
    if x == 0 {
      assert x / 2 == 0;
    } else if y == 0 {
      assert Xor(x / 2, y / 2) == x / 2;
    } else {
      var low, high := (x + y) % 2, Xor(x / 2, y / 2);
      assert Xor(x, y) == low + 2 * high;
    }
  }

  lemma {:induction false} XorBit(x: nat, y: nat, i: nat)
    ensures Bit(Xor(x, y), i) == (Bit(x, i) != Bit(y, i))
  {
    XorHalves(x, y);
    if i == 0 {
    } else {
      XorBit(x / 2, y / 2, i - 1);
    }
  }

  lemma {:induction false} AndBit(x: nat, y: nat, i: nat)
    ensures Bit(And(x, y), i) == (Bit(x, i) && Bit(y, i))
  {
    if x == 0 || y == 0 {
      ZeroBit(i);
    } else if i > 0 {
      AndBit(x / 2, y / 2, i - 1);
    }
  }

  lemma Pow2Of32()
    ensures Pow2(31) == 0x8000_0000 && Pow2(32) == TWO32
  {
    assert Pow2(8) == 0x100;
    assert Pow2(16) == 0x1_0000;
    assert Pow2(24) == 0x100_0000;
  }

  lemma NotBit(x: Word, i: nat)
    requires i < 32
    ensures Bit(Not(x), i) == !Bit(x, i)
  {
    Pow2Of32();
    ComplementBit(x, 32, i);
  }

  lemma {:induction false} ComplementBit(x: nat, k: nat, i: nat)
    requires i < k && x < Pow2(k)
    ensures Bit(Pow2(k) - 1 - x, i) == !Bit(x, i)
  {
    if i == 0 {
    } else {
      ComplementBit(x / 2, k - 1, i - 1);
      assert (Pow2(k) - 1 - x) / 2 == Pow2(k - 1) - 1 - x / 2;
    }
  }

  /** Setting bit m of a number that has no bit at or above it. */
  lemma {:induction false} SetBit(x: nat, m: nat, i: nat)
    requires x < Pow2(m) && i <= m
    ensures Bit(x + Pow2(m), i) == (i == m || Bit(x, i))
    ensures i == m ==> !Bit(x, i)
  {
    if m == 0 || i == 0 {
    } else {
      SetBit(x / 2, m - 1, i - 1);
      assert (x + Pow2(m)) / 2 == x / 2 + Pow2(m - 1);
    }
  }

  lemma RotateOnceBit(y: Word, i: nat)
    requires i < 32
    ensures Bit(RotateOnce(y), i) == Bit(y, if i < 31 then i + 1 else 0)
  {
    Pow2Of32();
    SetBit(y / 2, 31, i);
  }

  /** Rotation moves bit i + n to bit i, around the end of the word. */
  lemma {:induction false} RotateBit(x: Word, n: nat, i: nat)
    requires n < 32 && i < 32
    ensures Bit(RotateRight(x, n), i) == Bit(x, if i + n < 32 then i + n else i + n - 32)
  {
    if n == 0 {
    } else {
      RotateOnceBit(RotateRight(x, n - 1), i);
      RotateBit(x, n - 1, if i < 31 then i + 1 else 0);
    }
  }

  lemma {:induction false} ShiftBit(x: Word, n: nat, i: nat)
    ensures Bit(ShiftRight(x, n), i) == Bit(x, i + n)
  {
    if n == 0 {
    } else {
      ShiftBit(x, n - 1, i + 1);
    }
  }
}
