/**
 Where the constants of SHA-256 come from (FIPS 180-4, sections 4.2.2 and 5.3.3): the first 32 bits of
 the fractional parts of the cube roots of the first 64 primes, and of the square roots of the first eight.
 */
module FipsConstants {
  import opened Words32
  import opened Fips180

  // ---- primes ----

  predicate IsPrime(n: nat) { n >= 2 && forall d :: 2 <= d < n ==> n % d != 0 }

  /** How many primes there are below n. */
  ghost function PrimesBelow(n: nat): nat {
    if n == 0 then 0 else PrimesBelow(n - 1) + if IsPrime(n - 1) then 1 else 0
  }

  /** p is the i-th prime, counted from 0. */
  ghost predicate IsNthPrime(i: nat, p: nat) { IsPrime(p) && PrimesBelow(p) == i }

  /** The first 64 primes, eight to a row. */
  function PrimeRow(r: nat): (p: seq<nat>)
    requires r < 8
    ensures |p| == 8
  {
    match r
    case 0 => [2, 3, 5, 7, 11, 13, 17, 19]
    case 1 => [23, 29, 31, 37, 41, 43, 47, 53]
    case 2 => [59, 61, 67, 71, 73, 79, 83, 89]
    case 3 => [97, 101, 103, 107, 109, 113, 127, 131]
    case 4 => [137, 139, 149, 151, 157, 163, 167, 173]
    case 5 => [179, 181, 191, 193, 197, 199, 211, 223]
    case 6 => [227, 229, 233, 239, 241, 251, 257, 263]
    case _ => [269, 271, 277, 281, 283, 293, 307, 311]
  }

  predicate SmallFactor(n: nat) {
    n % 2 == 0 || n % 3 == 0 || n % 5 == 0 || n % 7 == 0 || n % 11 == 0 || n % 13 == 0 || n % 17 == 0
  }

  /** x is k times one of the primes up to 17. */
  predicate Times(s: nat, x: nat, k: nat) {
    || (s == 2 && x == 2 * k) || (s == 3 && x == 3 * k) || (s == 5 && x == 5 * k) || (s == 7 && x == 7 * k)
    || (s == 11 && x == 11 * k) || (s == 13 && x == 13 * k) || (s == 17 && x == 17 * k)
  }

  lemma By2(k: nat)
    ensures 2 * k % 2 == 0
  {
  }

  lemma By3(k: nat)
    ensures 3 * k % 3 == 0
  {
  }

  lemma By5(k: nat)
    ensures 5 * k % 5 == 0
  {
  }

  lemma By7(k: nat)
    ensures 7 * k % 7 == 0
  {
  }

  lemma By11(k: nat)
    ensures 11 * k % 11 == 0
  {
  }

  lemma By13(k: nat)
    ensures 13 * k % 13 == 0
  {
  }

  lemma By17(k: nat)
    ensures 17 * k % 17 == 0
  {
  }

  lemma TimesHasFactor(s: nat, x: nat, k: nat)
    requires Times(s, x, k)
    ensures SmallFactor(x)
  {
    if s == 2 { By2(k); } else if s == 3 { By3(k); } else if s == 5 { By5(k); } else if s == 7 { By7(k); }
    else if s == 11 { By11(k); } else if s == 13 { By13(k); } else { By17(k); }
  }

  /** A number up to 18 is a multiple of a prime up to 17. */
  lemma FactorOf(m: nat) returns (s: nat, h: nat)
    requires 2 <= m <= 18
    ensures Times(s, m, h)
  {
    s := if m % 2 == 0 then 2 else if m % 3 == 0 then 3 else m;
    h := if m % 2 == 0 then m / 2 else if m % 3 == 0 then m / 3 else 1;
  }

  lemma Associate(s: nat, h: nat, k: nat)
    ensures s * h * k == s * (h * k)
  {
  }

  lemma TimesMore(s: nat, m: nat, h: nat, k: nat)
    requires Times(s, m, h)
    ensures Times(s, m * k, h * k)
  {
    if s == 2 { Associate(2, h, k); }
    if s == 3 { Associate(3, h, k); }
    if s == 5 { Associate(5, h, k); }
    if s == 7 { Associate(7, h, k); }
    if s == 11 { Associate(11, h, k); }
    if s == 13 { Associate(13, h, k); }
    if s == 17 { Associate(17, h, k); }
  }

  /** And passes that on to its multiples. */
  lemma MultipleHasFactor(m: nat, k: nat)
    requires 2 <= m <= 18
    ensures SmallFactor(m * k)
  {
    var s, h := FactorOf(m);
    TimesMore(s, m, h, k);
    TimesHasFactor(s, m * k, h * k);
  }

  lemma SmallSide(d: nat, q: nat)
    ensures d * q < 361 ==> d <= 18 || q <= 18
    ensures d >= 1 && d * q > d ==> q >= 2
  {
    if d >= 19 && q >= 19 { assert d * q >= 19 * q; }
    if q == 0 { assert d * q == 0; }
    if q == 1 { assert d * q == d; }
  }

  lemma CompositeHasSmallFactor(n: nat, d: nat)
    requires 2 <= d < n < 361 && n % d == 0
    ensures SmallFactor(n)
  {
    var q := n / d;
    assert n == d * q;
    SmallSide(d, q);
    if d <= 18 {
      MultipleHasFactor(d, q);
    } else {
      assert n == q * d;
      MultipleHasFactor(q, d);
    }
  }

  /** A test for primality that is good up to 19 * 19. */
  predicate Test(n: nat) {
    n >= 2 && (n == 2 || n == 3 || n == 5 || n == 7 || n == 11 || n == 13 || n == 17 || !SmallFactor(n))
  }

  lemma TestIsGood(n: nat)
    requires n < 361
    ensures IsPrime(n) <==> Test(n)
  {
    if n > 17 && SmallFactor(n) {
      var d := if n % 2 == 0 then 2 else if n % 3 == 0 then 3 else if n % 5 == 0 then 5 else if n % 7 == 0 then 7
               else if n % 11 == 0 then 11 else if n % 13 == 0 then 13 else 17;
      assert n % d == 0;
    }
    forall d | 2 <= d < n && n % d == 0
      ensures SmallFactor(n)
    {
      CompositeHasSmallFactor(n, d);
    }
  }

  lemma {:induction false} NoneBetween(p: nat, q: nat)
    requires p <= q < 361 && NoneFrom(p, q)
    ensures PrimesBelow(q) == PrimesBelow(p)
    decreases q - p
  {
    if p == q {
    } else {
      TestIsGood(p);
      NoneBetween(p + 1, q);
      assert PrimesBelow(p + 1) == PrimesBelow(p);
    }
  }

  /** q passes the test, and nothing between p and q does. */
  predicate Consecutive(p: nat, q: nat) { p < q < 361 && Test(q) && NoneFrom(p + 1, q) }

  predicate NoneFrom(n: nat, q: nat)
    decreases q - n
  {
    n >= q || (!Test(n) && NoneFrom(n + 1, q))
  }

  /** From one prime to the next. */
  lemma Next(i: nat, p: nat, q: nat)
    requires IsNthPrime(i, p) && Consecutive(p, q)
    ensures IsNthPrime(i + 1, q)
  {
    TestIsGood(q);
    NoneBetween(p + 1, q);
  }

  lemma First(p: nat)
    requires p == 2
    ensures IsNthPrime(0, p)
  {
    TestIsGood(p);
    NoneBetween(0, p);
  }

  ghost predicate RowConsecutive(r: nat)
    requires r < 8
  {
    var p := PrimeRow(r);
    && (forall c :: 0 <= c < 7 ==> Consecutive(p[c], p[c + 1]))
    && (r < 7 ==> Consecutive(p[7], PrimeRow(r + 1)[0]))
  }

  lemma Gaps0()
    ensures Consecutive(2, 3) && Consecutive(3, 5) && Consecutive(5, 7) && Consecutive(7, 11)
  {
  }

  lemma Gaps4()
    ensures Consecutive(11, 13) && Consecutive(13, 17) && Consecutive(17, 19) && Consecutive(19, 23)
  {
  }

  lemma Consecutive0()
    ensures RowConsecutive(0)
  {
    Gaps0();
    Gaps4();
  }

  lemma Gaps8()
    ensures Consecutive(23, 29) && Consecutive(29, 31) && Consecutive(31, 37) && Consecutive(37, 41)
  {
  }

  lemma Gaps12()
    ensures Consecutive(41, 43) && Consecutive(43, 47) && Consecutive(47, 53) && Consecutive(53, 59)
  {
  }

  lemma Consecutive1()
    ensures RowConsecutive(1)
  {
    Gaps8();
    Gaps12();
  }

  lemma Gaps16()
    ensures Consecutive(59, 61) && Consecutive(61, 67) && Consecutive(67, 71) && Consecutive(71, 73)
  {
  }

  lemma Gaps20()
    ensures Consecutive(73, 79) && Consecutive(79, 83) && Consecutive(83, 89) && Consecutive(89, 97)
  {
  }

  lemma Consecutive2()
    ensures RowConsecutive(2)
  {
    Gaps16();
    Gaps20();
  }

  lemma Gaps24()
    ensures Consecutive(97, 101) && Consecutive(101, 103) && Consecutive(103, 107) && Consecutive(107, 109)
  {
  }

  lemma Gaps28()
    ensures Consecutive(109, 113) && Consecutive(113, 127) && Consecutive(127, 131) && Consecutive(131, 137)
  {
  }

  lemma Consecutive3()
    ensures RowConsecutive(3)
  {
    Gaps24();
    Gaps28();
  }

  lemma Gaps32()
    ensures Consecutive(137, 139) && Consecutive(139, 149) && Consecutive(149, 151) && Consecutive(151, 157)
  {
  }

  lemma Gaps36()
    ensures Consecutive(157, 163) && Consecutive(163, 167) && Consecutive(167, 173) && Consecutive(173, 179)
  {
  }

  lemma Consecutive4()
    ensures RowConsecutive(4)
  {
    Gaps32();
    Gaps36();
  }

  lemma Gaps40()
    ensures Consecutive(179, 181) && Consecutive(181, 191) && Consecutive(191, 193) && Consecutive(193, 197)
  {
  }

  lemma Gaps44()
    ensures Consecutive(197, 199) && Consecutive(199, 211) && Consecutive(211, 223) && Consecutive(223, 227)
  {
  }

  lemma Consecutive5()
    ensures RowConsecutive(5)
  {
    Gaps40();
    Gaps44();
  }

  lemma Gaps48()
    ensures Consecutive(227, 229) && Consecutive(229, 233) && Consecutive(233, 239) && Consecutive(239, 241)
  {
  }

  lemma Gaps52()
    ensures Consecutive(241, 251) && Consecutive(251, 257) && Consecutive(257, 263) && Consecutive(263, 269)
  {
  }

  lemma Consecutive6()
    ensures RowConsecutive(6)
  {
    Gaps48();
    Gaps52();
  }

  lemma Gaps56()
    ensures Consecutive(269, 271) && Consecutive(271, 277) && Consecutive(277, 281) && Consecutive(281, 283)
  {
  }

  lemma Gaps60()
    ensures Consecutive(283, 293) && Consecutive(293, 307) && Consecutive(307, 311)
  {
  }

  lemma Consecutive7()
    ensures RowConsecutive(7)
  {
    Gaps56();
    Gaps60();
  }

  lemma RowsConsecutive(r: nat)
    requires r < 8
    ensures RowConsecutive(r)
  {
    match r
    case 0 => Consecutive0();
    case 1 => Consecutive1();
    case 2 => Consecutive2();
    case 3 => Consecutive3();
    case 4 => Consecutive4();
    case 5 => Consecutive5();
    case 6 => Consecutive6();
    case _ => Consecutive7();
  }

  lemma {:induction false} NthPrimes(r: nat, c: nat)
    requires r < 8 && c < 8
    ensures IsNthPrime(8 * r + c, PrimeRow(r)[c])
    decreases r, c
  {
    if r == 0 && c == 0 {
      First(PrimeRow(r)[c]);
    } else if c == 0 {
      NthPrimes(r - 1, 7);
      RowsConsecutive(r - 1);
      Next(8 * r - 1, PrimeRow(r - 1)[7], PrimeRow(r)[0]);
    } else {
      NthPrimes(r, c - 1);
      RowsConsecutive(r);
      assert Consecutive(PrimeRow(r)[c - 1], PrimeRow(r)[c - 1 + 1]);
      Next(8 * r + c - 1, PrimeRow(r)[c - 1], PrimeRow(r)[c]);
    }
  }

  // ---- roots ----

  predicate IsCubeRoot(p: nat, x: nat) {
    x * x * x <= p * 0x1_0000_0000_0000_0000_0000_0000 < (x + 1) * (x + 1) * (x + 1)
  }

  predicate IsSquareRoot(p: nat, x: nat) { x * x <= p * 0x1_0000_0000_0000_0000 < (x + 1) * (x + 1) }

  /** k is the first 32 bits of the fraction of p's cube root: behind some whole part, it is the root, cut off. */
  ghost predicate CubeFraction(p: nat, k: Word) { exists n: nat :: IsCubeRoot(p, n * 0x1_0000_0000 + k) }

  ghost predicate SquareFraction(p: nat, k: Word) { exists n: nat :: IsSquareRoot(p, n * 0x1_0000_0000 + k) }

  lemma CubeRoot(p: nat, n: nat, k: Word)
    requires var x := n * 0x1_0000_0000 + k;
             x * x * x <= p * 0x1_0000_0000_0000_0000_0000_0000 < (x + 1) * (x + 1) * (x + 1)
    ensures CubeFraction(p, k)
  {
    assert IsCubeRoot(p, n * 0x1_0000_0000 + k);
  }

  lemma SquareRoot(p: nat, n: nat, k: Word)
    requires var x := n * 0x1_0000_0000 + k;
             x * x <= p * 0x1_0000_0000_0000_0000 < (x + 1) * (x + 1)
    ensures SquareFraction(p, k)
  {
    assert IsSquareRoot(p, n * 0x1_0000_0000 + k);
  }

  ghost predicate RowOfRoots(r: nat)
    requires r < 8
  {
    forall c :: 0 <= c < 8 ==> CubeFraction(PrimeRow(r)[c], KRow(r)[c])
  }

  lemma Roots0()
    ensures RowOfRoots(0)
  {
    var p, k := PrimeRow(0), KRow(0);
    CubeRoot(p[0], 1, k[0]);
    CubeRoot(p[1], 1, k[1]);
    CubeRoot(p[2], 1, k[2]);
    CubeRoot(p[3], 1, k[3]);
    CubeRoot(p[4], 2, k[4]);
    CubeRoot(p[5], 2, k[5]);
    CubeRoot(p[6], 2, k[6]);
    CubeRoot(p[7], 2, k[7]);
  }

  lemma Roots1()
    ensures RowOfRoots(1)
  {
    var p, k := PrimeRow(1), KRow(1);
    CubeRoot(p[0], 2, k[0]);
    CubeRoot(p[1], 3, k[1]);
    CubeRoot(p[2], 3, k[2]);
    CubeRoot(p[3], 3, k[3]);
    CubeRoot(p[4], 3, k[4]);
    CubeRoot(p[5], 3, k[5]);
    CubeRoot(p[6], 3, k[6]);
    CubeRoot(p[7], 3, k[7]);
  }

  lemma Roots2()
    ensures RowOfRoots(2)
  {
    var p, k := PrimeRow(2), KRow(2);
    CubeRoot(p[0], 3, k[0]);
    CubeRoot(p[1], 3, k[1]);
    CubeRoot(p[2], 4, k[2]);
    CubeRoot(p[3], 4, k[3]);
    CubeRoot(p[4], 4, k[4]);
    CubeRoot(p[5], 4, k[5]);
    CubeRoot(p[6], 4, k[6]);
    CubeRoot(p[7], 4, k[7]);
  }

  lemma Roots3()
    ensures RowOfRoots(3)
  {
    var p, k := PrimeRow(3), KRow(3);
    CubeRoot(p[0], 4, k[0]);
    CubeRoot(p[1], 4, k[1]);
    CubeRoot(p[2], 4, k[2]);
    CubeRoot(p[3], 4, k[3]);
    CubeRoot(p[4], 4, k[4]);
    CubeRoot(p[5], 4, k[5]);
    CubeRoot(p[6], 5, k[6]);
    CubeRoot(p[7], 5, k[7]);
  }

  lemma Roots4()
    ensures RowOfRoots(4)
  {
    var p, k := PrimeRow(4), KRow(4);
    CubeRoot(p[0], 5, k[0]);
    CubeRoot(p[1], 5, k[1]);
    CubeRoot(p[2], 5, k[2]);
    CubeRoot(p[3], 5, k[3]);
    CubeRoot(p[4], 5, k[4]);
    CubeRoot(p[5], 5, k[5]);
    CubeRoot(p[6], 5, k[6]);
    CubeRoot(p[7], 5, k[7]);
  }

  lemma Roots5()
    ensures RowOfRoots(5)
  {
    var p, k := PrimeRow(5), KRow(5);
    CubeRoot(p[0], 5, k[0]);
    CubeRoot(p[1], 5, k[1]);
    CubeRoot(p[2], 5, k[2]);
    CubeRoot(p[3], 5, k[3]);
    CubeRoot(p[4], 5, k[4]);
    CubeRoot(p[5], 5, k[5]);
    CubeRoot(p[6], 5, k[6]);
    CubeRoot(p[7], 6, k[7]);
  }

  lemma Roots6()
    ensures RowOfRoots(6)
  {
    var p, k := PrimeRow(6), KRow(6);
    CubeRoot(p[0], 6, k[0]);
    CubeRoot(p[1], 6, k[1]);
    CubeRoot(p[2], 6, k[2]);
    CubeRoot(p[3], 6, k[3]);
    CubeRoot(p[4], 6, k[4]);
    CubeRoot(p[5], 6, k[5]);
    CubeRoot(p[6], 6, k[6]);
    CubeRoot(p[7], 6, k[7]);
  }

  lemma Roots7()
    ensures RowOfRoots(7)
  {
    var p, k := PrimeRow(7), KRow(7);
    CubeRoot(p[0], 6, k[0]);
    CubeRoot(p[1], 6, k[1]);
    CubeRoot(p[2], 6, k[2]);
    CubeRoot(p[3], 6, k[3]);
    CubeRoot(p[4], 6, k[4]);
    CubeRoot(p[5], 6, k[5]);
    CubeRoot(p[6], 6, k[6]);
    CubeRoot(p[7], 6, k[7]);
  }

  lemma RootsOfRow(r: nat)
    requires r < 8
    ensures RowOfRoots(r)
  {
    match r
    case 0 => Roots0();
    case 1 => Roots1();
    case 2 => Roots2();
    case 3 => Roots3();
    case 4 => Roots4();
    case 5 => Roots5();
    case 6 => Roots6();
    case _ => Roots7();
  }

  lemma KAt(r: nat, c: nat)
    requires r < 8 && c < 8
    ensures K()[8 * r + c] == KRow(r)[c]
  {
  }

  /** Section 4.2.2: the i-th constant is the fraction of the cube root of the i-th prime. */
  lemma ConstantsAreCubeRoots(i: nat) returns (p: nat)
    requires i < 64
    ensures IsNthPrime(i, p) && CubeFraction(p, K()[i])
  {
    var r, c := i / 8, i % 8;
    p := PrimeRow(r)[c];
    NthPrimes(r, c);
    RootsOfRow(r);
    KAt(r, c);
  }

  /** Section 5.3.3: the i-th word of the initial hash value is the fraction of the square root of the i-th prime. */
  lemma InitialValueIsSquareRoots(i: nat) returns (p: nat)
    requires i < 8
    ensures IsNthPrime(i, p) && SquareFraction(p, H0[i])
  {
    var ps := PrimeRow(0);
    p := ps[i];
    NthPrimes(0, i);
    InitialRoots();
  }

  lemma InitialRoots()
    ensures forall i :: 0 <= i < 8 ==> SquareFraction(PrimeRow(0)[i], H0[i])
  {
    var p, h := PrimeRow(0), H0;
    SquareRoot(p[0], 1, h[0]);
    SquareRoot(p[1], 1, h[1]);
    SquareRoot(p[2], 2, h[2]);
    SquareRoot(p[3], 2, h[3]);
    SquareRoot(p[4], 3, h[4]);
    SquareRoot(p[5], 3, h[5]);
    SquareRoot(p[6], 4, h[6]);
    SquareRoot(p[7], 4, h[7]);
  }
}
