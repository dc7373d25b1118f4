/**
 * Where the constants of SHA-256 come from: the first 32 bits of the fractional parts of the cube
 * roots of the first 64 primes, and of the square roots of the first eight (FIPS 180-4, sections
 * 4.2.2 and 5.3.3).
 */
module Sha256Constants {
  import opened Bits
  import opened Sha256

  predicate Prime(n: nat) {
    n >= 2 && forall d | 2 <= d < n :: n % d != 0
  }

  /** How many primes there are below a number. */
  function PrimesBelow(n: nat): nat {
    if n == 0 then 0 else PrimesBelow(n - 1) + (if Prime(n - 1) then 1 else 0)
  }

  /** The prime that has exactly `i` primes below it. */
  predicate NthPrime(p: nat, i: nat) {
    Prime(p) && PrimesBelow(p) == i
  }

  // ---------------------------------------------------------------- deciding small primes

  /** No divisor up to 17 but the number itself. */
  predicate Sieved(n: nat) {
    && n >= 2
    && (n % 2 != 0 || n == 2) && (n % 3 != 0 || n == 3) && (n % 5 != 0 || n == 5) && (n % 7 != 0 || n == 7)
    && (n % 11 != 0 || n == 11) && (n % 13 != 0 || n == 13) && (n % 17 != 0 || n == 17)
  }

  lemma SquareAtLeast(d: nat, e: nat)
    requires d >= 18 && e >= 18
    ensures d * e >= 324
  {
    assert (d - 18) * (e - 18) >= 0;
  }

  /** A factor of at most 17 is a multiple of a prime of at most 17. */
  lemma SmallFactor(n: nat, d: nat, e: nat)
    requires 2 <= d <= 17 && n == d * e && d < n
    ensures !Sieved(n)
  {
    if d % 2 == 0 { MultipleOf(n, d, e, 2); }
    else if d % 3 == 0 { MultipleOf(n, d, e, 3); }
    else if d % 5 == 0 { MultipleOf(n, d, e, 5); }
    else { assert d in {7, 11, 13, 17}; MultipleOf(n, d, e, d); }
  }

  lemma MultipleOf(n: nat, d: nat, e: nat, p: nat)
    requires p > 0 && d % p == 0 && n == d * e
    ensures n % p == 0
  {
    var q := d / p;
    assert d == q * p;
    assert n == (q * e) * p + 0 by { assert (q * p) * e == (q * e) * p; }
    QuotientIs(n, p, q * e, 0);
  }

  lemma SievedIsPrime(n: nat)
    requires n < 324
    ensures Sieved(n) <==> Prime(n)
  {
    if n >= 2 && !Prime(n) {
      var d :| 2 <= d < n && n % d == 0;
      var e := n / d;
      DivMod(n, d);
      assert n == d * e by { assert d * e == e * d; }
      if d <= 17 {
        SmallFactor(n, d, e);
      } else {
        if e >= 18 { SquareAtLeast(d, e); }
        CoFactor(n, d, e);
        assert n == e * d by { assert d * e == e * d; }
        SmallFactor(n, e, d);
      }
    }
  }

  lemma Times(d: nat, e: nat)
    ensures e == 0 ==> d * e == 0
    ensures e == 1 ==> d * e == d
    ensures d >= 2 ==> d * e >= 2 * e
  {
    if d >= 2 { assert (d - 2) * e >= 0; }
  }

  lemma CoFactor(n: nat, d: nat, e: nat)
    requires n == d * e && 2 <= d < n
    ensures 2 <= e < n
  {
    Times(d, e);
  }

  /** No number above the first and below the second passes the sieve. */
  predicate NoneBetween(p: nat, q: nat)
    decreases q - p
  {
    p + 1 >= q || (!Sieved(p + 1) && NoneBetween(p + 1, q))
  }

  lemma {:induction false} CountBetween(p: nat, q: nat)
    requires p + 1 <= q < 324 && NoneBetween(p, q)
    ensures PrimesBelow(q) == PrimesBelow(p + 1)
    decreases q - p
  {
    hide Prime, Sieved;
    if p + 1 < q {
      SievedIsPrime(p + 1);
      CountBetween(p + 1, q);
    }
  }

  lemma NextPrime(p: nat, q: nat, i: nat)
    requires NthPrime(p, i) && p < q < 324 && Sieved(q) && NoneBetween(p, q)
    ensures NthPrime(q, i + 1)
  {
    SievedIsPrime(q);
    CountBetween(p, q);
    assert PrimesBelow(p + 1) == i + 1;
    hide Prime, Sieved;
  }

  // ---------------------------------------------------------------- roots

  /** The cube root of `p` begins with `w` before the point and the 32 bits `k` after it. */
  predicate CubeRoot(p: nat, w: nat, k: Word) {
    var r := w * WORD + k;
    r * r * r <= p * (WORD * WORD * WORD) < (r + 1) * (r + 1) * (r + 1)
  }

  predicate RootAt(p: nat, w: nat, i: nat)
    requires i < 64
  {
    CubeRoot(p, w, K[i])
  }

  /** Round constant `i` is the 32 bits after the point of the cube root of the prime with `i` primes below it. */
  ghost predicate FromCubeRoot(i: nat)
    requires i < 64
  {
    exists p: nat, w: nat :: NthPrime(p, i) && CubeRoot(p, w, K[i])
  }

  ghost predicate RowRooted(row: nat)
    requires row < 8
  {
    forall i | 8 * row <= i < 8 * row + 8 :: FromCubeRoot(i)
  }

  lemma Rooted(p: nat, w: nat, i: nat)
    requires i < 64 && NthPrime(p, i) && RootAt(p, w, i)
    ensures FromCubeRoot(i)
  {
    hide NthPrime, CubeRoot;
  }

  predicate SquareRoot(p: nat, w: nat, k: Word) {
    var r := w * WORD + k;
    r * r <= p * (WORD * WORD) < (r + 1) * (r + 1)
  }

  ghost predicate FromSquareRoot(i: nat)
    requires i < 8
  {
    exists p: nat, w: nat :: NthPrime(p, i) && SquareRoot(p, w, INITIAL[i])
  }

  lemma Primes0()
    ensures NthPrime(2, 0) && NthPrime(3, 1) && NthPrime(5, 2) && NthPrime(7, 3) && NthPrime(11, 4) && NthPrime(13, 5) && NthPrime(17, 6) && NthPrime(19, 7)
  {
    hide NthPrime, PrimesBelow, Prime;
    FirstPrime(); NextPrime(2, 3, 0); NextPrime(3, 5, 1); NextPrime(5, 7, 2);
    NextPrime(7, 11, 3); NextPrime(11, 13, 4); NextPrime(13, 17, 5); NextPrime(17, 19, 6);
  }

  lemma CubeRoots0()
    ensures RootAt(2, 1, 0) && RootAt(3, 1, 1) && RootAt(5, 1, 2) && RootAt(7, 1, 3)
    ensures RootAt(11, 2, 4) && RootAt(13, 2, 5) && RootAt(17, 2, 6) && RootAt(19, 2, 7)
  {}

  lemma Row0()
    ensures RowRooted(0) && NthPrime(19, 7)
  {
    hide NthPrime, RootAt, FromCubeRoot;
    Primes0();
    CubeRoots0();
    Rooted(2, 1, 0); Rooted(3, 1, 1); Rooted(5, 1, 2); Rooted(7, 1, 3);
    Rooted(11, 2, 4); Rooted(13, 2, 5); Rooted(17, 2, 6); Rooted(19, 2, 7);
    forall i | 0 <= i < 8 ensures FromCubeRoot(i) { assert i in {0, 1, 2, 3, 4, 5, 6, 7}; }
  }

  lemma Primes1()
    requires NthPrime(19, 7)
    ensures NthPrime(23, 8) && NthPrime(29, 9) && NthPrime(31, 10) && NthPrime(37, 11) && NthPrime(41, 12) && NthPrime(43, 13) && NthPrime(47, 14) && NthPrime(53, 15)
  {
    hide NthPrime, PrimesBelow, Prime;
    NextPrime(19, 23, 7); NextPrime(23, 29, 8); NextPrime(29, 31, 9); NextPrime(31, 37, 10);
    NextPrime(37, 41, 11); NextPrime(41, 43, 12); NextPrime(43, 47, 13); NextPrime(47, 53, 14);
  }

  lemma CubeRoots1()
    ensures RootAt(23, 2, 8) && RootAt(29, 3, 9) && RootAt(31, 3, 10) && RootAt(37, 3, 11)
    ensures RootAt(41, 3, 12) && RootAt(43, 3, 13) && RootAt(47, 3, 14) && RootAt(53, 3, 15)
  {}

  lemma Row1()
    requires NthPrime(19, 7)
    ensures RowRooted(1) && NthPrime(53, 15)
  {
    hide NthPrime, RootAt, FromCubeRoot;
    Primes1();
    CubeRoots1();
    Rooted(23, 2, 8); Rooted(29, 3, 9); Rooted(31, 3, 10); Rooted(37, 3, 11);
    Rooted(41, 3, 12); Rooted(43, 3, 13); Rooted(47, 3, 14); Rooted(53, 3, 15);
    forall i | 8 <= i < 16 ensures FromCubeRoot(i) { assert i in {8, 9, 10, 11, 12, 13, 14, 15}; }
  }

  lemma Primes2()
    requires NthPrime(53, 15)
    ensures NthPrime(59, 16) && NthPrime(61, 17) && NthPrime(67, 18) && NthPrime(71, 19) && NthPrime(73, 20) && NthPrime(79, 21) && NthPrime(83, 22) && NthPrime(89, 23)
  {
    hide NthPrime, PrimesBelow, Prime;
    NextPrime(53, 59, 15); NextPrime(59, 61, 16); NextPrime(61, 67, 17); NextPrime(67, 71, 18);
    NextPrime(71, 73, 19); NextPrime(73, 79, 20); NextPrime(79, 83, 21); NextPrime(83, 89, 22);
  }

  lemma CubeRoots2()
    ensures RootAt(59, 3, 16) && RootAt(61, 3, 17) && RootAt(67, 4, 18) && RootAt(71, 4, 19)
    ensures RootAt(73, 4, 20) && RootAt(79, 4, 21) && RootAt(83, 4, 22) && RootAt(89, 4, 23)
  {}

  lemma Row2()
    requires NthPrime(53, 15)
    ensures RowRooted(2) && NthPrime(89, 23)
  {
    hide NthPrime, RootAt, FromCubeRoot;
    Primes2();
    CubeRoots2();
    Rooted(59, 3, 16); Rooted(61, 3, 17); Rooted(67, 4, 18); Rooted(71, 4, 19);
    Rooted(73, 4, 20); Rooted(79, 4, 21); Rooted(83, 4, 22); Rooted(89, 4, 23);
    forall i | 16 <= i < 24 ensures FromCubeRoot(i) { assert i in {16, 17, 18, 19, 20, 21, 22, 23}; }
  }

  lemma Primes3()
    requires NthPrime(89, 23)
    ensures NthPrime(97, 24) && NthPrime(101, 25) && NthPrime(103, 26) && NthPrime(107, 27) && NthPrime(109, 28) && NthPrime(113, 29) && NthPrime(127, 30) && NthPrime(131, 31)
  {
    hide NthPrime, PrimesBelow, Prime;
    NextPrime(89, 97, 23); NextPrime(97, 101, 24); NextPrime(101, 103, 25); NextPrime(103, 107, 26);
    NextPrime(107, 109, 27); NextPrime(109, 113, 28); NextPrime(113, 127, 29); NextPrime(127, 131, 30);
  }

  lemma CubeRoots3()
    ensures RootAt(97, 4, 24) && RootAt(101, 4, 25) && RootAt(103, 4, 26) && RootAt(107, 4, 27)
    ensures RootAt(109, 4, 28) && RootAt(113, 4, 29) && RootAt(127, 5, 30) && RootAt(131, 5, 31)
  {}

  lemma Row3()
    requires NthPrime(89, 23)
    ensures RowRooted(3) && NthPrime(131, 31)
  {
    hide NthPrime, RootAt, FromCubeRoot;
    Primes3();
    CubeRoots3();
    Rooted(97, 4, 24); Rooted(101, 4, 25); Rooted(103, 4, 26); Rooted(107, 4, 27);
    Rooted(109, 4, 28); Rooted(113, 4, 29); Rooted(127, 5, 30); Rooted(131, 5, 31);
    forall i | 24 <= i < 32 ensures FromCubeRoot(i) { assert i in {24, 25, 26, 27, 28, 29, 30, 31}; }
  }

  lemma Primes4()
    requires NthPrime(131, 31)
    ensures NthPrime(137, 32) && NthPrime(139, 33) && NthPrime(149, 34) && NthPrime(151, 35) && NthPrime(157, 36) && NthPrime(163, 37) && NthPrime(167, 38) && NthPrime(173, 39)
  {
    hide NthPrime, PrimesBelow, Prime;
    NextPrime(131, 137, 31); NextPrime(137, 139, 32); NextPrime(139, 149, 33); NextPrime(149, 151, 34);
    NextPrime(151, 157, 35); NextPrime(157, 163, 36); NextPrime(163, 167, 37); NextPrime(167, 173, 38);
  }

  lemma CubeRoots4()
    ensures RootAt(137, 5, 32) && RootAt(139, 5, 33) && RootAt(149, 5, 34) && RootAt(151, 5, 35)
    ensures RootAt(157, 5, 36) && RootAt(163, 5, 37) && RootAt(167, 5, 38) && RootAt(173, 5, 39)
  {}

  lemma Row4()
    requires NthPrime(131, 31)
    ensures RowRooted(4) && NthPrime(173, 39)
  {
    hide NthPrime, RootAt, FromCubeRoot;
    Primes4();
    CubeRoots4();
    Rooted(137, 5, 32); Rooted(139, 5, 33); Rooted(149, 5, 34); Rooted(151, 5, 35);
    Rooted(157, 5, 36); Rooted(163, 5, 37); Rooted(167, 5, 38); Rooted(173, 5, 39);
    forall i | 32 <= i < 40 ensures FromCubeRoot(i) { assert i in {32, 33, 34, 35, 36, 37, 38, 39}; }
  }

  lemma Primes5()
    requires NthPrime(173, 39)
    ensures NthPrime(179, 40) && NthPrime(181, 41) && NthPrime(191, 42) && NthPrime(193, 43) && NthPrime(197, 44) && NthPrime(199, 45) && NthPrime(211, 46) && NthPrime(223, 47)
  {
    hide NthPrime, PrimesBelow, Prime;
    NextPrime(173, 179, 39); NextPrime(179, 181, 40); NextPrime(181, 191, 41); NextPrime(191, 193, 42);
    NextPrime(193, 197, 43); NextPrime(197, 199, 44); NextPrime(199, 211, 45); NextPrime(211, 223, 46);
  }

  lemma CubeRoots5()
    ensures RootAt(179, 5, 40) && RootAt(181, 5, 41) && RootAt(191, 5, 42) && RootAt(193, 5, 43)
    ensures RootAt(197, 5, 44) && RootAt(199, 5, 45) && RootAt(211, 5, 46) && RootAt(223, 6, 47)
  {}

  lemma Row5()
    requires NthPrime(173, 39)
    ensures RowRooted(5) && NthPrime(223, 47)
  {
    hide NthPrime, RootAt, FromCubeRoot;
    Primes5();
    CubeRoots5();
    Rooted(179, 5, 40); Rooted(181, 5, 41); Rooted(191, 5, 42); Rooted(193, 5, 43);
    Rooted(197, 5, 44); Rooted(199, 5, 45); Rooted(211, 5, 46); Rooted(223, 6, 47);
    forall i | 40 <= i < 48 ensures FromCubeRoot(i) { assert i in {40, 41, 42, 43, 44, 45, 46, 47}; }
  }

  lemma Primes6()
    requires NthPrime(223, 47)
    ensures NthPrime(227, 48) && NthPrime(229, 49) && NthPrime(233, 50) && NthPrime(239, 51) && NthPrime(241, 52) && NthPrime(251, 53) && NthPrime(257, 54) && NthPrime(263, 55)
  {
    hide NthPrime, PrimesBelow, Prime;
    NextPrime(223, 227, 47); NextPrime(227, 229, 48); NextPrime(229, 233, 49); NextPrime(233, 239, 50);
    NextPrime(239, 241, 51); NextPrime(241, 251, 52); NextPrime(251, 257, 53); NextPrime(257, 263, 54);
  }

  lemma CubeRoots6()
    ensures RootAt(227, 6, 48) && RootAt(229, 6, 49) && RootAt(233, 6, 50) && RootAt(239, 6, 51)
    ensures RootAt(241, 6, 52) && RootAt(251, 6, 53) && RootAt(257, 6, 54) && RootAt(263, 6, 55)
  {}

  lemma Row6()
    requires NthPrime(223, 47)
    ensures RowRooted(6) && NthPrime(263, 55)
  {
    hide NthPrime, RootAt, FromCubeRoot;
    Primes6();
    CubeRoots6();
    Rooted(227, 6, 48); Rooted(229, 6, 49); Rooted(233, 6, 50); Rooted(239, 6, 51);
    Rooted(241, 6, 52); Rooted(251, 6, 53); Rooted(257, 6, 54); Rooted(263, 6, 55);
    forall i | 48 <= i < 56 ensures FromCubeRoot(i) { assert i in {48, 49, 50, 51, 52, 53, 54, 55}; }
  }

  lemma Primes7()
    requires NthPrime(263, 55)
    ensures NthPrime(269, 56) && NthPrime(271, 57) && NthPrime(277, 58) && NthPrime(281, 59) && NthPrime(283, 60) && NthPrime(293, 61) && NthPrime(307, 62) && NthPrime(311, 63)
  {
    hide NthPrime, PrimesBelow, Prime;
    NextPrime(263, 269, 55); NextPrime(269, 271, 56); NextPrime(271, 277, 57); NextPrime(277, 281, 58);
    NextPrime(281, 283, 59); NextPrime(283, 293, 60); NextPrime(293, 307, 61); NextPrime(307, 311, 62);
  }

  lemma CubeRoots7()
    ensures RootAt(269, 6, 56) && RootAt(271, 6, 57) && RootAt(277, 6, 58) && RootAt(281, 6, 59)
    ensures RootAt(283, 6, 60) && RootAt(293, 6, 61) && RootAt(307, 6, 62) && RootAt(311, 6, 63)
  {}

  lemma Row7()
    requires NthPrime(263, 55)
    ensures RowRooted(7) && NthPrime(311, 63)
  {
    hide NthPrime, RootAt, FromCubeRoot;
    Primes7();
    CubeRoots7();
    Rooted(269, 6, 56); Rooted(271, 6, 57); Rooted(277, 6, 58); Rooted(281, 6, 59);
    Rooted(283, 6, 60); Rooted(293, 6, 61); Rooted(307, 6, 62); Rooted(311, 6, 63);
    forall i | 56 <= i < 64 ensures FromCubeRoot(i) { assert i in {56, 57, 58, 59, 60, 61, 62, 63}; }
  }

  lemma FirstPrime()
    ensures NthPrime(2, 0)
  {
    assert PrimesBelow(2) == PrimesBelow(1) == PrimesBelow(0);
  }

  lemma SquareRoots()
    ensures SquareRoot(2, 1, INITIAL[0]) && SquareRoot(3, 1, INITIAL[1]) && SquareRoot(5, 2, INITIAL[2]) && SquareRoot(7, 2, INITIAL[3])
    ensures SquareRoot(11, 3, INITIAL[4]) && SquareRoot(13, 3, INITIAL[5]) && SquareRoot(17, 4, INITIAL[6]) && SquareRoot(19, 4, INITIAL[7])
  {}

  /** The round constants and the initial chain are the bits of the roots they are said to be. */
  lemma ConstantsAreRoots(i: nat)
    requires i < 64
    ensures FromCubeRoot(i)
    ensures i < 8 ==> FromSquareRoot(i)
  {
    hide NthPrime, SquareRoot, FromCubeRoot;
    Row0(); Row1(); Row2(); Row3(); Row4(); Row5(); Row6(); Row7();
    assert i / 8 in {0, 1, 2, 3, 4, 5, 6, 7};
    assert RowRooted(i / 8);
    Primes0();
    SquareRoots();
    if i < 8 { assert i in {0, 1, 2, 3, 4, 5, 6, 7}; }
  }
}
