/**
 * The bitwise operators on 32-bit words, as JavaScript and FIPS 180-4 use them, and what each does
 * to the bits of its operands. Bit `i` of a number is its digit of weight 2^i.
 */
module Bits {

  const WORD: int := 0x1_0000_0000

  type Word = n: int | 0 <= n < 0x1_0000_0000

  /** How far a word is shifted. */
  type Amount = n: nat | n <= 32

  function Pow2(n: nat): (p: nat)
    ensures p > 0
  {
    if n == 0 then 1 else 2 * Pow2(n - 1)
  }

  lemma WordIsPow2()
    ensures WORD == Pow2(32)
  {
    assert Pow2(8) == 256;
    assert Pow2(16) == 0x1_0000 by { Pow2Sum(8, 8); }
    Pow2Sum(16, 16);
  }

  lemma {:induction false} Pow2Sum(m: nat, n: nat)
    ensures Pow2(m + n) == Pow2(m) * Pow2(n)
  {
    if n > 0 {
      Pow2Sum(m, n - 1);
      assert Pow2(m + n) == 2 * Pow2(m + n - 1);
      assert 2 * (Pow2(m) * Pow2(n - 1)) == Pow2(m) * (2 * Pow2(n - 1));
    }
  }

  function Bit(x: nat, i: nat): (b: nat)
    ensures b < 2
  {
    x / Pow2(i) % 2
  }

  lemma DivideTwice(x: nat, p: nat)
    requires p > 0
    ensures x / (2 * p) == x / 2 / p
  {
    var q, r := x / 2 / p, x / 2 % p;
    assert x / 2 == q * p + r;
    assert x == q * (2 * p) + (2 * r + x % 2);
    QuotientIs(x, 2 * p, q, 2 * r + x % 2);
  }

  lemma AtLeast(e: int, d: int)
    requires d > 0
    ensures e >= 1 ==> e * d >= d
    ensures e <= -1 ==> e * d <= -d
  {
    if e >= 1 {
      assert (e - 1) * d >= 0;
    } else if e <= -1 {
      assert (-e - 1) * d >= 0;
    }
  }

  lemma SmallMultiple(e: int, d: int, s: int)
    requires d > 0 && s == e * d && -d < s < d
    ensures e == 0
  {
    AtLeast(e, d);
  }

  lemma QuotientIs(x: nat, d: nat, q: nat, r: nat)
    requires d > 0 && x == q * d + r && r < d
    ensures x / d == q && x % d == r
  {
    var q', r' := x / d, x % d;
    assert x == q' * d + r';
    Difference(q, q', d);
    SmallMultiple(q - q', d, r' - r);
  }

  lemma Difference(q: int, q': int, d: int)
    ensures (q - q') * d == q * d - q' * d
  {}

  lemma NextBit(x: nat, i: nat)
    ensures Bit(x, i + 1) == Bit(x / 2, i)
    ensures Bit(x, 0) == x % 2
  {
    DivideTwice(x, Pow2(i));
  }

  // ---------------------------------------------------------------- digit by digit

  /** The number whose lowest `n` bits are those of the operands, combined. */
  function Zip(op: (nat, nat) -> nat, x: nat, y: nat, n: nat): (z: nat)
    requires forall a: nat, b: nat :: op(a, b) < 2
    ensures z < Pow2(n)
  {
    if n == 0 then 0 else Zip(op, x / 2, y / 2, n - 1) * 2 + op(x % 2, y % 2)
  }

  lemma {:induction false} ZipBit(op: (nat, nat) -> nat, x: nat, y: nat, n: nat, i: nat)
    requires forall a: nat, b: nat :: op(a, b) < 2
    requires i < n
    ensures Bit(Zip(op, x, y, n), i) == op(Bit(x, i), Bit(y, i))
  {
    var half, last := Zip(op, x / 2, y / 2, n - 1), op(x % 2, y % 2);
    var z := Zip(op, x, y, n);
    assert z == half * 2 + last;
    assert z / 2 == half && z % 2 == last;
    NextBit(z, 0); NextBit(x, 0); NextBit(y, 0);
    if i > 0 {
      ZipBit(op, x / 2, y / 2, n - 1, i - 1);
      NextBit(z, i - 1); NextBit(x, i - 1); NextBit(y, i - 1);
    }
  }

  function BothSet(a: nat, b: nat): nat { if a == 1 && b == 1 then 1 else 0 }

  function SomeSet(a: nat, b: nat): nat { if a == 1 || b == 1 then 1 else 0 }

  function OneSet(a: nat, b: nat): nat { if (a == 1) != (b == 1) then 1 else 0 }

  function AndBits(x: Word, y: Word): Word {
    WordIsPow2();
    Zip(BothSet, x, y, 32)
  }

  function OrBits(x: Word, y: Word): Word {
    WordIsPow2();
    Zip(SomeSet, x, y, 32)
  }

  function XorBits(x: Word, y: Word): Word {
    WordIsPow2();
    Zip(OneSet, x, y, 32)
  }

  /** One place to the right, `n` times. */
  function ShiftRight(x: Word, n: Amount): Word
    decreases n
  {
    if n == 0 then x else ShiftRight(x / 2, n - 1)
  }

  /** One place to the left, `n` times; what leaves the word is lost. */
  function ShiftLeft(x: Word, n: Amount): Word
    decreases n
  {
    if n == 0 then x else ShiftLeft(x * 2 % WORD, n - 1)
  }

  // ---------------------------------------------------------------- what they do to bits

  /** Bit by bit: both, at least one, exactly one. */
  lemma BitwiseBits(x: Word, y: Word, i: nat)
    requires i < 32
    ensures Bit(AndBits(x, y), i) == 1 <==> Bit(x, i) == 1 && Bit(y, i) == 1
    ensures Bit(OrBits(x, y), i) == 1 <==> Bit(x, i) == 1 || Bit(y, i) == 1
    ensures Bit(XorBits(x, y), i) == 1 <==> Bit(x, i) != Bit(y, i)
  {
    ZipBit(BothSet, x, y, 32, i);
    ZipBit(SomeSet, x, y, 32, i);
    ZipBit(OneSet, x, y, 32, i);
    hide Bit, Zip;
  }

  lemma {:induction false} ShiftRightDivides(x: Word, n: Amount)
    ensures ShiftRight(x, n) == x / Pow2(n)
    decreases n
  {
    if n > 0 {
      ShiftRightDivides(x / 2, n - 1);
      DivideTwice(x, Pow2(n - 1));
    }
  }

  lemma DoubledModulo(x: nat, p: nat)
    ensures x * 2 % WORD * p % WORD == x * (2 * p) % WORD
  {
    var q, r := x * 2 / WORD, x * 2 % WORD;
    assert x * 2 == q * WORD + r;
    var s, t := r * p / WORD, r * p % WORD;
    assert r * p == s * WORD + t;
    assert x * (2 * p) == (x * 2) * p;
    assert (q * WORD + r) * p == (q * p) * WORD + r * p;
    QuotientIs(x * (2 * p), WORD, q * p + s, t);
  }

  lemma {:induction false} ShiftLeftMultiplies(x: Word, n: Amount)
    ensures ShiftLeft(x, n) == x * Pow2(n) % WORD
    decreases n
  {
    if n > 0 {
      ShiftLeftMultiplies(x * 2 % WORD, n - 1);
      DoubledModulo(x, Pow2(n - 1));
    }
  }

  lemma {:induction false} NoHighBit(x: nat, i: nat)
    requires x < Pow2(i)
    ensures Bit(x, i) == 0
  {
    QuotientIs(x, Pow2(i), 0, x);
  }

  lemma {:induction false} ShiftRightBit(x: Word, n: Amount, i: nat)
    requires i < 32
    ensures Bit(ShiftRight(x, n), i) == if i + n < 32 then Bit(x, i + n) else 0
    decreases n
  {
    if n == 0 {
    } else {
      ShiftRightBit(x / 2, n - 1, i);
      NextBit(x, i + n - 1);
      if i + n == 32 {
        WordIsPow2();
        HalfBelow(x);
        NoHighBit(x / 2, 31);
      }
    }
  }

  lemma HalfBelow(x: Word)
    ensures x / 2 < Pow2(31)
  {
    WordIsPow2();
    assert Pow2(32) == 2 * Pow2(31);
  }

  lemma HalfWord()
    ensures Pow2(31) == 0x8000_0000
  {
    WordIsPow2();
    assert Pow2(32) == 2 * Pow2(31);
  }

  lemma HalfOfDouble(x: Word)
    ensures x * 2 % WORD / 2 == x % 0x8000_0000 && x * 2 % WORD % 2 == 0
  {}

  /** Doubling inside the word moves every bit up by one place. */
  lemma DoubledBit(x: Word, i: nat)
    requires i < 32
    ensures Bit(x * 2 % WORD, i) == if i == 0 then 0 else Bit(x, i - 1)
  {
    var d := x * 2 % WORD;
    HalfOfDouble(x);
    hide *;
    NextBit(d, 0);
    if i > 0 {
      NextBit(d, i - 1);
      HalfWord();
      LowBits(x, 31, i - 1);
      assert d / 2 == x % Pow2(31);
    }
  }

  lemma Halved(x: nat, p: nat, q: nat, m: int, d: nat, r: nat)
    requires d == 2 * p && m == q * p && x == q * d + r && r < d
    ensures x / 2 == m + r / 2 && x % 2 == r % 2 && r / 2 < p
  {
    assert q * (2 * p) == 2 * (q * p);
  }

  lemma DivMod(x: nat, d: nat)
    requires d > 0
    ensures x / d >= 0 && x == x / d * d + x % d && 0 <= x % d < d
  {}

  lemma SplitBelow(x: nat, p: nat, d: nat)
    requires p > 0 && d == 2 * p
    ensures x % d / 2 == x / 2 % p && x % d % 2 == x % 2
  {
    DivMod(x, d);
    HalfIs(x, p, d, x / d, x % d);
  }

  lemma HalfIs(x: nat, p: nat, d: nat, q: nat, r: nat)
    requires d == 2 * p && x == q * d + r && r < d
    ensures r / 2 == x / 2 % p && r % 2 == x % 2
  {
    Halved(x, p, q, q * p, d, r);
    QuotientIs(x / 2, p, q, r / 2);
  }

  lemma {:induction false} LowBits(x: nat, n: nat, i: nat)
    requires i < n
    ensures Bit(x % Pow2(n), i) == Bit(x, i)
  {
    assert Pow2(n) == 2 * Pow2(n - 1);
    hide *;
    SplitBelow(x, Pow2(n - 1), Pow2(n));
    NextBit(x, 0); NextBit(x % Pow2(n), 0);
    if i > 0 {
      LowBits(x / 2, n - 1, i - 1);
      NextBit(x, i - 1); NextBit(x % Pow2(n), i - 1);
    }
  }

  lemma {:induction false} ShiftLeftBit(x: Word, n: Amount, i: nat)
    requires i < 32
    ensures Bit(ShiftLeft(x, n), i) == if i >= n then Bit(x, i - n) else 0
    decreases n
  {
    if n > 0 {
      ShiftLeftBit(x * 2 % WORD, n - 1, i);
      if i >= n - 1 { DoubledBit(x, i - (n - 1)); }
    }
  }

  /** The complement in `n` bits. */
  lemma {:induction false} ComplementBit(x: nat, n: nat, i: nat)
    requires i < n && x < Pow2(n)
    ensures Bit(Pow2(n) - 1 - x, i) == 1 - Bit(x, i)
  {
    var c := Pow2(n) - 1 - x;
    assert Pow2(n) == 2 * Pow2(n - 1);
    assert c / 2 == Pow2(n - 1) - 1 - x / 2 && c % 2 == 1 - x % 2;
    hide *;
    NextBit(x, 0); NextBit(c, 0);
    if i > 0 {
      ComplementBit(x / 2, n - 1, i - 1);
      NextBit(x, i - 1); NextBit(c, i - 1);
    }
  }
}
