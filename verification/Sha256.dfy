/**
 * SHA-256 in place over JavaScript numbers, against the definition of FIPS 180-4. A number is
 * an integer; bitwise operators read it modulo 2^32 and give a signed 32-bit result.
 */
module Sha256 {
  import opened Text
  import opened Bits

  type Byte = n: int | 0 <= n < 256

  const K: seq<Word> :=
    [0x428a2f98, 0x71374491, 0xb5c0fbcf, 0xe9b5dba5, 0x3956c25b, 0x59f111f1, 0x923f82a4, 0xab1c5ed5]
    + [0xd807aa98, 0x12835b01, 0x243185be, 0x550c7dc3, 0x72be5d74, 0x80deb1fe, 0x9bdc06a7, 0xc19bf174]
    + [0xe49b69c1, 0xefbe4786, 0x0fc19dc6, 0x240ca1cc, 0x2de92c6f, 0x4a7484aa, 0x5cb0a9dc, 0x76f988da]
    + [0x983e5152, 0xa831c66d, 0xb00327c8, 0xbf597fc7, 0xc6e00bf3, 0xd5a79147, 0x06ca6351, 0x14292967]
    + [0x27b70a85, 0x2e1b2138, 0x4d2c6dfc, 0x53380d13, 0x650a7354, 0x766a0abb, 0x81c2c92e, 0x92722c85]
    + [0xa2bfe8a1, 0xa81a664b, 0xc24b8b70, 0xc76c51a3, 0xd192e819, 0xd6990624, 0xf40e3585, 0x106aa070]
    + [0x19a4c116, 0x1e376c08, 0x2748774c, 0x34b0bcb5, 0x391c0cb3, 0x4ed8aa4a, 0x5b9cca4f, 0x682e6ff3]
    + [0x748f82ee, 0x78a5636f, 0x84c87814, 0x8cc70208, 0x90befffa, 0xa4506ceb, 0xbef9a3f7, 0xc67178f2]

  const INITIAL: seq<Word> := [
    0x6a09e667, 0xbb67ae85, 0x3c6ef372, 0xa54ff53a, 0x510e527f, 0x9b05688c, 0x1f83d9ab, 0x5be0cd19]

  // ---------------------------------------------------------------- words and numbers

  /** Addition modulo 2^32. */
  function Plus(x: Word, y: Word): Word {
    (x + y) % WORD
  }

  function NotW(x: Word): Word {
    WORD - 1 - x
  }

  /** ToUint32, also written `n >>> 0`. */
  function U(n: int): Word {
    n % WORD
  }

  /** The signed number with the same 32 bits. */
  function Signed(w: Word): int {
    if w >= 0x8000_0000 then w - WORD else w
  }

  lemma USigned(w: Word)
    ensures U(Signed(w)) == w
  {}

  lemma UWord(w: Word)
    ensures U(w) == w
  {}

  lemma ModShift(n: int, q: int)
    ensures (n + q * WORD) % WORD == n % WORD
  {
    assert n + q * WORD == (n / WORD + q) * WORD + n % WORD;
  }

  lemma UPlus(x: int, y: int)
    ensures U(x + y) == Plus(U(x), U(y))
  {
    var q, r := x / WORD, y / WORD;
    assert x + y == (U(x) + U(y)) + (q + r) * WORD;
    ModShift(U(x) + U(y), q + r);
  }

  lemma PlusAssociates(x: Word, y: Word, z: Word)
    ensures Plus(Plus(x, y), z) == Plus(x, Plus(y, z))
  {
    UPlus(x + y, z); UPlus(x, y + z);
    UWord(x); UWord(y); UWord(z);
    UPlus(x, y); UPlus(y, z);
    assert x + y + z == x + (y + z);
  }

  lemma PlusCommutes(x: Word, y: Word)
    ensures Plus(x, y) == Plus(y, x)
  {}

  lemma USum4(p: int, q: int, r: int, s: int)
    ensures U(p + q + r + s) == Plus(Plus(Plus(U(p), U(q)), U(r)), U(s))
  {
    UPlus(p, q); UPlus(p + q, r); UPlus(p + q + r, s);
  }

  /** The summands of a schedule word in the order of the program, and in that of the standard. */
  lemma Reordered(w16: Word, s0: Word, w7: Word, s1: Word)
    ensures Plus(Plus(Plus(w16, s0), w7), s1) == Plus(Plus(Plus(s1, w7), s0), w16)
  {
    PlusAssociates(Plus(w16, s0), w7, s1);
    PlusCommutes(w7, s1);
    PlusCommutes(w16, s0);
    PlusCommutes(Plus(w16, s0), Plus(s1, w7));
    PlusAssociates(Plus(s1, w7), s0, w16);
  }

  lemma USum5(h: Word, s1: int, ch: int, k: Word, w: Word)
    ensures U(h + s1 + ch + k + w) == Plus(Plus(Plus(Plus(h, U(s1)), U(ch)), k), w)
  {
    USum4(h, s1, ch, k);
    UPlus(h + s1 + ch + k, w);
    UWord(h); UWord(k); UWord(w);
  }

  datatype Vars = Vars(a: Word, b: Word, c: Word, d: Word, e: Word, f: Word, g: Word, h: Word)

  type Chain = s: seq<Word> | |s| == 8 witness [0, 0, 0, 0, 0, 0, 0, 0]

  // ---------------------------------------------------------------- messages (section 5)

  /** Four bytes as a word, most significant first. */
  function WordAt(s: seq<Byte>, i: nat): Word
    requires i + 4 <= |s|
  {
    s[i] as int * 0x100_0000 + s[i + 1] as int * 0x1_0000 + s[i + 2] as int * 0x100 + s[i + 3] as int
  }

  function WordBytes(w: Word): (s: seq<Byte>)
    ensures |s| == 4
  {
    [w / 0x100_0000, w / 0x1_0000 % 256, w / 0x100 % 256, w % 256]
  }

  function BlockAt(s: seq<Byte>, i: nat): (m: seq<Word>)
    requires i + 64 <= |s|
    ensures |m| == 16
  {
    seq(16, t requires 0 <= t < 16 => WordAt(s, i + 4 * t))
  }

  lemma Residue(len: nat, j: nat, q: nat, r: nat)
    requires len + 9 == 64 * q + r && r + j < 64
    ensures (len + 1 + j + 8) % 64 == r + j
  {
    assert len + 1 + j + 8 == 64 * q + (r + j);
  }

  lemma LeastFill(len: nat, k: nat)
    requires var r := (len + 9) % 64; k == if r == 0 then 0 else 64 - r
    ensures FillsBlocks(len, k)
    ensures forall j: nat | FillsBlocks(len, j) :: k <= j
  {
    var q, r := (len + 9) / 64, (len + 9) % 64;
    assert len + 9 == 64 * q + r;
    if r != 0 { assert len + 1 + k + 8 == 64 * (q + 1); }
    forall j: nat | j < k ensures !FillsBlocks(len, j) { Residue(len, j, q, r); }
  }

  /** The least number of zero bytes that fills whole blocks with the message, 0x80, them and the length. */
  function ZeroBytes(len: nat): (k: nat)
    ensures FillsBlocks(len, k)
    ensures forall j: nat | FillsBlocks(len, j) :: k <= j
  {
    var r := (len + 9) % 64;
    var k := if r == 0 then 0 else 64 - r;
    LeastFill(len, k);
    k
  }

  predicate FillsBlocks(len: nat, zeros: nat) {
    (len + 1 + zeros + 8) % 64 == 0
  }

  /** The 64-bit big-endian length in bits. */
  function LengthBytes(len: nat): (s: seq<Byte>)
    ensures |s| == 8
  {
    WordBytes(len * 8 / WORD % WORD) + WordBytes(len * 8 % WORD)
  }

  function Padded(bytes: seq<Byte>): (s: seq<Byte>)
    ensures |s| == |bytes| + 1 + ZeroBytes(|bytes|) + 8
  {
    bytes + [0x80] + seq(ZeroBytes(|bytes|), _ => 0) + LengthBytes(|bytes|)
  }

  function FixedHex(n: nat, digits: nat): (s: string)
    ensures |s| == digits
  {
    if digits == 0 then [] else FixedHex(n / 16, digits - 1) + [HexDigit(n % 16)]
  }

  function HexOf(ws: seq<Word>): string {
    if ws == [] then [] else HexOf(ws[..|ws| - 1]) + FixedHex(ws[|ws| - 1], 8)
  }

  // ---------------------------------------------------------------- what bytes and digits denote

  /** Bytes as the digits of a number to the base 256, the first one highest. */
  function Base256(s: seq<Byte>): nat {
    if s == [] then 0 else Base256(s[..|s| - 1]) * 256 + s[|s| - 1]
  }

  lemma Base256Next(s: seq<Byte>, b: Byte)
    ensures Base256(s + [b]) == Base256(s) * 256 + b
  {
    assert (s + [b])[..|s|] == s;
  }

  lemma Base256OfFour(s: seq<Byte>, a: Byte, b: Byte, c: Byte, d: Byte)
    ensures Base256(s + [a, b, c, d]) == Base256(s) * WORD + (a * 0x100_0000 + b * 0x1_0000 + c * 0x100 + d)
  {
    Base256Next(s, a);
    Base256Next(s + [a], b);
    Base256Next(s + [a] + [b], c);
    Base256Next(s + [a] + [b] + [c], d);
    assert s + [a, b, c, d] == s + [a] + [b] + [c] + [d];
  }

  lemma FourBytes(w: Word)
    ensures w / 0x100_0000 * 0x100_0000 + w / 0x1_0000 % 256 * 0x1_0000 + w / 0x100 % 256 * 0x100 + w % 256 == w
  {}

  lemma WordDenotes(s: seq<Byte>, w: Word)
    ensures Base256(s + WordBytes(w)) == Base256(s) * WORD + w
  {
    hide Base256;
    FourBytes(w);
    Base256OfFour(s, w / 0x100_0000, w / 0x1_0000 % 256, w / 0x100 % 256, w % 256);
  }

  /** The word that is read from four bytes is the number they denote. */
  lemma WordAtDenotes(s: seq<Byte>, i: nat)
    requires i + 4 <= |s|
    ensures WordAt(s, i) == Base256(s[i..i + 4])
  {
    var four := [s[i], s[i + 1], s[i + 2], s[i + 3]];
    assert s[i..i + 4] == four && [] + four == four;
    Base256OfFour([], s[i], s[i + 1], s[i + 2], s[i + 3]);
    assert Base256([]) == 0;
    hide Base256;
  }

  /** The last eight bytes of the padded message are the number of bits of the message. */
  lemma LengthDenotes(len: nat)
    requires len < 0x2000_0000_0000_0000
    ensures Base256(LengthBytes(len)) == 8 * len
  {
    var bits := len * 8;
    var high: Word, low: Word := bits / WORD % WORD, bits % WORD;
    assert Base256([]) == 0;
    hide Base256, WordBytes;
    assert LengthBytes(len) == WordBytes(high) + WordBytes(low);
    assert [] + WordBytes(high) == WordBytes(high);
    WordDenotes([], high);
    WordDenotes(WordBytes(high), low);
    HighLow(bits);
  }

  lemma HighLow(bits: nat)
    requires bits < WORD * WORD
    ensures bits / WORD % WORD * WORD + bits % WORD == bits
  {}

  function HexDigits(s: string): nat
    requires forall i | 0 <= i < |s| :: IsLowerHex(s[i])
  {
    if s == [] then 0 else HexDigits(s[..|s| - 1]) * 16 + LowerHexValue(s[|s| - 1])
  }

  predicate IsLowerHex(c: char) {
    '0' <= c <= '9' || 'a' <= c <= 'f'
  }

  function LowerHexValue(c: char): nat
    requires IsLowerHex(c)
  {
    if c <= '9' then c as int - '0' as int else c as int - 'a' as int + 10
  }

  /** The text of a word are lower-case hexadecimal digits that denote it. */
  lemma {:induction false} FixedHexDenotes(n: nat, digits: nat)
    requires n < Pow16(digits)
    ensures forall i | 0 <= i < digits :: IsLowerHex(FixedHex(n, digits)[i])
    ensures HexDigits(FixedHex(n, digits)) == n
  {
    if digits > 0 {
      FixedHexDenotes(n / 16, digits - 1);
      var s := FixedHex(n / 16, digits - 1);
      assert FixedHex(n, digits) == s + [HexDigit(n % 16)];
      assert (s + [HexDigit(n % 16)])[..|s|] == s;
    }
  }

  // ---------------------------------------------------------------- padding

  /** The buffer size of the program: `>>` reads the length as a signed 32-bit number. */
  function BufferSize(len: nat): int {
    (Signed(U(len + 8)) / 64 + 1) * 64
  }

  /** FIPS-sized exactly below 2^31 - 8 bytes; from there on the buffer cannot even hold the message. */
  lemma BufferSizeFits(len: nat)
    ensures len + 8 < 0x8000_0000 ==> BufferSize(len) == len + 1 + ZeroBytes(len) + 8
    ensures len + 8 >= 0x8000_0000 ==> BufferSize(len) < len
  {
    if len + 8 < 0x8000_0000 {
      var q, r := (len + 8) / 64, (len + 8) % 64;
      assert len + 8 == 64 * q + r;
      assert (len + 9) % 64 == if r == 63 then 0 else r + 1;
    } else {
      var s := Signed(U(len + 8));
      assert s <= len + 8 - WORD;
      assert s / 64 * 64 <= s;
    }
  }

  /** setUint32, most significant byte first. */
  method SetWord(data: array<Byte>, at: nat, w: Word)
    requires at + 4 <= data.Length
    modifies data
    ensures data[..] == old(data[..at]) + WordBytes(w) + old(data[at + 4..])
  {
    data[at] := w / 0x100_0000;
    data[at + 1] := w / 0x1_0000 % 256;
    data[at + 2] := w / 0x100 % 256;
    data[at + 3] := w % 256;
  }

  lemma HighWord(bits: nat)
    requires bits < 4 * WORD
    ensures bits / WORD % WORD == bits / WORD
  {
    assert bits / WORD < 4;
  }

  method FillMessage(bytes: seq<Byte>, size: nat, ghost zeros: seq<Byte>) returns (data: array<Byte>)
    requires zeros == seq(ZeroBytes(|bytes|), _ => 0) && size == |bytes| + 1 + |zeros| + 8
    ensures fresh(data) && data.Length == size && data[..size - 8] == bytes + [0x80] + zeros
    ensures data[size - 8..] == [0, 0, 0, 0, 0, 0, 0, 0]
  {
    data := new Byte[size](_ => 0);
    for i := 0 to |bytes|
      invariant forall j | 0 <= j < i :: data[j] == bytes[j]
      invariant forall j | i <= j < size :: data[j] == 0
    {
      data[i] := bytes[i];
    }
    data[|bytes|] := 0x80;
  }

  lemma PaddedIs(bytes: seq<Byte>, zeros: seq<Byte>)
    requires zeros == seq(ZeroBytes(|bytes|), _ => 0)
    ensures Padded(bytes) == bytes + [0x80] + zeros + LengthBytes(|bytes|)
  {}

  /** The 64-bit length: the low word last, the high word before it. */
  method SetLength(data: array<Byte>, size: nat, bitLen: nat)
    requires data.Length == size && size >= 8 && bitLen / WORD % WORD == bitLen / WORD
    modifies data
    ensures data[..size - 8] == old(data[..size - 8])
    ensures data[size - 8..] == WordBytes(bitLen / WORD % WORD) + WordBytes(bitLen % WORD)
  {
    SetWord(data, size - 4, U(bitLen));
    assert data[size - 4..] == WordBytes(bitLen % WORD);
    SetWord(data, size - 8, bitLen / WORD);
  }

  /** The message, 0x80, zeros and the length in bits, in whole blocks. */
  method Pad(bytes: seq<Byte>) returns (data: array<Byte>)
    requires |bytes| + 8 < 0x8000_0000
    ensures fresh(data) && data[..] == Padded(bytes)
  {
    BufferSizeFits(|bytes|);
    var n, size := |bytes|, BufferSize(|bytes|);
    var bitLen := n * 8;
    ghost var zeros := seq(ZeroBytes(n), _ => 0);
    data := FillMessage(bytes, size, zeros);
    hide *;
    HighWord(bitLen);
    SetLength(data, size, bitLen);
    assert data[..] == data[..size - 8] + data[size - 8..];
    PaddedIs(bytes, zeros);
  }

  // ---------------------------------------------------------------- hexadecimal

  /** Number.toString(16) */
  function HexText(n: nat): (s: string)
    ensures s != []
  {
    if n < 16 then [HexDigit(n)] else HexText(n / 16) + [HexDigit(n % 16)]
  }

  function PadStart(s: string, width: nat): string {
    if |s| >= width then s else Zeros(width - |s|) + s
  }

  function Pow16(k: nat): (p: nat)
    ensures p > 0
  {
    if k == 0 then 1 else 16 * Pow16(k - 1)
  }

  lemma {:induction false} FixedHexZero(digits: nat)
    ensures FixedHex(0, digits) == Zeros(digits)
  {
    if digits > 0 { FixedHexZero(digits - 1); }
  }

  /** Text without leading zeros, padded to a width, is the fixed-width text. */
  lemma {:induction false} PaddedHex(n: nat, digits: nat)
    requires digits > 0 && n < Pow16(digits)
    ensures PadStart(HexText(n), digits) == FixedHex(n, digits)
    ensures |HexText(n)| <= digits
  {
    if n < 16 {
      FixedHexZero(digits - 1);
      assert n / 16 == 0;
    } else {
      assert Pow16(digits) == 16 * Pow16(digits - 1);
      assert digits > 1 by { assert Pow16(0) == 1; }
      PaddedHex(n / 16, digits - 1);
    }
  }

  lemma PaddedWord(w: Word)
    ensures PadStart(HexText(w), 8) == FixedHex(w, 8)
  {
    assert Pow16(4) == 0x1_0000;
    assert Pow16(8) == 16 * (16 * (16 * (16 * Pow16(4))));
    PaddedHex(w, 8);
  }

  /** The definition and the program over the same bitwise operators; BITS has those of 32-bit words. */
  datatype Machine = Machine(
    AndW: (Word, Word) -> Word, OrW: (Word, Word) -> Word, XorW: (Word, Word) -> Word,
    ShrW: (Word, Amount) -> Word, ShlW: (Word, Amount) -> Word)
  {
    // -------------------------------------------------------------- words (FIPS 180-4, section 3.2)

    function Rotr(x: Word, n: Amount): Word
    {
      OrW(ShrW(x, n), ShlW(x, 32 - n))
    }

    // ---------------------------------------------------------------- functions (section 4.1.2)

    function Ch(x: Word, y: Word, z: Word): Word {
      XorW(AndW(x, y), AndW(NotW(x), z))
    }

    function Maj(x: Word, y: Word, z: Word): Word {
      XorW(XorW(AndW(x, y), AndW(x, z)), AndW(y, z))
    }

    function BigSigma0(x: Word): Word { XorW(XorW(Rotr(x, 2), Rotr(x, 13)), Rotr(x, 22)) }

    function BigSigma1(x: Word): Word { XorW(XorW(Rotr(x, 6), Rotr(x, 11)), Rotr(x, 25)) }

    function SmallSigma0(x: Word): Word { XorW(XorW(Rotr(x, 7), Rotr(x, 18)), ShrW(x, 3)) }

    function SmallSigma1(x: Word): Word { XorW(XorW(Rotr(x, 17), Rotr(x, 19)), ShrW(x, 10)) }

    // ---------------------------------------------------------------- one block (section 6.2.2)

    /** The message schedule of a block of sixteen words. */
    function Schedule(m: seq<Word>, t: nat): Word
      requires |m| == 16
    {
      if t < 16 then m[t]
      else
        Plus(Plus(Plus(SmallSigma1(Schedule(m, t - 2)), Schedule(m, t - 7)), SmallSigma0(Schedule(m, t - 15))),
             Schedule(m, t - 16))
    }

    function T1(v: Vars, k: Word, w: Word): Word {
      Plus(Plus(Plus(Plus(v.h, BigSigma1(v.e)), Ch(v.e, v.f, v.g)), k), w)
    }

    function T2(v: Vars): Word {
      Plus(BigSigma0(v.a), Maj(v.a, v.b, v.c))
    }

    function Round(v: Vars, k: Word, w: Word): Vars {
      Vars(Plus(T1(v, k, w), T2(v)), v.a, v.b, v.c, Plus(v.d, T1(v, k, w)), v.e, v.f, v.g)
    }

    function Rounds(v: Vars, m: seq<Word>, t: nat): Vars
      requires |m| == 16 && t <= 64
    {
      if t == 0 then v else Round(Rounds(v, m, t - 1), K[t - 1], Schedule(m, t - 1))
    }

    function VarsOf(h: Chain): Vars {
      Vars(h[0], h[1], h[2], h[3], h[4], h[5], h[6], h[7])
    }

    function AddVars(h: Chain, v: Vars): Chain {
      [Plus(h[0], v.a), Plus(h[1], v.b), Plus(h[2], v.c), Plus(h[3], v.d),
       Plus(h[4], v.e), Plus(h[5], v.f), Plus(h[6], v.g), Plus(h[7], v.h)]
    }

    function Compress(h: Chain, m: seq<Word>): Chain
      requires |m| == 16
    {
      AddVars(h, Rounds(VarsOf(h), m, |K|))
    }

    // ---------------------------------------------------------------- whole messages (sections 5 and 6)

    /** The chain after the first `n` blocks. */
    function ChainAfter(s: seq<Byte>, n: nat): Chain
      requires 64 * n <= |s|
    {
      if n == 0 then INITIAL else Compress(ChainAfter(s, n - 1), BlockAt(s, 64 * (n - 1)))
    }

    /** The digest of a byte string, in lower-case hexadecimal. */
    function Digest(bytes: seq<Byte>): string {
      HexOf(ChainAfter(Padded(bytes), |Padded(bytes)| / 64))
    }

    // ---------------------------------------------------------------- JavaScript numbers

    function JsAnd(x: int, y: int): int { Signed(AndW(U(x), U(y))) }

    function JsOr(x: int, y: int): int { Signed(OrW(U(x), U(y))) }

    function JsXor(x: int, y: int): int { Signed(XorW(U(x), U(y))) }

    function JsNot(x: int): int { Signed(NotW(U(x))) }

    function JsShl(x: int, n: Amount): int
    {
      Signed(ShlW(U(x), n))
    }

    function JsShrUnsigned(x: int, n: Amount): int
    {
      ShrW(U(x), n)
    }

    /** rotr of the program: an unsigned and a signed shift joined by a signed or. */
    function JsRotr(x: int, n: Amount): int
    {
      JsOr(JsShrUnsigned(x, n), JsShl(x, 32 - n))
    }

    lemma URotr(x: int, n: Amount)
      ensures U(JsRotr(x, n)) == Rotr(U(x), n)
    {
      USigned(OrW(U(JsShrUnsigned(x, n)), U(JsShl(x, 32 - n))));
      USigned(ShlW(U(x), 32 - n));
      UWord(ShrW(U(x), n));
    }

    lemma UXor3(x: int, y: int, z: int)
      ensures U(JsXor(JsXor(x, y), z)) == XorW(XorW(U(x), U(y)), U(z))
    {
      USigned(XorW(U(x), U(y)));
      USigned(XorW(U(JsXor(x, y)), U(z)));
    }

    lemma UAnd(x: int, y: int)
      ensures U(JsAnd(x, y)) == AndW(U(x), U(y))
    {
      USigned(AndW(U(x), U(y)));
    }

    lemma UCh(e: Word, f: Word, g: Word)
      ensures U(JsXor(JsAnd(e, f), JsAnd(JsNot(e), g))) == Ch(e, f, g)
    {
      UWord(e); UWord(f); UWord(g);
      USigned(NotW(e));
      UAnd(e, f);
      UAnd(JsNot(e), g);
      USigned(XorW(U(JsAnd(e, f)), U(JsAnd(JsNot(e), g))));
    }

    lemma UMaj(a: Word, b: Word, c: Word)
      ensures U(JsXor(JsXor(JsAnd(a, b), JsAnd(a, c)), JsAnd(b, c))) == Maj(a, b, c)
    {
      UWord(a); UWord(b); UWord(c);
      UAnd(a, b); UAnd(a, c); UAnd(b, c);
      UXor3(JsAnd(a, b), JsAnd(a, c), JsAnd(b, c));
    }

    lemma URotr3(x: Word, i: Amount, j: Amount, k: Amount)
      ensures U(JsXor(JsXor(JsRotr(x, i), JsRotr(x, j)), JsRotr(x, k))) == XorW(XorW(Rotr(x, i), Rotr(x, j)), Rotr(x, k))
    {
      UWord(x);
      URotr(x, i); URotr(x, j); URotr(x, k);
      UXor3(JsRotr(x, i), JsRotr(x, j), JsRotr(x, k));
    }

    lemma URotrShift(x: Word, i: Amount, j: Amount, k: Amount)
      ensures U(JsXor(JsXor(JsRotr(x, i), JsRotr(x, j)), JsShrUnsigned(x, k))) == XorW(XorW(Rotr(x, i), Rotr(x, j)), ShrW(x, k))
    {
      UWord(x);
      URotr(x, i); URotr(x, j);
      UWord(ShrW(x, k));
      UXor3(JsRotr(x, i), JsRotr(x, j), JsShrUnsigned(x, k));
    }

    // ---------------------------------------------------------------- steps of the loops

    lemma ScheduleStep(w16: Word, w15: Word, w7: Word, w2: Word, s0: int, s1: int)
      requires s0 == JsXor(JsXor(JsRotr(w15, 7), JsRotr(w15, 18)), JsShrUnsigned(w15, 3))
      requires s1 == JsXor(JsXor(JsRotr(w2, 17), JsRotr(w2, 19)), JsShrUnsigned(w2, 10))
      ensures U(w16 + s0 + w7 + s1) == Plus(Plus(Plus(SmallSigma1(w2), w7), SmallSigma0(w15)), w16)
    {
      URotrShift(w15, 7, 18, 3);
      URotrShift(w2, 17, 19, 10);
      USum4(w16, s0, w7, s1);
      UWord(w16); UWord(w7);
      Reordered(w16, SmallSigma0(w15), w7, SmallSigma1(w2));
    }

    lemma T1Step(v: Vars, k: Word, w: Word, s1: int, ch: int)
      requires s1 == JsXor(JsXor(JsRotr(v.e, 6), JsRotr(v.e, 11)), JsRotr(v.e, 25))
      requires ch == JsXor(JsAnd(v.e, v.f), JsAnd(JsNot(v.e), v.g))
      ensures U(v.h + s1 + ch + k + w) == T1(v, k, w)
    {
      URotr3(v.e, 6, 11, 25);
      UCh(v.e, v.f, v.g);
      USum5(v.h, s1, ch, k, w);
    }

    lemma T2Step(v: Vars, s0: int, maj: int)
      requires s0 == JsXor(JsXor(JsRotr(v.a, 2), JsRotr(v.a, 13)), JsRotr(v.a, 22))
      requires maj == JsXor(JsXor(JsAnd(v.a, v.b), JsAnd(v.a, v.c)), JsAnd(v.b, v.c))
      ensures U(s0 + maj) == T2(v)
    {
      URotr3(v.a, 2, 13, 22);
      UMaj(v.a, v.b, v.c);
      UPlus(s0, maj);
    }

    lemma RoundStep(v: Vars, k: Word, w: Word, s1: int, ch: int, s0: int, maj: int)
      requires s1 == JsXor(JsXor(JsRotr(v.e, 6), JsRotr(v.e, 11)), JsRotr(v.e, 25))
      requires ch == JsXor(JsAnd(v.e, v.f), JsAnd(JsNot(v.e), v.g))
      requires s0 == JsXor(JsXor(JsRotr(v.a, 2), JsRotr(v.a, 13)), JsRotr(v.a, 22))
      requires maj == JsXor(JsXor(JsAnd(v.a, v.b), JsAnd(v.a, v.c)), JsAnd(v.b, v.c))
      ensures Round(v, k, w) == Vars(U(U(v.h + s1 + ch + k + w) + U(s0 + maj)), v.a, v.b, v.c,
                                     U(v.d + U(v.h + s1 + ch + k + w)), v.e, v.f, v.g)
    {
      T1Step(v, k, w, s1, ch);
      T2Step(v, s0, maj);
    }

    // ---------------------------------------------------------------- the loops

    /** getUint32, most significant byte first. */
    method GetWord(data: array<Byte>, at: nat) returns (w: Word)
      requires at + 4 <= data.Length
      ensures w == WordAt(data[..], at)
    {
      w := data[at] as int * 0x100_0000 + data[at + 1] as int * 0x1_0000 + data[at + 2] as int * 0x100 + data[at + 3] as int;
    }

    method LoadBlock(w: array<Word>, data: array<Byte>, i: nat)
      requires w.Length == 64 && i + 64 <= data.Length
      modifies w
      ensures forall t | 0 <= t < 16 :: w[t] == BlockAt(data[..], i)[t]
    {
      for t := 0 to 16
        invariant forall u | 0 <= u < t :: w[u] == BlockAt(data[..], i)[u]
      {
        var word := GetWord(data, i + t * 4);
        w[t] := word;
      }
    }

    method ExtendSchedule(w: array<Word>, ghost m: seq<Word>)
      requires w.Length == 64 && |m| == 16 && forall t | 0 <= t < 16 :: w[t] == m[t]
      modifies w
      ensures forall t | 0 <= t < 64 :: w[t] == Schedule(m, t)
    {
      for t := 16 to 64
        invariant forall u | 0 <= u < t :: w[u] == Schedule(m, u)
      {
        var w15, w2 := w[t - 15], w[t - 2];
        var s0 := JsXor(JsXor(JsRotr(w15, 7), JsRotr(w15, 18)), JsShrUnsigned(w15, 3));
        var s1 := JsXor(JsXor(JsRotr(w2, 17), JsRotr(w2, 19)), JsShrUnsigned(w2, 10));
        ScheduleStep(w[t - 16], w15, w[t - 7], w2, s0, s1);
        w[t] := U(w[t - 16] + s0 + w[t - 7] + s1);
      }
    }

    /** Fills the schedule array from a block of the padded message. */
    method FillSchedule(w: array<Word>, data: array<Byte>, i: nat)
      requires w.Length == 64 && i + 64 <= data.Length
      modifies w
      ensures forall t | 0 <= t < 64 :: w[t] == Schedule(BlockAt(data[..], i), t)
    {
      LoadBlock(w, data, i);
      ExtendSchedule(w, BlockAt(data[..], i));
    }

    /** One round on the working variables. */
    method RunRound(v: Vars, k: Word, wt: Word) returns (r: Vars)
      ensures r == Round(v, k, wt)
    {
      hide *;
      var a: Word, b: Word, c: Word, d: Word := v.a, v.b, v.c, v.d;
      var e: Word, f: Word, g: Word, hh: Word := v.e, v.f, v.g, v.h;
      var s1 := JsXor(JsXor(JsRotr(e, 6), JsRotr(e, 11)), JsRotr(e, 25));
      var ch := JsXor(JsAnd(e, f), JsAnd(JsNot(e), g));
      var temp1: int := U(hh + s1 + ch + k + wt);
      var s0 := JsXor(JsXor(JsRotr(a, 2), JsRotr(a, 13)), JsRotr(a, 22));
      var maj := JsXor(JsXor(JsAnd(a, b), JsAnd(a, c)), JsAnd(b, c));
      var temp2: int := U(s0 + maj);
      RoundStep(v, k, wt, s1, ch, s0, maj);
      hh := g;
      g := f;
      f := e;
      e := U(d as int + temp1);
      d := c;
      c := b;
      b := a;
      a := U(temp1 + temp2);
      r := Vars(a, b, c, d, e, f, g, hh);
    }

    lemma RoundsStep(v: Vars, m: seq<Word>, t: nat)
      requires |m| == 16 && t < 64
      ensures Rounds(v, m, t + 1) == Round(Rounds(v, m, t), K[t], Schedule(m, t))
    {}

    /** The sixty-four rounds. */
    method RunRounds(w: array<Word>, start: Vars, ghost m: seq<Word>) returns (end: Vars)
      requires w.Length == 64 && |m| == 16 && forall t | 0 <= t < 64 :: w[t] == Schedule(m, t)
      ensures end == Rounds(start, m, |K|)
    {
      end := start;
      for t := 0 to 64
        invariant end == Rounds(start, m, t)
      {
        RoundsStep(start, m, t);
        end := RunRound(end, K[t], w[t]);
      }
    }

    /** Adds the working variables into the chain, in place. */
    method AddInto(h: array<Word>, v: Vars)
      requires h.Length == 8
      modifies h
      ensures h[..] == AddVars(old(h[..]), v)
    {
      h[0] := U(h[0] + v.a);
      h[1] := U(h[1] + v.b);
      h[2] := U(h[2] + v.c);
      h[3] := U(h[3] + v.d);
      h[4] := U(h[4] + v.e);
      h[5] := U(h[5] + v.f);
      h[6] := U(h[6] + v.g);
      h[7] := U(h[7] + v.h);
    }

    lemma ChainStep(s: seq<Byte>, n: nat)
      requires 64 * (n + 1) <= |s|
      ensures ChainAfter(s, n + 1) == Compress(ChainAfter(s, n), BlockAt(s, 64 * n))
    {}

    lemma CompressIs(h: Chain, m: seq<Word>)
      requires |m| == 16
      ensures Compress(h, m) == AddVars(h, Rounds(VarsOf(h), m, |K|))
    {}

    /** Runs the next block of the padded message through the chain. */
    method RunBlock(w: array<Word>, data: array<Byte>, h: array<Word>, i: nat, ghost before: Chain)
      requires w.Length == 64 && i + 64 <= data.Length && h.Length == 8 && h != w && h[..] == before
      modifies w, h
      ensures h[..] == Compress(before, BlockAt(data[..], i))
    {
      hide *;
      CompressIs(before, BlockAt(data[..], i));
      FillSchedule(w, data, i);
      var start := VarsOf(h[..]);
      var end := RunRounds(w, start, BlockAt(data[..], i));
      AddInto(h, end);
    }

    /** Runs every block of the padded message through the chain. */
    method RunBlocks(data: array<Byte>, h: array<Word>, w: array<Word>, ghost blocks: nat)
      requires data.Length == 64 * blocks && h.Length == 8 && w.Length == 64 && h != w
      requires h[..] == ChainAfter(data[..], 0)
      modifies h, w
      ensures h[..] == ChainAfter(data[..], blocks)
    {
      hide *;
      var i := 0;
      ghost var n, s := 0, data[..];
      while i < data.Length
        invariant i == 64 * n && 0 <= n <= blocks
        invariant data[..] == s && h[..] == ChainAfter(s, n)
      {
        ChainStep(s, n);
        RunBlock(w, data, h, i, ChainAfter(s, n));
        i, n := i + 64, n + 1;
      }
      assert n == blocks;
    }

    method HexJoined(h: array<Word>) returns (out: string)
      requires h.Length == 8
      ensures out == HexOf(h[..])
    {
      out := "";
      for j := 0 to 8
        invariant out == HexOf(h[..j])
      {
        PaddedWord(h[j]);
        out := out + PadStart(HexText(h[j]), 8);
        assert h[..j + 1][..j] == h[..j];
      }
      assert h[..8] == h[..];
    }

    /** sha256HexBytes; None is the RangeError of a buffer that cannot hold the message. */
    method Sha256HexBytes(bytes: seq<Byte>) returns (digest: Option<string>)
      ensures digest == if |bytes| + 8 < 0x8000_0000 then Some(Digest(bytes)) else None
    {
      BufferSizeFits(|bytes|);
      if BufferSize(|bytes|) < |bytes| {
        return None;
      }
      var data := Pad(bytes);
      var h := new Word[8];
      h[0], h[1], h[2], h[3], h[4], h[5], h[6], h[7] := INITIAL[0], INITIAL[1], INITIAL[2], INITIAL[3],
        INITIAL[4], INITIAL[5], INITIAL[6], INITIAL[7];
      assert h[..] == INITIAL;
      var w := new Word[64](_ => 0);
      RunBlocks(data, h, w, data.Length / 64);
      var out := HexJoined(h);
      return Some(out);
    }
  }

  const BITS: Machine := Machine(AndBits, OrBits, XorBits, ShiftRight, ShiftLeft)

  // ---------------------------------------------------------------- what the functions do to bits

  lemma RotrIs(x: Word, n: Amount)
    ensures BITS.Rotr(x, n) == OrBits(ShiftRight(x, n), ShiftLeft(x, 32 - n))
  {
    hide OrBits, ShiftRight, ShiftLeft;
  }

  lemma XorIs(x: Word, y: Word)
    ensures BITS.XorW(x, y) == XorBits(x, y)
  {
    hide XorBits;
  }

  lemma AndIs(x: Word, y: Word)
    ensures BITS.AndW(x, y) == AndBits(x, y)
  {
    hide AndBits;
  }

  lemma ShrIs(x: Word, n: Amount)
    ensures BITS.ShrW(x, n) == ShiftRight(x, n)
  {
    hide ShiftRight;
  }

  /** Rotation to the right brings bit i + n, counted around the word, to place i. */
  lemma RotrBit(x: Word, n: Amount, i: nat)
    requires i < 32
    ensures Bit(BITS.Rotr(x, n), i) == Bit(x, (i + n) % 32)
  {
    RotrIs(x, n);
    hide *;
    BitwiseBits(ShiftRight(x, n), ShiftLeft(x, 32 - n), i);
    ShiftRightBit(x, n, i);
    ShiftLeftBit(x, 32 - n, i);
  }

  lemma NotBit(x: Word, i: nat)
    requires i < 32
    ensures Bit(NotW(x), i) == 1 - Bit(x, i)
  {
    WordIsPow2();
    ComplementBit(x, 32, i);
    hide Pow2, Bit;
  }

  lemma ChIs(x: Word, y: Word, z: Word)
    ensures BITS.Ch(x, y, z) == XorBits(AndBits(x, y), AndBits(NotW(x), z))
  {
    hide AndBits, XorBits, NotW;
    AndIs(x, y); AndIs(NotW(x), z);
    XorIs(AndBits(x, y), AndBits(NotW(x), z));
  }

  lemma MajIs(x: Word, y: Word, z: Word)
    ensures BITS.Maj(x, y, z) == XorBits(XorBits(AndBits(x, y), AndBits(x, z)), AndBits(y, z))
  {
    hide AndBits, XorBits;
    AndIs(x, y); AndIs(x, z); AndIs(y, z);
    Xor3Is(AndBits(x, y), AndBits(x, z), AndBits(y, z));
  }

  /** Ch chooses by the bits of its first word. */
  lemma ChBits(x: Word, y: Word, z: Word, i: nat)
    requires i < 32
    ensures Bit(BITS.Ch(x, y, z), i) == if Bit(x, i) == 1 then Bit(y, i) else Bit(z, i)
  {
    ChIs(x, y, z);
    hide *;
    NotBit(x, i);
    BitwiseBits(x, y, i);
    BitwiseBits(NotW(x), z, i);
    BitwiseBits(AndBits(x, y), AndBits(NotW(x), z), i);
  }

  /** Maj takes the majority of the bits. */
  lemma MajBits(x: Word, y: Word, z: Word, i: nat)
    requires i < 32
    ensures Bit(BITS.Maj(x, y, z), i) == if Bit(x, i) + Bit(y, i) + Bit(z, i) >= 2 then 1 else 0
  {
    MajIs(x, y, z);
    hide *;
    BitwiseBits(x, y, i);
    BitwiseBits(x, z, i);
    BitwiseBits(y, z, i);
    Xor3Bit(AndBits(x, y), AndBits(x, z), AndBits(y, z), i);
  }

  lemma Xor3Is(x: Word, y: Word, z: Word)
    ensures BITS.XorW(BITS.XorW(x, y), z) == XorBits(XorBits(x, y), z)
  {
    XorIs(x, y);
    XorIs(XorBits(x, y), z);
  }

  lemma Xor3Bit(x: Word, y: Word, z: Word, i: nat)
    requires i < 32
    ensures Bit(XorBits(XorBits(x, y), z), i) == (Bit(x, i) + Bit(y, i) + Bit(z, i)) % 2
  {
    hide *;
    BitwiseBits(x, y, i);
    BitwiseBits(XorBits(x, y), z, i);
  }

  lemma SigmasAre(x: Word)
    ensures BITS.BigSigma0(x) == XorBits(XorBits(BITS.Rotr(x, 2), BITS.Rotr(x, 13)), BITS.Rotr(x, 22))
    ensures BITS.BigSigma1(x) == XorBits(XorBits(BITS.Rotr(x, 6), BITS.Rotr(x, 11)), BITS.Rotr(x, 25))
    ensures BITS.SmallSigma0(x) == XorBits(XorBits(BITS.Rotr(x, 7), BITS.Rotr(x, 18)), ShiftRight(x, 3))
    ensures BITS.SmallSigma1(x) == XorBits(XorBits(BITS.Rotr(x, 17), BITS.Rotr(x, 19)), ShiftRight(x, 10))
  {
    hide Machine.Rotr, ShiftRight, XorBits;
    Xor3Is(BITS.Rotr(x, 2), BITS.Rotr(x, 13), BITS.Rotr(x, 22));
    Xor3Is(BITS.Rotr(x, 6), BITS.Rotr(x, 11), BITS.Rotr(x, 25));
    ShrIs(x, 3); ShrIs(x, 10);
    Xor3Is(BITS.Rotr(x, 7), BITS.Rotr(x, 18), ShiftRight(x, 3));
    Xor3Is(BITS.Rotr(x, 17), BITS.Rotr(x, 19), ShiftRight(x, 10));
  }

  /** The functions of section 4.1.2 bit by bit: the sum without carry of three bits of the word. */
  lemma SigmaBits(x: Word, i: nat)
    requires i < 32
    ensures Bit(BITS.BigSigma0(x), i) == (Bit(x, (i + 2) % 32) + Bit(x, (i + 13) % 32) + Bit(x, (i + 22) % 32)) % 2
    ensures Bit(BITS.BigSigma1(x), i) == (Bit(x, (i + 6) % 32) + Bit(x, (i + 11) % 32) + Bit(x, (i + 25) % 32)) % 2
    ensures Bit(BITS.SmallSigma0(x), i)
         == (Bit(x, (i + 7) % 32) + Bit(x, (i + 18) % 32) + (if i + 3 < 32 then Bit(x, i + 3) else 0)) % 2
    ensures Bit(BITS.SmallSigma1(x), i)
         == (Bit(x, (i + 17) % 32) + Bit(x, (i + 19) % 32) + (if i + 10 < 32 then Bit(x, i + 10) else 0)) % 2
  {
    SigmasAre(x);
    hide *;
    RotrBit(x, 2, i); RotrBit(x, 13, i); RotrBit(x, 22, i);
    RotrBit(x, 6, i); RotrBit(x, 11, i); RotrBit(x, 25, i);
    RotrBit(x, 7, i); RotrBit(x, 18, i); ShiftRightBit(x, 3, i);
    RotrBit(x, 17, i); RotrBit(x, 19, i); ShiftRightBit(x, 10, i);
    Xor3Bit(BITS.Rotr(x, 2), BITS.Rotr(x, 13), BITS.Rotr(x, 22), i);
    Xor3Bit(BITS.Rotr(x, 6), BITS.Rotr(x, 11), BITS.Rotr(x, 25), i);
    Xor3Bit(BITS.Rotr(x, 7), BITS.Rotr(x, 18), ShiftRight(x, 3), i);
    Xor3Bit(BITS.Rotr(x, 17), BITS.Rotr(x, 19), ShiftRight(x, 10), i);
  }

  /** With the bit operators of 32-bit words: the digest of FIPS 180-4, on every input that fits. */
  method Sha256Hex(bytes: seq<Byte>) returns (digest: Option<string>)
    ensures digest == if |bytes| + 8 < 0x8000_0000 then Some(BITS.Digest(bytes)) else None
  {
    digest := BITS.Sha256HexBytes(bytes);
  }
}
