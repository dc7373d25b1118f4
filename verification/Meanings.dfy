/**
 * What the operators of a check expression mean, on values: numbers by the real number they
 * denote, text by the first place where it differs, patterns by how a text can be split along
 * them. Nothing here is said in terms of how the evaluator compares.
 */
module Meanings {
  import opened Text
  import opened Numbers
  import opened CanonicalJson
  import opened Expressions
  import opened Evaluate

  // ---------------------------------------------------------------- numbers

  /** Ten to any power. */
  function TenTo(e: int): (p: real)
    ensures p > 0.0
  {
    if e >= 0 then Pow10(e) as real else 1.0 / Pow10(-e) as real
  }

  /** The real number that a decimal denotes. */
  function Real(d: Number): real {
    d.coefficient as real * TenTo(d.exponent)
  }

  lemma TenToNext(e: int)
    ensures TenTo(e + 1) == 10.0 * TenTo(e)
  {
    if e < 0 {
      var p, q := Pow10(-e - 1) as real, Pow10(-e) as real;
      assert Pow10(-e) == 10 * Pow10(-e - 1);
      assert q == 10.0 * p;
      Tenth(p, q);
      if e == -1 { assert Pow10(0) == 1 && Pow10(1) == 10 * Pow10(0); }
    }
  }

  lemma Tenth(p: real, q: real)
    requires p > 0.0 && q == 10.0 * p
    ensures 1.0 / p == 10.0 * (1.0 / q)
  {
    assert (1.0 / p) * p == 1.0;
    assert (1.0 / q) * q == 1.0;
    assert (10.0 * (1.0 / q)) * p == 1.0;
  }

  lemma TenTimes(p: real, q: real, t: real, before: real, after: real)
    requires q == 10.0 * p && before == p * t && after == 10.0 * before
    ensures after == q * t
  {
    assert 10.0 * (p * t) == (10.0 * p) * t;
  }

  lemma PowerNext(n: nat)
    requires n > 0
    ensures Pow10(n) as real == 10.0 * Pow10(n - 1) as real
  {
    assert Pow10(n) == 10 * Pow10(n - 1);
  }

  lemma PowerZero()
    ensures Pow10(0) as real == 1.0
  {}

  lemma TimesOne(p: real, t: real)
    requires p == 1.0
    ensures p * t == t
  {}

  lemma {:induction false} TenToShift(e: int, n: nat)
    ensures TenTo(e + n) == Pow10(n) as real * TenTo(e)
  {
    hide *;
    if n == 0 {
      PowerZero();
      TimesOne(Pow10(0) as real, TenTo(e));
    } else {
      TenToShift(e, n - 1);
      TenToNext(e + n - 1);
      PowerNext(n);
      TenTimes(Pow10(n - 1) as real, Pow10(n) as real, TenTo(e), TenTo(e + (n - 1)), TenTo(e + n));
    }
  }

  /** The coefficient at an exponent that is not above the decimal's own. */
  function At(d: Number, e: int): int
    requires e <= d.exponent
  {
    d.coefficient * Pow10(d.exponent - e)
  }

  lemma Rescaled(m: int, n: int, k: int, t: real, u: real)
    requires k == m * n && u == n as real * t
    ensures m as real * u == k as real * t
  {
    var x, y := m as real, n as real;
    assert k as real == x * y;
    assert x * (y * t) == (x * y) * t;
  }

  lemma RealIs(d: Number)
    ensures Real(d) == d.coefficient as real * TenTo(d.exponent)
  {
    hide TenTo;
  }

  lemma AtIs(d: Number, e: int)
    requires e <= d.exponent
    ensures At(d, e) == d.coefficient * Pow10(d.exponent - e)
  {
    hide Pow10;
  }

  lemma RealAt(d: Number, e: int)
    requires e <= d.exponent
    ensures Real(d) == At(d, e) as real * TenTo(e)
  {
    hide *;
    TenToShift(e, d.exponent - e);
    RealIs(d);
    AtIs(d, e);
    Rescaled(d.coefficient, Pow10(d.exponent - e), At(d, e), TenTo(e), TenTo(d.exponent));
  }

  lemma OrderScaled(m: int, n: int, t: real, x: real, y: real)
    requires t > 0.0 && x == m as real * t && y == n as real * t
    ensures m < n <==> x < y
    ensures m == n <==> x == y
  {
    SameFactor(m as real, n as real, t);
  }

  lemma SameFactor(x: real, y: real, t: real)
    requires t > 0.0
    ensures x < y <==> x * t < y * t
    ensures x == y <==> x * t == y * t
  {}

  lemma RealsOrdered(a: Number, b: Number, e: int)
    requires e <= a.exponent && e <= b.exponent
    ensures At(a, e) < At(b, e) <==> Real(a) < Real(b)
    ensures At(a, e) == At(b, e) <==> Real(a) == Real(b)
  {
    hide *;
    RealAt(a, e);
    RealAt(b, e);
    OrderScaled(At(a, e), At(b, e), TenTo(e), Real(a), Real(b));
  }

  /** A whole number with its decimal point moved. */
  function Moved(n: nat, places: int): real {
    n as real * TenTo(places)
  }

  /** Digits with a fraction and an exponent denote the number of all the digits, moved by the places of both. */
  lemma ScaledDenotes(whole: string, fraction: string, exponent: int)
    requires AllDigits(whole) && AllDigits(fraction)
    ensures Real(Scaled(whole, fraction, exponent)) == Moved(Value(whole + fraction), exponent - |fraction|)
  {
    ScaledIs(whole, fraction, exponent);
    hide *;
    ReducedDenotes(Value(whole + fraction), exponent - |fraction|);
  }

  lemma ScaledIs(whole: string, fraction: string, exponent: int)
    requires AllDigits(whole) && AllDigits(fraction)
    ensures AllDigits(whole + fraction)
    ensures Scaled(whole, fraction, exponent) == Reduced(Value(whole + fraction), exponent - |fraction|)
  {
    hide Reduced, Value;
  }

  lemma {:induction false} ReducedDenotes(c: nat, e: int)
    ensures Real(Reduced(c, e)) == Moved(c, e)
    decreases c
  {
    if c == 0 {
      assert Reduced(c, e) == Decimal(0, 0);
      hide TenTo;
    } else if c % 10 == 0 {
      ReducedDenotes(c / 10, e + 1);
      assert Reduced(c, e) == Reduced(c / 10, e + 1);
      hide *;
      TenFold(c / 10, c, e);
    } else {
      assert Reduced(c, e) == Decimal(c, e);
      hide TenTo, Reduced;
    }
  }

  lemma TenFold(n: nat, m: nat, e: int)
    requires m == 10 * n
    ensures Moved(n, e + 1) == Moved(m, e)
  {
    TenToNext(e);
    var t := TenTo(e);
    hide TenTo;
    assert m as real == 10.0 * n as real;
    assert n as real * (10.0 * t) == (10.0 * n as real) * t;
  }

  lemma LessIsSmaller(a: Number, b: Number)
    ensures Less(a, b) <==> Real(a) < Real(b)
  {
    RealsOrdered(a, b, Min(a.exponent, b.exponent));
    hide Real, TenTo, Pow10;
  }

  lemma NotScaled(a: Number, b: Number, n: nat)
    requires n > 0 && a.coefficient == b.coefficient * Pow10(n)
    ensures a.coefficient == 0 && b.coefficient == 0
  {
    var p := Pow10(n - 1);
    assert b.coefficient * Pow10(n) == 10 * (b.coefficient * p);
    assert a.coefficient % 10 == 0;
    assert Pow10(n) > 0;
  }

  /** Every real number has at most one decimal. */
  lemma RealInjective(a: Number, b: Number)
    ensures Real(a) == Real(b) <==> a == b
  {
    var e := Min(a.exponent, b.exponent);
    RealsOrdered(a, b, e);
    hide Real;
    assert Pow10(0) == 1;
    if At(a, e) == At(b, e) {
      if a.exponent < b.exponent {
        NotScaled(a, b, b.exponent - e);
      } else if b.exponent < a.exponent {
        NotScaled(b, a, a.exponent - e);
      }
    }
  }

  /** On two numbers every comparison is that of the real numbers they denote. */
  lemma NumbersCompared(l: Expr, r: Expr, row: Row, now: string, a: Number, b: Number)
    requires Eval(l, row, now) == Val(Num(a)) && Eval(r, row, now) == Val(Num(b))
    ensures Eval(Compare(Lt, l, r), row, now) == Val(Bool(Real(a) < Real(b)))
    ensures Eval(Compare(Lte, l, r), row, now) == Val(Bool(Real(a) <= Real(b)))
    ensures Eval(Compare(Gt, l, r), row, now) == Val(Bool(Real(a) > Real(b)))
    ensures Eval(Compare(Gte, l, r), row, now) == Val(Bool(Real(a) >= Real(b)))
    ensures Eval(Compare(Eq, l, r), row, now) == Val(Bool(Real(a) == Real(b)))
    ensures Eval(Compare(Neq, l, r), row, now) == Val(Bool(Real(a) != Real(b)))
  {
    LessIsSmaller(a, b);
    LessIsSmaller(b, a);
    RealInjective(a, b);
    hide Real, Less;
  }

  // ---------------------------------------------------------------- text

  /** The texts agree up to place `k`, where the first one ends or has the smaller character. */
  predicate DiffersAt(s: string, t: string, k: nat) {
    k <= |s| && k < |t| && s[..k] == t[..k] && (k < |s| ==> s[k] < t[k])
  }

  /** The order of text. */
  ghost predicate Before(s: string, t: string) {
    exists k: nat :: DiffersAt(s, t, k)
  }

  lemma DiffersFirst(s: string, t: string, k: nat)
    requires DiffersAt(s, t, k) && s != []
    ensures t != [] && if k == 0 then s[0] < t[0] else s[0] == t[0]
  {
    if k > 0 {
      assert s[..k][0] == s[0];
      assert t[..k][0] == t[0];
    }
  }

  lemma {:induction false} LeqIsBefore(s: string, t: string)
    ensures s != t && Leq(s, t) <==> Before(s, t)
  {
    if s == [] {
      if t != [] { assert DiffersAt(s, t, 0); }
    } else if t != [] && s[0] == t[0] {
      LeqIsBefore(s[1..], t[1..]);
      assert s == [s[0]] + s[1..] && t == [t[0]] + t[1..];
      if Before(s[1..], t[1..]) {
        var k: nat :| DiffersAt(s[1..], t[1..], k);
        assert s[..k + 1] == [s[0]] + s[1..][..k] && t[..k + 1] == [t[0]] + t[1..][..k];
        assert DiffersAt(s, t, k + 1);
      }
      if Before(s, t) {
        var k: nat :| DiffersAt(s, t, k);
        assert s[1..][..k - 1] == s[..k][1..] && t[1..][..k - 1] == t[..k][1..];
        assert DiffersAt(s[1..], t[1..], k - 1);
      }
    } else if t != [] {
      if s[0] < t[0] { assert DiffersAt(s, t, 0); }
      if Before(s, t) {
        var k: nat :| DiffersAt(s, t, k);
        DiffersFirst(s, t, k);
      }
    }
  }

  /** Of two texts exactly one comes before the other, unless they are the same. */
  lemma BeforeTrichotomy(s: string, t: string)
    ensures s == t ==> !Before(s, t)
    ensures s != t ==> (Before(s, t) <==> !Before(t, s))
  {
    LeqIsBefore(s, t);
    LeqIsBefore(t, s);
    LeqTotal(s, t);
    if Leq(s, t) && Leq(t, s) { LeqAntisymmetric(s, t); }
  }

  /** Unless both sides are numbers, they are put in order by their texts. */
  lemma TextsCompared(l: Expr, r: Expr, row: Row, now: string, v: Json, w: Json)
    requires Eval(l, row, now) == Val(v) && Eval(r, row, now) == Val(w) && !v.Null? && !w.Null? && !(v.Num? && w.Num?)
    ensures Eval(Compare(Lt, l, r), row, now) == Val(Bool(Before(ToText(v), ToText(w))))
    ensures Eval(Compare(Lte, l, r), row, now) == Val(Bool(Before(ToText(v), ToText(w)) || ToText(v) == ToText(w)))
    ensures Eval(Compare(Gt, l, r), row, now) == Val(Bool(Before(ToText(w), ToText(v))))
    ensures Eval(Compare(Gte, l, r), row, now) == Val(Bool(Before(ToText(w), ToText(v)) || ToText(v) == ToText(w)))
  {
    hide ToText;
    LeqIsBefore(ToText(v), ToText(w));
    LeqIsBefore(ToText(w), ToText(v));
    BeforeTrichotomy(ToText(v), ToText(w));
  }

  /** On two strings the order of text decides every comparison. */
  lemma StringsCompared(l: Expr, r: Expr, row: Row, now: string, s: string, t: string)
    requires Eval(l, row, now) == Val(Str(s)) && Eval(r, row, now) == Val(Str(t))
    ensures Eval(Compare(Lt, l, r), row, now) == Val(Bool(Before(s, t)))
    ensures Eval(Compare(Lte, l, r), row, now) == Val(Bool(Before(s, t) || s == t))
    ensures Eval(Compare(Gt, l, r), row, now) == Val(Bool(Before(t, s)))
    ensures Eval(Compare(Gte, l, r), row, now) == Val(Bool(Before(t, s) || s == t))
    ensures Eval(Compare(Eq, l, r), row, now) == Val(Bool(s == t))
    ensures Eval(Compare(Neq, l, r), row, now) == Val(Bool(s != t))
  {
    TextsCompared(l, r, row, now, Str(s), Str(t));
    hide Before, Leq;
  }

  /** The texts of values that are no strings: words for truth values, digits, and list elements between commas. */
  lemma TextsOfValues(n: Number, s: string)
    ensures ToText(Bool(true)) == "true" && ToText(Bool(false)) == "false" && ToText(Obj(map[])) == "[object Object]"
    ensures ParseNumber(ToText(Num(n))) == Some(n)
    ensures ToText(Arr([])) == "" && ToText(Arr([Str(s)])) == s && ToText(Arr([Null, Str(s), Bool(true)])) == "," + s + ",true"
  {
    ParseNumberText(n);
    hide NumberText, ParseNumber;
    var items := [Null, Str(s), Bool(true)];
    assert [Bool(true)] == items[1..][1..];
    assert JoinText([Bool(true)]) == "true";
    assert JoinText(items[1..]) == s + "," + "true";
    assert JoinText(items) == "" + "," + (s + "," + "true");
    assert "" + "," + (s + "," + "true") == "," + s + ",true";
  }

  // ---------------------------------------------------------------- equality, lists, unknown sides

  /** Values that are no arrays or objects are equal when they are the same value, types included. */
  lemma EqualityDecided(l: Expr, r: Expr, row: Row, now: string, v: Json, w: Json)
    requires Eval(l, row, now) == Val(v) && Eval(r, row, now) == Val(w) && !v.Null? && !w.Null?
    ensures !Composite(v) && !Composite(w) ==> Eval(Compare(Eq, l, r), row, now) == Val(Bool(v == w))
    ensures Composite(v) || Composite(w) ==>
              Eval(Compare(Eq, l, r), row, now) == Val(Bool(l.Column? && r.Column? && l.name == r.name))
    ensures Eval(Compare(Neq, l, r), row, now) == Val(Bool(Eval(Compare(Eq, l, r), row, now) == FALSE))
  {}

  /** IN holds exactly when the right side is a list with an item that is the left value; arrays and objects never are. */
  lemma InDecided(l: Expr, r: Expr, row: Row, now: string, v: Json, w: Json)
    requires Eval(l, row, now) == Val(v) && Eval(r, row, now) == Val(w) && !v.Null? && !w.Null?
    ensures Eval(Compare(In, l, r), row, now) == Val(Bool(w.Arr? && !v.Arr? && !v.Obj? && v in w.items))
  {}

  predicate Missing(t: Tri) {
    t == Undefined || t == Val(Null)
  }

  /** A missing or null side makes every comparison unknown but IS, which is then true when both are. */
  lemma UnknownSides(c: CompareOp, l: Expr, r: Expr, row: Row, now: string)
    ensures c != Is ==> (Eval(Compare(c, l, r), row, now) == Undefined
                         <==> Missing(Eval(l, row, now)) || Missing(Eval(r, row, now)))
    ensures Missing(Eval(l, row, now)) || Missing(Eval(r, row, now)) ==>
              Eval(Compare(Is, l, r), row, now) == Val(Bool(Missing(Eval(l, row, now)) && Missing(Eval(r, row, now))))
  {}

  // ---------------------------------------------------------------- patterns

  predicate CapitalOf(u: char, c: char) {
    'A' <= u <= 'Z' && c as int == u as int + 32
  }

  predicate SameLetter(a: char, b: char, ignoreCase: bool) {
    a == b || (ignoreCase && (CapitalOf(a, b) || CapitalOf(b, a)))
  }

  predicate OnOneLine(s: string) {
    forall i | 0 <= i < |s| :: s[i] != '\n' && s[i] != '\r' && s[i] as int != 0x2028 && s[i] as int != 0x2029
  }

  /** What one character of a pattern stands for. */
  predicate Fits(piece: string, p: char, ignoreCase: bool) {
    if p == '%' then OnOneLine(piece)
    else |piece| == 1 && if p == '_' then OnOneLine(piece) else SameLetter(piece[0], p, ignoreCase)
  }

  function Concat(pieces: seq<string>): string {
    if pieces == [] then [] else pieces[0] + Concat(pieces[1..])
  }

  /** The text in one piece for each character of the pattern. */
  predicate SplitsInto(value: string, pattern: string, ignoreCase: bool, pieces: seq<string>) {
    && |pieces| == |pattern| && Concat(pieces) == value
    && forall i | 0 <= i < |pattern| :: Fits(pieces[i], pattern[i], ignoreCase)
  }

  ghost predicate Splits(value: string, pattern: string, ignoreCase: bool) {
    exists pieces :: SplitsInto(value, pattern, ignoreCase, pieces)
  }

  lemma OneFits(value: string, p: char, ignoreCase: bool)
    requires value != [] && p != '%'
    ensures Fits([value[0]], p, ignoreCase)
       <==> if p == '_' then !LineTerminator(value[0])
            else if ignoreCase then LowerChar(value[0]) == LowerChar(p) else value[0] == p
  {
    if p == '_' {
      assert [value[0]][0] == value[0];
    }
  }

  lemma SplitsNext(value: string, pattern: string, ignoreCase: bool, piece: string, pieces: seq<string>)
    requires pattern != [] && Fits(piece, pattern[0], ignoreCase) && |piece| <= |value| && value[..|piece|] == piece
    requires SplitsInto(value[|piece|..], pattern[1..], ignoreCase, pieces)
    ensures SplitsInto(value, pattern, ignoreCase, [piece] + pieces)
  {
    assert ([piece] + pieces)[1..] == pieces;
    assert value == piece + value[|piece|..];
    forall i | 0 <= i < |pattern| ensures Fits(([piece] + pieces)[i], pattern[i], ignoreCase) {
      if i > 0 { assert pattern[i] == pattern[1..][i - 1]; }
    }
  }

  lemma {:induction false} MatchSplits(value: string, pattern: string, ignoreCase: bool) returns (pieces: seq<string>)
    requires LikeMatch(value, pattern, ignoreCase)
    ensures SplitsInto(value, pattern, ignoreCase, pieces)
    decreases |value| + |pattern|
  {
    hide Fits, LineTerminator, LowerChar;
    if pattern == [] {
      pieces := [];
    } else if pattern[0] == '%' && LikeMatch(value, pattern[1..], ignoreCase) {
      var rest := MatchSplits(value, pattern[1..], ignoreCase);
      NothingFits(ignoreCase);
      assert value[0..] == value;
      SplitsNext(value, pattern, ignoreCase, [], rest);
      pieces := [[]] + rest;
    } else if pattern[0] == '%' {
      var rest := MatchSplits(value[1..], pattern, ignoreCase);
      Longer(value, pattern, ignoreCase, rest);
      pieces := [[value[0]] + rest[0]] + rest[1..];
    } else {
      var rest := MatchSplits(value[1..], pattern[1..], ignoreCase);
      OneFits(value, pattern[0], ignoreCase);
      assert value[..1] == [value[0]];
      SplitsNext(value, pattern, ignoreCase, [value[0]], rest);
      pieces := [[value[0]]] + rest;
    }
  }

  lemma NothingFits(ignoreCase: bool)
    ensures Fits([], '%', ignoreCase)
  {}

  lemma Longer(value: string, pattern: string, ignoreCase: bool, rest: seq<string>)
    requires pattern != [] && pattern[0] == '%' && value != [] && !LineTerminator(value[0])
    requires SplitsInto(value[1..], pattern, ignoreCase, rest)
    ensures SplitsInto(value, pattern, ignoreCase, [[value[0]] + rest[0]] + rest[1..])
  {
    var first := [value[0]] + rest[0];
    var pieces := [first] + rest[1..];
    assert Fits(rest[0], pattern[0], ignoreCase);
    assert OnOneLine(first);
    assert pieces[1..] == rest[1..];
    assert value == [value[0]] + value[1..];
    assert [value[0]] + (rest[0] + Concat(rest[1..])) == first + Concat(rest[1..]);
    hide Concat;
  }

  lemma {:induction false} SplitMatches(value: string, pattern: string, ignoreCase: bool, pieces: seq<string>)
    requires SplitsInto(value, pattern, ignoreCase, pieces)
    ensures LikeMatch(value, pattern, ignoreCase)
    decreases |value| + |pattern|
  {
    if pattern != [] {
      var rest := pieces[1..];
      assert Fits(pieces[0], pattern[0], ignoreCase);
      assert value == pieces[0] + Concat(rest);
      assert value[|pieces[0]|..] == Concat(rest);
      assert SplitsInto(Concat(rest), pattern[1..], ignoreCase, rest) by {
        hide Fits;
        forall i | 0 <= i < |rest| ensures Fits(rest[i], pattern[1..][i], ignoreCase) {
          assert Fits(pieces[i + 1], pattern[i + 1], ignoreCase);
        }
      }
      if pattern[0] == '%' && pieces[0] != [] {
        Shorter(value, pattern, ignoreCase, pieces);
        SplitMatches(value[1..], pattern, ignoreCase, [pieces[0][1..]] + rest);
      } else {
        if pattern[0] == '%' { assert Concat(rest) == value; }
        else { assert pieces[0] == [value[0]]; OneFits(value, pattern[0], ignoreCase); }
        hide Fits, SplitsInto;
        SplitMatches(Concat(rest), pattern[1..], ignoreCase, rest);
      }
    }
  }

  lemma Shorter(value: string, pattern: string, ignoreCase: bool, pieces: seq<string>)
    requires SplitsInto(value, pattern, ignoreCase, pieces) && pattern != [] && pattern[0] == '%' && pieces[0] != []
    ensures value != [] && !LineTerminator(value[0])
    ensures SplitsInto(value[1..], pattern, ignoreCase, [pieces[0][1..]] + pieces[1..])
  {
    var shorter := [pieces[0][1..]] + pieces[1..];
    assert Fits(pieces[0], pattern[0], ignoreCase);
    assert value == pieces[0] + Concat(pieces[1..]);
    assert value[0] == pieces[0][0];
    assert shorter[1..] == pieces[1..];
    assert value[1..] == pieces[0][1..] + Concat(pieces[1..]);
    assert OnOneLine(pieces[0][1..]);
    hide Concat;
  }

  /** LIKE holds exactly when the text splits along the pattern, and ILIKE up to letter case. */
  lemma LikeDecided(l: Expr, r: Expr, row: Row, now: string, v: Json, w: Json)
    requires Eval(l, row, now) == Val(v) && Eval(r, row, now) == Val(w) && !v.Null? && !w.Null?
    ensures Eval(Compare(Like, l, r), row, now) == Val(Bool(Splits(ToText(v), ToText(w), false)))
    ensures Eval(Compare(ILike, l, r), row, now) == Val(Bool(Splits(ToText(v), ToText(w), true)))
  {
    MatchIsSplit(ToText(v), ToText(w), false);
    MatchIsSplit(ToText(v), ToText(w), true);
    hide ToText, LikeMatch, Splits;
  }

  lemma MatchIsSplit(value: string, pattern: string, ignoreCase: bool)
    ensures LikeMatch(value, pattern, ignoreCase) <==> Splits(value, pattern, ignoreCase)
  {
    if LikeMatch(value, pattern, ignoreCase) {
      var pieces := MatchSplits(value, pattern, ignoreCase);
    }
    if Splits(value, pattern, ignoreCase) {
      var pieces :| SplitsInto(value, pattern, ignoreCase, pieces);
      SplitMatches(value, pattern, ignoreCase, pieces);
    }
  }

  // ---------------------------------------------------------------- and, or, not

  /** NOT swaps true and false and leaves unknown; and/or are those of three truth values. */
  lemma NotDecided(t: Expr, row: Row, now: string)
    requires TruthValued(t)
    ensures Eval(Not(t), row, now) == TRUE <==> Eval(t, row, now) == FALSE
    ensures Eval(Not(t), row, now) == FALSE <==> Eval(t, row, now) == TRUE
    ensures Eval(Not(t), row, now) == Undefined <==> Eval(t, row, now) == Undefined
  {
    TruthValuedResult(t, row, now);
  }

  lemma LogicDecided(ts: seq<Expr>, row: Row, now: string)
    requires TruthTerms(ts)
    ensures Eval(Logic(And, ts), row, now) == TRUE <==> forall t | t in ts :: Eval(t, row, now) == TRUE
    ensures Eval(Logic(And, ts), row, now) == FALSE <==> exists t :: t in ts && Eval(t, row, now) == FALSE
    ensures Eval(Logic(Or, ts), row, now) == TRUE <==> exists t :: t in ts && Eval(t, row, now) == TRUE
    ensures Eval(Logic(Or, ts), row, now) == FALSE <==> forall t | t in ts :: Eval(t, row, now) == FALSE
  {
    LogicValue(And, ts, row, now);
    LogicValue(Or, ts, row, now);
    forall v ensures Occurs(ts, v, row, now) <==> exists t :: t in ts && Eval(t, row, now) == v {
      if t :| t in ts && Eval(t, row, now) == v {
        var i :| 0 <= i < |ts| && ts[i] == t;
        assert Eval(ts[i], row, now) == v;
      }
      if Occurs(ts, v, row, now) {
        var i :| 0 <= i < |ts| && Eval(ts[i], row, now) == v;
        assert ts[i] in ts;
      }
    }
    forall t | t in ts ensures Eval(t, row, now) in {TRUE, FALSE, Undefined} { TruthValuedResult(t, row, now); }
    hide Eval, Occurs, TruthTerms;
  }
}
