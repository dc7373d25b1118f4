/**
 * Canonical JSON: the serialisation whose string equality the kernel uses for hashes,
 * fingerprints, normal forms and comparisons.
 */
module CanonicalJson {
  import opened Text
  import opened Numbers

  datatype Json =
    | Null
    | Bool(b: bool)
    | Num(n: Number)
    | Str(s: string)
    | Arr(items: seq<Json>)
    | Obj(fields: map<string, Json>)

  // ---------------------------------------------------------------- sorted keys

  predicate IsLeast(k: string, keys: set<string>) {
    k in keys && forall x | x in keys :: Leq(k, x)
  }

  lemma {:induction false} LeastExists(keys: set<string>)
    requires keys != {}
    ensures exists k :: IsLeast(k, keys)
    decreases |keys|
  {
    var a :| a in keys;
    var rest := keys - {a};
    if rest == {} {
      LeqTotal(a, a);
      assert keys == {a};
      assert IsLeast(a, keys);
    } else {
      LeastExists(rest);
      var m :| IsLeast(m, rest);
      var least := if Leq(a, m) then a else m;
      forall x | x in keys ensures Leq(least, x) {
        LeqTotal(a, m);
        LeqTotal(a, a);
        if x != a && Leq(a, m) { LeqTransitive(a, m, x); }
      }
      assert IsLeast(least, keys);
    }
  }

  lemma LeastUnique(a: string, b: string, keys: set<string>)
    requires IsLeast(a, keys) && IsLeast(b, keys)
    ensures a == b
  {
    LeqAntisymmetric(a, b);
  }

  /** Object.keys(..).sort(): every key once, in order. */
  function SortedKeys(keys: set<string>): (r: seq<string>)
    ensures forall k :: k in r <==> k in keys
    ensures forall i, j | 0 <= i < j < |r| :: Leq(r[i], r[j]) && r[i] != r[j]
    decreases |keys|
  {
    if keys == {} then [] else
    LeastExists(keys);
    assert forall a, b | IsLeast(a, keys) && IsLeast(b, keys) :: a == b by {
      forall a, b | IsLeast(a, keys) && IsLeast(b, keys) ensures a == b { LeastUnique(a, b, keys); }
    }
    var k :| IsLeast(k, keys);
    [k] + SortedKeys(keys - {k})
  }

  // ---------------------------------------------------------------- text

  /** One character inside a JSON string (section 7 of RFC 8259), as JSON.stringify writes it. */
  function EscapeChar(c: char): string {
    if c == '"' then ['\\', '"']
    else if c == '\\' then ['\\', '\\']
    else if c as int == 8 then ['\\', 'b']
    else if c as int == 9 then ['\\', 't']
    else if c as int == 10 then ['\\', 'n']
    else if c as int == 12 then ['\\', 'f']
    else if c as int == 13 then ['\\', 'r']
    else if c as int < 32 then ['\\', 'u', '0', '0', HexDigit(c as int / 16), HexDigit(c as int % 16)]
    else [c]
  }

  function Escape(s: string): string {
    if s == [] then [] else EscapeChar(s[0]) + Escape(s[1..])
  }

  function Quote(s: string): string {
    ['"'] + Escape(s) + ['"']
  }

  /** canonicalJson */
  function Canonical(v: Json): string
    decreases v, 2
  {
    match v
    case Null => "null"
    case Bool(b) => if b then "true" else "false"
    case Num(n) => NumberText(n)
    case Str(s) => Quote(s)
    case Arr(items) => ['['] + ItemsText(items) + [']']
    case Obj(fields) => ['{'] + FieldsText(SortedKeys(fields.Keys), v) + ['}']
  }

  /** Elements joined by commas. */
  function ItemsText(items: seq<Json>): string
    decreases items, 0
  {
    if items == [] then []
    else if |items| == 1 then Canonical(items[0])
    else Canonical(items[0]) + [','] + ItemsText(items[1..])
  }

  function FieldText(k: string, v: Json): string
    requires v.Obj? && k in v.fields
    decreases v, 0
  {
    Quote(k) + [':'] + Canonical(v.fields[k])
  }

  function FieldsText(ks: seq<string>, v: Json): string
    requires v.Obj? && forall k | k in ks :: k in v.fields
    decreases v, 1, |ks|
  {
    if ks == [] then []
    else if |ks| == 1 then FieldText(ks[0], v)
    else FieldText(ks[0], v) + [','] + FieldsText(ks[1..], v)
  }

  /** jsonEquals */
  predicate JsonEquals(a: Json, b: Json) {
    Canonical(a) == Canonical(b)
  }

  // ---------------------------------------------------------------- unique decodability

  /** What may follow a value inside a larger text: nothing, or the next structural character. */
  predicate Follows(x: string) {
    x == [] || x[0] == ',' || x[0] == ']' || x[0] == '}'
  }

  lemma SplitSameLength(a: string, x: string, b: string, y: string)
    requires a + x == b + y && |a| == |b|
    ensures a == b && x == y
  {
    assert (a + x)[..|a|] == a && (b + y)[..|b|] == b;
    assert (a + x)[|a|..] == x && (b + y)[|b|..] == y;
  }

  lemma EscapeCharDecodes(c: char, x: string, d: char, y: string)
    requires EscapeChar(c) + x == EscapeChar(d) + y
    ensures c == d && x == y
  {
    var s := EscapeChar(c) + x;
    assert s[0] == EscapeChar(c)[0] && s[0] == EscapeChar(d)[0];
    if s[0] == '\\' {
      assert s[1] == EscapeChar(c)[1] && s[1] == EscapeChar(d)[1];
      if s[1] == 'u' {
        assert s[4] == EscapeChar(c)[4] && s[4] == EscapeChar(d)[4];
        assert s[5] == EscapeChar(c)[5] && s[5] == EscapeChar(d)[5];
      }
    }
    SplitSameLength(EscapeChar(c), x, EscapeChar(d), y);
  }

  /** The text of an escaped string runs up to the first bare quote. */
  lemma {:induction false} EscapeDecodes(s: string, x: string, t: string, y: string)
    requires x != [] && x[0] == '"' && y != [] && y[0] == '"'
    requires Escape(s) + x == Escape(t) + y
    ensures s == t && x == y
  {
    EscapeSplit(s, x);
    EscapeSplit(t, y);
    if s != [] && t != [] {
      EscapeCharDecodes(s[0], Escape(s[1..]) + x, t[0], Escape(t[1..]) + y);
      EscapeDecodes(s[1..], x, t[1..], y);
      assert s == [s[0]] + s[1..] && t == [t[0]] + t[1..];
    }
  }

  lemma EscapeSplit(s: string, x: string)
    requires x != [] && x[0] == '"'
    ensures s == [] ==> Escape(s) + x == x
    ensures s != [] ==> Escape(s) + x == EscapeChar(s[0]) + (Escape(s[1..]) + x)
    ensures s != [] ==> (Escape(s) + x)[0] != '"'
  {}

  lemma QuoteDecodes(s: string, x: string, t: string, y: string)
    requires Quote(s) + x == Quote(t) + y
    ensures s == t && x == y
  {
    assert Quote(s) + x == ['"'] + (Escape(s) + (['"'] + x));
    assert Quote(t) + y == ['"'] + (Escape(t) + (['"'] + y));
    SplitSameLength(['"'], Escape(s) + (['"'] + x), ['"'], Escape(t) + (['"'] + y));
    EscapeDecodes(s, ['"'] + x, t, ['"'] + y);
    SplitSameLength(['"'], x, ['"'], y);
  }

  lemma NumberNotLonger(a: string, x: string, b: string, y: string)
    requires Follows(x) && NumberChars(b)
    requires a + x == b + y
    ensures |b| <= |a|
  {
    assert forall i | 0 <= i < |b| :: (a + x)[i] == b[i];
    assert x != [] ==> (a + x)[|a|] == x[0];
  }

  lemma NumberDecodes(m: Number, x: string, n: Number, y: string)
    requires Follows(x) && Follows(y)
    requires NumberText(m) + x == NumberText(n) + y
    ensures m == n && x == y
  {
    var a, b := NumberText(m), NumberText(n);
    NumberTextChars(m);
    NumberTextChars(n);
    NumberNotLonger(a, x, b, y);
    NumberNotLonger(b, y, a, x);
    SplitSameLength(a, x, b, y);
    ParseNumberText(m);
    ParseNumberText(n);
  }

  /** The first character tells which kind of value a text holds. */
  function KindOf(v: Json): char {
    match v
    case Null => 'n'
    case Bool(b) => if b then 't' else 'f'
    case Num(_) => '0'
    case Str(_) => '"'
    case Arr(_) => '['
    case Obj(_) => '{'
  }

  lemma FirstChar(v: Json)
    ensures Canonical(v) != []
    ensures v.Num? ==> IsDigit(Canonical(v)[0]) || Canonical(v)[0] == '-'
    ensures !v.Num? ==> Canonical(v)[0] == KindOf(v)
  {
    if v.Num? { NumberTextChars(v.n); }
  }

  lemma SameKind(a: Json, x: string, b: Json, y: string)
    requires Canonical(a) + x == Canonical(b) + y
    ensures KindOf(a) == KindOf(b)
  {
    FirstChar(a);
    FirstChar(b);
    assert (Canonical(a) + x)[0] == Canonical(a)[0] && (Canonical(b) + y)[0] == Canonical(b)[0];
  }

  /** A value can be read off the front of a text in only one way. */
  lemma {:induction false} CanonicalDecodes(a: Json, x: string, b: Json, y: string)
    requires Follows(x) && Follows(y)
    requires Canonical(a) + x == Canonical(b) + y
    ensures a == b && x == y
    decreases a, 2
  {
    SameKind(a, x, b, y);
    match a
    case Null => SplitSameLength("null", x, "null", y);
    case Bool(_) => SplitSameLength(Canonical(a), x, Canonical(b), y);
    case Num(m) => NumberDecodes(m, x, b.n, y);
    case Str(s) => QuoteDecodes(s, x, b.s, y);
    case Arr(items) =>
      Unwrap('[', ItemsText(items), ']', x, ItemsText(b.items), y);
      ItemsDecode(items, [']'] + x, b.items, [']'] + y);
      SplitSameLength([']'], x, [']'], y);
    case Obj(fields) =>
      var ks, ls := SortedKeys(fields.Keys), SortedKeys(b.fields.Keys);
      Unwrap('{', FieldsText(ks, a), '}', x, FieldsText(ls, b), y);
      FieldsDecode(ks, a, ['}'] + x, ls, b, ['}'] + y);
      SplitSameLength(['}'], x, ['}'], y);
      SameFields(a, b, ks);
  }

  lemma SameFields(a: Json, b: Json, ks: seq<string>)
    requires a.Obj? && b.Obj?
    requires forall k :: k in ks <==> k in a.fields
    requires forall k :: k in ks <==> k in b.fields
    requires forall k | k in ks :: a.fields[k] == b.fields[k]
    ensures a == b
  {
    assert a.fields == b.fields;
  }

  lemma Unwrap(open: char, s: string, close: char, x: string, t: string, y: string)
    requires ([open] + s + [close]) + x == ([open] + t + [close]) + y
    ensures s + ([close] + x) == t + ([close] + y)
  {
    assert ([open] + s + [close]) + x == [open] + (s + ([close] + x));
    assert ([open] + t + [close]) + y == [open] + (t + ([close] + y));
    SplitSameLength([open], s + ([close] + x), [open], t + ([close] + y));
  }

  /** What follows the first element of a list whose text is followed by `x`. */
  function ItemsTail(items: seq<Json>, x: string): string
    requires items != []
  {
    if |items| == 1 then x else [','] + (ItemsText(items[1..]) + x)
  }

  lemma Reassociate(a: string, b: string, c: string)
    ensures (a + b) + c == a + (b + c)
  {}

  lemma ItemsSplit(items: seq<Json>, x: string)
    ensures items == [] ==> ItemsText(items) + x == x
    ensures items != [] ==> ItemsText(items) + x == Canonical(items[0]) + ItemsTail(items, x)
    ensures items != [] ==> ItemsText(items) + x != [] && (ItemsText(items) + x)[0] != ']'
  {
    if |items| > 0 {
      FirstChar(items[0]);
      if |items| > 1 {
        Reassociate(Canonical(items[0]) + [','], ItemsText(items[1..]), x);
        Reassociate(Canonical(items[0]), [','], ItemsText(items[1..]) + x);
      }
    }
  }

  lemma ItemsTailSplit(items: seq<Json>, x: string)
    requires items != []
    ensures |items| == 1 ==> ItemsTail(items, x) == x
    ensures |items| > 1 ==> ItemsTail(items, x) != [] && ItemsTail(items, x)[0] == ','
    ensures |items| > 1 ==> ItemsTail(items, x)[1..] == ItemsText(items[1..]) + x
  {}

  lemma {:induction false} ItemsDecode(s: seq<Json>, x: string, t: seq<Json>, y: string)
    requires x != [] && x[0] == ']' && y != [] && y[0] == ']'
    requires ItemsText(s) + x == ItemsText(t) + y
    ensures s == t && x == y
    decreases s, 1
  {
    hide Canonical, ItemsText, ItemsTail;
    ItemsSplit(s, x);
    ItemsSplit(t, y);
    if s != [] && t != [] {
      ItemsTailSplit(s, x);
      ItemsTailSplit(t, y);
      CanonicalDecodes(s[0], ItemsTail(s, x), t[0], ItemsTail(t, y));
      if |s| > 1 && |t| > 1 {
        ItemsDecode(s[1..], x, t[1..], y);
      }
      assert s == [s[0]] + s[1..] && t == [t[0]] + t[1..];
    }
  }

  lemma FieldSplit(k: string, v: Json, x: string)
    requires v.Obj? && k in v.fields
    ensures FieldText(k, v) + x == Quote(k) + ([':'] + (Canonical(v.fields[k]) + x))
  {
    Reassociate(Quote(k) + [':'], Canonical(v.fields[k]), x);
    Reassociate(Quote(k), [':'], Canonical(v.fields[k]) + x);
  }

  lemma {:induction false} FieldDecodes(k: string, a: Json, x: string, l: string, b: Json, y: string)
    requires a.Obj? && k in a.fields && b.Obj? && l in b.fields
    requires Follows(x) && Follows(y)
    requires FieldText(k, a) + x == FieldText(l, b) + y
    ensures k == l && a.fields[k] == b.fields[l] && x == y
    decreases a, 0
  {
    var va, vb := Canonical(a.fields[k]) + x, Canonical(b.fields[l]) + y;
    FieldSplit(k, a, x);
    FieldSplit(l, b, y);
    QuoteDecodes(k, [':'] + va, l, [':'] + vb);
    SplitSameLength([':'], va, [':'], vb);
    CanonicalDecodes(a.fields[k], x, b.fields[l], y);
  }

  function FieldsTail(ks: seq<string>, v: Json, x: string): string
    requires ks != [] && v.Obj? && forall k | k in ks :: k in v.fields
  {
    if |ks| == 1 then x else [','] + (FieldsText(ks[1..], v) + x)
  }

  lemma FieldsSplit(ks: seq<string>, v: Json, x: string)
    requires v.Obj? && forall k | k in ks :: k in v.fields
    ensures ks == [] ==> FieldsText(ks, v) + x == x
    ensures ks != [] ==> FieldsText(ks, v) + x == FieldText(ks[0], v) + FieldsTail(ks, v, x)
    ensures ks != [] ==> FieldsText(ks, v) + x != [] && (FieldsText(ks, v) + x)[0] == '"'
  {}

  lemma {:induction false} FieldsDecode(ks: seq<string>, a: Json, x: string, ls: seq<string>, b: Json, y: string)
    requires a.Obj? && forall k | k in ks :: k in a.fields
    requires b.Obj? && forall k | k in ls :: k in b.fields
    requires x != [] && x[0] == '}' && y != [] && y[0] == '}'
    requires FieldsText(ks, a) + x == FieldsText(ls, b) + y
    ensures ks == ls && x == y
    ensures forall k | k in ks :: a.fields[k] == b.fields[k]
    decreases a, 1, |ks|
  {
    FieldsSplit(ks, a, x);
    FieldsSplit(ls, b, y);
    if ks != [] && ls != [] {
      FieldDecodes(ks[0], a, FieldsTail(ks, a, x), ls[0], b, FieldsTail(ls, b, y));
      if |ks| > 1 && |ls| > 1 {
        SplitSameLength([','], FieldsText(ks[1..], a) + x, [','], FieldsText(ls[1..], b) + y);
        FieldsDecode(ks[1..], a, x, ls[1..], b, y);
      }
      assert ks == [ks[0]] + ks[1..] && ls == [ls[0]] + ls[1..];
    }
  }

  /** Equal strings exactly for structurally equal values, so jsonEquals is structural equality. */
  lemma CanonicalInjective(a: Json, b: Json)
    ensures Canonical(a) == Canonical(b) <==> a == b
    ensures JsonEquals(a, b) <==> a == b
  {
    if Canonical(a) == Canonical(b) {
      assert Canonical(a) + [] == Canonical(b) + [];
      CanonicalDecodes(a, [], b, []);
    }
  }
}
