/**
 * A reader of JSON text by the grammar of RFC 8259, without the optional white space between
 * tokens, and the proof that it reads every canonical text back as the value it was written from.
 */
module JsonReader {
  import opened Text
  import opened Numbers
  import opened CanonicalJson

  // ---------------------------------------------------------------- strings (section 7)

  function HexValue(c: char): Option<nat> {
    if '0' <= c <= '9' then Some(c as int - '0' as int)
    else if 'a' <= c <= 'f' then Some(c as int - 'a' as int + 10)
    else if 'A' <= c <= 'F' then Some(c as int - 'A' as int + 10)
    else None
  }

  /** The four hexadecimal digits after \u. */
  function ReadUnicode(s: string): (r: Option<(char, string)>)
    ensures r.Some? ==> |r.value.1| < |s|
  {
    if |s| < 4 then None
    else
      var a, b, c, d := HexValue(s[0]), HexValue(s[1]), HexValue(s[2]), HexValue(s[3]);
      if a.None? || b.None? || c.None? || d.None? then None
      else
        var n := a.value * 4096 + b.value * 256 + c.value * 16 + d.value;
        if n >= 0xD800 && n < 0xE000 then None else Some((n as char, s[4..]))
  }

  /** What stands after a backslash. */
  function ReadEscape(s: string): (r: Option<(char, string)>)
    ensures r.Some? ==> |r.value.1| < |s|
  {
    if s == [] then None
    else if s[0] == '"' then Some(('"', s[1..]))
    else if s[0] == '\\' then Some(('\\', s[1..]))
    else if s[0] == '/' then Some(('/', s[1..]))
    else if s[0] == 'b' then Some((8 as char, s[1..]))
    else if s[0] == 'f' then Some((12 as char, s[1..]))
    else if s[0] == 'n' then Some(('\n', s[1..]))
    else if s[0] == 'r' then Some(('\r', s[1..]))
    else if s[0] == 't' then Some(('\t', s[1..]))
    else if s[0] == 'u' then ReadUnicode(s[1..])
    else None
  }

  /** The characters up to the closing quote, and what follows it. */
  function ReadChars(s: string): (r: Option<(string, string)>)
    ensures r.Some? ==> |r.value.1| < |s|
    decreases |s|
  {
    if s == [] || (s[0] as int) < 32 then None
    else if s[0] == '"' then Some(([], s[1..]))
    else
      match if s[0] == '\\' then ReadEscape(s[1..]) else Some((s[0], s[1..]))
      case None => None
      case Some((c, rest)) =>
        match ReadChars(rest)
        case None => None
        case Some((t, after)) => Some(([c] + t, after))
  }

  function ReadString(s: string): (r: Option<(string, string)>)
    ensures r.Some? ==> |r.value.1| < |s|
  {
    if s != [] && s[0] == '"' then ReadChars(s[1..]) else None
  }

  // ---------------------------------------------------------------- values (sections 3 to 6)

  function NumberSpan(s: string): (n: nat)
    ensures n <= |s|
  {
    if s != [] && IsNumberChar(s[0]) then 1 + NumberSpan(s[1..]) else 0
  }

  function ReadNumber(s: string): (r: Option<(Json, string)>)
    ensures r.Some? ==> |r.value.1| < |s|
  {
    var n := NumberSpan(s);
    if n == 0 then None
    else match ParseNumber(s[..n])
      case None => None
      case Some(d) => Some((Num(d), s[n..]))
  }

  predicate Begins(s: string, word: string) {
    |s| >= |word| && s[..|word|] == word
  }

  lemma BeginsFirst(s: string, word: string)
    requires word != []
    ensures Begins(s, word) ==> s != [] && s[0] == word[0]
  {
    if Begins(s, word) { assert s[0] == s[..|word|][0]; }
  }

  function ReadValue(s: string): (r: Option<(Json, string)>)
    ensures r.Some? ==> |r.value.1| < |s|
    decreases |s|, 1
  {
    if s == [] then None
    else if Begins(s, "null") then Some((Null, s[4..]))
    else if Begins(s, "true") then Some((Bool(true), s[4..]))
    else if Begins(s, "false") then Some((Bool(false), s[5..]))
    else if s[0] == '"' then
      match ReadString(s)
      case None => None
      case Some((t, rest)) => Some((Str(t), rest))
    else if Begins(s, "[]") then Some((Arr([]), s[2..]))
    else if s[0] == '[' then ReadItems(s[1..], [])
    else if Begins(s, "{}") then Some((Obj(map[]), s[2..]))
    else if s[0] == '{' then ReadFields(s[1..], map[])
    else ReadNumber(s)
  }

  /** The elements of an array after the first ones, and its closing bracket. */
  function ReadItems(s: string, done: seq<Json>): (r: Option<(Json, string)>)
    ensures r.Some? ==> |r.value.1| < |s|
    decreases |s|, 2
  {
    match ReadValue(s)
    case None => None
    case Some((v, rest)) =>
      if rest == [] then None
      else if rest[0] == ',' then ReadItems(rest[1..], done + [v])
      else if rest[0] == ']' then Some((Arr(done + [v]), rest[1..]))
      else None
  }

  /** The members of an object after the first ones, and its closing brace. */
  function ReadFields(s: string, done: map<string, Json>): (r: Option<(Json, string)>)
    ensures r.Some? ==> |r.value.1| < |s|
    decreases |s|, 2
  {
    match ReadString(s)
    case None => None
    case Some((k, tail)) =>
      if tail == [] || tail[0] != ':' then None
      else
        match ReadValue(tail[1..])
        case None => None
        case Some((v, rest)) =>
          if rest == [] then None
          else if rest[0] == ',' then ReadFields(rest[1..], done[k := v])
          else if rest[0] == '}' then Some((Obj(done[k := v]), rest[1..]))
          else None
  }

  // ---------------------------------------------------------------- canonical texts are read back

  lemma HexReads(n: nat)
    requires n < 16
    ensures HexValue(HexDigit(n)) == Some(n)
  {}

  lemma EscapeReads(c: char, x: string)
    ensures var e := EscapeChar(c);
            && e != [] && e[0] as int >= 32 && e[0] != '"'
            && (if e[0] == '\\' then ReadEscape((e + x)[1..]) else Some((e[0], (e + x)[1..]))) == Some((c, x))
  {
    var e := EscapeChar(c);
    var n := c as int;
    if e[0] == '\\' && |e| == 2 {
      assert (e + x)[1..][1..] == x;
    } else if e[0] == '\\' {
      HexReads(n / 16); HexReads(n % 16); HexReads(0);
      var t := (e + x)[1..][1..];
      assert t[0] == '0' && t[1] == '0' && t[2] == HexDigit(n / 16) && t[3] == HexDigit(n % 16);
      assert t[4..] == x;
    } else {
      assert (e + x)[1..] == x;
    }
  }

  lemma {:induction false} CharsRead(s: string, x: string)
    ensures ReadChars(Escape(s) + (['"'] + x)) == Some((s, x))
  {
    hide EscapeChar, ReadEscape;
    var t := Escape(s) + (['"'] + x);
    if s == [] {
      assert t == ['"'] + x && t[1..] == x;
    } else {
      var next := Escape(s[1..]) + (['"'] + x);
      assert t == EscapeChar(s[0]) + next;
      EscapeReads(s[0], next);
      CharsRead(s[1..], x);
      assert s == [s[0]] + s[1..];
    }
  }

  lemma QuoteReads(s: string, x: string)
    ensures ReadString(Quote(s) + x) == Some((s, x))
    ensures (Quote(s) + x)[0] == '"'
  {
    hide ReadChars, Escape;
    var t := Quote(s) + x;
    assert t[1..] == Escape(s) + (['"'] + x);
    CharsRead(s, x);
  }

  lemma {:induction false} SpanOf(a: string, x: string)
    requires NumberChars(a) && Follows(x)
    ensures NumberSpan(a + x) == |a|
  {
    if a == [] {
      assert a + x == x;
    } else {
      assert (a + x)[1..] == a[1..] + x;
      SpanOf(a[1..], x);
    }
  }

  lemma NumberReads(n: Number, x: string)
    requires Follows(x)
    ensures ReadValue(NumberText(n) + x) == Some((Num(n), x))
  {
    NumberTextChars(n);
    ParseNumberText(n);
    var a := NumberText(n);
    var s := a + x;
    SpanOf(a, x);
    assert s[..|a|] == a && s[|a|..] == x;
    assert s[0] == a[0];
    hide NumberText, ParseNumber, NumberSpan;
    assert ReadNumber(s) == Some((Num(n), x));
    NoWord(s);
  }

  /** A number is none of the other values. */
  lemma NoWord(s: string)
    requires s != [] && (IsDigit(s[0]) || s[0] == '-')
    ensures ReadValue(s) == ReadNumber(s)
  {
    hide ReadNumber, ReadString, ReadItems, ReadFields;
    BeginsFirst(s, "null");
    BeginsFirst(s, "true");
    BeginsFirst(s, "false");
    BeginsFirst(s, "[]");
    BeginsFirst(s, "{}");
  }

  lemma WordReads(v: Json, x: string)
    requires v.Null? || v.Bool?
    ensures ReadValue(CanonicalJson.Canonical(v) + x) == Some((v, x))
  {
    var w := CanonicalJson.Canonical(v);
    var s := w + x;
    hide ReadNumber, ReadString, ReadItems, ReadFields;
    assert s[..|w|] == w && s[|w|..] == x && s[0] == w[0];
    BeginsFirst(s, "null");
    BeginsFirst(s, "true");
  }

  /** A text that begins with a quote, bracket or brace. */
  lemma Opens(s: string)
    requires s != [] && (s[0] == '"' || s[0] == '[' || s[0] == '{')
    ensures s[0] == '"' ==> ReadValue(s) == match ReadString(s) case None => None case Some((t, rest)) => Some((Str(t), rest))
    ensures s[0] == '[' && |s| > 1 && s[1] != ']' ==> ReadValue(s) == ReadItems(s[1..], [])
    ensures s[0] == '[' && |s| > 1 && s[1] == ']' ==> ReadValue(s) == Some((Arr([]), s[2..]))
    ensures s[0] == '{' && |s| > 1 && s[1] != '}' ==> ReadValue(s) == ReadFields(s[1..], map[])
    ensures s[0] == '{' && |s| > 1 && s[1] == '}' ==> ReadValue(s) == Some((Obj(map[]), s[2..]))
  {
    hide ReadNumber, ReadString, ReadItems, ReadFields;
    BeginsFirst(s, "null");
    BeginsFirst(s, "true");
    BeginsFirst(s, "false");
    if |s| > 1 {
      assert s[..2] == [s[0], s[1]];
      assert Begins(s, "[]") <==> s[0] == '[' && s[1] == ']';
      assert Begins(s, "{}") <==> s[0] == '{' && s[1] == '}';
    }
  }

  lemma Wrapped(open: char, body: string, close: char, x: string)
    ensures var s := [open] + body + [close] + x; s[0] == open && s[1..] == body + ([close] + x)
  {
    assert [open] + body + [close] + x == [open] + (body + ([close] + x));
  }

  lemma {:induction false} ValueReads(v: Json, x: string)
    requires Follows(x)
    ensures ReadValue(CanonicalJson.Canonical(v) + x) == Some((v, x))
    decreases v, 2
  {
    match v
    case Null => WordReads(v, x);
    case Bool(_) => WordReads(v, x);
    case Num(n) => NumberReads(n, x);
    case Str(t) =>
      hide ReadValue, ReadString, Quote;
      QuoteReads(t, x);
      Opens(Quote(t) + x);
    case Arr(_) => ArrayReads(v, x);
    case Obj(_) => ObjectReads(v, x);
  }

  lemma {:induction false} ArrayReads(v: Json, x: string)
    requires v.Arr? && Follows(x)
    ensures ReadValue(CanonicalJson.Canonical(v) + x) == Some((v, x))
    decreases v, 1
  {
    var items := v.items;
    var s := CanonicalJson.Canonical(v) + x;
    Wrapped('[', ItemsText(items), ']', x);
    ItemsSplit(items, [']'] + x);
    hide ReadValue, ReadItems, ItemsText, Begins;
    Opens(s);
    if items == [] {
      assert s[2..] == x;
    } else {
      ItemsRead(items, [], x);
      assert [] + items == items;
    }
  }

  lemma {:induction false} ObjectReads(v: Json, x: string)
    requires v.Obj? && Follows(x)
    ensures ReadValue(CanonicalJson.Canonical(v) + x) == Some((v, x))
    decreases v, 1
  {
    var ks := SortedKeys(v.fields.Keys);
    var s := CanonicalJson.Canonical(v) + x;
    ObjectText(v, ks);
    AllFields(v, ks);
    hide *;
    Wrapped('{', FieldsText(ks, v), '}', x);
    FieldsSplit(ks, v, ['}'] + x);
    Opens(s);
    if ks == [] {
      assert s[2..] == x;
    } else {
      FieldsRead(ks, v, map[], x);
    }
  }

  lemma ObjectText(v: Json, ks: seq<string>)
    requires v.Obj? && ks == SortedKeys(v.fields.Keys)
    ensures CanonicalJson.Canonical(v) == ['{'] + FieldsText(ks, v) + ['}']
  {
    hide SortedKeys, FieldsText;
  }

  lemma AllFields(v: Json, ks: seq<string>)
    requires v.Obj? && ks == SortedKeys(v.fields.Keys)
    ensures forall k | k in ks :: k in v.fields
    ensures With(map[], ks, v) == v.fields
    ensures ks == [] ==> v == Obj(map[])
  {
    assert forall k :: k in ks <==> k in v.fields;
    hide SortedKeys;
    if ks == [] { assert v.fields == map[]; }
  }

  lemma {:induction false} ItemsRead(items: seq<Json>, done: seq<Json>, x: string)
    requires items != []
    ensures ReadItems(ItemsText(items) + ([']'] + x), done) == Some((Arr(done + items), x))
    decreases items, 3
  {
    hide ReadValue, CanonicalJson.Canonical, ItemsText, ItemsTail;
    var close := [']'] + x;
    var s := ItemsText(items) + close;
    ItemsSplit(items, close);
    ItemsTailSplit(items, close);
    ValueReads(items[0], ItemsTail(items, close));
    if |items| == 1 {
      assert close[1..] == x && items == [items[0]];
    } else {
      ItemsRead(items[1..], done + [items[0]], x);
      TakeOne(done, items);
    }
  }

  /** A map with these members of an object put in. */
  function With(done: map<string, Json>, ks: seq<string>, v: Json): map<string, Json>
    requires v.Obj? && forall k | k in ks :: k in v.fields
  {
    done + (map k | k in ks :: v.fields[k])
  }

  lemma WithNext(done: map<string, Json>, ks: seq<string>, v: Json)
    requires v.Obj? && ks != [] && forall k | k in ks :: k in v.fields
    ensures With(done[ks[0] := v.fields[ks[0]]], ks[1..], v) == With(done, ks, v)
  {
    assert ks == [ks[0]] + ks[1..];
  }

  lemma FieldsTailSplit(ks: seq<string>, v: Json, x: string)
    requires ks != [] && v.Obj? && forall k | k in ks :: k in v.fields
    ensures |ks| == 1 ==> FieldsTail(ks, v, x) == x
    ensures |ks| > 1 ==> FieldsTail(ks, v, x) != [] && FieldsTail(ks, v, x)[0] == ','
    ensures |ks| > 1 ==> FieldsTail(ks, v, x)[1..] == FieldsText(ks[1..], v) + x
  {}

  lemma {:induction false} FieldsRead(ks: seq<string>, v: Json, done: map<string, Json>, x: string)
    requires ks != [] && v.Obj? && forall k | k in ks :: k in v.fields
    ensures ReadFields(FieldsText(ks, v) + (['}'] + x), done) == Some((Obj(With(done, ks, v)), x))
    decreases v, 0, |ks|
  {
    hide ReadValue, ReadString, CanonicalJson.Canonical, FieldText, FieldsText, FieldsTail, Quote;
    var close := ['}'] + x;
    var tail := FieldsTail(ks, v, close);
    var w := v.fields[ks[0]];
    FieldsSplit(ks, v, close);
    FieldsTailSplit(ks, v, close);
    FieldSplit(ks[0], v, tail);
    QuoteReads(ks[0], [':'] + (CanonicalJson.Canonical(w) + tail));
    assert ([':'] + (CanonicalJson.Canonical(w) + tail))[1..] == CanonicalJson.Canonical(w) + tail;
    ValueReads(w, tail);
    WithNext(done, ks, v);
    if |ks| == 1 {
      assert close[1..] == x;
      assert With(done[ks[0] := w], ks[1..], v) == done[ks[0] := w];
    } else {
      FieldsRead(ks[1..], v, done[ks[0] := w], x);
    }
  }

  /** The canonical text of a value is JSON text, and is read as that value. */
  lemma CanonicalIsJson(v: Json)
    ensures ReadValue(CanonicalJson.Canonical(v)) == Some((v, ""))
  {
    ValueReads(v, "");
    assert CanonicalJson.Canonical(v) + "" == CanonicalJson.Canonical(v);
  }
}
