/** The whole CHECK parsers, from text, and their round trip with the printer. */
module CheckText {
  import opened Text
  import opened Numbers
  import opened CanonicalJson
  import opened Expressions
  import opened CheckLexer
  import opened CheckParser
  import opened CheckPrinter

  // ---------------------------------------------------------------- the entry points

  function TrimLeft(s: string): (r: string)
    ensures |r| <= |s|
  {
    if s != [] && IsSpace(s[0]) then TrimLeft(s[1..]) else s
  }

  function TrimRight(s: string): (r: string)
    ensures |r| <= |s|
  {
    if s != [] && IsSpace(s[|s| - 1]) then TrimRight(s[..|s| - 1]) else s
  }

  function Trim(s: string): (r: string)
    ensures |r| <= |s|
  {
    TrimRight(TrimLeft(s))
  }

  /** Parentheses close in order; every character counts, inside quotes too. */
  predicate BalancedFrom(s: string, depth: nat) {
    if s == [] then depth == 0
    else if s[0] == '(' then BalancedFrom(s[1..], depth + 1)
    else if s[0] == ')' then depth > 0 && BalancedFrom(s[1..], depth - 1)
    else BalancedFrom(s[1..], depth)
  }

  /** The guard under which parseSqliteCheck drops an outer pair of parentheses. */
  predicate Wrapped(s: string) {
    |s| >= 2 && s[0] == '(' && s[|s| - 1] == ')' && BalancedFrom(s[1..|s| - 1], 0)
  }

  function Strip(s: string): string
    decreases |s|
  {
    if Wrapped(s) then Strip(Trim(s[1..|s| - 1])) else s
  }

  function ParseTokens(d: Dialect, table: string, r: Option<seq<Tok>>): Option<Expr> {
    match r
    case None => None
    case Some(ts) => Whole(POr(d, table, ts))
  }

  function ParseText(d: Dialect, raw: string, table: string): Option<Expr> {
    ParseTokens(d, table, Lex(d, if d.Sqlite? then Strip(Trim(raw)) else raw))
  }

  method Balanced(s: string) returns (yes: bool)
    ensures yes <==> BalancedFrom(s, 0)
  {
    var depth, i := 0, 0;
    while i < |s|
      invariant 0 <= i <= |s| && depth >= 0
      invariant BalancedFrom(s, 0) <==> BalancedFrom(s[i..], depth)
    {
      assert s[i..][1..] == s[i + 1..];
      if s[i] == '(' {
        depth := depth + 1;
      } else if s[i] == ')' {
        depth := depth - 1;
        if depth < 0 {
          return false;
        }
      }
      i := i + 1;
    }
    return depth == 0;
  }

  /** parseSqliteCheck and parsePgCheck: an expression or a refusal for every text. */
  method ParseCheck(d: Dialect, raw: string, table: string) returns (r: Option<Expr>)
    ensures r == ParseText(d, raw, table)
  {
    var s := raw;
    if d.Sqlite? {
      s := Trim(raw);
      while true
        invariant Strip(Trim(raw)) == Strip(s)
        decreases |s|
      {
        if |s| < 2 || s[0] != '(' || s[|s| - 1] != ')' {
          break;
        }
        var balanced := Balanced(s[1..|s| - 1]);
        if !balanced {
          break;
        }
        s := Trim(s[1..|s| - 1]);
      }
    }
    var ts := Tokenize(d, s);
    if ts.None? {
      return None;
    }
    var p := new Parser(d, table, ts.value);
    r := p.Parse();
  }

  // ---------------------------------------------------------------- token text

  function Doubled(s: string): string {
    if s == [] then [] else (if s[0] == '\'' then ['\'', '\''] else [s[0]]) + Doubled(s[1..])
  }

  function OpenQuote(d: Dialect, name: string): char {
    if '"' !in name then '"' else if '`' !in name then '`' else '['
  }

  function CloseQuote(open: char): char {
    if open == '[' then ']' else open
  }

  function TokText(d: Dialect, t: Tok): string {
    match t
    case Ident(v) => [OpenQuote(d, v)] + v + [CloseQuote(OpenQuote(d, v))]
    case NumberTok(v) => v
    case StringTok(v) => ['\''] + Doubled(v) + ['\'']
    case OpTok(v) => v
    case Kw(v) => v
    case LParen => ['(']
    case RParen => [')']
    case LBracket => ['[']
    case RBracket => [']']
    case Comma => [',']
    case Dot => ['.']
    case Cast => [':', ':']
  }

  /** Tokens with one space between them. */
  function TextOf(d: Dialect, ts: seq<Tok>): string {
    if ts == [] then []
    else if |ts| == 1 then TokText(d, ts[0])
    else TokText(d, ts[0]) + ([' '] + TextOf(d, ts[1..]))
  }

  predicate NumberToken(v: string) {
    v != [] && IsDigit(v[0]) && forall i | 0 <= i < |v| :: IsDigitOrPoint(v[i])
  }

  predicate Lexable(d: Dialect, t: Tok) {
    match t
    case Ident(v) => PortableName(d, v)
    case NumberTok(v) => NumberToken(v)
    case OpTok(v) => Symbol(d, v).Some?
    case Kw(v) => v in Keywords(d)
    case LBracket => d.Postgres?
    case RBracket => d.Postgres?
    case Cast => d.Postgres?
    case _ => true
  }

  predicate AllLexable(d: Dialect, ts: seq<Tok>) {
    forall t | t in ts :: Lexable(d, t)
  }

  /** Between two tokens there is a space, or the text is over. */
  predicate Gap(rest: string) {
    rest == [] || rest[0] == ' '
  }

  lemma {:induction false} QuotedReads(v: string, close: char, rest: string)
    requires close !in v
    ensures ReadQuoted(v + [close] + rest, close, false) == Some((v, rest))
  {
    var s := v + [close] + rest;
    if v == [] {
      assert s[1..] == rest;
    } else {
      assert s[1..] == v[1..] + [close] + rest;
      QuotedReads(v[1..], close, rest);
      assert v == [v[0]] + v[1..];
    }
  }

  lemma {:induction false} DoubledReads(v: string, rest: string)
    requires rest == [] || rest[0] != '\''
    ensures ReadQuoted(Doubled(v) + ['\''] + rest, '\'', true) == Some((v, rest))
  {
    var s := Doubled(v) + ['\''] + rest;
    if v == [] {
      assert s == ['\''] + rest && s[1..] == rest;
    } else {
      var tail := Doubled(v[1..]) + ['\''] + rest;
      DoubledReads(v[1..], rest);
      if v[0] == '\'' {
        assert s == ['\'', '\''] + tail && s[2..] == tail;
      } else {
        assert s == [v[0]] + tail && s[1..] == tail;
      }
      assert v == [v[0]] + v[1..];
    }
  }

  lemma {:induction false} SpanReads(p: char -> bool, v: string, rest: string)
    requires forall i | 0 <= i < |v| :: p(v[i])
    requires rest == [] || !p(rest[0])
    ensures Span(p, v + rest) == |v|
  {
    if v == [] {
      assert v + rest == rest;
    } else {
      assert (v + rest)[1..] == v[1..] + rest;
      SpanReads(p, v[1..], rest);
    }
  }

  lemma PgIdentReads(v: string, rest: string)
    requires '"' !in v
    ensures PgIdent(v + ['"'] + rest) == Token(Ident(v), rest)
  {
    var s := v + (['"'] + rest);
    SpanReads(NotDoubleQuote, v, ['"'] + rest);
    assert s == v + ['"'] + rest;
    assert s[..|v|] == v && s[|v| + 1..] == rest;
  }

  lemma QuoteOpens(d: Dialect, v: string)
    requires PortableName(d, v)
    ensures var c := OpenQuote(d, v);
            && !IsSpace(c) && c != '\'' && CloseQuote(c) !in v
            && (d.Sqlite? ==> CloseOf(d, c) == Some(CloseQuote(c)))
            && (d.Postgres? ==> CloseOf(d, c) == None && c == CloseQuote(c) == '"')
  {}

  lemma IdentLexes(d: Dialect, v: string, rest: string)
    requires PortableName(d, v)
    ensures LexOne(d, TokText(d, Ident(v)) + rest) == Token(Ident(v), rest)
  {
    var open := OpenQuote(d, v);
    var close := CloseQuote(open);
    var s := TokText(d, Ident(v)) + rest;
    assert s[0] == open && s[1..] == v + [close] + rest;
    QuoteOpens(d, v);
    hide OpenQuote, CloseQuote, IsSpace, CloseOf, TokText, PortableName, ReadQuoted, PgIdent, NumberStep, WordStep, PunctuationStep;
    if d.Sqlite? {
      QuotedReads(v, close, rest);
    } else {
      PgIdentReads(v, rest);
    }
  }

  lemma StringLexes(d: Dialect, v: string, rest: string)
    requires rest == [] || rest[0] != '\''
    ensures LexOne(d, TokText(d, StringTok(v)) + rest) == Token(StringTok(v), rest)
  {
    var s := TokText(d, StringTok(v)) + rest;
    assert s[1..] == Doubled(v) + ['\''] + rest;
    DoubledReads(v, rest);
  }

  lemma NumberLexes(d: Dialect, v: string, rest: string)
    requires NumberToken(v) && Gap(rest)
    ensures LexOne(d, v + rest) == Token(NumberTok(v), rest)
  {
    var s := v + rest;
    assert s[1..] == v[1..] + rest;
    SpanReads(IsDigitOrPoint, v[1..], rest);
    assert s[..|v|] == v && s[|v|..] == rest;
  }

  predicate LowerWord(w: string) {
    w != [] && forall i | 0 <= i < |w| :: 'a' <= w[i] <= 'z'
  }

  lemma KeywordsAreWords(d: Dialect, w: string)
    requires w in Keywords(d)
    ensures LowerWord(w)
  {}

  lemma KeywordLexes(d: Dialect, w: string, rest: string)
    requires w in Keywords(d) && Gap(rest)
    ensures LexOne(d, w + rest) == Token(Kw(w), rest)
  {
    KeywordsAreWords(d, w);
    WordLexes(d, w, rest);
    assert Lower(w) == w;
  }

  lemma WordLexes(d: Dialect, w: string, rest: string)
    requires LowerWord(w) && (rest == [] || !IsWordChar(rest[0]))
    ensures LexOne(d, w + rest) == Token(WordTok(d, w), rest)
  {
    var s := w + rest;
    assert s[1..] == w[1..] + rest;
    SpanReads(IsWordChar, w[1..], rest);
    assert s[..|w|] == w && s[|w|..] == rest;
  }

  lemma OperatorLexes(d: Dialect, v: string, rest: string)
    requires Symbol(d, v).Some? && Gap(rest)
    ensures LexOne(d, v + rest) == Token(OpTok(v), rest)
  {
    if |v| == 1 {
      OneCharOperator(d, v, rest);
    } else if |v| == 2 {
      TwoCharOperator(d, v, rest);
    } else {
      var s := v + rest;
      assert s[3..] == rest && s[..3] == v && s[..2] == ['~', '~'];
      hide Symbol, ReadQuoted, PgIdent, NumberStep, WordStep;
    }
  }

  lemma OneCharOperator(d: Dialect, v: string, rest: string)
    requires Symbol(d, v).Some? && Gap(rest) && |v| == 1
    ensures LexOne(d, v + rest) == Token(OpTok(v), rest)
  {
    var s := v + rest;
    assert v == "=" || v == "<" || v == ">";
    assert s[1..] == rest && s[0] == v[0] && (|s| > 1 ==> s[..2][1] == ' ');
    assert |s| > 1 ==> !IsOp2(d, s[..2]);
    hide Symbol, ReadQuoted, PgIdent, NumberStep, WordStep, IsOp2;
  }

  lemma TwoCharOperator(d: Dialect, v: string, rest: string)
    requires Symbol(d, v).Some? && Gap(rest) && |v| == 2
    ensures LexOne(d, v + rest) == Token(OpTok(v), rest)
  {
    var s := v + rest;
    assert s[2..] == rest && s[..2] == v && (|s| > 2 ==> s[..3][2] == ' ');
    hide Symbol, ReadQuoted, PgIdent, NumberStep, WordStep;
  }

  lemma PunctuationLexes(d: Dialect, t: Tok, rest: string)
    requires Lexable(d, t) && !t.Ident? && !t.NumberTok? && !t.StringTok? && !t.OpTok? && !t.Kw?
    ensures LexOne(d, TokText(d, t) + rest) == Token(t, rest)
  {
    var s := TokText(d, t) + rest;
    assert s[|TokText(d, t)|..] == rest;
    if t.Cast? { assert s[..2] == [':', ':']; }
  }

  lemma TokenLexes(d: Dialect, t: Tok, rest: string)
    requires Lexable(d, t) && Gap(rest)
    ensures TokText(d, t) != []
    ensures LexOne(d, TokText(d, t) + rest) == Token(t, rest)
  {
    match t
    case Ident(v) => IdentLexes(d, v, rest);
    case StringTok(v) => StringLexes(d, v, rest);
    case NumberTok(v) => NumberLexes(d, v, rest);
    case Kw(v) => KeywordsAreWords(d, v); KeywordLexes(d, v, rest);
    case OpTok(v) => OperatorLexes(d, v, rest);
    case _ => PunctuationLexes(d, t, rest);
  }

  lemma TokenThenRest(d: Dialect, t: Tok, rest: string)
    requires Lexable(d, t) && Gap(rest)
    ensures Lex(d, TokText(d, t) + rest) == Prepend([t], Lex(d, rest))
  {
    TokenLexes(d, t, rest);
  }

  lemma SpaceThenRest(d: Dialect, rest: string)
    ensures Lex(d, [' '] + rest) == Lex(d, rest)
  {
    assert ([' '] + rest)[1..] == rest;
  }

  /** The text of a token list is tokenised back into the list. */
  lemma {:induction false} TextLexes(d: Dialect, ts: seq<Tok>)
    requires AllLexable(d, ts)
    ensures Lex(d, TextOf(d, ts)) == Some(ts)
  {
    if ts != [] {
      assert ts[0] in ts;
      if |ts| == 1 {
        TokenThenRest(d, ts[0], []);
        assert TokText(d, ts[0]) + [] == TokText(d, ts[0]);
        assert ts == [ts[0]] + [];
      } else {
        TextLexes(d, ts[1..]);
        SpaceThenRest(d, TextOf(d, ts[1..]));
        TokenThenRest(d, ts[0], [' '] + TextOf(d, ts[1..]));
        assert ts == [ts[0]] + ts[1..];
      }
    }
  }

  // ---------------------------------------------------------------- numbers that are not tokens

  /** Digits with an exponent, whose sign is always written. */
  predicate ScaledText(v: string) {
    exists j | 0 < j < |v| - 1 :: NumberToken(v[..j]) && v[j] == 'e' && (v[j + 1] == '+' || v[j + 1] == '-')
  }

  /** The text of a number with a sign or an exponent. */
  predicate Unreadable(t: Tok) {
    t.NumberTok? && NumberChars(t.v) && ((t.v != [] && t.v[0] == '-') || ScaledText(t.v))
  }

  predicate AllPrinted(d: Dialect, ts: seq<Tok>) {
    forall t | t in ts :: Lexable(d, t) || Unreadable(t)
  }

  lemma SignStops(d: Dialect, rest: string, sign: char)
    requires sign == '-' || sign == '+'
    ensures Lex(d, [sign] + rest) == None
  {
    var s := [sign] + rest;
    assert |s| > 1 ==> s[..2][0] == sign;
    assert LexOne(d, s) == Stop;
  }

  /** The digits in front of an exponent: SQLite's tokeniser refuses at once, PostgreSQL's takes them for a number. */
  lemma DigitsThenExponent(d: Dialect, m: string, after: string)
    requires NumberToken(m) && after != [] && after[0] == 'e'
    ensures LexOne(d, m + after) == if d.Sqlite? then Stop else Token(NumberTok(m), after)
  {
    var s := m + after;
    assert s[1..] == m[1..] + after && s[0] == m[0];
    SpanReads(IsDigitOrPoint, m[1..], after);
    assert s[|m|] == 'e' && s[..|m|] == m && s[|m|..] == after;
    hide ReadQuoted, PgIdent, WordStep, PunctuationStep, Span;
  }

  lemma ExponentStops(d: Dialect, v: string, j: nat, rest: string)
    requires 0 < j < |v| - 1 && NumberToken(v[..j]) && v[j] == 'e' && (v[j + 1] == '+' || v[j + 1] == '-')
    ensures Lex(d, v + rest) == None
  {
    hide LexOne, NumberToken;
    var after, tail := v[j..] + rest, v[j + 2..] + rest;
    assert v + rest == v[..j] + after;
    assert after == ['e'] + ([v[j + 1]] + tail);
    DigitsThenExponent(d, v[..j], after);
    if d.Postgres? {
      ExponentWordStops(v[j + 1], tail);
      hide Lex;
      LexThen(d, v[..j] + after, after);
    }
  }

  lemma ExponentWordStops(sign: char, rest: string)
    requires sign == '-' || sign == '+'
    ensures Lex(Postgres, ['e'] + ([sign] + rest)) == None
  {
    SignStops(Postgres, rest, sign);
    hide Lex;
    var after := [sign] + rest;
    var s := ['e'] + after;
    assert s[1..] == after;
    assert Span(IsWordChar, after) == 0;
    assert LexOne(Postgres, s) == WordStep(Postgres, s);
    assert WordStep(Postgres, s).rest == after;
    LexThen(Postgres, s, after);
  }

  lemma LexThen(d: Dialect, s: string, rest: string)
    requires s != [] && LexOne(d, s).Token? && LexOne(d, s).rest == rest && Lex(d, rest) == None
    ensures Lex(d, s) == None
  {
    hide LexOne;
  }

  /** Neither tokeniser gets past such a number. */
  lemma UnreadableStops(d: Dialect, t: Tok, rest: string)
    requires Unreadable(t)
    ensures Lex(d, TokText(d, t) + rest) == None
    ensures !Lexable(d, t)
  {
    hide Lex;
    if t.v[0] == '-' {
      assert t.v + rest == ['-'] + (t.v[1..] + rest);
      SignStops(d, t.v[1..] + rest, '-');
    } else {
      var j :| 0 < j < |t.v| - 1 && NumberToken(t.v[..j]) && t.v[j] == 'e' && (t.v[j + 1] == '+' || t.v[j + 1] == '-');
      ExponentStops(d, t.v, j, rest);
      assert !IsDigitOrPoint(t.v[j]);
    }
  }

  /** A text with such a number in it is not tokenised. */
  lemma {:induction false} UnreadableRefused(d: Dialect, ts: seq<Tok>)
    requires AllPrinted(d, ts) && !AllLexable(d, ts)
    ensures Lex(d, TextOf(d, ts)) == None
  {
    hide Lex, Lexable, Unreadable, TokText;
    assert ts[0] in ts;
    assert TextOf(d, ts) == TokText(d, ts[0]) + (if |ts| == 1 then [] else [' '] + TextOf(d, ts[1..])) by {
      assert TokText(d, ts[0]) + [] == TokText(d, ts[0]);
    }
    if Unreadable(ts[0]) {
      UnreadableStops(d, ts[0], if |ts| == 1 then [] else [' '] + TextOf(d, ts[1..]));
    } else {
      assert ts == [ts[0]] + ts[1..];
      UnreadableRefused(d, ts[1..]);
      SpaceThenRest(d, TextOf(d, ts[1..]));
      TokenThenRest(d, ts[0], [' '] + TextOf(d, ts[1..]));
    }
  }

  // ---------------------------------------------------------------- printed tokens are lexable

  lemma PlainNumberLexable(n: Number)
    requires PlainNumber(n)
    ensures NumberToken(NumberText(n))
  {
    UnsignedTextStartsWithDigit(n);
  }

  lemma PlainNumberIff(d: Dialect, n: Number)
    ensures PlainNumber(n) <==> Lexable(d, NumberTok(NumberText(n)))
    ensures !PlainNumber(n) ==> Unreadable(NumberTok(NumberText(n)))
  {
    NumberTextChars(n);
    if PlainNumber(n) {
      PlainNumberLexable(n);
    } else {
      if n.coefficient >= 0 { ExponentIsWritten(n); }
      UnreadableStops(d, NumberTok(NumberText(n)), []);
    }
  }

  lemma NoExponent(n: Number)
    requires n.coefficient >= 0 && (-6 < PointPosition(n) <= 21 || n.coefficient == 0)
    ensures 'e' !in UnsignedText(n)
  {
    var ds, p := Digits(n.coefficient), PointPosition(n);
    assert 'e' !in ds && (forall k: nat :: 'e' !in Zeros(k));
    assert 0 < p < |ds| ==> 'e' !in ds[..p] && 'e' !in ds[p..];
    hide Digits, Zeros, PointPosition;
  }

  lemma ExponentIsWritten(n: Number)
    requires n.coefficient >= 0 && 'e' in NumberText(n)
    ensures ScaledText(NumberText(n))
  {
    var ds, p, v := Digits(n.coefficient), PointPosition(n), NumberText(n);
    if -6 < p <= 21 || n.coefficient == 0 { NoExponent(n); }
    var mantissa := if |ds| == 1 then ds else ds[..1] + "." + ds[1..];
    assert v == mantissa + ExponentText(p - 1);
    hide Digits, NumberText, UnsignedText;
    var j := |mantissa|;
    assert NumberToken(mantissa) && v[..j] == mantissa;
    assert Digits(Abs(p - 1)) != [];
    assert v[j] == ExponentText(p - 1)[0] && v[j + 1] == ExponentText(p - 1)[1];
  }

  lemma ConcatPrinted(d: Dialect, s: seq<Tok>, t: seq<Tok>)
    ensures AllLexable(d, s + t) <==> AllLexable(d, s) && AllLexable(d, t)
    ensures AllPrinted(d, s + t) <==> AllPrinted(d, s) && AllPrinted(d, t)
  {
    hide Lexable, Unreadable;
    assert forall x :: x in s + t <==> x in s || x in t;
  }

  lemma LiteralPrinted(d: Dialect, v: Json)
    requires PortableLiteral(v)
    ensures AllPrinted(d, LiteralToks(d, v)) && (AllLexable(d, LiteralToks(d, v)) <==> PlainLiteral(v))
  {
    if v.Num? {
      PlainNumberIff(d, v.n);
      assert NumberTok(NumberText(v.n)) in LiteralToks(d, v);
      hide Unreadable, PlainNumber, NumberText;
    }
    if v.Str? { assert PortableName(d, "text"); }
  }

  lemma OperandPrinted(d: Dialect, table: string, e: Expr)
    requires PortableOperand(d, e)
    ensures AllPrinted(d, OperandToks(d, table, e)) && (AllLexable(d, OperandToks(d, table, e)) <==> PlainNumbers(e))
  {
    if e.Literal? { LiteralPrinted(d, e.value); }
  }

  predicate PlainItems(items: seq<Json>) {
    forall i | i in items :: i.Num? ==> PlainNumber(i.n)
  }

  lemma {:induction false} ItemsPrinted(d: Dialect, items: seq<Json>)
    requires forall v | v in items :: PortableLiteral(v)
    ensures AllPrinted(d, MoreItems(d, items)) && (AllLexable(d, MoreItems(d, items)) <==> PlainItems(items))
  {
    if items != [] {
      assert items[0] in items && items == [items[0]] + items[1..];
      LiteralPrinted(d, items[0]);
      ItemsPrinted(d, items[1..]);
      assert AllPrinted(d, [Comma]) && AllLexable(d, [Comma]);
      hide AllPrinted, AllLexable, LiteralToks, PlainNumber;
      ConcatPrinted(d, [Comma] + LiteralToks(d, items[0]), MoreItems(d, items[1..]));
      ConcatPrinted(d, [Comma], LiteralToks(d, items[0]));
    }
  }

  lemma ComparePrinted(d: Dialect, table: string, e: Expr)
    requires e.Compare? && PortableCompare(d, e)
    ensures AllPrinted(d, CompareToks(d, table, e)) && (AllLexable(d, CompareToks(d, table, e)) <==> PlainNumbers(e))
  {
    OperandPrinted(d, table, e.left);
    RightPrinted(d, table, e);
    OpLexable(d, e);
    hide AllPrinted, AllLexable, OperandToks, OpToks, RightToks;
    ConcatPrinted(d, OperandToks(d, table, e.left), OpToks(d, e.cmp) + RightToks(d, table, e));
    ConcatPrinted(d, OpToks(d, e.cmp), RightToks(d, table, e));
  }

  lemma OpLexable(d: Dialect, e: Expr)
    requires e.Compare? && PortableCompare(d, e)
    ensures AllLexable(d, OpToks(d, e.cmp)) && AllPrinted(d, OpToks(d, e.cmp))
    ensures AllLexable(d, ListClose(d)) && AllPrinted(d, ListClose(d))
  {}

  lemma PlainItemsCons(items: seq<Json>)
    requires items != [] && PortableLiteral(items[0])
    ensures PlainNumbers(Literal(Arr(items))) <==> PlainLiteral(items[0]) && PlainItems(items[1..])
  {
    hide PlainNumber;
    assert items == [items[0]] + items[1..];
  }

  lemma RightPrinted(d: Dialect, table: string, e: Expr)
    requires e.Compare? && PortableCompare(d, e)
    ensures AllPrinted(d, RightToks(d, table, e)) && (AllLexable(d, RightToks(d, table, e)) <==> PlainNumbers(e.right))
  {
    if e.cmp.In? {
      var items := e.right.value.items;
      assert items[0] in items && items == [items[0]] + items[1..];
      LiteralPrinted(d, items[0]);
      ItemsPrinted(d, items[1..]);
      OpLexable(d, e);
      PlainItemsCons(items);
      hide AllPrinted, AllLexable, LiteralToks, MoreItems, ListClose, PlainNumber, PlainItems, PlainNumbers;
      ConcatPrinted(d, LiteralToks(d, items[0]) + MoreItems(d, items[1..]), ListClose(d));
      ConcatPrinted(d, LiteralToks(d, items[0]), MoreItems(d, items[1..]));
    } else if !e.cmp.Is? {
      OperandPrinted(d, table, e.right);
    }
  }

  /** A printed expression is tokenised exactly when none of its numbers has a sign or an exponent. */
  lemma {:induction false} RenderPrinted(d: Dialect, table: string, e: Expr, level: nat)
    requires Portable(d, e)
    ensures AllPrinted(d, Render(d, table, e, level)) && (AllLexable(d, Render(d, table, e, level)) <==> PlainNumbers(e))
    decreases e, 1
  {
    BodyPrinted(d, table, e);
    if NeedsParens(e, level) {
      assert AllLexable(d, [LParen]) && AllPrinted(d, [LParen]) && AllLexable(d, [RParen]) && AllPrinted(d, [RParen]);
      hide AllPrinted, AllLexable, Body, PlainNumbers, Portable;
      ConcatPrinted(d, [LParen], Body(d, table, e) + [RParen]);
      ConcatPrinted(d, Body(d, table, e), [RParen]);
    }
  }

  lemma {:induction false} BodyPrinted(d: Dialect, table: string, e: Expr)
    requires Portable(d, e)
    ensures AllPrinted(d, Body(d, table, e)) && (AllLexable(d, Body(d, table, e)) <==> PlainNumbers(e))
    decreases e, 0
  {
    match e
    case Compare(_, _, _) => ComparePrinted(d, table, e);
    case Not(t) =>
      RenderPrinted(d, table, t, 2);
      assert AllLexable(d, [Kw("not")]) && AllPrinted(d, [Kw("not")]);
      hide AllPrinted, AllLexable, Render;
      ConcatPrinted(d, [Kw("not")], Render(d, table, t, 2));
    case Logic(op, ts) =>
      assert ts[0] in ts && ts == [ts[0]] + ts[1..];
      RenderPrinted(d, table, ts[0], Inner(op));
      MorePrinted(d, table, op, ts[1..]);
      hide AllPrinted, AllLexable, Render, MoreTerms;
      ConcatPrinted(d, Render(d, table, ts[0], Inner(op)), MoreTerms(d, table, op, ts[1..]));
  }

  predicate PlainTerms(ts: seq<Expr>) {
    forall t | t in ts :: PlainNumbers(t)
  }

  lemma {:induction false} MorePrinted(d: Dialect, table: string, op: LogicOp, ts: seq<Expr>)
    requires forall t | t in ts :: Portable(d, t)
    ensures AllPrinted(d, MoreTerms(d, table, op, ts)) && (AllLexable(d, MoreTerms(d, table, op, ts)) <==> PlainTerms(ts))
    decreases ts, 2
  {
    if ts != [] {
      assert ts[0] in ts && ts == [ts[0]] + ts[1..];
      RenderPrinted(d, table, ts[0], Inner(op));
      MorePrinted(d, table, op, ts[1..]);
      var kw := [Kw(LogicText(op))];
      assert AllLexable(d, kw) && AllPrinted(d, kw);
      hide AllPrinted, AllLexable, Render, PlainNumbers;
      ConcatPrinted(d, kw, Render(d, table, ts[0], Inner(op)) + MoreTerms(d, table, op, ts[1..]));
      ConcatPrinted(d, Render(d, table, ts[0], Inner(op)), MoreTerms(d, table, op, ts[1..]));
    }
  }

  /** The text of a portable expression. */
  function Print(d: Dialect, table: string, e: Expr): string
    requires Portable(d, e)
  {
    TextOf(d, Render(d, table, e, 0))
  }

  /**
   * PostgreSQL's parser gives a portable expression back from its printed text exactly when none of
   * its numbers has a sign or an exponent; otherwise it refuses.
   */
  lemma PgRoundTrip(table: string, e: Expr)
    requires Portable(Postgres, e)
    ensures ParseText(Postgres, Print(Postgres, table, e), table) == if PlainNumbers(e) then Some(e) else None
  {
    var ts := Render(Postgres, table, e, 0);
    RenderPrinted(Postgres, table, e, 0);
    if PlainNumbers(e) {
      TextLexes(Postgres, ts);
      TokensRoundTrip(Postgres, table, e);
    } else {
      UnreadableRefused(Postgres, ts);
    }
  }
}
