/** The tokenisers of the two CHECK parsers. */
module CheckLexer {
  import opened Text

  datatype Dialect = Sqlite | Postgres

  datatype Tok =
    | Ident(v: string)
    | NumberTok(v: string)
    | StringTok(v: string)
    | OpTok(v: string)
    | Kw(v: string)
    | LParen | RParen | LBracket | RBracket | Comma | Dot | Cast

  predicate IsSpace(c: char) {
    var n := c as int;
    9 <= n <= 13 || n == 32 || n == 160 || n == 0x1680 || 0x2000 <= n <= 0x200a || n == 0x2028
    || n == 0x2029 || n == 0x202f || n == 0x205f || n == 0x3000 || n == 0xfeff
  }

  predicate IsWordStart(c: char) {
    'a' <= c <= 'z' || 'A' <= c <= 'Z' || c == '_'
  }

  predicate IsWordChar(c: char) {
    IsWordStart(c) || IsDigit(c) || c == '$'
  }

  predicate IsDigitOrPoint(c: char) {
    IsDigit(c) || c == '.'
  }

  predicate NotDoubleQuote(c: char) {
    c != '"'
  }

  function Keywords(d: Dialect): set<string> {
    match d
    case Sqlite => {"and", "or", "not", "like", "in", "is", "null", "true", "false", "cast", "as"}
    case Postgres => {"and", "or", "not", "is", "null", "true", "false", "any", "array"}
  }

  function WordTok(d: Dialect, word: string): Tok {
    if Lower(word) in Keywords(d) then Kw(Lower(word)) else Ident(word)
  }

  /** How many characters at the front of `s` satisfy `p`. */
  function Span(p: char -> bool, s: string): (n: nat)
    ensures n <= |s|
  {
    if s != [] && p(s[0]) then 1 + Span(p, s[1..]) else 0
  }

  /** Text up to the closing quote, and what follows it; None when it never closes. */
  function ReadQuoted(s: string, close: char, doubled: bool): (r: Option<(string, string)>)
    ensures r.Some? ==> |r.value.1| < |s|
  {
    if s == [] then None
    else if doubled && |s| > 1 && s[0] == close && s[1] == close then
      PrependQuoted([close], ReadQuoted(s[2..], close, doubled))
    else if s[0] == close then Some(([], s[1..]))
    else PrependQuoted([s[0]], ReadQuoted(s[1..], close, doubled))
  }

  datatype Step = Skip(rest: string) | Token(t: Tok, rest: string) | Stop

  predicate StartsWith(s: string, prefix: string) {
    |prefix| <= |s| && s[..|prefix|] == prefix
  }

  predicate IsOp2(d: Dialect, s: string) {
    s == "<>" || s == "!=" || s == ">=" || s == "<=" || (d.Sqlite? && s == "==")
  }

  function Quoted(r: Option<(string, string)>, string_: bool): (st: Step)
    ensures st.Token? ==> r.Some? && st.rest == r.value.1
    ensures !st.Skip?
  {
    match r
    case None => Stop
    case Some((v, rest)) => Token(if string_ then StringTok(v) else Ident(v), rest)
  }

  /** A quoted identifier in PostgreSQL output: an unclosed one runs to the end of the text. */
  function PgIdent(s: string): (st: Step)
    ensures st.Token? && |st.rest| <= |s|
  {
    var j := Span(NotDoubleQuote, s);
    Token(Ident(s[..j]), if j < |s| then s[j + 1..] else "")
  }

  function NumberStep(d: Dialect, s: string): (st: Step)
    requires s != [] && IsDigit(s[0])
    ensures st.Token? ==> |st.rest| < |s|
    ensures !st.Skip?
  {
    var j := 1 + Span(IsDigitOrPoint, s[1..]);
    if d.Sqlite? && j < |s| && (s[j] == 'e' || s[j] == 'E') then Stop else Token(NumberTok(s[..j]), s[j..])
  }

  function WordStep(d: Dialect, s: string): (st: Step)
    requires s != []
    ensures st.Token? && |st.rest| < |s|
  {
    var j := 1 + Span(IsWordChar, s[1..]);
    Token(WordTok(d, s[..j]), s[j..])
  }

  /** Punctuation and operators. */
  function PunctuationStep(d: Dialect, s: string): (st: Step)
    requires s != []
    ensures st.Token? ==> |st.rest| < |s|
    ensures !st.Skip?
  {
    var c := s[0];
    if c == '(' then Token(LParen, s[1..])
    else if c == ')' then Token(RParen, s[1..])
    else if d.Postgres? && c == '[' then Token(LBracket, s[1..])
    else if d.Postgres? && c == ']' then Token(RBracket, s[1..])
    else if c == ',' then Token(Comma, s[1..])
    else if d.Postgres? && StartsWith(s, "::") then Token(Cast, s[2..])
    else if c == '.' then Token(Dot, s[1..])
    else if d.Postgres? && StartsWith(s, "~~*") then Token(OpTok("~~*"), s[3..])
    else if d.Postgres? && StartsWith(s, "~~") then Token(OpTok("~~"), s[2..])
    else if |s| > 1 && IsOp2(d, s[..2]) then Token(OpTok(s[..2]), s[2..])
    else if c == '=' || c == '<' || c == '>' then Token(OpTok([c]), s[1..])
    else Stop
  }

  /** The character that closes a quote opened by `c`. */
  function CloseOf(d: Dialect, c: char): Option<char> {
    if c == '\'' || (d.Sqlite? && (c == '"' || c == '`')) then Some(c)
    else if d.Sqlite? && c == '[' then Some(']')
    else None
  }

  /** The first token of a text that is not empty. */
  function LexOne(d: Dialect, s: string): (st: Step)
    requires s != []
    ensures !st.Stop? ==> |st.rest| < |s|
  {
    var c := s[0];
    if IsSpace(c) then Skip(s[1..])
    else if CloseOf(d, c).Some? then Quoted(ReadQuoted(s[1..], CloseOf(d, c).value, c == '\''), c == '\'')
    else if d.Postgres? && c == '"' then PgIdent(s[1..])
    else if IsDigit(c) then NumberStep(d, s)
    else if IsWordStart(c) then WordStep(d, s)
    else PunctuationStep(d, s)
  }

  /** tokenize; None is the refusal. */
  function Lex(d: Dialect, s: string): Option<seq<Tok>>
    decreases |s|
  {
    if s == [] then Some([])
    else
      match LexOne(d, s)
      case Stop => None
      case Skip(rest) => Lex(d, rest)
      case Token(t, rest) => Prepend([t], Lex(d, rest))
  }

  function Prepend(toks: seq<Tok>, r: Option<seq<Tok>>): Option<seq<Tok>> {
    match r
    case None => None
    case Some(ts) => Some(toks + ts)
  }

  /** Moves a cursor past the characters that satisfy `p`. */
  method SpanFrom(p: char -> bool, src: string, from: nat) returns (j: nat)
    requires from <= |src|
    ensures j == from + Span(p, src[from..])
  {
    j := from;
    while j < |src| && p(src[j])
      invariant from <= j <= |src|
      invariant from + Span(p, src[from..]) == j + Span(p, src[j..])
    {
      assert src[j..][1..] == src[j + 1..];
      j := j + 1;
    }
  }

  function PrependQuoted(s: string, r: Option<(string, string)>): Option<(string, string)> {
    match r
    case None => None
    case Some((v, rest)) => Some((s + v, rest))
  }

  lemma PrependQuotedOne(s: string, c: char, r: Option<(string, string)>)
    ensures PrependQuoted(s, PrependQuoted([c], r)) == PrependQuoted(s + [c], r)
    ensures PrependQuoted([], r) == r
  {
    if r.Some? { assert s + ([c] + r.value.0) == s + [c] + r.value.0 && [] + r.value.0 == r.value.0; }
  }

  /** Reads a quoted token with a cursor, undoubling quotes on the way. */
  method ReadQuotedFrom(src: string, from: nat, close: char, doubled: bool) returns (r: Option<(string, string)>)
    requires from <= |src|
    ensures r == ReadQuoted(src[from..], close, doubled)
  {
    var j, s := from, [];
    PrependQuotedOne([], close, ReadQuoted(src[from..], close, doubled));
    while j < |src|
      invariant from <= j <= |src|
      invariant ReadQuoted(src[from..], close, doubled) == PrependQuoted(s, ReadQuoted(src[j..], close, doubled))
    {
      assert src[j..][1..] == src[j + 1..];
      if doubled && j + 1 < |src| && src[j] == close && src[j + 1] == close {
        assert src[j..][2..] == src[j + 2..];
        PrependQuotedOne(s, close, ReadQuoted(src[j + 2..], close, doubled));
        s, j := s + [close], j + 2;
      } else if src[j] == close {
        assert s + "" == s;
        return Some((s, src[j + 1..]));
      } else {
        PrependQuotedOne(s, src[j], ReadQuoted(src[j + 1..], close, doubled));
        s, j := s + [src[j]], j + 1;
      }
    }
    return None;
  }

  method NumberFrom(d: Dialect, src: string, i: nat) returns (st: Step)
    requires i < |src| && IsDigit(src[i])
    ensures st == NumberStep(d, src[i..])
  {
    var j := SpanFrom(IsDigitOrPoint, src, i + 1);
    assert src[i + 1..] == src[i..][1..];
    assert src[i..j] == src[i..][..j - i] && src[j..] == src[i..][j - i..];
    if d.Sqlite? && j < |src| && (src[j] == 'e' || src[j] == 'E') {
      return Stop;
    }
    return Token(NumberTok(src[i..j]), src[j..]);
  }

  method WordFrom(d: Dialect, src: string, i: nat) returns (st: Step)
    requires i < |src|
    ensures st == WordStep(d, src[i..])
  {
    var j := SpanFrom(IsWordChar, src, i + 1);
    assert src[i + 1..] == src[i..][1..];
    assert src[i..j] == src[i..][..j - i] && src[j..] == src[i..][j - i..];
    return Token(WordTok(d, src[i..j]), src[j..]);
  }

  /** One turn of the tokeniser's loop. */
  method LexOneFrom(d: Dialect, src: string, i: nat) returns (st: Step)
    requires i < |src|
    ensures st == LexOne(d, src[i..])
  {
    var c := src[i];
    assert src[i + 1..] == src[i..][1..];
    if !IsSpace(c) && CloseOf(d, c).Some? {
      var q := ReadQuotedFrom(src, i + 1, CloseOf(d, c).value, c == '\'');
      st := Quoted(q, c == '\'');
    } else if IsDigit(c) {
      st := NumberFrom(d, src, i);
    } else if IsWordStart(c) {
      st := WordFrom(d, src, i);
    } else {
      st := LexOne(d, src[i..]);
    }
  }

  /** The next token, and how the tokens of the whole text follow from it. */
  method NextToken(d: Dialect, src: string, i: nat) returns (st: Step)
    requires i < |src|
    ensures st.Stop? ==> Lex(d, src[i..]) == None
    ensures !st.Stop? ==> i < |src| - |st.rest| <= |src| && st.rest == src[|src| - |st.rest|..]
    ensures st.Skip? ==> Lex(d, src[i..]) == Lex(d, st.rest)
    ensures st.Token? ==> Lex(d, src[i..]) == Prepend([st.t], Lex(d, st.rest))
  {
    st := LexOneFrom(d, src, i);
    LexOneSuffix(d, src[i..]);
    assert !st.Stop? ==> src[i..][|src| - i - |st.rest|..] == src[|src| - |st.rest|..];
  }

  method Tokenize(d: Dialect, src: string) returns (r: Option<seq<Tok>>)
    ensures r == Lex(d, src)
  {
    var i, toks := 0, [];
    ghost var left := src;
    PrependOne([], LParen, Lex(d, src));
    while i < |src|
      invariant 0 <= i <= |src| && left == src[i..]
      invariant Lex(d, src) == Prepend(toks, Lex(d, left))
    {
      var st := NextToken(d, src, i);
      if st.Stop? {
        return None;
      }
      if st.Token? {
        PrependOne(toks, st.t, Lex(d, st.rest));
        toks := toks + [st.t];
      }
      i, left := |src| - |st.rest|, st.rest;
    }
    assert toks + [] == toks;
    return Some(toks);
  }

  lemma PrependOne(toks: seq<Tok>, t: Tok, r: Option<seq<Tok>>)
    ensures Prepend(toks, Prepend([t], r)) == Prepend(toks + [t], r)
    ensures Prepend([], r) == r
  {
    if r.Some? { assert toks + ([t] + r.value) == toks + [t] + r.value && [] + r.value == r.value; }
  }

  lemma {:induction false} ReadQuotedSuffix(s: string, close: char, doubled: bool)
    ensures var r := ReadQuoted(s, close, doubled); r.Some? ==> r.value.1 == s[|s| - |r.value.1|..]
  {
    if s != [] {
      if doubled && |s| > 1 && s[0] == close && s[1] == close {
        ReadQuotedSuffix(s[2..], close, doubled);
      } else if s[0] != close {
        ReadQuotedSuffix(s[1..], close, doubled);
      }
    }
  }

  /** What is left after a token is a suffix of the text, so a cursor can stand for it. */
  lemma LexOneSuffix(d: Dialect, s: string)
    requires s != []
    ensures !LexOne(d, s).Stop? ==> LexOne(d, s).rest == s[|s| - |LexOne(d, s).rest|..]
  {
    var c := s[0];
    if CloseOf(d, c).Some? {
      ReadQuotedSuffix(s[1..], CloseOf(d, c).value, c == '\'');
    }
  }
}
