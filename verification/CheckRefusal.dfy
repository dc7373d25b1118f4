/** Conditions that the parsers refuse in their printed form: parentheses inside strings, and a negative number. */
module CheckRefusal {
  import opened Text
  import opened Numbers
  import opened CanonicalJson
  import opened Expressions
  import opened CheckLexer
  import opened CheckParser
  import opened CheckPrinter
  import opened CheckText
  import opened CheckWrapping

  /** A condition on which the guard fires: two parentheses inside strings make up for two outside. */
  function QuotedParens(): Expr {
    Logic(And, [EitherTerm(), ListTerm()])
  }

  function EitherTerm(): Expr {
    Logic(Or, [Compare(Eq, Column("t", "a"), Literal(Str("("))), Compare(Is, Column("t", "a"), Literal(Null))])
  }

  function ListTerm(): Expr {
    Compare(In, Column("t", "a"), Literal(Arr([Str(")")])))
  }

  lemma ListTermToks()
    ensures Portable(Sqlite, ListTerm())
    ensures CompareToks(Sqlite, "t", ListTerm())
         == [Ident("a"), Kw("in"), LParen, StringTok(")"), RParen]
  {
    assert PortableName(Sqlite, "a") && PortableName(Sqlite, "t");
    assert forall v | v in ListTerm().right.value.items :: v == Str(")");
    assert MoreItems(Sqlite, ListTerm().right.value.items[1..]) == [];
  }

  lemma EitherTermToks()
    ensures Portable(Sqlite, EitherTerm())
    ensures Body(Sqlite, "t", EitherTerm())
         == [Ident("a"), OpTok("="), StringTok("("), Kw("or"), Ident("a"), Kw("is"), Kw("null")]
  {
    var e := EitherTerm();
    assert PortableName(Sqlite, "a") && PortableName(Sqlite, "t");
    assert Portable(Sqlite, e.terms[0]) && Portable(Sqlite, e.terms[1]);
    assert e.terms[1..] == [e.terms[1]];
    assert MoreTerms(Sqlite, "t", Or, [e.terms[1]])
        == [Kw("or")] + (Render(Sqlite, "t", e.terms[1], 1) + MoreTerms(Sqlite, "t", Or, []));
    assert CompareToks(Sqlite, "t", e.terms[0]) == [Ident("a"), OpTok("="), StringTok("(")];
    assert CompareToks(Sqlite, "t", e.terms[1]) == [Ident("a"), Kw("is"), Kw("null")];
  }

  lemma QuotedParensToks()
    ensures Portable(Sqlite, QuotedParens())
    ensures Render(Sqlite, "t", QuotedParens(), 0)
         == [LParen, Ident("a"), OpTok("="), StringTok("("), Kw("or"), Ident("a"), Kw("is"), Kw("null"), RParen,
             Kw("and"), Ident("a"), Kw("in"), LParen, StringTok(")"), RParen]
  {
    hide CompareToks, PortableCompare, LiteralToks, OperandToks;
    var ts := [EitherTerm(), ListTerm()];
    EitherTermToks();
    ListTermToks();
    assert forall t | t in ts :: t == ts[0] || t == ts[1];
    assert ts[1..] == [ts[1]];
    assert MoreTerms(Sqlite, "t", And, [ts[1]])
        == [Kw("and")] + (Render(Sqlite, "t", ts[1], 2) + MoreTerms(Sqlite, "t", And, []));
  }

  lemma TextOfThree(a: Tok, b: Tok, c: Tok)
    ensures TextOf(Sqlite, [a, b, c]) == TokText(Sqlite, a) + [' '] + TokText(Sqlite, b) + [' '] + TokText(Sqlite, c)
  {
    assert [a, b, c][1..] == [b, c] && [b, c][1..] == [c];
    assert TextOf(Sqlite, [c]) == TokText(Sqlite, c);
    assert TextOf(Sqlite, [b, c]) == TokText(Sqlite, b) + ([' '] + TokText(Sqlite, c));
  }

  lemma SegmentTexts()
    ensures TextOf(Sqlite, [LParen, Ident("a"), OpTok("=")]) == "( \"a\" ="
    ensures TextOf(Sqlite, [StringTok("("), Kw("or"), Ident("a")]) == "'(' or \"a\""
  {
    TextOfThree(LParen, Ident("a"), OpTok("="));
    TextOfThree(StringTok("("), Kw("or"), Ident("a"));
    assert TokText(Sqlite, StringTok("(")) == "'('";
    assert TokText(Sqlite, Ident("a")) == "\"a\"";
  }

  lemma LastSegmentTexts()
    ensures TextOf(Sqlite, [Kw("is"), Kw("null"), RParen]) == "is null )"
    ensures TextOf(Sqlite, [Kw("and"), Ident("a"), Kw("in")]) == "and \"a\" in"
    ensures TextOf(Sqlite, [LParen, StringTok(")"), RParen]) == "( ')' )"
  {
    TextOfThree(Kw("is"), Kw("null"), RParen);
    TextOfThree(Kw("and"), Ident("a"), Kw("in"));
    TextOfThree(LParen, StringTok(")"), RParen);
    assert TokText(Sqlite, StringTok(")")) == "')'";
    assert TokText(Sqlite, Ident("a")) == "\"a\"";
  }

  lemma FiveSegments(a: seq<Tok>, b: seq<Tok>, c: seq<Tok>, d: seq<Tok>, e: seq<Tok>)
    requires a != [] && b != [] && c != [] && d != [] && e != []
    ensures TextOf(Sqlite, a + (b + (c + (d + e))))
         == TextOf(Sqlite, a) + ([' '] + (TextOf(Sqlite, b) + ([' '] + (TextOf(Sqlite, c) + ([' ']
            + (TextOf(Sqlite, d) + ([' '] + TextOf(Sqlite, e))))))))
  {
    TextConcat(Sqlite, d, e);
    TextConcat(Sqlite, c, d + e);
    TextConcat(Sqlite, b, c + (d + e));
    TextConcat(Sqlite, a, b + (c + (d + e)));
  }

  lemma {:induction false} SkipOver(p: string, rest: string, depth: nat)
    requires '(' !in p && ')' !in p
    ensures BalancedFrom(p + rest, depth) == BalancedFrom(rest, depth)
  {
    if p == [] {
      assert p + rest == rest;
    } else {
      assert (p + rest)[1..] == p[1..] + rest;
      SkipOver(p[1..], rest, depth);
    }
  }

  lemma OneGroup(p: string, q: string, rest: string)
    requires '(' !in p && ')' !in p && '(' !in q && ')' !in q
    ensures BalancedFrom(p + (['('] + (q + ([')'] + rest))), 0) == BalancedFrom(rest, 0)
  {
    var inside := q + ([')'] + rest);
    SkipOver(p, ['('] + inside, 0);
    assert (['('] + inside)[1..] == inside;
    SkipOver(q, [')'] + rest, 1);
    assert ([')'] + rest)[1..] == rest;
  }

  lemma TwoGroups(a: string, b: string, c: string, d: string, e: string)
    requires forall p | p in [a, b, c, d, e] :: '(' !in p && ')' !in p
    ensures Wrapped("(" + (a + (['('] + (b + ([')'] + (c + (['('] + (d + ([')'] + e)))))))) + ")")
  {
    var tail := c + (['('] + (d + ([')'] + e)));
    var inner := a + (['('] + (b + ([')'] + tail)));
    assert a in [a, b, c, d, e] && b in [a, b, c, d, e] && c in [a, b, c, d, e] && d in [a, b, c, d, e] && e in [a, b, c, d, e];
    OneGroup(a, b, tail);
    OneGroup(c, d, e);
    SkipOver(e, [], 0);
    assert e + [] == e;
    var s := "(" + inner + ")";
    assert s[1..|s| - 1] == inner;
  }

  function QuotedText(): string {
    "(" + (" \"a\" = '" + (['('] + ("' or \"a\" is null " + ([')'] + (" and \"a\" in " + (['('] + (" '" + ([')'] + "' ")))))))) + ")"
  }

  lemma QuotedTextSegments()
    ensures "( \"a\" =" + ([' '] + ("'(' or \"a\"" + ([' '] + ("is null )" + ([' '] + ("and \"a\" in" + ([' '] + "( ')' )")))))))
         == QuotedText()
  {}

  lemma QuotedTokensText(a: seq<Tok>, b: seq<Tok>, c: seq<Tok>, d: seq<Tok>, e: seq<Tok>)
    requires a == [LParen, Ident("a"), OpTok("=")] && b == [StringTok("("), Kw("or"), Ident("a")]
    requires c == [Kw("is"), Kw("null"), RParen] && d == [Kw("and"), Ident("a"), Kw("in")]
    requires e == [LParen, StringTok(")"), RParen]
    ensures TextOf(Sqlite, a + (b + (c + (d + e)))) == QuotedText()
  {
    SegmentTexts();
    LastSegmentTexts();
    QuotedTextSegments();
    FiveSegments(a, b, c, d, e);
  }

  lemma WrappedRefused(table: string, e: Expr, s: string)
    requires Portable(Sqlite, e) && Print(Sqlite, table, e) == s && Wrapped(s)
    ensures ParseText(Sqlite, s, table) == None
  {
    SqliteRoundTrip(table, e);
  }

  lemma QuotedTextWrapped()
    ensures Wrapped(QuotedText())
  {
    TwoGroups(" \"a\" = '", "' or \"a\" is null ", " and \"a\" in ", " '", "' ");
  }

  lemma QuotedParensPrinted(a: seq<Tok>, b: seq<Tok>, c: seq<Tok>, d: seq<Tok>, e: seq<Tok>)
    requires a == [LParen, Ident("a"), OpTok("=")] && b == [StringTok("("), Kw("or"), Ident("a")]
    requires c == [Kw("is"), Kw("null"), RParen] && d == [Kw("and"), Ident("a"), Kw("in")]
    requires e == [LParen, StringTok(")"), RParen]
    ensures Portable(Sqlite, QuotedParens()) && Render(Sqlite, "t", QuotedParens(), 0) == a + (b + (c + (d + e)))
  {
    QuotedParensToks();
  }

  /** A portable condition that SQLite's parser refuses in its own printed form. */
  lemma QuotedParensRefused()
    ensures Portable(Sqlite, QuotedParens())
    ensures ParseText(Sqlite, Print(Sqlite, "t", QuotedParens()), "t") == None
  {
    var a, b, c, d, e := [LParen, Ident("a"), OpTok("=")], [StringTok("("), Kw("or"), Ident("a")],
      [Kw("is"), Kw("null"), RParen], [Kw("and"), Ident("a"), Kw("in")], [LParen, StringTok(")"), RParen];
    QuotedParensPrinted(a, b, c, d, e);
    QuotedTokensText(a, b, c, d, e);
    QuotedTextWrapped();
    WrappedRefused("t", QuotedParens(), QuotedText());
  }

  const MINUS_ONE: Number := Decimal(-1, 0)

  /** A comparison with -1 is refused by both parsers in its printed form. */
  lemma NegativeNumberRefused(d: Dialect, table: string, name: string)
    requires PortableName(d, table) && PortableName(d, name)
    ensures var e := Compare(Gte, Column(table, name), Literal(Num(MINUS_ONE)));
            Portable(d, e) && ParseText(d, Print(d, table, e), table) == None
  {
    var e := Compare(Gte, Column(table, name), Literal(Num(MINUS_ONE)));
    assert !PlainNumbers(e.right);
    if d.Sqlite? { SqliteRoundTrip(table, e); } else { PgRoundTrip(table, e); }
  }
}
