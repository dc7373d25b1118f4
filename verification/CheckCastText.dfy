/** A text that PostgreSQL prints for a condition on a varchar column, and what its parser does with it. */
module CheckCastText {
  import opened Text
  import opened CanonicalJson
  import opened Expressions
  import opened CheckLexer
  import opened CheckParser
  import opened CheckPrinter
  import opened CheckText
  import opened CheckCasts

  const TEXT: CastType := CastType(None, "text", [], [], [], false)

  /** A column that is not of type text, compared with a string. */
  function CastTest(table: string, name: string, word: string): Condition {
    Parens(Test(Eq, CastLeft(table, name), CastRight(word)))
  }

  function CastText(name: string, word: string): string {
    "(" + ("(" + (name + (")" + ("::" + ("text" + (" " + ("=" + (" " + (("'" + word + "'") + ("::" + ("text" + ")")))))))))))
  }

  function CastTokens(name: string, word: string): seq<Tok> {
    [LParen, LParen, Ident(name), RParen, Cast, Ident("text"), OpTok("="), StringTok(word), Cast, Ident("text"), RParen]
  }

  function CastLeft(table: string, name: string): Side {
    Casted(Grouped(Bare(Column(table, name))), TEXT)
  }

  function CastRight(word: string): Side {
    Casted(Bare(Literal(Str(word))), TEXT)
  }

  lemma CastSides(table: string, name: string, word: string)
    ensures var left, right := CastLeft(table, name), CastRight(word);
            && ReadableSide(left) && ReadableSide(right) && StartsGrouped(left)
            && SideToks(table, left) == [LParen, Ident(name), RParen, Cast, Ident("text")]
            && SideToks(table, right) == [StringTok(word), Cast, Ident("text")]
  {
    assert AfterName(TEXT) == [] && TypeToks(TEXT) == [Ident("text")];
    assert SideToks(table, Grouped(Bare(Column(table, name)))) == [LParen, Ident(name), RParen];
    hide TypeToks;
  }

  lemma CastTestToks(table: string, name: string, word: string)
    ensures Readable(CastTest(table, name, word)) && !Plain(CastTest(table, name, word))
    ensures Toks(table, CastTest(table, name, word), 0) == CastTokens(name, word)
  {
    CastSides(table, name, word);
    hide SideToks, StartsGrouped, ReadableSide, OneNameCasts, CastLeft, CastRight;
    var test := Test(Eq, CastLeft(table, name), CastRight(word));
    assert Readable(test) && !Plain(test);
    var inside := SideToks(table, test.left) + TestToks(table, test);
    assert inside == [LParen, Ident(name), RParen, Cast, Ident("text"), OpTok("="), StringTok(word), Cast, Ident("text")];
    assert Toks(table, test, 0) == inside;
    assert Toks(table, Parens(test), 0) == [LParen] + (Toks(table, test, 0) + [RParen]);
  }

  /** One more token in front. */
  lemma Then(s: string, t: Tok, rest: string, ts: seq<Tok>)
    requires s != [] && LexOne(Postgres, s + rest) == Token(t, rest) && Lex(Postgres, rest) == Some(ts)
    ensures Lex(Postgres, s + rest) == Some([t] + ts)
  {
    hide LexOne;
  }

  lemma ParenThen(t: Tok, rest: string, ts: seq<Tok>)
    requires (t == LParen || t == RParen) && Lex(Postgres, rest) == Some(ts)
    ensures Lex(Postgres, TokText(Postgres, t) + rest) == Some([t] + ts)
  {
    PunctuationLexes(Postgres, t, rest);
    hide Lex, LexOne;
    Then(TokText(Postgres, t), t, rest, ts);
  }

  /** A word, bare as PostgreSQL prints it. */
  lemma NameThen(name: string, rest: string, ts: seq<Tok>)
    requires LowerWord(name) && name !in Keywords(Postgres) && (rest == [] || !IsWordChar(rest[0]))
    requires Lex(Postgres, rest) == Some(ts)
    ensures Lex(Postgres, name + rest) == Some([Ident(name)] + ts)
  {
    WordLexes(Postgres, name, rest);
    assert Lower(name) == name;
    hide Lex, LexOne, Lower;
    Then(name, Ident(name), rest, ts);
  }

  lemma MarkThen(rest: string, ts: seq<Tok>)
    requires Lex(Postgres, rest) == Some(ts)
    ensures Lex(Postgres, "::" + rest) == Some([Cast] + ts)
  {
    assert TokText(Postgres, Cast) == "::";
    PunctuationLexes(Postgres, Cast, rest);
    hide Lex, LexOne, TokText;
    Then("::", Cast, rest, ts);
  }

  lemma TextIsAName()
    ensures LowerWord("text") && "text" !in Keywords(Postgres)
  {}

  lemma CastTokensJoined(ts: seq<Tok>)
    ensures [Cast] + ([Ident("text")] + ts) == [Cast, Ident("text")] + ts
  {}

  /** `::text` */
  lemma CastThen(rest: string, ts: seq<Tok>)
    requires (rest == [] || !IsWordChar(rest[0])) && Lex(Postgres, rest) == Some(ts)
    ensures Lex(Postgres, "::" + ("text" + rest)) == Some([Cast, Ident("text")] + ts)
  {
    hide *;
    TextIsAName();
    NameThen("text", rest, ts);
    MarkThen("text" + rest, [Ident("text")] + ts);
    CastTokensJoined(ts);
  }

  lemma {:induction false} Undoubled(word: string)
    requires '\'' !in word
    ensures Doubled(word) == word
  {
    if word != [] {
      Undoubled(word[1..]);
      assert word == [word[0]] + word[1..];
    }
  }

  lemma StringThen(word: string, rest: string, ts: seq<Tok>)
    requires '\'' !in word && (rest == [] || rest[0] != '\'') && Lex(Postgres, rest) == Some(ts)
    ensures Lex(Postgres, ("'" + word + "'") + rest) == Some([StringTok(word)] + ts)
  {
    Undoubled(word);
    StringLexes(Postgres, word, rest);
    assert TokText(Postgres, StringTok(word)) == "'" + word + "'";
    hide Lex, LexOne, TokText, Doubled;
    Then("'" + word + "'", StringTok(word), rest, ts);
  }

  /** ` = ` */
  lemma EqualsThen(rest: string, ts: seq<Tok>)
    requires Lex(Postgres, rest) == Some(ts)
    ensures Lex(Postgres, " " + ("=" + (" " + rest))) == Some([OpTok("=")] + ts)
  {
    assert Symbol(Postgres, "=").Some?;
    OperatorLexes(Postgres, "=", " " + rest);
    hide Lex, LexOne, Symbol;
    SpaceThenRest(Postgres, rest);
    Then("=", OpTok("="), " " + rest, ts);
    SpaceThenRest(Postgres, "=" + (" " + rest));
  }

  /** The right half, from the equals sign. */
  function RightText(word: string): string {
    " " + ("=" + (" " + (("'" + word + "'") + ("::" + ("text" + ")")))))
  }

  const RIGHT_END: seq<Tok> := [Cast, Ident("text")] + [RParen]

  lemma RightTextLexes(word: string)
    requires '\'' !in word
    ensures Lex(Postgres, RightText(word)) == Some([OpTok("=")] + ([StringTok(word)] + RIGHT_END))
  {
    assert Lex(Postgres, []) == Some([]);
    assert TokText(Postgres, RParen) + [] == ")" && [RParen] + [] == [RParen];
    hide Lex, TokText;
    ParenThen(RParen, [], []);
    CastThen(")", [RParen]);
    StringThen(word, "::" + ("text" + ")"), RIGHT_END);
    EqualsThen(("'" + word + "'") + ("::" + ("text" + ")")), [StringTok(word)] + RIGHT_END);
  }

  /** The left half, in front of the rest. */
  lemma LeftTextLexes(name: string, rest: string, ts: seq<Tok>)
    requires LowerWord(name) && name !in Keywords(Postgres)
    requires (rest == [] || !IsWordChar(rest[0])) && Lex(Postgres, rest) == Some(ts)
    ensures Lex(Postgres, "(" + ("(" + (name + (")" + ("::" + ("text" + rest))))))
         == Some([LParen] + ([LParen] + ([Ident(name)] + ([RParen] + ([Cast, Ident("text")] + ts)))))
  {
    assert TokText(Postgres, LParen) == "(" && TokText(Postgres, RParen) == ")";
    hide Lex, TokText, Keywords, LowerWord;
    var cast := "::" + ("text" + rest);
    var casted := [Cast, Ident("text")] + ts;
    CastThen(rest, ts);
    ParenThen(RParen, cast, casted);
    NameThen(name, ")" + cast, [RParen] + casted);
    ParenThen(LParen, name + (")" + cast), [Ident(name)] + ([RParen] + casted));
    ParenThen(LParen, "(" + (name + (")" + cast)), [LParen] + ([Ident(name)] + ([RParen] + casted)));
  }

  lemma AllTokens(name: string, word: string)
    ensures [LParen] + ([LParen] + ([Ident(name)] + ([RParen] + ([Cast, Ident("text")]
              + ([OpTok("=")] + ([StringTok(word)] + RIGHT_END))))))
         == CastTokens(name, word)
  {}

  lemma CastTextLexes(name: string, word: string)
    requires LowerWord(name) && name !in Keywords(Postgres) && '\'' !in word
    ensures Lex(Postgres, CastText(name, word)) == Some(CastTokens(name, word))
  {
    hide Lex, Keywords, LowerWord;
    RightTextLexes(word);
    LeftTextLexes(name, RightText(word), [OpTok("=")] + ([StringTok(word)] + RIGHT_END));
    AllTokens(name, word);
  }

  /** Such a text, with the outer parentheses that the caller leaves on it, is refused. */
  lemma CastColumnRefused(table: string, name: string, word: string)
    requires LowerWord(name) && name !in Keywords(Postgres) && '\'' !in word
    ensures ParseText(Postgres, CastText(name, word), table) == None
  {
    hide *;
    CastTestToks(table, name, word);
    CastTextLexes(name, word);
    PrintedReadIff(table, CastTest(table, name, word), CastText(name, word));
  }

  /** The text itself. */
  lemma CastTextSpelled()
    ensures CastText("name", "a") == "((name)::text = 'a'::text)"
  {}

  /** A negative number, which PostgreSQL prints as a cast string like `'-1'::integer`, is read back as the string. */
  lemma CastNumberReadAsString(table: string, name: string, op: CompareOp, number: string, typeName: string, text: string)
    requires !op.Is? && !op.In?
    requires Lex(Postgres, text) == Some([Ident(name), OpTok(OpText(op)), StringTok(number), Cast, Ident(typeName)])
    ensures ParseText(Postgres, text, table) == Some(Compare(op, Column(table, name), Literal(Str(number))))
  {
    var to := CastType(None, typeName, [], [], [], false);
    var left, right := Bare(Column(table, name)), Casted(Bare(Literal(Str(number))), to);
    var test := Test(op, left, right);
    NumberSides(table, name, number, typeName);
    hide Lex, OpText, SideToks, TypeToks, ReadableSide, OneNameCasts, StartsGrouped, POr;
    var toks := SideToks(table, left) + ([OpTok(OpText(op))] + SideToks(table, right));
    assert toks == [Ident(name), OpTok(OpText(op)), StringTok(number), Cast, Ident(typeName)];
    assert Readable(test) && Plain(test) && Meaning(test) == Compare(op, Base(left), Base(right));
    assert Toks(table, test, 0) == Inside(table, test) == toks;
    PrintedReadIff(table, test, text);
  }

  lemma NumberSides(table: string, name: string, number: string, typeName: string)
    ensures var left := Bare(Column(table, name));
            var right := Casted(Bare(Literal(Str(number))), CastType(None, typeName, [], [], [], false));
            && ReadableSide(left) && ReadableSide(right) && !StartsGrouped(left) && OneNameCasts(left) && OneNameCasts(right)
            && SideToks(table, left) == [Ident(name)] && SideToks(table, right) == [StringTok(number), Cast, Ident(typeName)]
            && Base(left) == Column(table, name) && Base(right) == Literal(Str(number))
  {
    var to := CastType(None, typeName, [], [], [], false);
    assert AfterName(to) == [] && TypeToks(to) == [Ident(typeName)];
    hide TypeToks;
  }

}
