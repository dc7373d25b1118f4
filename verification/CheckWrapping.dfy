/**
 * SQLite's parser first drops a pair of parentheses around the text. It decides by counting
 * parentheses in the text, those inside quotes included, so on some texts it drops two
 * parentheses that do not belong together. This module proves that the round trip with the
 * printer fails exactly then.
 */
module CheckWrapping {
  import opened Text
  import opened CanonicalJson
  import opened Expressions
  import opened CheckLexer
  import opened CheckParser
  import opened CheckPrinter
  import opened CheckText

  // ---------------------------------------------------------------- parsing consumes balanced tokens

  /** The depth after reading all tokens from a depth; None when it falls below zero. */
  function Scan(ts: seq<Tok>, depth: nat): Option<nat> {
    if ts == [] then Some(depth)
    else if ts[0].LParen? then Scan(ts[1..], depth + 1)
    else if ts[0].RParen? then if depth == 0 then None else Scan(ts[1..], depth - 1)
    else Scan(ts[1..], depth)
  }

  /** The tokens read between `ts` and `rest` are balanced. */
  ghost predicate Balances(ts: seq<Tok>, rest: seq<Tok>) {
    forall depth: nat :: Scan(ts, depth) == Scan(rest, depth)
  }

  lemma ColumnBalances(table: string, name: string, ts: seq<Tok>)
    ensures var r := PColumn(table, name, ts); r.Done? ==> Balances(ts, r.rest)
  {
    if Heads(Dot, ts) && |ts| >= 2 && ts[1].Ident? {
      assert ts[1..][1..] == ts[2..];
    }
  }

  lemma {:induction false} OperandBalances(table: string, ts: seq<Tok>)
    ensures var r := POperand(Sqlite, table, ts); r.Done? ==> Balances(ts, r.rest)
    decreases |ts|
  {
    if POperandSqlite(table, ts).Done? {
      if ts[0] == Kw("cast") {
        OperandBalances(table, ts[2..]);
        CastBalances(ts, POperandSqlite(table, ts[2..]).rest);
      } else if ts[0].Ident? {
        ColumnBalances(table, ts[0].v, ts[1..]);
      }
    }
  }

  lemma CastBalances(ts: seq<Tok>, r: seq<Tok>)
    requires |ts| >= 2 && ts[0] == Kw("cast") && ts[1] == LParen && Balances(ts[2..], r)
    requires |r| >= 3 && r[0] == Kw("as") && IsAffinity(r[1]) && r[2] == RParen
    ensures Balances(ts, r[3..])
  {
    assert ts[1..][1..] == ts[2..];
    assert r[1..][1..] == r[2..] && r[2..][1..] == r[3..];
    forall depth: nat ensures Scan(ts, depth) == Scan(r[3..], depth) {
      assert Scan(ts, depth) == Scan(ts[1..], depth) == Scan(ts[2..], depth + 1) == Scan(r, depth + 1);
      assert Scan(r, depth + 1) == Scan(r[1..], depth + 1) == Scan(r[2..], depth + 1) == Scan(r[3..], depth);
    }
  }

  lemma {:induction false} ItemsBalance(table: string, items: seq<Json>, ts: seq<Tok>)
    ensures var r := PItems(Sqlite, table, items, ts); r.Done? ==> Balances(ts, r.rest)
    decreases |ts|
  {
    if Heads(Comma, ts) {
      OperandBalances(table, ts[1..]);
      var r := POperand(Sqlite, table, ts[1..]);
      if r.Done? && r.e.Literal? {
        ItemsBalance(table, items + [r.e.value], r.rest);
      }
    }
  }

  lemma ListBalances(table: string, ts: seq<Tok>)
    ensures var r := PList(Sqlite, table, ts); r.Done? ==> Balances(ts, r.rest)
  {
    OperandBalances(table, ts);
    var r := POperand(Sqlite, table, ts);
    if r.Done? && r.e.Literal? {
      ItemsBalance(table, [r.e.value], r.rest);
    }
  }

  lemma InBalances(table: string, left: Expr, ts: seq<Tok>)
    requires |ts| >= 2 && ts[0] == Kw("in") && ts[1] == LParen
    ensures var r := PIn(Sqlite, table, left, ts[2..], [RParen]); r.Done? ==> Balances(ts, r.rest)
  {
    ListBalances(table, ts[2..]);
    var q := PList(Sqlite, table, ts[2..]);
    assert ts[1..][1..] == ts[2..];
    if q.Done? && 1 <= |q.rest| && q.rest[..1] == [RParen] {
      assert q.rest[0] == RParen;
      forall depth: nat ensures Scan(ts, depth) == Scan(q.rest[1..], depth) {
        assert Scan(ts, depth) == Scan(ts[1..], depth) == Scan(ts[2..], depth + 1) == Scan(q.rest, depth + 1);
      }
    }
  }

  lemma IsBalances(left: Expr, ts: seq<Tok>)
    ensures var r := PIs(left, ts); r.Done? ==> Balances(ts, r.rest)
  {
    if |ts| >= 2 { assert ts[1..][1..] == ts[2..]; }
  }

  lemma ComparisonBalances(table: string, left: Expr, ts: seq<Tok>)
    ensures var r := PComparison(Sqlite, table, left, ts); r.Done? ==> Balances(ts, r.rest)
  {
    if ts != [] {
      OperandBalances(table, ts[1..]);
      IsBalances(left, ts[1..]);
      if ts[0] == Kw("in") && Heads(LParen, ts[1..]) {
        assert ts[1] == LParen;
        InBalances(table, left, ts);
      }
    }
  }

  lemma CompareBalances(table: string, ts: seq<Tok>)
    ensures var r := PCompare(Sqlite, table, ts); r.Done? ==> Balances(ts, r.rest)
  {
    OperandBalances(table, ts);
    var r := POperand(Sqlite, table, ts);
    if r.Done? {
      ComparisonBalances(table, r.e, r.rest);
    }
  }

  lemma {:induction false} OrBalances(table: string, ts: seq<Tok>)
    ensures var r := POr(Sqlite, table, ts); r.Done? ==> Balances(ts, r.rest)
    decreases |ts|, 5
  {
    AndBalances(table, ts);
    var r := PAnd(Sqlite, table, ts);
    if r.Done? { OrRestBalances(table, [r.e], r.rest); }
  }

  lemma {:induction false} OrRestBalances(table: string, terms: seq<Expr>, ts: seq<Tok>)
    requires terms != []
    ensures var r := POrRest(Sqlite, table, terms, ts); r.Done? ==> Balances(ts, r.rest)
    decreases |ts|, 4
  {
    if Heads(Kw("or"), ts) {
      AndBalances(table, ts[1..]);
      var r := PAnd(Sqlite, table, ts[1..]);
      if r.Done? { OrRestBalances(table, terms + [r.e], r.rest); }
    }
  }

  lemma {:induction false} AndBalances(table: string, ts: seq<Tok>)
    ensures var r := PAnd(Sqlite, table, ts); r.Done? ==> Balances(ts, r.rest)
    decreases |ts|, 3
  {
    NotBalances(table, ts);
    var r := PNot(Sqlite, table, ts);
    if r.Done? { AndRestBalances(table, [r.e], r.rest); }
  }

  lemma {:induction false} AndRestBalances(table: string, terms: seq<Expr>, ts: seq<Tok>)
    requires terms != []
    ensures var r := PAndRest(Sqlite, table, terms, ts); r.Done? ==> Balances(ts, r.rest)
    decreases |ts|, 2
  {
    if Heads(Kw("and"), ts) {
      NotBalances(table, ts[1..]);
      var r := PNot(Sqlite, table, ts[1..]);
      if r.Done? { AndRestBalances(table, terms + [r.e], r.rest); }
    }
  }

  lemma {:induction false} NotBalances(table: string, ts: seq<Tok>)
    ensures var r := PNot(Sqlite, table, ts); r.Done? ==> Balances(ts, r.rest)
    decreases |ts|, 1
  {
    if Heads(Kw("not"), ts) {
      NotBalances(table, ts[1..]);
    } else if Heads(LParen, ts) {
      OrBalances(table, ts[1..]);
      var r := POr(Sqlite, table, ts[1..]);
      if r.Done? && Heads(RParen, r.rest) {
        forall depth: nat ensures Scan(ts, depth) == Scan(r.rest[1..], depth) {
          assert Scan(ts, depth) == Scan(ts[1..], depth + 1) == Scan(r.rest, depth + 1);
        }
      }
    } else {
      CompareBalances(table, ts);
    }
  }

  lemma ParsedIsBalanced(table: string, ts: seq<Tok>)
    requires Whole(POr(Sqlite, table, ts)).Some?
    ensures Scan(ts, 0) == Some(0)
  {
    OrBalances(table, ts);
  }

  // ---------------------------------------------------------------- dropping the outer characters

  lemma {:induction false} ScanDeeper(ts: seq<Tok>, depth: nat)
    requires Scan(ts, depth).Some?
    ensures Scan(ts, depth + 1) == Some(Scan(ts, depth).value + 1)
  {
    if ts != [] {
      ScanDeeper(ts[1..], if ts[0].LParen? then depth + 1 else if ts[0].RParen? then depth - 1 else depth);
    }
  }

  lemma {:induction false} ScanConcat(s: seq<Tok>, t: seq<Tok>, depth: nat)
    ensures Scan(s + t, depth) == match Scan(s, depth) case None => None case Some(k) => Scan(t, k)
  {
    if s == [] {
      assert s + t == t;
    } else {
      assert (s + t)[1..] == s[1..] + t;
      if s[0].LParen? { ScanConcat(s[1..], t, depth + 1); }
      else if s[0].RParen? { if depth > 0 { ScanConcat(s[1..], t, depth - 1); } }
      else { ScanConcat(s[1..], t, depth); }
    }
  }

  /** Dropping an outer pair cannot repair tokens that close a parenthesis too many. */
  lemma InnerStillUnderflows(inner: seq<Tok>)
    requires Scan([LParen] + inner + [RParen], 0) == None
    ensures Scan(inner, 0) == None
  {
    assert ([LParen] + inner + [RParen])[1..] == inner + [RParen];
    assert [RParen][1..] == [];
    ScanConcat(inner, [RParen], 1);
    if Scan(inner, 0).Some? { ScanDeeper(inner, 0); }
  }

  lemma TokTextEnds(d: Dialect, t: Tok)
    requires Lexable(d, t) || Unreadable(t)
    ensures var s := TokText(d, t);
            && s != [] && !IsSpace(s[0]) && !IsSpace(s[|s| - 1])
            && (s[0] == '(' <==> t == LParen) && (s[|s| - 1] == ')' <==> t == RParen)
  {
    if t.Kw? { KeywordsAreWords(d, t.v); }
  }

  lemma {:induction false} TextEnds(d: Dialect, ts: seq<Tok>)
    requires AllPrinted(d, ts) && ts != []
    ensures var s := TextOf(d, ts);
            && s != [] && !IsSpace(s[0]) && !IsSpace(s[|s| - 1])
            && (s[0] == '(' <==> ts[0] == LParen) && (s[|s| - 1] == ')' <==> ts[|ts| - 1] == RParen)
  {
    assert ts[0] in ts;
    TokTextEnds(d, ts[0]);
    if |ts| > 1 {
      TextEnds(d, ts[1..]);
      var tail := TextOf(d, ts[1..]);
      var s := TextOf(d, ts);
      assert s[|s| - 1] == tail[|tail| - 1];
    }
  }

  lemma {:induction false} TextConcat(d: Dialect, s: seq<Tok>, t: seq<Tok>)
    requires s != [] && t != []
    ensures TextOf(d, s + t) == TextOf(d, s) + ([' '] + TextOf(d, t))
  {
    hide TokText;
    TailOfConcat(s, t);
    if |s| > 1 {
      TextConcat(d, s[1..], t);
    } else {
      assert s[1..] + t == t;
    }
  }

  lemma TrimPadded(s: string)
    requires s == [] || (!IsSpace(s[0]) && !IsSpace(s[|s| - 1]))
    ensures Trim(s) == s
    ensures s != [] ==> Trim([' '] + s + [' ']) == s
    ensures Trim([' ']) == []
  {
    if s != [] {
      var p := [' '] + s + [' '];
      assert p[1..] == s + [' '];
      assert TrimLeft(p) == s + [' '];
      assert (s + [' '])[..|s|] == s;
    }
    assert [' '][1..] == [];
  }

  /** What is left of a token text without its outer parentheses is the text of the inner tokens. */
  lemma InnerText(d: Dialect, inner: seq<Tok>)
    requires AllPrinted(d, inner)
    ensures var s := TextOf(d, [LParen] + inner + [RParen]);
            |s| >= 2 && Trim(s[1..|s| - 1]) == TextOf(d, inner)
  {
    var s := TextOf(d, [LParen] + inner + [RParen]);
    assert TextOf(d, [RParen]) == [')'] && TextOf(d, [LParen]) == ['('];
    if inner == [] {
      assert [LParen] + inner + [RParen] == [LParen] + [RParen];
      TextConcat(d, [LParen], [RParen]);
      assert s[1..|s| - 1] == [' '];
      TrimPadded([]);
    } else {
      TextEnds(d, inner);
      assert [LParen] + inner + [RParen] == [LParen] + (inner + [RParen]);
      TextConcat(d, [LParen], inner + [RParen]);
      TextConcat(d, inner, [RParen]);
      var t := TextOf(d, inner);
      assert s[1..|s| - 1] == [' '] + t + [' '];
      TrimPadded(t);
    }
  }

  /** Tokens that close a parenthesis too many are refused, whatever is dropped around them. */
  lemma UnwrappedRefused(table: string, ts: seq<Tok>)
    requires AllLexable(Sqlite, ts) && Scan(ts, 0) == None && !Wrapped(TextOf(Sqlite, ts))
    ensures ParseTokens(Sqlite, table, Lex(Sqlite, Strip(TextOf(Sqlite, ts)))) == None
  {
    TextLexes(Sqlite, ts);
    if Whole(POr(Sqlite, table, ts)).Some? { ParsedIsBalanced(table, ts); }
  }

  lemma {:induction false} UnderflowRefused(table: string, ts: seq<Tok>)
    requires AllLexable(Sqlite, ts) && Scan(ts, 0) == None
    ensures ParseTokens(Sqlite, table, Lex(Sqlite, Strip(TextOf(Sqlite, ts)))) == None
    decreases |ts|
  {
    hide Lex, ParseTokens, Scan;
    var s := TextOf(Sqlite, ts);
    if Wrapped(s) {
      TextEnds(Sqlite, ts);
      TwoEnds(ts, s);
      var inner := ts[1..|ts| - 1];
      assert ts == [LParen] + inner + [RParen];
      InnerText(Sqlite, inner);
      InnerStillUnderflows(inner);
      UnderflowRefused(table, inner);
    } else {
      UnwrappedRefused(table, ts);
    }
  }

  /** Numbers with a sign or an exponent are refused, whatever is dropped around them. */
  lemma {:induction false} SignedRefused(ts: seq<Tok>)
    requires AllPrinted(Sqlite, ts) && !AllLexable(Sqlite, ts)
    ensures Lex(Sqlite, Strip(TextOf(Sqlite, ts))) == None
    decreases |ts|
  {
    hide *;
    var s := TextOf(Sqlite, ts);
    NoneLexable();
    StripOnce(s);
    if Wrapped(s) {
      TextEnds(Sqlite, ts);
      WrappedEnds(s);
      TwoEnds(ts, s);
      var inner := ts[1..|ts| - 1];
      InnerPrinted(ts);
      InnerText(Sqlite, inner);
      SignedRefused(inner);
    } else {
      UnreadableRefused(Sqlite, ts);
    }
  }

  lemma NoneLexable()
    ensures AllLexable(Sqlite, [])
  {}

  lemma StripOnce(s: string)
    ensures Strip(s) == if Wrapped(s) then Strip(Trim(s[1..|s| - 1])) else s
  {
    hide BalancedFrom, Trim;
  }

  lemma WrappedEnds(s: string)
    requires Wrapped(s)
    ensures |s| >= 2 && s[0] == '(' && s[|s| - 1] == ')'
  {}

  lemma InnerPrinted(ts: seq<Tok>)
    requires AllPrinted(Sqlite, ts) && !AllLexable(Sqlite, ts)
    requires |ts| >= 2 && ts[0] == LParen && ts[|ts| - 1] == RParen
    ensures var inner := ts[1..|ts| - 1];
            ts == [LParen] + inner + [RParen] && AllPrinted(Sqlite, inner) && !AllLexable(Sqlite, inner)
  {
    var inner := ts[1..|ts| - 1];
    assert ts == [LParen] + inner + [RParen];
    assert Lexable(Sqlite, LParen) && Lexable(Sqlite, RParen);
    ConcatPrinted(Sqlite, [LParen] + inner, [RParen]);
    ConcatPrinted(Sqlite, [LParen], inner);
    hide Unreadable;
  }

  lemma TwoEnds(ts: seq<Tok>, s: string)
    requires ts != [] && ts[0] == LParen && ts[|ts| - 1] == RParen
    ensures |ts| >= 2
  {}

  // ---------------------------------------------------------------- the printed text

  lemma {:induction false} OperandScan(table: string, e: Expr)
    requires PortableOperand(Sqlite, e)
    ensures Balances(OperandToks(Sqlite, table, e), []) && OperandToks(Sqlite, table, e)[0] != LParen
  {
    var ts := OperandToks(Sqlite, table, e);
    assert forall i | 0 <= i < |ts| :: !ts[i].LParen? && !ts[i].RParen?;
    NoParensScan(ts);
  }

  lemma {:induction false} NoParensScan(ts: seq<Tok>)
    requires forall i | 0 <= i < |ts| :: !ts[i].LParen? && !ts[i].RParen?
    ensures Balances(ts, [])
  {
    if ts != [] { NoParensScan(ts[1..]); }
  }

  /** The first parenthesis of a printed condition is closed before the condition ends. */
  lemma {:induction false} FirstParenClosesEarly(table: string, e: Expr)
    requires Portable(Sqlite, e)
    ensures var ts := Body(Sqlite, table, e);
            && ts != []
            && (ts[0] == LParen ==> exists n: nat :: n + 1 < |ts| && CloseAt(ts, n))
    decreases e
  {
    if e.Logic? {
      var t, more := e.terms[0], MoreTerms(Sqlite, table, e.op, e.terms[1..]);
      var ts := Body(Sqlite, table, e);
      assert t in e.terms && e.terms[1] in e.terms[1..];
      assert more != [];
      if NeedsParens(t, Inner(e.op)) {
        var inside := Body(Sqlite, table, t);
        BodyBalances(table, t);
        ScanConcat(inside, [RParen], 0);
        var n := |inside| + 1;
        assert Render(Sqlite, table, t, Inner(e.op)) == [LParen] + (inside + [RParen]);
        assert ts == [LParen] + inside + [RParen] + more;
        assert ts[1..n + 1] == inside + [RParen];
        assert [RParen][1..] == [];
        assert CloseAt(ts, n);
      } else {
        FirstParenClosesEarly(table, t);
        if ts[0] == LParen {
          var n: nat :| n + 1 < |Body(Sqlite, table, t)| && CloseAt(Body(Sqlite, table, t), n);
          assert ts[1..n + 1] == Body(Sqlite, table, t)[1..n + 1];
          assert CloseAt(ts, n);
        }
      }
    } else if e.Compare? {
      OperandScan(table, e.left);
      assert Body(Sqlite, table, e)[0] == OperandToks(Sqlite, table, e.left)[0];
    }
  }

  /** Reading on from the first token, the token at `n` closes what the first one opened. */
  predicate CloseAt(ts: seq<Tok>, n: nat) {
    n < |ts| && Scan(ts[1..n + 1], 0) == None
  }

  lemma {:induction false} BodyBalances(table: string, e: Expr)
    requires Portable(Sqlite, e)
    ensures Scan(Body(Sqlite, table, e), 0) == Some(0)
    decreases e
  {
    TokensRoundTrip(Sqlite, table, e);
    ParsedIsBalanced(table, Render(Sqlite, table, e, 0));
  }

  lemma {:induction false} UnderflowStays(s: seq<Tok>, t: seq<Tok>)
    requires Scan(s, 0) == None
    ensures Scan(s + t, 0) == None
  {
    ScanConcat(s, t, 0);
  }

  /**
   * For a portable expression, SQLite's parser gives the expression back exactly when none of its
   * numbers has a sign or an exponent and the guard that drops outer parentheses does not fire on the
   * printed text; otherwise it refuses.
   */
  lemma SqliteRoundTrip(table: string, e: Expr)
    requires Portable(Sqlite, e)
    ensures ParseText(Sqlite, Print(Sqlite, table, e), table)
         == if PlainNumbers(e) && !Wrapped(Print(Sqlite, table, e)) then Some(e) else None
  {
    var ts := Render(Sqlite, table, e, 0);
    var s := Print(Sqlite, table, e);
    RenderPrinted(Sqlite, table, e, 0);
    FirstParenClosesEarly(table, e);
    TextEnds(Sqlite, ts);
    TrimPadded(s);
    if !PlainNumbers(e) {
      SignedRefused(ts);
    } else {
      PlainRoundTrip(table, e);
    }
  }

  lemma PlainRoundTrip(table: string, e: Expr)
    requires Portable(Sqlite, e) && PlainNumbers(e)
    ensures ParseText(Sqlite, Print(Sqlite, table, e), table)
         == if Wrapped(Print(Sqlite, table, e)) then None else Some(e)
  {
    var ts := Render(Sqlite, table, e, 0);
    var s := Print(Sqlite, table, e);
    RenderPrinted(Sqlite, table, e, 0);
    TextLexes(Sqlite, ts);
    TokensRoundTrip(Sqlite, table, e);
    FirstParenClosesEarly(table, e);
    TextEnds(Sqlite, ts);
    TrimPadded(s);
    if Wrapped(s) {
      var n: nat :| n + 1 < |ts| && CloseAt(ts, n);
      EarlyCloseRefused(table, ts, n);
    }
  }

  lemma EarlyCloseUnderflows(ts: seq<Tok>, n: nat)
    requires n + 1 < |ts| && CloseAt(ts, n)
    ensures Scan(ts[1..|ts| - 1], 0) == None
  {
    assert ts[1..|ts| - 1] == ts[1..n + 1] + ts[n + 1..|ts| - 1];
    UnderflowStays(ts[1..n + 1], ts[n + 1..|ts| - 1]);
  }

  lemma EarlyCloseRefused(table: string, ts: seq<Tok>, n: nat)
    requires AllLexable(Sqlite, ts) && n + 1 < |ts| && CloseAt(ts, n)
    requires ts[0] == LParen && ts[|ts| - 1] == RParen
    ensures Wrapped(TextOf(Sqlite, ts)) ==> ParseTokens(Sqlite, table, Lex(Sqlite, Strip(TextOf(Sqlite, ts)))) == None
  {
    hide *;
    EarlyCloseUnderflows(ts, n);
    InnerTokens(ts);
    if Wrapped(TextOf(Sqlite, ts)) {
      DroppedRefused(table, ts[1..|ts| - 1]);
    }
  }

  lemma InnerTokens(ts: seq<Tok>)
    requires AllLexable(Sqlite, ts) && |ts| >= 2 && ts[0] == LParen && ts[|ts| - 1] == RParen
    ensures AllLexable(Sqlite, ts[1..|ts| - 1]) && ts == [LParen] + ts[1..|ts| - 1] + [RParen]
  {}

  lemma DroppedRefused(table: string, inner: seq<Tok>)
    requires AllLexable(Sqlite, inner) && Scan(inner, 0) == None
    requires Wrapped(TextOf(Sqlite, [LParen] + inner + [RParen]))
    ensures ParseTokens(Sqlite, table, Lex(Sqlite, Strip(TextOf(Sqlite, [LParen] + inner + [RParen])))) == None
  {
    InnerText(Sqlite, inner);
    UnderflowRefused(table, inner);
  }
}
