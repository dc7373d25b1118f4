/**
 * A printer for portable expressions, with only the parentheses that OR < AND < NOT needs, and
 * the proof that the parsers invert it on tokens.
 */
module CheckPrinter {
  import opened Text
  import opened Numbers
  import opened CanonicalJson
  import opened Expressions
  import opened CheckLexer
  import opened CheckParser

  // ---------------------------------------------------------------- what can be printed

  /** A number that is written without a sign or an exponent. */
  predicate PlainNumber(n: Number) {
    n.coefficient >= 0 && 'e' !in NumberText(n)
  }

  /** The scalars. */
  predicate PortableLiteral(v: Json) {
    !v.Arr? && !v.Obj?
  }

  predicate PlainLiteral(v: Json) {
    match v
    case Num(n) => PlainNumber(n)
    case Arr(items) => forall i | i in items :: i.Num? ==> PlainNumber(i.n)
    case _ => true
  }

  /** No number of the expression has a sign or an exponent. */
  predicate PlainNumbers(e: Expr) {
    match e
    case Literal(v) => PlainLiteral(v)
    case Not(t) => PlainNumbers(t)
    case Compare(_, l, r) => PlainNumbers(l) && PlainNumbers(r)
    case Logic(_, ts) => forall t | t in ts :: PlainNumbers(t)
    case _ => true
  }

  /** A name that one of the dialect's quotes can hold. */
  predicate PortableName(d: Dialect, name: string) {
    '"' !in name || (d.Sqlite? && ('`' !in name || ']' !in name))
  }

  predicate PortableOperand(d: Dialect, e: Expr) {
    match e
    case Column(t, n) => PortableName(d, t) && PortableName(d, n)
    case Literal(v) => PortableLiteral(v)
    case _ => false
  }

  predicate PortableCompare(d: Dialect, e: Expr)
    requires e.Compare?
  {
    PortableOperand(d, e.left)
    && match e.cmp
       case Is => e.right == Literal(Null)
       case In =>
         e.right.Literal? && e.right.value.Arr? && e.right.value.items != []
         && forall v | v in e.right.value.items :: PortableLiteral(v)
       case ILike => d.Postgres? && PortableOperand(d, e.right)
       case _ => PortableOperand(d, e.right)
  }

  /** The expressions the dialect's CHECK syntax can say. */
  predicate Portable(d: Dialect, e: Expr) {
    match e
    case Compare(_, _, _) => PortableCompare(d, e)
    case Not(t) => Portable(d, t)
    case Logic(_, ts) => |ts| >= 2 && forall t | t in ts :: Portable(d, t)
    case _ => false
  }

  // ---------------------------------------------------------------- tokens

  function LiteralToks(d: Dialect, v: Json): seq<Tok>
    requires PortableLiteral(v)
  {
    match v
    case Null => [Kw("null")]
    case Bool(b) => [Kw(if b then "true" else "false")]
    case Num(n) => [NumberTok(NumberText(n))]
    case Str(s) => if d.Postgres? then [StringTok(s), Cast, Ident("text")] else [StringTok(s)]
  }

  function OperandToks(d: Dialect, table: string, e: Expr): seq<Tok>
    requires PortableOperand(d, e)
  {
    match e
    case Column(t, n) => if t == table then [Ident(n)] else [Ident(t), Dot, Ident(n)]
    case Literal(v) => LiteralToks(d, v)
  }

  function MoreItems(d: Dialect, items: seq<Json>): seq<Tok>
    requires forall v | v in items :: PortableLiteral(v)
  {
    if items == [] then [] else [Comma] + LiteralToks(d, items[0]) + MoreItems(d, items[1..])
  }

  function OpText(c: CompareOp): string {
    match c
    case Eq => "=" case Neq => "<>" case Gt => ">" case Gte => ">=" case Lt => "<" case Lte => "<="
    case Like => "~~" case ILike => "~~*" case _ => ""
  }

  /** What stands between the two sides of a comparison. */
  function OpToks(d: Dialect, c: CompareOp): seq<Tok> {
    match c
    case Is => [Kw("is"), Kw("null")]
    case In => if d.Sqlite? then [Kw("in"), LParen] else [OpTok("="), Kw("any"), LParen, Kw("array"), LBracket]
    case Like => if d.Sqlite? then [Kw("like")] else [OpTok(OpText(c))]
    case _ => [OpTok(OpText(c))]
  }

  function ListClose(d: Dialect): seq<Tok> {
    if d.Sqlite? then [RParen] else [RBracket, RParen]
  }

  function RightToks(d: Dialect, table: string, e: Expr): seq<Tok>
    requires e.Compare? && PortableCompare(d, e)
  {
    match e.cmp
    case Is => []
    case In => LiteralToks(d, e.right.value.items[0]) + MoreItems(d, e.right.value.items[1..]) + ListClose(d)
    case _ => OperandToks(d, table, e.right)
  }

  function CompareToks(d: Dialect, table: string, e: Expr): seq<Tok>
    requires e.Compare? && PortableCompare(d, e)
  {
    OperandToks(d, table, e.left) + (OpToks(d, e.cmp) + RightToks(d, table, e))
  }

  /** How tightly the terms of and/or must bind. */
  function Inner(op: LogicOp): nat {
    if op.And? then 2 else 1
  }

  predicate NeedsParens(e: Expr, level: nat) {
    e.Logic? && level >= Inner(e.op)
  }

  function Render(d: Dialect, table: string, e: Expr, level: nat): seq<Tok>
    requires Portable(d, e)
    decreases e, 1
  {
    if NeedsParens(e, level) then [LParen] + (Body(d, table, e) + [RParen]) else Body(d, table, e)
  }

  function Body(d: Dialect, table: string, e: Expr): seq<Tok>
    requires Portable(d, e)
    decreases e, 0
  {
    match e
    case Compare(_, _, _) => CompareToks(d, table, e)
    case Not(t) => [Kw("not")] + Render(d, table, t, 2)
    case Logic(op, ts) => Render(d, table, ts[0], Inner(op)) + MoreTerms(d, table, op, ts[1..])
  }

  function MoreTerms(d: Dialect, table: string, op: LogicOp, ts: seq<Expr>): seq<Tok>
    requires forall t | t in ts :: Portable(d, t)
    decreases ts, 2
  {
    if ts == [] then []
    else [Kw(LogicText(op))] + (Render(d, table, ts[0], Inner(op)) + MoreTerms(d, table, op, ts[1..]))
  }

  // ---------------------------------------------------------------- operands parse back

  /** Tokens that may follow an operand without being taken as part of it. */
  predicate AfterOperand(rest: seq<Tok>) {
    rest == [] || !(rest[0].Dot? || rest[0].LParen? || rest[0].LBracket? || rest[0].Cast?)
  }

  lemma CastDropped(e: Expr, rest: seq<Tok>)
    requires AfterOperand(rest)
    ensures WithoutCasts(Done(e, [Cast, Ident("text")] + rest)) == Done(e, rest)
  {
    var ts := [Cast, Ident("text")] + rest;
    assert ts[1..] == [Ident("text")] + rest && ([Ident("text")] + rest)[1..] == rest;
    assert SkipType(ts[1..]) == Some(rest);
    assert StripCasts(rest) == Some(rest);
    assert StripCasts(ts) == StripCasts(rest);
  }

  lemma LiteralParses(d: Dialect, table: string, v: Json, rest: seq<Tok>)
    requires PortableLiteral(v) && AfterOperand(rest)
    ensures POperand(d, table, LiteralToks(d, v) + rest) == Done(Literal(v), rest)
  {
    hide PColumn, NumberText, ParseNumber;
    var ts := LiteralToks(d, v) + rest;
    if v.Num? { ParseNumberText(v.n); }
    assert LiteralOf(ts[0]) == Some(Literal(v));
    if d.Postgres? && v.Str? {
      assert ts[1..] == [Cast, Ident("text")] + rest;
      CastDropped(Literal(v), rest);
    } else {
      assert ts[1..] == rest;
    }
  }

  lemma OperandParses(d: Dialect, table: string, e: Expr, rest: seq<Tok>)
    requires PortableOperand(d, e) && AfterOperand(rest)
    ensures POperand(d, table, OperandToks(d, table, e) + rest) == Done(e, rest)
  {
    if e.Literal? {
      LiteralParses(d, table, e.value, rest);
    } else {
      var ts := OperandToks(d, table, e) + rest;
      if e.table == table {
        assert ts[1..] == rest;
      } else {
        assert ts[1..] == [Dot, Ident(e.name)] + rest && ts[1..][2..] == rest;
      }
      assert PColumn(table, ts[0].v, ts[1..]) == Done(e, rest);
    }
  }

  lemma ItemParses(d: Dialect, table: string, done: seq<Json>, v: Json, rest: seq<Tok>)
    requires PortableLiteral(v) && AfterOperand(rest)
    ensures PItems(d, table, done, [Comma] + LiteralToks(d, v) + rest) == PItems(d, table, done + [v], rest)
  {
    var ts := [Comma] + LiteralToks(d, v) + rest;
    assert ts[1..] == LiteralToks(d, v) + rest;
    LiteralParses(d, table, v, rest);
  }

  lemma {:induction false} ItemsParse(d: Dialect, table: string, done: seq<Json>, items: seq<Json>, rest: seq<Tok>)
    requires forall v | v in items :: PortableLiteral(v)
    requires AfterOperand(rest) && !Heads(Comma, rest)
    ensures PItems(d, table, done, MoreItems(d, items) + rest) == Done(Literal(Arr(done + items)), rest)
    decreases |items|
  {
    hide POperand;
    if items == [] {
      assert MoreItems(d, items) + rest == rest && done + items == done;
    } else {
      MoreItemsSplit(d, items, rest);
      AfterItems(d, items[1..], rest);
      ItemParses(d, table, done, items[0], MoreItems(d, items[1..]) + rest);
      ItemsParse(d, table, done + [items[0]], items[1..], rest);
      TakeOne(done, items);
    }
  }

  lemma MoreItemsSplit(d: Dialect, items: seq<Json>, rest: seq<Tok>)
    requires items != [] && forall v | v in items :: PortableLiteral(v)
    ensures PortableLiteral(items[0]) && forall v | v in items[1..] :: PortableLiteral(v)
    ensures MoreItems(d, items) + rest == [Comma] + LiteralToks(d, items[0]) + (MoreItems(d, items[1..]) + rest)
  {
    assert items[0] in items;
  }

  lemma AfterItems(d: Dialect, items: seq<Json>, rest: seq<Tok>)
    requires forall v | v in items :: PortableLiteral(v)
    requires AfterOperand(rest)
    ensures AfterOperand(MoreItems(d, items) + rest)
  {
    assert items == [] ==> MoreItems(d, items) + rest == rest;
  }

  lemma ListParses(d: Dialect, table: string, items: seq<Json>, rest: seq<Tok>)
    requires items != [] && forall v | v in items :: PortableLiteral(v)
    requires AfterOperand(rest) && !Heads(Comma, rest)
    ensures PList(d, table, LiteralToks(d, items[0]) + (MoreItems(d, items[1..]) + rest)) == Done(Literal(Arr(items)), rest)
  {
    assert items[0] in items;
    AfterItems(d, items[1..], rest);
    LiteralParses(d, table, items[0], MoreItems(d, items[1..]) + rest);
    ItemsParse(d, table, [items[0]], items[1..], rest);
    assert [items[0]] + items[1..] == items;
  }

  lemma InParses(d: Dialect, table: string, left: Expr, items: seq<Json>, rest: seq<Tok>)
    requires items != [] && forall v | v in items :: PortableLiteral(v)
    ensures PIn(d, table, left, LiteralToks(d, items[0]) + MoreItems(d, items[1..]) + ListClose(d) + rest, ListClose(d))
         == Done(Compare(In, left, Literal(Arr(items))), rest)
  {
    var close := ListClose(d) + rest;
    assert items[0] in items;
    ListParses(d, table, items, close);
    hide LiteralToks, MoreItems, PList, PortableLiteral;
    assert LiteralToks(d, items[0]) + MoreItems(d, items[1..]) + ListClose(d) + rest
        == LiteralToks(d, items[0]) + (MoreItems(d, items[1..]) + close);
    assert close[..|ListClose(d)|] == ListClose(d) && close[|ListClose(d)|..] == rest;
  }

  // ---------------------------------------------------------------- comparisons parse back

  /** Tokens that may follow a whole condition. */
  predicate Ends(rest: seq<Tok>) {
    rest == [] || rest[0] == RParen || rest[0] == Kw("and") || rest[0] == Kw("or")
  }

  lemma SimpleParses(d: Dialect, table: string, e: Expr, rest: seq<Tok>)
    requires e.Compare? && PortableCompare(d, e) && !e.cmp.Is? && !e.cmp.In? && Ends(rest)
    ensures PComparison(d, table, e.left, OpToks(d, e.cmp) + RightToks(d, table, e) + rest) == Done(e, rest)
  {
    hide POperand, PColumn;
    var ts := OpToks(d, e.cmp) + RightToks(d, table, e) + rest;
    assert ts[1..] == OperandToks(d, table, e.right) + rest;
    OperandParses(d, table, e.right, rest);
    assert !OpensAny(d, ts) by { assert OperandToks(d, table, e.right)[0] != Kw("any"); }
  }

  lemma InHead(d: Dialect, table: string, left: Expr, ts: seq<Tok>)
    ensures PComparison(d, table, left, OpToks(d, In) + ts) == PIn(d, table, left, ts, ListClose(d))
  {
    var toks := OpToks(d, In) + ts;
    assert toks[|OpToks(d, In)|..] == ts;
    if d.Sqlite? {
      assert toks[0] == Kw("in") && toks[1] == LParen;
    } else {
      assert toks[0] == OpTok("=") && toks[1] == Kw("any") && toks[2] == LParen && toks[3] == Kw("array")
          && toks[4] == LBracket;
    }
  }

  lemma ListComparisonParses(d: Dialect, table: string, e: Expr, rest: seq<Tok>)
    requires e.Compare? && PortableCompare(d, e) && e.cmp.In?
    ensures PComparison(d, table, e.left, OpToks(d, In) + RightToks(d, table, e) + rest) == Done(e, rest)
  {
    var items := e.right.value.items;
    InParses(d, table, e.left, items, rest);
    InHead(d, table, e.left, RightToks(d, table, e) + rest);
    assert OpToks(d, In) + RightToks(d, table, e) + rest == OpToks(d, In) + (RightToks(d, table, e) + rest);
  }

  lemma ComparisonParses(d: Dialect, table: string, e: Expr, rest: seq<Tok>)
    requires e.Compare? && PortableCompare(d, e) && Ends(rest)
    ensures PComparison(d, table, e.left, OpToks(d, e.cmp) + RightToks(d, table, e) + rest) == Done(e, rest)
  {
    if e.cmp.Is? {
      var ts := OpToks(d, Is) + RightToks(d, table, e) + rest;
      assert ts[1..] == [Kw("null")] + rest && ts[1..][1..] == rest;
    } else if e.cmp.In? {
      ListComparisonParses(d, table, e, rest);
    } else {
      SimpleParses(d, table, e, rest);
    }
  }

  lemma CompareParses(d: Dialect, table: string, e: Expr, rest: seq<Tok>)
    requires e.Compare? && PortableCompare(d, e) && Ends(rest)
    ensures PPrimary(d, table, CompareToks(d, table, e) + rest) == Done(e, rest)
    ensures CompareToks(d, table, e)[0] != Kw("not")
  {
    var left, after := OperandToks(d, table, e.left), OpToks(d, e.cmp) + RightToks(d, table, e) + rest;
    assert CompareToks(d, table, e) + rest == left + after;
    OperandHead(d, table, e.left);
    AfterLeft(d, table, e, rest);
    hide OperandToks, OpToks, RightToks, POperand, PComparison, PortableOperand;
    OperandParses(d, table, e.left, after);
    ComparisonParses(d, table, e, rest);
    assert (left + after)[0] == left[0];
  }

  lemma OperandHead(d: Dialect, table: string, e: Expr)
    requires PortableOperand(d, e)
    ensures var ts := OperandToks(d, table, e); ts != [] && ts[0] != Kw("not") && ts[0] != LParen
  {}

  lemma AfterLeft(d: Dialect, table: string, e: Expr, rest: seq<Tok>)
    requires e.Compare? && PortableCompare(d, e)
    ensures AfterOperand(OpToks(d, e.cmp) + RightToks(d, table, e) + rest)
  {
    assert (OpToks(d, e.cmp) + RightToks(d, table, e) + rest)[0] == OpToks(d, e.cmp)[0];
    hide RightToks;
  }

  // ---------------------------------------------------------------- conditions parse back

  /** The parser that reads what is printed at a level. */
  function PLevel(d: Dialect, table: string, level: nat, ts: seq<Tok>): Parsed {
    if level == 0 then POr(d, table, ts) else if level == 1 then PAnd(d, table, ts) else PNot(d, table, ts)
  }

  /** Tokens after which the parser of a level stops. */
  predicate EndsLevel(level: nat, rest: seq<Tok>) {
    Ends(rest) && (level == 0 ==> !Heads(Kw("or"), rest)) && (level <= 1 ==> !Heads(Kw("and"), rest))
  }

  lemma LiftLevel(d: Dialect, table: string, e: Expr, ts: seq<Tok>, level: nat, rest: seq<Tok>)
    requires PNot(d, table, ts) == Done(e, rest) && EndsLevel(level, rest)
    ensures PLevel(d, table, level, ts) == Done(e, rest)
  {
    if level <= 1 {
      assert PAndRest(d, table, [e], rest) == Done(e, rest);
      assert PAnd(d, table, ts) == Done(e, rest);
      if level == 0 {
        assert POrRest(d, table, [e], rest) == Done(e, rest);
      }
    }
  }

  lemma {:induction false} RenderParses(d: Dialect, table: string, e: Expr, level: nat, rest: seq<Tok>)
    requires Portable(d, e) && EndsLevel(level, rest)
    ensures PLevel(d, table, level, Render(d, table, e, level) + rest) == Done(e, rest)
    decreases e, 1
  {
    var ts := Render(d, table, e, level) + rest;
    if NeedsParens(e, level) {
      var inside := Body(d, table, e) + ([RParen] + rest);
      assert ts[1..] == inside;
      LogicParses(d, table, e, 0, [RParen] + rest);
      assert ([RParen] + rest)[1..] == rest;
      assert PPrimary(d, table, ts) == Done(e, rest);
      LiftLevel(d, table, e, ts, level, rest);
    } else if e.Logic? {
      LogicParses(d, table, e, level, rest);
    } else {
      PlainParses(d, table, e, rest);
      LiftLevel(d, table, e, ts, level, rest);
    }
  }

  lemma {:induction false} PlainParses(d: Dialect, table: string, e: Expr, rest: seq<Tok>)
    requires Portable(d, e) && !e.Logic? && Ends(rest)
    ensures PNot(d, table, Body(d, table, e) + rest) == Done(e, rest)
    decreases e, 0
  {
    var ts := Body(d, table, e) + rest;
    if e.Compare? {
      CompareParses(d, table, e, rest);
      assert ts[0] == CompareToks(d, table, e)[0];
    } else {
      assert ts[1..] == Render(d, table, e.term, 2) + rest;
      RenderParses(d, table, e.term, 2, rest);
    }
  }

  function PRest(d: Dialect, table: string, op: LogicOp, done: seq<Expr>, ts: seq<Tok>): Parsed
    requires done != []
  {
    if op.And? then PAndRest(d, table, done, ts) else POrRest(d, table, done, ts)
  }

  lemma RestEnds(d: Dialect, table: string, op: LogicOp, done: seq<Expr>, rest: seq<Tok>)
    requires done != [] && EndsLevel(Inner(op) - 1, rest)
    ensures PRest(d, table, op, done, rest) == Done(Joined(op, done), rest)
  {}

  lemma RestTakes(d: Dialect, table: string, op: LogicOp, done: seq<Expr>, e: Expr, ts: seq<Tok>, next: seq<Tok>)
    requires done != [] && PLevel(d, table, Inner(op), ts) == Done(e, next)
    ensures PRest(d, table, op, done, [Kw(LogicText(op))] + ts) == PRest(d, table, op, done + [e], next)
  {
    hide PNot, POr;
    assert ([Kw(LogicText(op))] + ts)[1..] == ts;
  }

  /** The loop of an and/or level picks up the remaining terms. */
  lemma {:induction false} MoreParse(d: Dialect, table: string, op: LogicOp, done: seq<Expr>, ts: seq<Expr>, rest: seq<Tok>)
    requires done != [] && (forall t | t in ts :: Portable(d, t)) && EndsLevel(Inner(op) - 1, rest)
    ensures PRest(d, table, op, done, MoreTerms(d, table, op, ts) + rest) == Done(Joined(op, done + ts), rest)
    decreases ts, 2
  {
    hide PRest, PLevel, Render, Portable, Joined;
    var toks := MoreTerms(d, table, op, ts) + rest;
    if ts == [] {
      RestEnds(d, table, op, done, rest);
      assert toks == rest && done + ts == done;
    } else {
      var next := MoreTerms(d, table, op, ts[1..]) + rest;
      assert ts[0] in ts;
      assert toks == [Kw(LogicText(op))] + (Render(d, table, ts[0], Inner(op)) + next);
      AfterTerm(d, table, op, ts[1..], rest);
      RenderParses(d, table, ts[0], Inner(op), next);
      RestTakes(d, table, op, done, ts[0], Render(d, table, ts[0], Inner(op)) + next, next);
      MoreParse(d, table, op, done + [ts[0]], ts[1..], rest);
      TakeOne(done, ts);
    }
  }

  lemma AfterTerm(d: Dialect, table: string, op: LogicOp, ts: seq<Expr>, rest: seq<Tok>)
    requires (forall t | t in ts :: Portable(d, t)) && EndsLevel(Inner(op) - 1, rest)
    ensures EndsLevel(Inner(op), MoreTerms(d, table, op, ts) + rest)
  {
    if ts == [] {
      assert MoreTerms(d, table, op, ts) + rest == rest;
    } else {
      assert (MoreTerms(d, table, op, ts) + rest)[0] == Kw(LogicText(op));
    }
  }

  lemma {:induction false} LogicParses(d: Dialect, table: string, e: Expr, level: nat, rest: seq<Tok>)
    requires Portable(d, e) && e.Logic? && level < Inner(e.op) && EndsLevel(level, rest)
    ensures PLevel(d, table, level, Body(d, table, e) + rest) == Done(e, rest)
    decreases e, 0
  {
    hide Render, MoreTerms, PNot, PPrimary;
    var op, ts := e.op, e.terms;
    var next := MoreTerms(d, table, op, ts[1..]) + rest;
    assert ts[0] in ts;
    assert Body(d, table, e) + rest == Render(d, table, ts[0], Inner(op)) + next;
    AfterTerm(d, table, op, ts[1..], rest);
    RenderParses(d, table, ts[0], Inner(op), next);
    MoreParse(d, table, op, [ts[0]], ts[1..], rest);
    assert [ts[0]] + ts[1..] == ts;
    if op.And? && level == 0 {
      assert PAnd(d, table, Body(d, table, e) + rest) == Done(e, rest);
      assert POrRest(d, table, [e], rest) == Done(e, rest);
    }
  }

  /** Parsing the printed tokens of a portable expression gives the expression back. */
  lemma TokensRoundTrip(d: Dialect, table: string, e: Expr)
    requires Portable(d, e)
    ensures Whole(POr(d, table, Render(d, table, e, 0))) == Some(e)
  {
    RenderParses(d, table, e, 0, []);
    assert Render(d, table, e, 0) + [] == Render(d, table, e, 0);
  }
}
