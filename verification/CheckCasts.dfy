/**
 * CHECK conditions as PostgreSQL prints them: with casts on operands, and with parentheses around
 * a cast operand and around conditions. Exactly those are read back whose left operands are not in
 * parentheses, whose lists are not cast and whose cast types are a single name.
 */
module CheckCasts {
  import opened Text
  import opened Numbers
  import opened CanonicalJson
  import opened Expressions
  import opened CheckLexer
  import opened CheckParser
  import opened CheckPrinter
  import opened CheckText

  // ---------------------------------------------------------------- what PostgreSQL prints

  /** `schema.name words (sizes) suffix []`, as in `timestamp(3) with time zone` or `double precision[]`. */
  datatype CastType = CastType(schema: Option<string>, name: string, words: seq<string>, sizes: seq<string>,
                               suffix: seq<string>, isArray: bool)

  /** An operand: a column or literal, cast, or in parentheses. */
  datatype Side = Bare(e: Expr) | Casted(side: Side, to: CastType) | Grouped(side: Side)

  datatype Condition =
    | Test(op: CompareOp, left: Side, right: Side)
    | NullTest(left: Side, negated: bool)
    | Member(left: Side, items: seq<Side>, listCast: Option<CastType>)
    | Negated(term: Condition)
    | Joint(logic: LogicOp, terms: seq<Condition>)
    | Parens(term: Condition)

  predicate ReadableBare(e: Expr) {
    e.Column? || (e.Literal? && PortableLiteral(e.value) && PlainLiteral(e.value))
  }

  predicate ReadableSide(s: Side) {
    match s
    case Bare(e) => ReadableBare(e)
    case Casted(t, _) => ReadableSide(t)
    case Grouped(t) => ReadableSide(t)
  }

  /** The operand without its casts and parentheses. */
  function Base(s: Side): Expr {
    match s
    case Bare(e) => e
    case Casted(t, _) => Base(t)
    case Grouped(t) => Base(t)
  }

  /** Comparisons of operands, lists of literals, and and/or of at least two terms. */
  predicate Readable(c: Condition) {
    match c
    case Test(op, left, right) => !op.Is? && !op.In? && ReadableSide(left) && ReadableSide(right)
    case NullTest(left, _) => ReadableSide(left)
    case Member(left, items, _) =>
      ReadableSide(left) && items != [] && forall i | i in items :: ReadableSide(i) && Base(i).Literal?
    case Negated(t) => Readable(t)
    case Joint(_, ts) => |ts| >= 2 && forall t | t in ts :: Readable(t)
    case Parens(t) => Readable(t)
  }

  /** The condition that is meant. */
  function Meaning(c: Condition): Expr
    requires Readable(c)
  {
    match c
    case Test(op, left, right) => Compare(op, Base(left), Base(right))
    case NullTest(left, negated) =>
      var isNull := Compare(Is, Base(left), Literal(Null));
      if negated then Not(isNull) else isNull
    case Member(left, items, _) => Compare(In, Base(left), Literal(Arr(Values(items))))
    case Negated(t) => Not(Meaning(t))
    case Joint(op, ts) => Logic(op, Meanings(ts))
    case Parens(t) => Meaning(t)
  }

  function Meanings(ts: seq<Condition>): (es: seq<Expr>)
    requires forall t | t in ts :: Readable(t)
    ensures |es| == |ts|
  {
    if ts == [] then [] else [Meaning(ts[0])] + Meanings(ts[1..])
  }

  function Values(items: seq<Side>): seq<Json>
    requires forall i | i in items :: Base(i).Literal?
  {
    if items == [] then [] else [Base(items[0]).value] + Values(items[1..])
  }

  // ---------------------------------------------------------------- what the parser can read

  /** A single name, with sizes or an array mark but not both. */
  predicate OneName(t: CastType) {
    t.words == [] && t.suffix == [] && (t.sizes == [] || !t.isArray)
  }

  predicate OneNameCasts(s: Side) {
    match s
    case Bare(_) => true
    case Casted(t, to) => OneNameCasts(t) && OneName(to)
    case Grouped(t) => OneNameCasts(t)
  }

  /** The operand's text starts with a parenthesis. */
  predicate StartsGrouped(s: Side) {
    match s
    case Bare(_) => false
    case Casted(t, _) => StartsGrouped(t)
    case Grouped(_) => true
  }

  /** No left operand starts with a parenthesis, no list is cast, and every cast type is a single name. */
  predicate Plain(c: Condition) {
    match c
    case Test(_, left, right) => !StartsGrouped(left) && OneNameCasts(left) && OneNameCasts(right)
    case NullTest(left, _) => !StartsGrouped(left) && OneNameCasts(left)
    case Member(left, items, to) => !StartsGrouped(left) && OneNameCasts(left) && to.None? && forall i | i in items :: OneNameCasts(i)
    case Negated(t) => Plain(t)
    case Joint(_, ts) => forall t | t in ts :: Plain(t)
    case Parens(t) => Plain(t)
  }

  // ---------------------------------------------------------------- tokens

  function Words(ws: seq<string>): seq<Tok> {
    if ws == [] then [] else [Ident(ws[0])] + Words(ws[1..])
  }

  function MoreSizes(sizes: seq<string>): seq<Tok> {
    if sizes == [] then [] else [Comma, NumberTok(sizes[0])] + MoreSizes(sizes[1..])
  }

  function SizeToks(sizes: seq<string>): seq<Tok> {
    if sizes == [] then [] else [LParen] + ([NumberTok(sizes[0])] + MoreSizes(sizes[1..])) + [RParen]
  }

  /** What follows the name of a type. */
  function AfterName(t: CastType): seq<Tok> {
    Words(t.words) + (SizeToks(t.sizes) + (Words(t.suffix) + (if t.isArray then [LBracket, RBracket] else [])))
  }

  function TypeToks(t: CastType): seq<Tok> {
    (if t.schema.Some? then [Ident(t.schema.value), Dot, Ident(t.name)] else [Ident(t.name)]) + AfterName(t)
  }

  function BareToks(table: string, e: Expr): seq<Tok>
    requires ReadableBare(e)
  {
    match e
    case Column(t, n) => if t == table then [Ident(n)] else [Ident(t), Dot, Ident(n)]
    case Literal(v) =>
      match v
      case Null => [Kw("null")]
      case Bool(b) => [Kw(if b then "true" else "false")]
      case Num(n) => [NumberTok(NumberText(n))]
      case Str(s) => [StringTok(s)]
  }

  function SideToks(table: string, s: Side): seq<Tok>
    requires ReadableSide(s)
  {
    match s
    case Bare(e) => BareToks(table, e)
    case Casted(t, to) => SideToks(table, t) + ([Cast] + TypeToks(to))
    case Grouped(t) => [LParen] + (SideToks(table, t) + [RParen])
  }

  function MoreSides(table: string, items: seq<Side>): seq<Tok>
    requires forall i | i in items :: ReadableSide(i)
  {
    if items == [] then [] else [Comma] + (SideToks(table, items[0]) + MoreSides(table, items[1..]))
  }

  const ANY: seq<Tok> := [OpTok("="), Kw("any"), LParen, Kw("array"), LBracket]

  /** `= ANY ((ARRAY[...])::type)`, as for a list of varchar constants. */
  const CAST_ANY: seq<Tok> := [OpTok("="), Kw("any"), LParen, LParen, Kw("array"), LBracket]

  const CLOSE: seq<Tok> := [RBracket, RParen]

  /** What follows the left operand. */
  function TestToks(table: string, c: Condition): seq<Tok>
    requires Readable(c) && (c.Test? || c.NullTest? || c.Member?)
  {
    match c
    case Test(op, _, right) => [OpTok(OpText(op))] + SideToks(table, right)
    case NullTest(_, negated) => if negated then [Kw("is"), Kw("not"), Kw("null")] else [Kw("is"), Kw("null")]
    case Member(_, items, None) => ANY + (SideToks(table, items[0]) + (MoreSides(table, items[1..]) + CLOSE))
    case Member(_, items, Some(to)) =>
      CAST_ANY + (SideToks(table, items[0]) + (MoreSides(table, items[1..]) + (CLOSE + ([Cast] + (TypeToks(to) + [RParen])))))
  }

  predicate Needs(c: Condition, level: nat) {
    c.Joint? && level >= Inner(c.logic)
  }

  /** A condition where the terms of `level` are expected, in parentheses if it needs them. */
  function Toks(table: string, c: Condition, level: nat): seq<Tok>
    requires Readable(c)
    decreases c, 1
  {
    if Needs(c, level) then [LParen] + (Inside(table, c) + [RParen]) else Inside(table, c)
  }

  function Inside(table: string, c: Condition): seq<Tok>
    requires Readable(c)
    decreases c, 0
  {
    match c
    case Negated(t) => [Kw("not")] + Toks(table, t, 2)
    case Joint(op, ts) => Toks(table, ts[0], Inner(op)) + MoreToks(table, op, ts[1..])
    case Parens(t) => [LParen] + (Toks(table, t, 0) + [RParen])
    case _ => SideToks(table, c.left) + TestToks(table, c)
  }

  function MoreToks(table: string, op: LogicOp, ts: seq<Condition>): seq<Tok>
    requires forall t | t in ts :: Readable(t)
    decreases ts, 2
  {
    if ts == [] then [] else [Kw(LogicText(op))] + (Toks(table, ts[0], Inner(op)) + MoreToks(table, op, ts[1..]))
  }

  // ---------------------------------------------------------------- casts

  /** Refused, or done in front of a token that nothing goes on with. */
  predicate Bad(r: Parsed) {
    r.Refused? || Stuck(r.rest)
  }

  predicate Stuck(rest: seq<Tok>) {
    rest != [] && (rest[0].Ident? || rest[0].LBracket?)
  }

  /** Read to the end, or bad. */
  predicate Reads(good: bool, r: Parsed, e: Expr, rest: seq<Tok>) {
    if good then r == Done(e, rest) else Bad(r)
  }

  /** Tokens that do not go on a name or a type. */
  predicate AfterType(rest: seq<Tok>) {
    rest == [] || !(rest[0].Dot? || rest[0].LParen? || rest[0].LBracket?)
  }

  lemma {:induction false} SizesSkipped(inner: seq<Tok>, rest: seq<Tok>)
    requires LParen !in inner && RParen !in inner
    ensures SkipParens(inner + ([RParen] + rest), 1) == Some(rest)
  {
    var ts := inner + ([RParen] + rest);
    if inner == [] {
      assert ts[1..] == rest;
    } else {
      assert ts[0] == inner[0] && inner[0] in inner;
      assert ts[1..] == inner[1..] + ([RParen] + rest);
      SizesSkipped(inner[1..], rest);
    }
  }

  lemma {:induction false} SizesAreFlat(sizes: seq<string>)
    ensures LParen !in MoreSizes(sizes) && RParen !in MoreSizes(sizes)
  {
    if sizes != [] { SizesAreFlat(sizes[1..]); }
  }

  lemma SizeToksSkipped(sizes: seq<string>, rest: seq<Tok>)
    requires sizes != []
    ensures SkipParens(SizeToks(sizes) + rest, 0) == Some(rest)
  {
    SizesAreFlat(sizes[1..]);
    var inner := [NumberTok(sizes[0])] + MoreSizes(sizes[1..]);
    SizesSkipped(inner, rest);
    assert SizeToks(sizes) + rest == [LParen] + (inner + ([RParen] + rest));
    assert (SizeToks(sizes) + rest)[1..] == inner + ([RParen] + rest);
  }

  /** What the parser skips after the name of a type. */
  function SkipAfterName(r: seq<Tok>): Option<seq<Tok>> {
    if Heads(LBracket, r) && (|r| < 2 || !r[1].RBracket?) then None
    else
      var q := if Heads(LBracket, r) then r[2..] else r;
      if Heads(LParen, q) then SkipParens(q, 0) else Some(q)
  }

  lemma NameSkipped(t: CastType, rest: seq<Tok>)
    requires AfterType(rest)
    ensures SkipType(TypeToks(t) + rest) == SkipAfterName(AfterName(t) + rest)
    ensures !Heads(Dot, AfterName(t) + rest)
  {
    AfterNameHead(t, rest);
    TypeToksSplit(t, rest);
    hide AfterName, SkipAfterName, SkipType, TypeToks;
    var r := AfterName(t) + rest;
    if t.schema.Some? {
      QualifiedSkipped(t.schema.value, t.name, r);
    } else {
      UnqualifiedSkipped(t.name, r);
    }
  }

  lemma TypeToksSplit(t: CastType, rest: seq<Tok>)
    ensures TypeToks(t) + rest
         == (if t.schema.Some? then [Ident(t.schema.value), Dot, Ident(t.name)] else [Ident(t.name)]) + (AfterName(t) + rest)
  {
    hide AfterName;
  }

  lemma QualifiedSkipped(schema: string, name: string, r: seq<Tok>)
    ensures SkipType([Ident(schema), Dot, Ident(name)] + r) == SkipAfterName(r)
  {
    var ts := [Ident(schema), Dot, Ident(name)] + r;
    assert ts[3..] == r && ts[1..] == [Dot, Ident(name)] + r;
    hide SkipParens;
  }

  lemma UnqualifiedSkipped(name: string, r: seq<Tok>)
    requires !Heads(Dot, r)
    ensures SkipType([Ident(name)] + r) == SkipAfterName(r)
  {
    assert ([Ident(name)] + r)[1..] == r;
    hide SkipParens;
  }

  lemma AfterNameHead(t: CastType, rest: seq<Tok>)
    ensures var r := AfterName(t) + rest;
            if t.words != [] then r != [] && r[0].Ident?
            else if t.sizes != [] then
              r[0] == LParen
              && r == SizeToks(t.sizes) + (Words(t.suffix) + ((if t.isArray then [LBracket, RBracket] else []) + rest))
            else if t.suffix != [] then r != [] && r[0].Ident?
            else if t.isArray then r == [LBracket, RBracket] + rest
            else r == rest
  {}

  /** A type of a single name is skipped; any other leaves the parser stuck. */
  lemma TypeSkipped(t: CastType, rest: seq<Tok>)
    requires AfterType(rest)
    ensures var r := SkipType(TypeToks(t) + rest);
            if OneName(t) then r == Some(rest) else r.Some? && Stuck(r.value)
  {
    NameSkipped(t, rest);
    AfterNameHead(t, rest);
    hide SkipType, TypeToks, AfterName;
    if t.words == [] && t.sizes != [] {
      var tail := Words(t.suffix) + ((if t.isArray then [LBracket, RBracket] else []) + rest);
      SizeToksSkipped(t.sizes, tail);
      assert t.suffix == [] && !t.isArray ==> tail == rest;
    }
  }

  lemma CastRead(e: Expr, t: CastType, rest: seq<Tok>)
    requires AfterType(rest)
    ensures var r := WithoutCasts(Done(e, [Cast] + TypeToks(t) + rest));
            if OneName(t) then r == WithoutCasts(Done(e, rest)) else Bad(r)
  {
    hide TypeToks, SkipType, OneName, AfterType;
    TypeSkipped(t, rest);
    var ts := [Cast] + TypeToks(t) + rest;
    assert ts[0] == Cast;
    assert ts[1..] == TypeToks(t) + rest;
    assert StripCasts(ts) == match SkipType(ts[1..]) case None => None case Some(q) => StripCasts(q);
  }

  // ---------------------------------------------------------------- operands

  lemma BareRead(table: string, e: Expr, rest: seq<Tok>)
    requires ReadableBare(e) && AfterType(rest)
    ensures POperandPg(table, BareToks(table, e) + rest) == WithoutCasts(Done(e, rest))
    ensures BareToks(table, e)[0] != Kw("not") && BareToks(table, e)[0] != LParen
  {
    hide NumberText, ParseNumber, WithoutCasts;
    var ts := BareToks(table, e) + rest;
    if e.Literal? {
      if e.value.Num? { ParseNumberText(e.value.n); }
      assert ts[1..] == rest;
      assert LiteralOf(ts[0]) == Some(e);
    } else if e.table == table {
      assert ts[1..] == rest;
      assert PColumn(table, e.name, rest) == Done(e, rest);
    } else {
      assert ts[1..] == [Dot, Ident(e.name)] + rest && ts[1..][2..] == rest;
      assert PColumn(table, e.table, ts[1..]) == Done(e, rest);
    }
  }

  /** An operand is read, with the casts that follow it, exactly when its own casts are single names. */
  lemma {:induction false} SideRead(table: string, s: Side, rest: seq<Tok>)
    requires ReadableSide(s) && AfterType(rest)
    ensures var r := POperandPg(table, SideToks(table, s) + rest);
            if OneNameCasts(s) then r == WithoutCasts(Done(Base(s), rest)) else Bad(r)
  {
    hide WithoutCasts, TypeToks;
    match s
    case Bare(e) => BareRead(table, e, rest);
    case Casted(t, to) =>
      var casts := [Cast] + TypeToks(to) + rest;
      assert SideToks(table, s) + rest == SideToks(table, t) + casts;
      SideRead(table, t, casts);
      CastRead(Base(t), to, rest);
    case Grouped(t) =>
      var ts := SideToks(table, s) + rest;
      assert ts[1..] == SideToks(table, t) + ([RParen] + rest);
      SideRead(table, t, [RParen] + rest);
      assert ([RParen] + rest)[1..] == rest;
      NoCasts(Base(t), [RParen] + rest);
  }

  lemma NoCasts(e: Expr, rest: seq<Tok>)
    ensures rest == [] || !rest[0].Cast? ==> WithoutCasts(Done(e, rest)) == Done(e, rest)
  {}

  /** An operand in front of anything that cannot belong to it. */
  lemma OperandRead(table: string, s: Side, rest: seq<Tok>)
    requires ReadableSide(s) && AfterOperand(rest)
    ensures Reads(OneNameCasts(s), POperandPg(table, SideToks(table, s) + rest), Base(s), rest)
  {
    SideRead(table, s, rest);
    NoCasts(Base(s), rest);
    hide WithoutCasts, SideToks;
  }

  lemma {:induction false} SideHead(table: string, s: Side)
    requires ReadableSide(s)
    ensures SideToks(table, s) != []
    ensures SideToks(table, s)[0] != Kw("not") && (SideToks(table, s)[0] == LParen <==> StartsGrouped(s))
  {
    match s
    case Bare(e) => BareRead(table, e, []);
    case Casted(t, _) => SideHead(table, t);
    case Grouped(_) =>
  }

  // ---------------------------------------------------------------- a parenthesis on the left

  lemma Refuses(table: string, ts: seq<Tok>)
    requires ts != [] && ts[0] != Kw("not") && PPrimary(Postgres, table, ts) == Refused
    ensures POr(Postgres, table, ts) == Refused
  {
    hide PPrimary;
    assert PNot(Postgres, table, ts) == Refused;
    assert PAnd(Postgres, table, ts) == Refused;
  }

  /** An operand in front of a closing parenthesis is no condition. */
  lemma {:induction false} SideIsNoCondition(table: string, s: Side, more: seq<Tok>)
    requires ReadableSide(s)
    ensures POr(Postgres, table, SideToks(table, s) + ([RParen] + more)) == Refused
    decreases s, 1
  {
    var ts := SideToks(table, s) + ([RParen] + more);
    SideHead(table, s);
    if StartsGrouped(s) {
      GroupedRefused(table, s, [RParen] + more);
    } else {
      OperandRead(table, s, [RParen] + more);
      hide SideToks, POperandPg;
      assert PCompare(Postgres, table, ts) == Refused;
      assert PPrimary(Postgres, table, ts) == Refused;
    }
    hide SideToks, PPrimary;
    Refuses(table, ts);
  }

  /** A parenthesised left operand is taken for a parenthesised condition and refused, whatever follows. */
  lemma {:induction false} GroupedRefused(table: string, s: Side, more: seq<Tok>)
    requires ReadableSide(s) && StartsGrouped(s)
    ensures PPrimary(Postgres, table, SideToks(table, s) + more) == Refused
    decreases s, 0
  {
    hide PPrimary, POr, TypeToks;
    match s
    case Casted(t, to) =>
      assert SideToks(table, s) + more == SideToks(table, t) + (([Cast] + TypeToks(to)) + more);
      GroupedRefused(table, t, ([Cast] + TypeToks(to)) + more);
    case Grouped(t) =>
      var ts := SideToks(table, s) + more;
      assert ts == [LParen] + (SideToks(table, t) + ([RParen] + more));
      SideIsNoCondition(table, t, more);
      PrimaryRefuses(table, SideToks(table, t) + ([RParen] + more));
  }

  lemma PrimaryRefuses(table: string, ts: seq<Tok>)
    requires POr(Postgres, table, ts) == Refused
    ensures PPrimary(Postgres, table, [LParen] + ts) == Refused
  {
    hide POr;
    assert ([LParen] + ts)[1..] == ts;
  }

  // ---------------------------------------------------------------- comparisons

  lemma StuckCompares(table: string, left: Expr, rest: seq<Tok>)
    requires Stuck(rest)
    ensures PComparison(Postgres, table, left, rest) == Refused
  {}

  lemma TestRead(table: string, c: Condition, rest: seq<Tok>)
    requires Readable(c) && c.Test? && Ends(rest)
    ensures Reads(OneNameCasts(c.right), PComparison(Postgres, table, Base(c.left), TestToks(table, c) + rest), Meaning(c), rest)
  {
    var right := SideToks(table, c.right);
    assert TestToks(table, c) + rest == [OpTok(OpText(c.op))] + (right + rest);
    assert AfterOperand(rest);
    NotAny(table, c.right);
    OperatorRead(table, Base(c.left), c.op, right + rest);
    hide PComparison, POperandPg, OneNameCasts, SideToks, TestToks, OpText;
    OperandRead(table, c.right, rest);
  }

  lemma OperatorRead(table: string, left: Expr, op: CompareOp, ts: seq<Tok>)
    requires !op.Is? && !op.In? && !Heads(Kw("any"), ts)
    ensures PComparison(Postgres, table, left, [OpTok(OpText(op))] + ts) == PRight(Postgres, table, op, left, ts)
  {
    hide PRight;
    assert ([OpTok(OpText(op))] + ts)[1..] == ts;
    assert Symbol(Postgres, OpText(op)) == Some(op);
  }

  lemma {:induction false} NotAny(table: string, s: Side)
    requires ReadableSide(s)
    ensures SideToks(table, s) != [] && SideToks(table, s)[0] != Kw("any")
  {
    match s
    case Bare(_) =>
    case Casted(t, _) => NotAny(table, t);
    case Grouped(_) =>
  }

  lemma NullRead(table: string, c: Condition, rest: seq<Tok>)
    requires Readable(c) && c.NullTest?
    ensures PComparison(Postgres, table, Base(c.left), TestToks(table, c) + rest) == Done(Meaning(c), rest)
  {
    var ts := TestToks(table, c) + rest;
    if c.negated {
      assert ts[1..] == [Kw("not"), Kw("null")] + rest && ts[1..][1..] == [Kw("null")] + rest && ts[1..][2..] == rest;
    } else {
      assert ts[1..] == [Kw("null")] + rest && ts[1..][1..] == rest;
    }
  }

  lemma AfterSides(table: string, items: seq<Side>, rest: seq<Tok>)
    requires (forall i | i in items :: ReadableSide(i)) && AfterOperand(rest)
    ensures AfterOperand(MoreSides(table, items) + rest)
  {
    assert items == [] ==> MoreSides(table, items) + rest == rest;
  }

  predicate AllOneName(items: seq<Side>) {
    forall i | i in items :: OneNameCasts(i)
  }

  /** The items of a list after the first ones: all of them, or the list is not closed where it should be. */
  lemma {:induction false} SidesRead(table: string, done: seq<Json>, items: seq<Side>, rest: seq<Tok>)
    requires forall i | i in items :: ReadableSide(i) && Base(i).Literal?
    requires AfterOperand(rest) && !Heads(Comma, rest)
    ensures Reads(AllOneName(items), PItems(Postgres, table, done, MoreSides(table, items) + rest),
                  Literal(Arr(done + Values(items))), rest)
    decreases |items|
  {
    hide POperandPg, OneNameCasts, SideToks;
    var ts := MoreSides(table, items) + rest;
    if items == [] {
      assert ts == rest && done + Values(items) == done;
    } else {
      var next := MoreSides(table, items[1..]) + rest;
      assert items[0] in items;
      assert ts == [Comma] + (SideToks(table, items[0]) + next);
      assert ts[1..] == SideToks(table, items[0]) + next;
      AfterSides(table, items[1..], rest);
      OperandRead(table, items[0], next);
      SidesRead(table, done + [Base(items[0]).value], items[1..], rest);
      assert done + [Base(items[0]).value] + Values(items[1..]) == done + Values(items);
      assert AllOneName(items) <==> OneNameCasts(items[0]) && AllOneName(items[1..]) by { ConsOneName(items); }
    }
  }

  lemma ConsOneName(items: seq<Side>)
    requires items != []
    ensures AllOneName(items) <==> OneNameCasts(items[0]) && AllOneName(items[1..])
  {
    hide OneNameCasts;
    assert items == [items[0]] + items[1..];
  }

  lemma ListRead(table: string, items: seq<Side>, rest: seq<Tok>)
    requires items != [] && forall i | i in items :: ReadableSide(i) && Base(i).Literal?
    ensures Reads(AllOneName(items), PList(Postgres, table, SideToks(table, items[0]) + (MoreSides(table, items[1..]) + (CLOSE + rest))),
                  Literal(Arr(Values(items))), CLOSE + rest)
  {
    hide POperandPg, OneNameCasts, SideToks;
    assert items[0] in items;
    AfterSides(table, items[1..], CLOSE + rest);
    OperandRead(table, items[0], MoreSides(table, items[1..]) + (CLOSE + rest));
    SidesRead(table, [Base(items[0]).value], items[1..], CLOSE + rest);
    ConsOneName(items);
  }

  lemma MemberRead(table: string, c: Condition, rest: seq<Tok>)
    requires Readable(c) && c.Member?
    ensures Reads(c.listCast.None? && AllOneName(c.items),
                  PComparison(Postgres, table, Base(c.left), TestToks(table, c) + rest), Meaning(c), rest)
  {
    if c.listCast.Some? {
      CastListRefused(table, c, rest);
      return;
    }
    var inner := SideToks(table, c.items[0]) + (MoreSides(table, c.items[1..]) + (CLOSE + rest));
    MemberToks(table, c, rest);
    ListRead(table, c.items, rest);
    AnyRead(table, Base(c.left), inner);
    Closes(table, Base(c.left), inner, AllOneName(c.items), Literal(Arr(Values(c.items))), rest);
    hide TestToks, SideToks, MoreSides, AllOneName, PComparison, PIn, PList;
  }

  /** The parser expects ARRAY right after the parenthesis. */
  lemma CastListRefused(table: string, c: Condition, rest: seq<Tok>)
    requires Readable(c) && c.Member? && c.listCast.Some?
    ensures PComparison(Postgres, table, Base(c.left), TestToks(table, c) + rest) == Refused
  {
    var ts := TestToks(table, c) + rest;
    assert ts[0] == OpTok("=") && ts[1..][0] == Kw("any") && ts[3] == LParen;
    hide SideToks, MoreSides, TestToks;
  }

  lemma MemberToks(table: string, c: Condition, rest: seq<Tok>)
    requires Readable(c) && c.Member? && c.listCast.None?
    ensures TestToks(table, c) + rest == ANY + (SideToks(table, c.items[0]) + (MoreSides(table, c.items[1..]) + (CLOSE + rest)))
  {
    hide SideToks, MoreSides;
  }

  lemma Closes(table: string, left: Expr, ts: seq<Tok>, good: bool, list: Expr, rest: seq<Tok>)
    requires Reads(good, PList(Postgres, table, ts), list, CLOSE + rest)
    ensures PIn(Postgres, table, left, ts, CLOSE) == if good then Done(Compare(In, left, list), rest) else Refused
  {
    hide PList;
    assert (CLOSE + rest)[..2] == CLOSE && (CLOSE + rest)[2..] == rest;
    var r := PList(Postgres, table, ts);
    assert r.Done? && Stuck(r.rest) && |r.rest| >= 2 ==> r.rest[..2][0] != CLOSE[0];
  }

  lemma AnyRead(table: string, left: Expr, inner: seq<Tok>)
    ensures PComparison(Postgres, table, left, ANY + inner) == PIn(Postgres, table, left, inner, CLOSE)
  {
    var ts := ANY + inner;
    assert ts[5..] == inner;
    assert ts[0] == OpTok("=") && ts[1..][0] == Kw("any") && ts[2] == LParen && ts[3] == Kw("array") && ts[4] == LBracket;
    hide PIn;
  }

  /** A comparison in front of the end of a condition. */
  lemma ComparisonRead(table: string, c: Condition, rest: seq<Tok>)
    requires Readable(c) && (c.Test? || c.NullTest? || c.Member?) && Ends(rest)
    ensures Reads(Plain(c), PNot(Postgres, table, Inside(table, c) + rest), Meaning(c), rest)
  {
    var after := TestToks(table, c) + rest;
    var ts := SideToks(table, c.left) + after;
    assert Inside(table, c) + rest == ts;
    SideHead(table, c.left);
    assert ts[0] == SideToks(table, c.left)[0];
    AfterIsPlain(table, c, rest);
    hide SideToks, TestToks, POperandPg, PComparison, Inside, PPrimary;
    if StartsGrouped(c.left) {
      GroupedRefused(table, c.left, after);
    } else {
      OperandRead(table, c.left, after);
      TestToksRead(table, c, rest);
      AfterLeft(table, c, after);
    }
  }

  lemma AfterIsPlain(table: string, c: Condition, rest: seq<Tok>)
    requires Readable(c) && (c.Test? || c.NullTest? || c.Member?)
    ensures AfterOperand(TestToks(table, c) + rest)
  {
    assert (TestToks(table, c) + rest)[0] == TestToks(table, c)[0];
  }

  /** What follows the left operand is good. */
  predicate GoodRight(c: Condition)
    requires c.Test? || c.NullTest? || c.Member?
  {
    match c
    case Test(_, _, right) => OneNameCasts(right)
    case NullTest(_, _) => true
    case Member(_, items, to) => to.None? && AllOneName(items)
  }

  lemma TestToksRead(table: string, c: Condition, rest: seq<Tok>)
    requires Readable(c) && (c.Test? || c.NullTest? || c.Member?) && Ends(rest)
    ensures Reads(GoodRight(c), PComparison(Postgres, table, Base(c.left), TestToks(table, c) + rest), Meaning(c), rest)
    ensures Plain(c) <==> !StartsGrouped(c.left) && OneNameCasts(c.left) && GoodRight(c)
  {
    match c {
      case Test(_, _, _) => TestRead(table, c, rest);
      case NullTest(_, _) => NullRead(table, c, rest);
      case Member(_, _, _) => MemberRead(table, c, rest);
    }
    hide TestToks, PComparison, OneNameCasts, StartsGrouped;
  }

  lemma AfterLeft(table: string, c: Condition, after: seq<Tok>)
    requires Readable(c) && (c.Test? || c.NullTest? || c.Member?) && !StartsGrouped(c.left)
    requires Reads(OneNameCasts(c.left), POperandPg(table, SideToks(table, c.left) + after), Base(c.left), after)
    ensures PPrimary(Postgres, table, SideToks(table, c.left) + after)
         == if OneNameCasts(c.left) then PComparison(Postgres, table, Base(c.left), after) else Refused
  {
    var ts := SideToks(table, c.left) + after;
    SideHead(table, c.left);
    assert ts[0] == SideToks(table, c.left)[0];
    hide SideToks, OneNameCasts;
    var r := POperandPg(table, ts);
    if r.Done? && Stuck(r.rest) { StuckCompares(table, r.e, r.rest); }
    hide PComparison, POperandPg;
  }

  // ---------------------------------------------------------------- conditions

  lemma LiftRead(table: string, good: bool, e: Expr, ts: seq<Tok>, level: nat, rest: seq<Tok>)
    requires Reads(good, PNot(Postgres, table, ts), e, rest) && EndsLevel(level, rest)
    ensures Reads(good, PLevel(Postgres, table, level, ts), e, rest)
  {
    hide PNot;
    if good {
      LiftLevel(Postgres, table, e, ts, level, rest);
    } else if level <= 1 {
      AndStuck(table, ts);
      if level == 0 { OrStuck(table, ts); }
    }
  }

  lemma AndStuck(table: string, ts: seq<Tok>)
    requires Bad(PNot(Postgres, table, ts))
    ensures Bad(PAnd(Postgres, table, ts))
  {
    hide PNot;
    var r := PNot(Postgres, table, ts);
    if r.Done? { assert PAndRest(Postgres, table, [r.e], r.rest) == Done(r.e, r.rest); }
  }

  lemma OrStuck(table: string, ts: seq<Tok>)
    requires Bad(PAnd(Postgres, table, ts))
    ensures Bad(POr(Postgres, table, ts))
  {
    hide PAnd;
    var r := PAnd(Postgres, table, ts);
    if r.Done? { assert POrRest(Postgres, table, [r.e], r.rest) == Done(r.e, r.rest); }
  }

  /** A condition in parentheses. */
  lemma ParensRead(table: string, good: bool, e: Expr, inner: seq<Tok>, rest: seq<Tok>)
    requires Reads(good, POr(Postgres, table, inner + ([RParen] + rest)), e, [RParen] + rest)
    ensures Reads(good, PNot(Postgres, table, [LParen] + (inner + [RParen]) + rest), e, rest)
  {
    hide POr;
    var ts := [LParen] + (inner + [RParen]) + rest;
    assert ts[1..] == inner + ([RParen] + rest);
    assert ([RParen] + rest)[1..] == rest;
  }

  lemma NotRead(table: string, good: bool, e: Expr, inner: seq<Tok>, rest: seq<Tok>)
    requires Reads(good, PNot(Postgres, table, inner + rest), e, rest)
    ensures Reads(good, PNot(Postgres, table, [Kw("not")] + inner + rest), Not(e), rest)
  {
    assert ([Kw("not")] + inner + rest)[1..] == inner + rest;
    hide PPrimary;
  }

  predicate AllPlain(ts: seq<Condition>) {
    forall t | t in ts :: Plain(t)
  }

  /** A term that is bad makes the whole and/or bad. */
  lemma RestStuck(table: string, op: LogicOp, done: seq<Expr>, ts: seq<Tok>)
    requires done != [] && Bad(PLevel(Postgres, table, Inner(op), ts))
    ensures Bad(PRest(Postgres, table, op, done, [Kw(LogicText(op))] + ts))
  {
    hide PNot, POr;
    assert ([Kw(LogicText(op))] + ts)[1..] == ts;
    var r := PLevel(Postgres, table, Inner(op), ts);
    if r.Done? {
      assert PRest(Postgres, table, op, done, [Kw(LogicText(op))] + ts) == PRest(Postgres, table, op, done + [r.e], r.rest);
      assert PRest(Postgres, table, op, done + [r.e], r.rest).Done?;
    }
  }

  lemma {:induction false} ConditionRead(table: string, c: Condition, level: nat, rest: seq<Tok>)
    requires Readable(c) && EndsLevel(level, rest)
    ensures Reads(Plain(c), PLevel(Postgres, table, level, Toks(table, c, level) + rest), Meaning(c), rest)
    decreases c, 2
  {
    hide PLevel, Readable, Plain, Meaning, Reads;
    var ts := Toks(table, c, level) + rest;
    if Needs(c, level) {
      InsideRead(table, c, 0, [RParen] + rest);
      TopLevel(table, Inside(table, c) + ([RParen] + rest));
      hide *;
      ParensRead(table, Plain(c), Meaning(c), Inside(table, c), rest);
      LiftRead(table, Plain(c), Meaning(c), ts, level, rest);
    } else {
      InsideRead(table, c, level, rest);
    }
  }

  lemma TopLevel(table: string, ts: seq<Tok>)
    ensures PLevel(Postgres, table, 0, ts) == POr(Postgres, table, ts)
    ensures PLevel(Postgres, table, 2, ts) == PNot(Postgres, table, ts)
  {}

  lemma {:induction false} InsideRead(table: string, c: Condition, level: nat, rest: seq<Tok>)
    requires Readable(c) && !Needs(c, level) && EndsLevel(level, rest)
    ensures Reads(Plain(c), PLevel(Postgres, table, level, Inside(table, c) + rest), Meaning(c), rest)
    decreases c, 1
  {
    hide PLevel, Reads, Toks;
    match c
    case Negated(t) =>
      ConditionRead(table, t, 2, rest);
      TopLevel(table, Toks(table, t, 2) + rest);
      NotRead(table, Plain(t), Meaning(t), Toks(table, t, 2), rest);
      LiftRead(table, Plain(c), Meaning(c), Inside(table, c) + rest, level, rest);
    case Parens(t) =>
      ConditionRead(table, t, 0, [RParen] + rest);
      TopLevel(table, Toks(table, t, 0) + ([RParen] + rest));
      ParensRead(table, Plain(t), Meaning(t), Toks(table, t, 0), rest);
      LiftRead(table, Plain(c), Meaning(c), Inside(table, c) + rest, level, rest);
    case Joint(_, _) =>
      JointRead(table, c, level, rest);
    case _ =>
      ComparisonRead(table, c, rest);
      LiftRead(table, Plain(c), Meaning(c), Inside(table, c) + rest, level, rest);
  }

  lemma AfterTerms(table: string, op: LogicOp, ts: seq<Condition>, rest: seq<Tok>)
    requires (forall t | t in ts :: Readable(t)) && EndsLevel(Inner(op) - 1, rest)
    ensures EndsLevel(Inner(op), MoreToks(table, op, ts) + rest)
  {
    if ts == [] {
      assert MoreToks(table, op, ts) + rest == rest;
    } else {
      assert (MoreToks(table, op, ts) + rest)[0] == Kw(LogicText(op));
    }
  }

  lemma ConsTerms(ts: seq<Condition>)
    requires ts != [] && forall t | t in ts :: Readable(t)
    ensures AllPlain(ts) <==> Plain(ts[0]) && AllPlain(ts[1..])
    ensures Readable(ts[0]) && (forall t | t in ts[1..] :: Readable(t)) && Meanings(ts) == [Meaning(ts[0])] + Meanings(ts[1..])
  {
    hide Plain, Readable, Meaning;
    assert ts == [ts[0]] + ts[1..];
  }

  /** The remaining terms of an and/or. */
  lemma {:induction false} TermsRead(table: string, op: LogicOp, done: seq<Expr>, ts: seq<Condition>, rest: seq<Tok>)
    requires done != [] && (forall t | t in ts :: Readable(t)) && EndsLevel(Inner(op) - 1, rest)
    ensures Reads(AllPlain(ts), PRest(Postgres, table, op, done, MoreToks(table, op, ts) + rest), Joined(op, done + Meanings(ts)), rest)
    decreases ts, 2
  {
    hide PRest, PLevel, Toks, Joined, EndsLevel;
    var toks := MoreToks(table, op, ts) + rest;
    if ts == [] {
      RestEnds(Postgres, table, op, done, rest);
      assert toks == rest && done + Meanings(ts) == done;
    } else {
      var next := MoreToks(table, op, ts[1..]) + rest;
      assert toks == [Kw(LogicText(op))] + (Toks(table, ts[0], Inner(op)) + next);
      ConsTerms(ts);
      AfterTerms(table, op, ts[1..], rest);
      ConditionRead(table, ts[0], Inner(op), next);
      hide MoreToks, Plain, AllPlain, Meaning, Meanings, Readable;
      if Plain(ts[0]) {
        RestTakes(Postgres, table, op, done, Meaning(ts[0]), Toks(table, ts[0], Inner(op)) + next, next);
        TermsRead(table, op, done + [Meaning(ts[0])], ts[1..], rest);
        ConcatAssociates(done, [Meaning(ts[0])], Meanings(ts[1..]));
      } else {
        RestStuck(table, op, done, Toks(table, ts[0], Inner(op)) + next);
      }
    }
  }

  lemma {:induction false} JointRead(table: string, c: Condition, level: nat, rest: seq<Tok>)
    requires Readable(c) && c.Joint? && level < Inner(c.logic) && EndsLevel(level, rest)
    ensures Reads(Plain(c), PLevel(Postgres, table, level, Inside(table, c) + rest), Meaning(c), rest)
    decreases c, 0
  {
    var op, ts := c.logic, c.terms;
    var first := Toks(table, ts[0], Inner(op));
    var next := MoreToks(table, op, ts[1..]) + rest;
    ConsTerms(ts);
    assert Plain(c) <==> AllPlain(ts);
    assert Meaning(c) == Joined(op, [Meaning(ts[0])] + Meanings(ts[1..]));
    assert Inside(table, c) + rest == first + next;
    hide Toks, MoreToks, Plain, Meaning, Meanings, Inside;
    AfterTerms(table, op, ts[1..], rest);
    ConditionRead(table, ts[0], Inner(op), next);
    if Plain(ts[0]) { TermsRead(table, op, [Meaning(ts[0])], ts[1..], rest); }
    FirstRead(table, op, first + next, Plain(ts[0]), Meaning(ts[0]), next, AllPlain(ts), Meaning(c), level, rest);
  }

  /** The first term and the loop after it. */
  lemma FirstRead(table: string, op: LogicOp, ts: seq<Tok>, first: bool, e: Expr, next: seq<Tok>,
                  good: bool, joint: Expr, level: nat, rest: seq<Tok>)
    requires level < Inner(op) && EndsLevel(level, rest)
    requires Reads(first, PLevel(Postgres, table, Inner(op), ts), e, next) && (good ==> first)
    requires first ==> Reads(good, PRest(Postgres, table, op, [e], next), joint, rest)
    ensures Reads(good, PLevel(Postgres, table, level, ts), joint, rest)
  {
    hide PNot;
    if op.And? {
      if first {
        assert PAnd(Postgres, table, ts) == PRest(Postgres, table, op, [e], next);
      } else {
        AndStuck(table, ts);
      }
      if level == 0 {
        if good { assert POrRest(Postgres, table, [joint], rest) == Done(joint, rest); } else { OrStuck(table, ts); }
      }
    } else {
      if !first { OrStuck(table, ts); }
    }
  }

  // ---------------------------------------------------------------- the whole text

  /**
   * A text that PostgreSQL prints for a condition, with its casts and parentheses, is read back
   * exactly when no left operand starts with a parenthesis and every cast type is a single name.
   */
  lemma PrintedReadIff(table: string, c: Condition, text: string)
    requires Readable(c) && Lex(Postgres, text) == Some(Toks(table, c, 0))
    ensures ParseText(Postgres, text, table) == if Plain(c) then Some(Meaning(c)) else None
  {
    ConditionRead(table, c, 0, []);
    TopLevel(table, Toks(table, c, 0) + []);
    assert Toks(table, c, 0) + [] == Toks(table, c, 0);
    hide Toks, Plain, Meaning, POr;
  }
}
