/**
 * The ways a CHECK condition can be spelt in either dialect: which symbols stand for which
 * comparison, operands with a table name or a cast, parentheses where none are needed, keywords and
 * bare names in any case and quotes. Every spelling is read back as the condition it spells.
 */
module CheckSpellings {
  import opened Text
  import opened Numbers
  import opened CanonicalJson
  import opened Expressions
  import opened Evaluate
  import opened Meanings
  import opened CheckLexer
  import opened CheckParser
  import opened CheckPrinter
  import opened CheckText
  import opened CheckCasts

  // ---------------------------------------------------------------- spellings

  /** The comparison a symbol stands for. */
  predicate Stands(d: Dialect, symbol: string, op: CompareOp) {
    match op
    case Eq => symbol == "=" || (d.Sqlite? && symbol == "==")
    case Neq => symbol == "<>" || symbol == "!="
    case Gt => symbol == ">"
    case Gte => symbol == ">="
    case Lt => symbol == "<"
    case Lte => symbol == "<="
    case Like => d.Postgres? && symbol == "~~"
    case ILike => d.Postgres? && symbol == "~~*"
    case _ => false
  }

  /** The word in capitals or small letters. */
  predicate SameWord(written: string, word: string) {
    |written| == |word| && forall i | 0 <= i < |word| :: written[i] == word[i] || CapitalOf(written[i], word[i])
  }

  predicate Affinity(written: string) {
    SameWord(written, "integer") || SameWord(written, "numeric") || SameWord(written, "real") || SameWord(written, "text")
  }

  /** An operand: plain, a column with its table, a number with zeros it could do without, or SQLite's cast of a column. */
  datatype Operand =
    | Plain(side: Side)
    | Qualified(table: string, name: string)
    | Fixed(whole: string, fraction: string)
    | CastColumn(of: Operand, affinity: string)

  predicate Speakable(d: Dialect, o: Operand) {
    match o
    case Plain(s) => ReadableSide(s) && OneNameCasts(s) && (d.Sqlite? ==> s.Bare?)
    case Qualified(_, _) => true
    case Fixed(w, f) => w != [] && AllDigits(w) && AllDigits(f)
    case CastColumn(of, affinity) => d.Sqlite? && Speakable(d, of) && Says(of).Column? && Affinity(affinity)
  }

  function Says(o: Operand): Expr {
    match o
    case Plain(s) => Base(s)
    case Qualified(t, n) => Column(t, n)
    case Fixed(w, f) => Literal(Num(if AllDigits(w) && AllDigits(f) then Scaled(w, f, 0) else Decimal(0, 0)))
    case CastColumn(of, _) => Says(of)
  }

  datatype Phrase =
    | Test(op: CompareOp, symbol: string, left: Operand, right: Operand)
    | LikeWord(left: Operand, right: Operand)
    | NullTest(left: Operand, negated: bool)
    | List(left: Operand, items: seq<Operand>)
    | Negated(term: Phrase)
    | Joint(logic: LogicOp, terms: seq<Phrase>)
    | Parens(term: Phrase)

  predicate SpeakableLeft(d: Dialect, o: Operand) {
    Speakable(d, o) && (o.Plain? ==> !StartsGrouped(o.side))
  }

  predicate Proper(d: Dialect, p: Phrase) {
    match p
    case Test(op, symbol, l, r) => Stands(d, symbol, op) && SpeakableLeft(d, l) && Speakable(d, r)
    case LikeWord(l, r) => d.Sqlite? && SpeakableLeft(d, l) && Speakable(d, r)
    case NullTest(l, _) => SpeakableLeft(d, l)
    case List(l, items) => SpeakableLeft(d, l) && items != [] && SpeakableItems(d, items)
    case Negated(t) => Proper(d, t)
    case Joint(_, ts) => |ts| >= 2 && forall t | t in ts :: Proper(d, t)
    case Parens(t) => Proper(d, t)
  }

  predicate SpeakableItems(d: Dialect, items: seq<Operand>) {
    forall i | i in items :: Speakable(d, i) && Says(i).Literal?
  }

  /** The condition that is spelt. */
  function Spelt(p: Phrase): Expr {
    match p
    case Test(op, _, l, r) => Compare(op, Says(l), Says(r))
    case LikeWord(l, r) => Compare(Like, Says(l), Says(r))
    case NullTest(l, negated) =>
      var isNull := Compare(Is, Says(l), Literal(Null));
      if negated then Not(isNull) else isNull
    case List(l, items) => Compare(In, Says(l), Literal(Arr(ItemValues(items))))
    case Negated(t) => Not(Spelt(t))
    case Joint(op, ts) => Logic(op, AllSpelt(ts))
    case Parens(t) => Spelt(t)
  }

  function AllSpelt(ts: seq<Phrase>): (es: seq<Expr>)
    ensures |es| == |ts|
  {
    if ts == [] then [] else [Spelt(ts[0])] + AllSpelt(ts[1..])
  }

  function ItemValues(items: seq<Operand>): seq<Json> {
    if items == [] then []
    else [if Says(items[0]).Literal? then Says(items[0]).value else Null] + ItemValues(items[1..])
  }

  // ---------------------------------------------------------------- tokens

  function SaidToks(d: Dialect, table: string, o: Operand): seq<Tok>
    requires Speakable(d, o)
  {
    match o
    case Plain(s) => SideToks(table, s)
    case Qualified(t, n) => [Ident(t), Dot, Ident(n)]
    case Fixed(w, f) => [NumberTok(MantissaText(w, f))]
    case CastColumn(of, affinity) => [Kw("cast"), LParen] + (SaidToks(d, table, of) + [Kw("as"), Ident(affinity), RParen])
  }

  function MoreSaid(d: Dialect, table: string, items: seq<Operand>): seq<Tok>
    requires SpeakableItems(d, items)
  {
    if items == [] then [] else [Comma] + (SaidToks(d, table, items[0]) + MoreSaid(d, table, items[1..]))
  }

  /** `IN (` in SQLite, `= ANY (ARRAY[` in PostgreSQL, and what closes it. */
  function ListOpens(d: Dialect): seq<Tok> {
    if d.Sqlite? then [Kw("in"), LParen] else [OpTok("="), Kw("any"), LParen, Kw("array"), LBracket]
  }

  function ListCloses(d: Dialect): seq<Tok> {
    if d.Sqlite? then [RParen] else [RBracket, RParen]
  }

  function AfterLeftToks(d: Dialect, table: string, p: Phrase): seq<Tok>
    requires Proper(d, p) && (p.Test? || p.LikeWord? || p.NullTest? || p.List?)
  {
    match p
    case Test(_, symbol, _, r) => [OpTok(symbol)] + SaidToks(d, table, r)
    case LikeWord(_, r) => [Kw("like")] + SaidToks(d, table, r)
    case NullTest(_, negated) => if negated then [Kw("is"), Kw("not"), Kw("null")] else [Kw("is"), Kw("null")]
    case List(_, items) => ListOpens(d) + (SaidToks(d, table, items[0]) + (MoreSaid(d, table, items[1..]) + ListCloses(d)))
  }

  predicate NeedsThem(p: Phrase, level: nat) {
    p.Joint? && level >= Inner(p.logic)
  }

  function SpeltToks(d: Dialect, table: string, p: Phrase, level: nat): seq<Tok>
    requires Proper(d, p)
    decreases p, 1
  {
    if NeedsThem(p, level) then [LParen] + (InsideToks(d, table, p) + [RParen]) else InsideToks(d, table, p)
  }

  function InsideToks(d: Dialect, table: string, p: Phrase): seq<Tok>
    requires Proper(d, p)
    decreases p, 0
  {
    match p
    case Negated(t) => [Kw("not")] + SpeltToks(d, table, t, 2)
    case Joint(op, ts) => SpeltToks(d, table, ts[0], Inner(op)) + MoreSpelt(d, table, op, ts[1..])
    case Parens(t) => [LParen] + (SpeltToks(d, table, t, 0) + [RParen])
    case _ => SaidToks(d, table, p.left) + AfterLeftToks(d, table, p)
  }

  function MoreSpelt(d: Dialect, table: string, op: LogicOp, ts: seq<Phrase>): seq<Tok>
    requires forall t | t in ts :: Proper(d, t)
    decreases ts, 2
  {
    if ts == [] then [] else [Kw(LogicText(op))] + (SpeltToks(d, table, ts[0], Inner(op)) + MoreSpelt(d, table, op, ts[1..]))
  }

  // ---------------------------------------------------------------- operands

  lemma BareSaid(table: string, e: Expr, rest: seq<Tok>)
    requires ReadableBare(e) && AfterOperand(rest)
    ensures POperandSqlite(table, BareToks(table, e) + rest) == Done(e, rest)
  {
    hide NumberText, ParseNumber;
    var ts := BareToks(table, e) + rest;
    if e.Literal? {
      if e.value.Num? { ParseNumberText(e.value.n); }
      assert ts[1..] == rest;
      assert LiteralOf(ts[0]) == Some(e);
    } else if e.table == table {
      assert ts[1..] == rest;
      assert PColumn(table, e.name, rest) == Done(e, rest);
    } else {
      assert ts[1..] == [Dot, Ident(e.name)] + rest && ts[1..][2..] == rest;
      assert PColumn(table, e.table, ts[1..]) == Done(e, rest);
    }
  }

  lemma PlainSaid(d: Dialect, table: string, s: Side, rest: seq<Tok>)
    requires Speakable(d, Plain(s)) && AfterOperand(rest)
    ensures POperand(d, table, SideToks(table, s) + rest) == Done(Base(s), rest)
  {
    if d.Sqlite? {
      BareSaid(table, s.e, rest);
    } else {
      OperandRead(table, s, rest);
    }
    hide POperandPg, POperandSqlite, SideToks, BareToks, OneNameCasts;
  }

  lemma QualifiedSaid(d: Dialect, table: string, t: string, n: string, rest: seq<Tok>)
    requires AfterOperand(rest)
    ensures POperand(d, table, [Ident(t), Dot, Ident(n)] + rest) == Done(Column(t, n), rest)
  {
    var ts := [Ident(t), Dot, Ident(n)] + rest;
    assert ts[1..] == [Dot, Ident(n)] + rest && ts[1..][2..] == rest;
    assert PColumn(table, t, ts[1..]) == Done(Column(t, n), rest);
  }

  lemma NumberSaid(d: Dialect, table: string, v: string, n: Number, rest: seq<Tok>)
    requires ParseNumber(v) == Some(n) && AfterOperand(rest)
    ensures POperand(d, table, [NumberTok(v)] + rest) == Done(Literal(Num(n)), rest)
  {
    hide ParseNumber, PColumn;
    var ts := [NumberTok(v)] + rest;
    assert ts[1..] == rest;
    assert LiteralOf(ts[0]) == Some(Literal(Num(n)));
  }

  lemma FixedSaid(d: Dialect, table: string, w: string, f: string, rest: seq<Tok>)
    requires w != [] && AllDigits(w) && AllDigits(f) && AfterOperand(rest)
    ensures POperand(d, table, [NumberTok(MantissaText(w, f))] + rest) == Done(Literal(Num(Scaled(w, f, 0))), rest)
  {
    ParseFixed(w, f);
    assert MantissaText(w, f)[0] == w[0];
    assert ParseNumber(MantissaText(w, f)) == Some(Scaled(w, f, 0));
    hide *;
    NumberSaid(d, table, MantissaText(w, f), Scaled(w, f, 0), rest);
  }

  lemma {:induction false} WordLowers(written: string, word: string)
    requires SameWord(written, word) && LowerWord(word)
    ensures Lower(written) == word
  {
    forall i | 0 <= i < |word| ensures Lower(written)[i] == word[i] {
      assert 'a' <= word[i] <= 'z';
    }
  }

  lemma AffinityRead(written: string)
    requires Affinity(written)
    ensures IsAffinity(Ident(written))
  {
    if SameWord(written, "integer") { WordLowers(written, "integer"); }
    else if SameWord(written, "numeric") { WordLowers(written, "numeric"); }
    else if SameWord(written, "real") { WordLowers(written, "real"); }
    else { WordLowers(written, "text"); }
  }

  lemma CastRead(table: string, e: Expr, inner: seq<Tok>, affinity: string, rest: seq<Tok>)
    requires e.Column? && IsAffinity(Ident(affinity))
    requires POperandSqlite(table, inner + ([Kw("as"), Ident(affinity), RParen] + rest)) == Done(e, [Kw("as"), Ident(affinity), RParen] + rest)
    ensures POperandSqlite(table, [Kw("cast"), LParen] + (inner + [Kw("as"), Ident(affinity), RParen]) + rest) == Done(e, rest)
  {
    var tail := [Kw("as"), Ident(affinity), RParen] + rest;
    var ts := [Kw("cast"), LParen] + (inner + [Kw("as"), Ident(affinity), RParen]) + rest;
    assert ts[2..] == inner + tail;
    assert ts[1..][0] == LParen;
    assert tail[3..] == rest && tail[0] == Kw("as") && tail[1] == Ident(affinity) && tail[2] == RParen;
    hide IsAffinity;
  }

  lemma {:induction false} OperandSaid(d: Dialect, table: string, o: Operand, rest: seq<Tok>)
    requires Speakable(d, o) && AfterOperand(rest)
    ensures POperand(d, table, SaidToks(d, table, o) + rest) == Done(Says(o), rest)
  {
    match o
    case Plain(s) => PlainSaid(d, table, s, rest); hide POperand, SideToks;
    case Qualified(t, n) => QualifiedSaid(d, table, t, n, rest); hide POperand;
    case Fixed(w, f) => FixedSaid(d, table, w, f, rest); hide POperand;
    case CastColumn(of, affinity) =>
      hide POperandSqlite, Affinity, IsAffinity;
      AffinityRead(affinity);
      OperandSaid(d, table, of, [Kw("as"), Ident(affinity), RParen] + rest);
      CastRead(table, Says(of), SaidToks(d, table, of), affinity, rest);
  }

  lemma {:induction false} SaidHead(d: Dialect, table: string, o: Operand)
    requires Speakable(d, o)
    ensures var ts := SaidToks(d, table, o);
            && ts != [] && ts[0] != Kw("not") && ts[0] != Kw("any") && (SpeakableLeft(d, o) ==> ts[0] != LParen)
  {
    match o
    case Plain(s) => SideHead(table, s); NotAny(table, s);
    case _ =>
  }

  // ---------------------------------------------------------------- comparisons

  lemma SymbolRead(d: Dialect, symbol: string, op: CompareOp)
    requires Stands(d, symbol, op)
    ensures Symbol(d, symbol) == Some(op)
  {}

  lemma SymbolCompares(d: Dialect, table: string, left: Expr, symbol: string, op: CompareOp, ts: seq<Tok>)
    requires Symbol(d, symbol) == Some(op) && !Heads(Kw("any"), ts)
    ensures PComparison(d, table, left, [OpTok(symbol)] + ts) == PRight(d, table, op, left, ts)
  {
    assert ([OpTok(symbol)] + ts)[1..] == ts;
    hide Symbol, PRight;
  }

  lemma TestSaid(d: Dialect, table: string, p: Phrase, rest: seq<Tok>)
    requires Proper(d, p) && p.Test? && Ends(rest)
    ensures PComparison(d, table, Says(p.left), AfterLeftToks(d, table, p) + rest) == Done(Spelt(p), rest)
  {
    var right := SaidToks(d, table, p.right);
    assert AfterLeftToks(d, table, p) + rest == [OpTok(p.symbol)] + (right + rest);
    SaidHead(d, table, p.right);
    SymbolRead(d, p.symbol, p.op);
    SymbolCompares(d, table, Says(p.left), p.symbol, p.op, right + rest);
    OperandSaid(d, table, p.right, rest);
    hide PComparison, POperand, SaidToks, AfterLeftToks, Symbol, Stands;
  }

  lemma LikeSaid(d: Dialect, table: string, p: Phrase, rest: seq<Tok>)
    requires Proper(d, p) && p.LikeWord? && Ends(rest)
    ensures PComparison(d, table, Says(p.left), AfterLeftToks(d, table, p) + rest) == Done(Spelt(p), rest)
  {
    var right := SaidToks(d, table, p.right);
    var ts := AfterLeftToks(d, table, p) + rest;
    assert ts == [Kw("like")] + (right + rest);
    assert ts[1..] == right + rest;
    OperandSaid(d, table, p.right, rest);
    hide POperand, SaidToks, AfterLeftToks;
  }

  lemma NullSaid(d: Dialect, table: string, p: Phrase, rest: seq<Tok>)
    requires Proper(d, p) && p.NullTest?
    ensures PComparison(d, table, Says(p.left), AfterLeftToks(d, table, p) + rest) == Done(Spelt(p), rest)
  {
    var ts := AfterLeftToks(d, table, p) + rest;
    if p.negated {
      assert ts[1..] == [Kw("not"), Kw("null")] + rest && ts[1..][1..] == [Kw("null")] + rest && ts[1..][2..] == rest;
    } else {
      assert ts[1..] == [Kw("null")] + rest && ts[1..][1..] == rest;
    }
    hide Says, Speakable;
  }

  lemma AfterSaid(d: Dialect, table: string, items: seq<Operand>, rest: seq<Tok>)
    requires SpeakableItems(d, items) && AfterOperand(rest)
    ensures AfterOperand(MoreSaid(d, table, items) + rest)
  {
    assert items == [] ==> MoreSaid(d, table, items) + rest == rest;
    hide SaidToks;
  }

  lemma {:induction false} ItemsSaid(d: Dialect, table: string, done: seq<Json>, items: seq<Operand>, rest: seq<Tok>)
    requires SpeakableItems(d, items) && AfterOperand(rest) && !Heads(Comma, rest)
    ensures PItems(d, table, done, MoreSaid(d, table, items) + rest) == Done(Literal(Arr(done + ItemValues(items))), rest)
    decreases |items|
  {
    hide POperand, SaidToks, Says, Speakable;
    var ts := MoreSaid(d, table, items) + rest;
    if items == [] {
      assert ts == rest && done + ItemValues(items) == done;
    } else {
      var next := MoreSaid(d, table, items[1..]) + rest;
      assert items[0] in items;
      assert ts == [Comma] + (SaidToks(d, table, items[0]) + next);
      assert ts[1..] == SaidToks(d, table, items[0]) + next;
      AfterSaid(d, table, items[1..], rest);
      OperandSaid(d, table, items[0], next);
      ItemsSaid(d, table, done + [Says(items[0]).value], items[1..], rest);
      assert done + [Says(items[0]).value] + ItemValues(items[1..]) == done + ItemValues(items);
    }
  }

  lemma ListSaid(d: Dialect, table: string, items: seq<Operand>, rest: seq<Tok>)
    requires items != [] && SpeakableItems(d, items) && AfterOperand(rest) && !Heads(Comma, rest)
    ensures PList(d, table, SaidToks(d, table, items[0]) + (MoreSaid(d, table, items[1..]) + rest))
         == Done(Literal(Arr(ItemValues(items))), rest)
  {
    hide POperand, SaidToks, Says, Speakable;
    assert items[0] in items;
    AfterSaid(d, table, items[1..], rest);
    OperandSaid(d, table, items[0], MoreSaid(d, table, items[1..]) + rest);
    ItemsSaid(d, table, [Says(items[0]).value], items[1..], rest);
  }

  lemma ListOpened(d: Dialect, table: string, left: Expr, ts: seq<Tok>)
    ensures PComparison(d, table, left, ListOpens(d) + ts) == PIn(d, table, left, ts, ListCloses(d))
  {
    var toks := ListOpens(d) + ts;
    assert toks[|ListOpens(d)|..] == ts;
    if d.Sqlite? {
      assert toks[0] == Kw("in") && toks[1..][0] == LParen;
    } else {
      assert toks[0] == OpTok("=") && toks[1..][0] == Kw("any") && toks[2] == LParen && toks[3] == Kw("array") && toks[4] == LBracket;
    }
    hide PIn;
  }

  lemma ListClosed(d: Dialect, table: string, left: Expr, ts: seq<Tok>, list: Expr, rest: seq<Tok>)
    requires PList(d, table, ts) == Done(list, ListCloses(d) + rest)
    ensures PIn(d, table, left, ts, ListCloses(d)) == Done(Compare(In, left, list), rest)
  {
    hide PList;
    var close := ListCloses(d) + rest;
    assert close[..|ListCloses(d)|] == ListCloses(d) && close[|ListCloses(d)|..] == rest;
  }

  lemma ListToks(d: Dialect, table: string, p: Phrase, rest: seq<Tok>)
    requires Proper(d, p) && p.List?
    ensures p.items[0] in p.items
    ensures AfterLeftToks(d, table, p) + rest
         == ListOpens(d) + (SaidToks(d, table, p.items[0]) + (MoreSaid(d, table, p.items[1..]) + (ListCloses(d) + rest)))
  {
    hide SaidToks, MoreSaid, Speakable, Says, ListCloses, ListOpens;
    var s := SaidToks(d, table, p.items[0]);
    var m := MoreSaid(d, table, p.items[1..]);
    assert AfterLeftToks(d, table, p) == ListOpens(d) + (s + (m + ListCloses(d)));
  }

  lemma ListPhraseSaid(d: Dialect, table: string, p: Phrase, rest: seq<Tok>)
    requires Proper(d, p) && p.List?
    ensures PComparison(d, table, Says(p.left), AfterLeftToks(d, table, p) + rest) == Done(Spelt(p), rest)
  {
    var close := ListCloses(d) + rest;
    assert AfterOperand(close) && !Heads(Comma, close);
    ListToks(d, table, p, rest);
    hide SaidToks, MoreSaid, PList, PIn, PComparison, Says, Speakable, AfterLeftToks, ListOpens, ListCloses;
    ListSaid(d, table, p.items, close);
    var inner := SaidToks(d, table, p.items[0]) + (MoreSaid(d, table, p.items[1..]) + close);
    ListOpened(d, table, Says(p.left), inner);
    ListClosed(d, table, Says(p.left), inner, Literal(Arr(ItemValues(p.items))), rest);
  }

  lemma RightSaid(d: Dialect, table: string, p: Phrase, rest: seq<Tok>)
    requires Proper(d, p) && (p.Test? || p.LikeWord? || p.NullTest? || p.List?) && Ends(rest)
    ensures PComparison(d, table, Says(p.left), AfterLeftToks(d, table, p) + rest) == Done(Spelt(p), rest)
    ensures AfterOperand(AfterLeftToks(d, table, p) + rest)
  {
    assert (AfterLeftToks(d, table, p) + rest)[0] == AfterLeftToks(d, table, p)[0];
    match p {
      case Test(_, _, _, _) => TestSaid(d, table, p, rest);
      case LikeWord(_, _) => LikeSaid(d, table, p, rest);
      case NullTest(_, _) => NullSaid(d, table, p, rest);
      case List(_, _) => ListPhraseSaid(d, table, p, rest);
    }
    hide PComparison, SaidToks, Says, Speakable;
  }

  lemma ComparisonAlone(d: Dialect, table: string, ts: seq<Tok>, left: Expr, after: seq<Tok>, e: Expr, rest: seq<Tok>)
    requires ts != [] && ts[0] != Kw("not") && ts[0] != LParen
    requires POperand(d, table, ts) == Done(left, after) && PComparison(d, table, left, after) == Done(e, rest)
    ensures PNot(d, table, ts) == Done(e, rest)
  {
    hide POperand, PComparison;
  }

  lemma ComparisonSaid(d: Dialect, table: string, p: Phrase, rest: seq<Tok>)
    requires Proper(d, p) && (p.Test? || p.LikeWord? || p.NullTest? || p.List?) && Ends(rest)
    ensures PNot(d, table, InsideToks(d, table, p) + rest) == Done(Spelt(p), rest)
  {
    var left, after := SaidToks(d, table, p.left), AfterLeftToks(d, table, p) + rest;
    assert InsideToks(d, table, p) + rest == left + after;
    assert SpeakableLeft(d, p.left) && Speakable(d, p.left);
    hide *;
    SaidHead(d, table, p.left);
    RightSaid(d, table, p, rest);
    OperandSaid(d, table, p.left, after);
    assert (left + after)[0] == left[0];
    ComparisonAlone(d, table, left + after, Says(p.left), after, Spelt(p), rest);
  }

  // ---------------------------------------------------------------- conditions

  lemma LevelIs(d: Dialect, table: string, ts: seq<Tok>)
    ensures PLevel(d, table, 0, ts) == POr(d, table, ts)
    ensures PLevel(d, table, 2, ts) == PNot(d, table, ts)
  {}

  lemma ParensSaid(d: Dialect, table: string, e: Expr, inner: seq<Tok>, rest: seq<Tok>)
    requires POr(d, table, inner + ([RParen] + rest)) == Done(e, [RParen] + rest)
    ensures PNot(d, table, [LParen] + (inner + [RParen]) + rest) == Done(e, rest)
  {
    hide POr;
    var ts := [LParen] + (inner + [RParen]) + rest;
    assert ts[1..] == inner + ([RParen] + rest);
    assert ([RParen] + rest)[1..] == rest;
  }

  lemma NotOf(d: Dialect, table: string, e: Expr, ts: seq<Tok>, rest: seq<Tok>)
    requires PNot(d, table, ts) == Done(e, rest)
    ensures PNot(d, table, [Kw("not")] + ts) == Done(Not(e), rest)
  {
    hide PPrimary;
    assert ([Kw("not")] + ts)[1..] == ts;
  }

  lemma NotSaid(d: Dialect, table: string, e: Expr, inner: seq<Tok>, rest: seq<Tok>)
    requires PNot(d, table, inner + rest) == Done(e, rest)
    ensures PNot(d, table, [Kw("not")] + inner + rest) == Done(Not(e), rest)
  {
    hide PNot;
    assert [Kw("not")] + inner + rest == [Kw("not")] + (inner + rest);
    NotOf(d, table, e, inner + rest, rest);
  }

  lemma {:induction false} PhraseSaid(d: Dialect, table: string, p: Phrase, level: nat, rest: seq<Tok>)
    requires Proper(d, p) && EndsLevel(level, rest)
    ensures PLevel(d, table, level, SpeltToks(d, table, p, level) + rest) == Done(Spelt(p), rest)
    decreases p, 2
  {
    hide PLevel, Proper, Spelt;
    var ts := SpeltToks(d, table, p, level) + rest;
    if NeedsThem(p, level) {
      InsideSaid(d, table, p, 0, [RParen] + rest);
      LevelIs(d, table, InsideToks(d, table, p) + ([RParen] + rest));
      hide *;
      ParensSaid(d, table, Spelt(p), InsideToks(d, table, p), rest);
      LiftLevel(d, table, Spelt(p), ts, level, rest);
    } else {
      InsideSaid(d, table, p, level, rest);
    }
  }

  lemma {:induction false} InsideSaid(d: Dialect, table: string, p: Phrase, level: nat, rest: seq<Tok>)
    requires Proper(d, p) && !NeedsThem(p, level) && EndsLevel(level, rest)
    ensures PLevel(d, table, level, InsideToks(d, table, p) + rest) == Done(Spelt(p), rest)
    decreases p, 1
  {
    hide PLevel, SpeltToks;
    match p
    case Negated(t) =>
      PhraseSaid(d, table, t, 2, rest);
      LevelIs(d, table, SpeltToks(d, table, t, 2) + rest);
      NotSaid(d, table, Spelt(t), SpeltToks(d, table, t, 2), rest);
      LiftLevel(d, table, Spelt(p), InsideToks(d, table, p) + rest, level, rest);
    case Parens(t) =>
      PhraseSaid(d, table, t, 0, [RParen] + rest);
      LevelIs(d, table, SpeltToks(d, table, t, 0) + ([RParen] + rest));
      ParensSaid(d, table, Spelt(t), SpeltToks(d, table, t, 0), rest);
      LiftLevel(d, table, Spelt(p), InsideToks(d, table, p) + rest, level, rest);
    case Joint(_, _) =>
      JointSaid(d, table, p, level, rest);
    case _ =>
      ComparisonSaid(d, table, p, rest);
      LiftLevel(d, table, Spelt(p), InsideToks(d, table, p) + rest, level, rest);
  }

  lemma AfterPhrases(d: Dialect, table: string, op: LogicOp, ts: seq<Phrase>, rest: seq<Tok>)
    requires (forall t | t in ts :: Proper(d, t)) && EndsLevel(Inner(op) - 1, rest)
    ensures EndsLevel(Inner(op), MoreSpelt(d, table, op, ts) + rest)
  {
    if ts == [] {
      assert MoreSpelt(d, table, op, ts) + rest == rest;
    } else {
      assert (MoreSpelt(d, table, op, ts) + rest)[0] == Kw(LogicText(op));
    }
  }

  lemma {:induction false} TermsSaid(d: Dialect, table: string, op: LogicOp, done: seq<Expr>, ts: seq<Phrase>, rest: seq<Tok>)
    requires done != [] && (forall t | t in ts :: Proper(d, t)) && EndsLevel(Inner(op) - 1, rest)
    ensures PRest(d, table, op, done, MoreSpelt(d, table, op, ts) + rest) == Done(Joined(op, done + AllSpelt(ts)), rest)
    decreases ts, 3
  {
    hide PRest, PLevel, SpeltToks, Joined, EndsLevel;
    var toks := MoreSpelt(d, table, op, ts) + rest;
    if ts == [] {
      RestEnds(d, table, op, done, rest);
      assert toks == rest && done + AllSpelt(ts) == done;
    } else {
      var next := MoreSpelt(d, table, op, ts[1..]) + rest;
      assert ts[0] in ts;
      assert toks == [Kw(LogicText(op))] + (SpeltToks(d, table, ts[0], Inner(op)) + next);
      AfterPhrases(d, table, op, ts[1..], rest);
      PhraseSaid(d, table, ts[0], Inner(op), next);
      RestTakes(d, table, op, done, Spelt(ts[0]), SpeltToks(d, table, ts[0], Inner(op)) + next, next);
      TermsSaid(d, table, op, done + [Spelt(ts[0])], ts[1..], rest);
      ConcatAssociates(done, [Spelt(ts[0])], AllSpelt(ts[1..]));
    }
  }

  lemma {:induction false} JointSaid(d: Dialect, table: string, p: Phrase, level: nat, rest: seq<Tok>)
    requires Proper(d, p) && p.Joint? && level < Inner(p.logic) && EndsLevel(level, rest)
    ensures PLevel(d, table, level, InsideToks(d, table, p) + rest) == Done(Spelt(p), rest)
    decreases p, 0
  {
    var op, ts := p.logic, p.terms;
    var first := SpeltToks(d, table, ts[0], Inner(op));
    var next := MoreSpelt(d, table, op, ts[1..]) + rest;
    assert ts[0] in ts;
    assert forall t | t in ts[1..] :: t in ts;
    assert InsideToks(d, table, p) + rest == first + next;
    assert Spelt(p) == Joined(op, [Spelt(ts[0])] + AllSpelt(ts[1..]));
    AfterPhrases(d, table, op, ts[1..], rest);
    PhraseSaid(d, table, ts[0], Inner(op), next);
    TermsSaid(d, table, op, [Spelt(ts[0])], ts[1..], rest);
    hide SpeltToks, MoreSpelt, InsideToks, Spelt;
    FirstSaid(d, table, op, first + next, Spelt(ts[0]), next, Spelt(p), level, rest);
  }

  lemma FirstSaid(d: Dialect, table: string, op: LogicOp, ts: seq<Tok>, e: Expr, next: seq<Tok>, joint: Expr, level: nat, rest: seq<Tok>)
    requires level < Inner(op) && EndsLevel(level, rest)
    requires PLevel(d, table, Inner(op), ts) == Done(e, next) && PRest(d, table, op, [e], next) == Done(joint, rest)
    ensures PLevel(d, table, level, ts) == Done(joint, rest)
  {
    hide PNot;
    if op.And? {
      assert PAnd(d, table, ts) == PRest(d, table, op, [e], next);
      if level == 0 { assert POrRest(d, table, [joint], rest) == Done(joint, rest); }
    }
  }

  /** In either dialect, tokens that spell a condition are read as the condition they spell. */
  lemma SpellingRead(d: Dialect, table: string, p: Phrase)
    requires Proper(d, p)
    ensures ParseTokens(d, table, Some(SpeltToks(d, table, p, 0))) == Some(Spelt(p))
  {
    PhraseSaid(d, table, p, 0, []);
    LevelIs(d, table, SpeltToks(d, table, p, 0) + []);
    assert SpeltToks(d, table, p, 0) + [] == SpeltToks(d, table, p, 0);
    hide SpeltToks, POr, Proper, Spelt;
  }

  // ---------------------------------------------------------------- texts

  /** A name that needs no quotes. */
  predicate BareName(d: Dialect, v: string) {
    && v != [] && IsWordStart(v[0]) && (forall i | 0 <= i < |v| :: IsWordChar(v[i]))
    && forall k | k in Keywords(d) :: !SameWord(v, k)
  }

  /** SQLite's three ways to quote a name. */
  predicate QuotedName(v: string, piece: string) {
    || ('"' !in v && piece == ['"'] + v + ['"'])
    || ('`' !in v && piece == ['`'] + v + ['`'])
    || (']' !in v && piece == ['['] + v + [']'])
  }

  /** What a token can look like: keywords in any case, names bare or in quotes. */
  predicate Writes(d: Dialect, t: Tok, piece: string) {
    || (Lexable(d, t) && piece == TokText(d, t))
    || (t.Kw? && t.v in Keywords(d) && SameWord(piece, t.v))
    || (t.Ident? && BareName(d, t.v) && piece == t.v)
    || (t.Ident? && d.Sqlite? && QuotedName(t.v, piece))
  }

  function Spaced(pieces: seq<string>): string {
    if pieces == [] then []
    else if |pieces| == 1 then pieces[0]
    else pieces[0] + ([' '] + Spaced(pieces[1..]))
  }

  lemma WordsLex(d: Dialect, w: string, rest: string)
    requires w != [] && IsWordStart(w[0]) && (forall i | 0 <= i < |w| :: IsWordChar(w[i])) && Gap(rest)
    ensures LexOne(d, w + rest) == Token(WordTok(d, w), rest)
  {
    var s := w + rest;
    assert s[1..] == w[1..] + rest;
    SpanReads(IsWordChar, w[1..], rest);
    assert s[..|w|] == w && s[|w|..] == rest;
    hide ReadQuoted, PgIdent, NumberStep, PunctuationStep, WordTok;
  }

  lemma {:induction false} LowersToWord(v: string)
    ensures SameWord(v, Lower(v)) || exists i | 0 <= i < |v| :: !IsWordChar(v[i])
  {}

  lemma KeywordWritten(d: Dialect, k: string, piece: string, rest: string)
    requires k in Keywords(d) && SameWord(piece, k) && Gap(rest)
    ensures piece != [] && LexOne(d, piece + rest) == Token(Kw(k), rest)
  {
    KeywordsAreWords(d, k);
    WordLowers(piece, k);
    forall i | 0 <= i < |piece| ensures IsWordStart(piece[i]) { assert 'a' <= k[i] <= 'z'; }
    hide Keywords;
    WordsLex(d, piece, rest);
  }

  lemma NameWritten(d: Dialect, v: string, rest: string)
    requires BareName(d, v) && Gap(rest)
    ensures LexOne(d, v + rest) == Token(Ident(v), rest)
  {
    WordsLex(d, v, rest);
    LowersToWord(v);
    hide Keywords, LexOne;
  }

  lemma QuotedWritten(v: string, open: char, close: char, rest: string)
    requires close !in v && (open == '"' == close || open == '`' == close || (open == '[' && close == ']'))
    ensures LexOne(Sqlite, [open] + v + [close] + rest) == Token(Ident(v), rest)
  {
    var s := [open] + v + [close] + rest;
    assert s[0] == open && s[1..] == v + [close] + rest;
    QuotedReads(v, close, rest);
    hide ReadQuoted, PgIdent, NumberStep, WordStep, PunctuationStep;
  }

  lemma WrittenLexes(d: Dialect, t: Tok, piece: string, rest: string)
    requires Writes(d, t, piece) && Gap(rest)
    ensures piece != [] && LexOne(d, piece + rest) == Token(t, rest)
  {
    hide LexOne, Lexable, TokText, BareName, SameWord, Keywords;
    if Lexable(d, t) && piece == TokText(d, t) {
      TokenLexes(d, t, rest);
    } else if t.Kw? {
      KeywordWritten(d, t.v, piece, rest);
    } else if BareName(d, t.v) && piece == t.v {
      NameIsSomething(d, t.v);
      NameWritten(d, t.v, rest);
    } else if '"' !in t.v && piece == ['"'] + t.v + ['"'] {
      QuotedWritten(t.v, '"', '"', rest);
    } else if '`' !in t.v && piece == ['`'] + t.v + ['`'] {
      QuotedWritten(t.v, '`', '`', rest);
    } else {
      QuotedWritten(t.v, '[', ']', rest);
    }
  }

  lemma NameIsSomething(d: Dialect, v: string)
    requires BareName(d, v)
    ensures v != []
  {}

  /** However its tokens are written, a text is split into them. */
  lemma {:induction false} WritingLexes(d: Dialect, ts: seq<Tok>, pieces: seq<string>)
    requires |pieces| == |ts| && forall i | 0 <= i < |ts| :: Writes(d, ts[i], pieces[i])
    ensures Lex(d, Spaced(pieces)) == Some(ts)
    decreases |ts|
  {
    hide Writes, LexOne;
    if ts != [] {
      if |ts| == 1 {
        WrittenLexes(d, ts[0], pieces[0], []);
        assert pieces[0] + [] == pieces[0];
        assert ts == [ts[0]] + [];
      } else {
        var rest := [' '] + Spaced(pieces[1..]);
        WrittenLexes(d, ts[0], pieces[0], rest);
        WritingLexes(d, ts[1..], pieces[1..]);
        SpaceThenRest(d, Spaced(pieces[1..]));
        assert ts == [ts[0]] + ts[1..];
      }
    }
  }

  /** Every text that spells a condition is parsed as the condition; SQLite's after its outer parentheses are off. */
  lemma SpellingParsed(d: Dialect, table: string, p: Phrase, pieces: seq<string>, raw: string)
    requires Proper(d, p) && |pieces| == |SpeltToks(d, table, p, 0)|
    requires forall i | 0 <= i < |pieces| :: Writes(d, SpeltToks(d, table, p, 0)[i], pieces[i])
    requires Spaced(pieces) == if d.Sqlite? then Strip(Trim(raw)) else raw
    ensures ParseText(d, raw, table) == Some(Spelt(p))
  {
    WritingLexes(d, SpeltToks(d, table, p, 0), pieces);
    SpellingRead(d, table, p);
    hide SpeltToks, Lex, Strip, Trim, Spaced, Writes, Proper, Spelt, ParseTokens;
  }

  // ---------------------------------------------------------------- what is meant

  /** Both symbols for inequality are read as the negation of what every symbol for equality is read as, on every row. */
  lemma InequalityNegates(d: Dialect, table: string, same: string, other: string, l: Operand, r: Operand, row: Row, now: string)
    requires SpeakableLeft(d, l) && Speakable(d, r)
    requires (same == "=" || (same == "==" && d.Sqlite?)) && (other == "<>" || other == "!=")
    ensures var e := ParseTokens(d, table, Some(SaidToks(d, table, l) + ([OpTok(same)] + SaidToks(d, table, r))));
            var f := ParseTokens(d, table, Some(SaidToks(d, table, l) + ([OpTok(other)] + SaidToks(d, table, r))));
            && e.Some? && f.Some?
            && (Eval(f.value, row, now) == TRUE <==> Eval(e.value, row, now) == FALSE)
            && (Eval(f.value, row, now) == FALSE <==> Eval(e.value, row, now) == TRUE)
            && (Eval(f.value, row, now) == Undefined <==> Eval(e.value, row, now) == Undefined)
  {
    var p, q := Phrase.Test(Eq, same, l, r), Phrase.Test(Neq, other, l, r);
    SpellingRead(d, table, p);
    SpellingRead(d, table, q);
    assert SpeltToks(d, table, p, 0) == SaidToks(d, table, l) + ([OpTok(same)] + SaidToks(d, table, r));
    assert SpeltToks(d, table, q, 0) == SaidToks(d, table, l) + ([OpTok(other)] + SaidToks(d, table, r));
    hide SaidToks, SpeltToks, ParseTokens, Says, Speakable;
    EqualityNegated(Says(l), Says(r), row, now);
  }

  lemma EqualityNegated(l: Expr, r: Expr, row: Row, now: string)
    ensures var e, f := Compare(Eq, l, r), Compare(Neq, l, r);
            && (Eval(f, row, now) == TRUE <==> Eval(e, row, now) == FALSE)
            && (Eval(f, row, now) == FALSE <==> Eval(e, row, now) == TRUE)
            && (Eval(f, row, now) == Undefined <==> Eval(e, row, now) == Undefined)
  {
    UnknownSides(Eq, l, r, row, now);
    UnknownSides(Neq, l, r, row, now);
    var v, w := Eval(l, row, now), Eval(r, row, now);
    if !Missing(v) && !Missing(w) {
      EqualityDecided(l, r, row, now, v.v, w.v);
    }
    hide Eval;
  }
}
