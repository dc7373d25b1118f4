/**
 * The recursive-descent parsers that read a CHECK constraint back into a portable expression,
 * for the text SQLite stores and for the text PostgreSQL prints.
 */
module CheckParser {
  import opened Text
  import opened Numbers
  import opened CanonicalJson
  import opened Expressions
  import opened CheckLexer

  /** An expression and the tokens after it, or the stable refusal. */
  datatype Parsed = Done(e: Expr, rest: seq<Tok>) | Refused

  predicate Heads(t: Tok, ts: seq<Tok>) {
    ts != [] && ts[0] == t
  }

  function Symbol(d: Dialect, v: string): Option<CompareOp> {
    if v == "=" then Some(Eq)
    else if v == "==" && d.Sqlite? then Some(Eq)
    else if v == "<>" || v == "!=" then Some(Neq)
    else if v == ">" then Some(Gt)
    else if v == ">=" then Some(Gte)
    else if v == "<" then Some(Lt)
    else if v == "<=" then Some(Lte)
    else if v == "~~" && d.Postgres? then Some(Like)
    else if v == "~~*" && d.Postgres? then Some(ILike)
    else None
  }

  // ---------------------------------------------------------------- operands

  /** A literal token's expression. */
  function LiteralOf(t: Tok): Option<Expr> {
    match t
    case NumberTok(v) => (match ParseNumber(v) case Some(n) => Some(Literal(Num(n))) case None => None)
    case StringTok(v) => Some(Literal(Str(v)))
    case Kw(v) =>
      if v == "null" then Some(Literal(Null))
      else if v == "true" then Some(Literal(Bool(true)))
      else if v == "false" then Some(Literal(Bool(false)))
      else None
    case _ => None
  }

  /** A column, bare or qualified, that is not a function call. */
  function PColumn(table: string, name: string, ts: seq<Tok>): (r: Parsed)
    ensures r.Done? ==> |r.rest| <= |ts|
  {
    if Heads(Dot, ts) then
      if |ts| < 2 || !ts[1].Ident? || Heads(LParen, ts[2..]) then Refused
      else Done(Column(name, ts[1].v), ts[2..])
    else if Heads(LParen, ts) then Refused
    else Done(Column(table, name), ts)
  }

  predicate IsAffinity(t: Tok) {
    (t.Ident? || t.Kw?) && Lower(t.v) in {"integer", "numeric", "real", "text"}
  }

  /** SQLite's operand: CAST(column AS affinity) is read as the column. */
  function POperandSqlite(table: string, ts: seq<Tok>): (r: Parsed)
    ensures r.Done? ==> |r.rest| < |ts|
    decreases |ts|
  {
    if ts == [] then Refused
    else if ts[0] == Kw("cast") then
      if !Heads(LParen, ts[1..]) then Refused
      else
        match POperandSqlite(table, ts[2..])
        case Refused => Refused
        case Done(inner, r) =>
          if |r| >= 3 && r[0] == Kw("as") && IsAffinity(r[1]) && r[2] == RParen && inner.Column?
          then Done(inner, r[3..])
          else Refused
    else if ts[0].Ident? then PColumn(table, ts[0].v, ts[1..])
    else match LiteralOf(ts[0])
      case Some(e) => Done(e, ts[1..])
      case None => Refused
  }

  /** Past a balanced group, entered at `depth`. */
  function SkipParens(ts: seq<Tok>, depth: int): (r: Option<seq<Tok>>)
    ensures r.Some? ==> |r.value| < |ts|
    decreases |ts|
  {
    if ts == [] then None
    else
      var after := if ts[0].LParen? then depth + 1 else if ts[0].RParen? then depth - 1 else depth;
      if after > 0 then SkipParens(ts[1..], after) else Some(ts[1..])
  }

  /** One `::type`, the tokens after the `::`. */
  function SkipType(ts: seq<Tok>): (r: Option<seq<Tok>>)
    ensures r.Some? ==> |r.value| < |ts|
  {
    if ts == [] || !ts[0].Ident? then None
    else
      var qualified := Heads(Dot, ts[1..]);
      if qualified && (|ts| < 3 || !ts[2].Ident?) then None
      else
        var r := if qualified then ts[3..] else ts[1..];
        var bracketed := Heads(LBracket, r);
        if bracketed && (|r| < 2 || !r[1].RBracket?) then None
        else
          var q := if bracketed then r[2..] else r;
          if Heads(LParen, q) then SkipParens(q, 0) else Some(q)
  }

  function StripCasts(ts: seq<Tok>): (r: Option<seq<Tok>>)
    ensures r.Some? ==> |r.value| <= |ts|
    decreases |ts|
  {
    if !Heads(Cast, ts) then Some(ts)
    else match SkipType(ts[1..])
      case None => None
      case Some(rest) => StripCasts(rest)
  }

  function WithoutCasts(r: Parsed): (s: Parsed)
    ensures s.Done? ==> r.Done? && |s.rest| <= |r.rest|
  {
    match r
    case Refused => Refused
    case Done(e, rest) => (match StripCasts(rest) case None => Refused case Some(q) => Done(e, q))
  }

  /** PostgreSQL's operand: casts after it are dropped, and it may be in parentheses. */
  function POperandPg(table: string, ts: seq<Tok>): (r: Parsed)
    ensures r.Done? ==> |r.rest| < |ts|
    decreases |ts|
  {
    if ts == [] then Refused
    else if ts[0].LParen? then
      match POperandPg(table, ts[1..])
      case Refused => Refused
      case Done(e, rest) => if Heads(RParen, rest) then WithoutCasts(Done(e, rest[1..])) else Refused
    else if ts[0].Ident? then WithoutCasts(PColumn(table, ts[0].v, ts[1..]))
    else match LiteralOf(ts[0])
      case Some(e) => WithoutCasts(Done(e, ts[1..]))
      case None => Refused
  }

  function POperand(d: Dialect, table: string, ts: seq<Tok>): (r: Parsed)
    ensures r.Done? ==> |r.rest| < |ts|
  {
    match d
    case Sqlite => POperandSqlite(table, ts)
    case Postgres => POperandPg(table, ts)
  }

  // ---------------------------------------------------------------- comparisons

  /** The literals of a list after the first ones, as one array literal. */
  function PItems(d: Dialect, table: string, items: seq<Json>, ts: seq<Tok>): (r: Parsed)
    ensures r.Done? ==> |r.rest| <= |ts| && r.e.Literal?
    decreases |ts|
  {
    if !Heads(Comma, ts) then Done(Literal(Arr(items)), ts)
    else
      match POperand(d, table, ts[1..])
      case Refused => Refused
      case Done(e, rest) => if e.Literal? then PItems(d, table, items + [e.value], rest) else Refused
  }

  function PList(d: Dialect, table: string, ts: seq<Tok>): (r: Parsed)
    ensures r.Done? ==> |r.rest| < |ts|
  {
    match POperand(d, table, ts)
    case Refused => Refused
    case Done(e, rest) => if e.Literal? then PItems(d, table, [e.value], rest) else Refused
  }

  /** A list of literals and the closing tokens after it. */
  function PIn(d: Dialect, table: string, left: Expr, ts: seq<Tok>, close: seq<Tok>): (r: Parsed)
    ensures r.Done? ==> |r.rest| <= |ts|
  {
    match PList(d, table, ts)
    case Refused => Refused
    case Done(list, rest) =>
      if |close| <= |rest| && rest[..|close|] == close then Done(Compare(In, left, list), rest[|close|..])
      else Refused
  }

  function PRight(d: Dialect, table: string, c: CompareOp, left: Expr, ts: seq<Tok>): (r: Parsed)
    ensures r.Done? ==> |r.rest| <= |ts|
  {
    match POperand(d, table, ts)
    case Refused => Refused
    case Done(right, rest) => Done(Compare(c, left, right), rest)
  }

  function PIs(left: Expr, ts: seq<Tok>): (r: Parsed)
    ensures r.Done? ==> |r.rest| <= |ts|
  {
    var isNull := Compare(Is, left, Literal(Null));
    if Heads(Kw("not"), ts) then
      if Heads(Kw("null"), ts[1..]) then Done(Not(isNull), ts[2..]) else Refused
    else if Heads(Kw("null"), ts) then Done(isNull, ts[1..])
    else Refused
  }

  predicate OpensAny(d: Dialect, ts: seq<Tok>) {
    d.Postgres? && Heads(OpTok("="), ts) && Heads(Kw("any"), ts[1..])
  }

  /** What follows a left operand. */
  function PComparison(d: Dialect, table: string, left: Expr, ts: seq<Tok>): (r: Parsed)
    ensures r.Done? ==> |r.rest| <= |ts|
  {
    if ts == [] then Refused
    else if OpensAny(d, ts) then
      if |ts| >= 5 && ts[2] == LParen && ts[3] == Kw("array") && ts[4] == LBracket
      then PIn(d, table, left, ts[5..], [RBracket, RParen])
      else Refused
    else if ts[0].OpTok? then
      match Symbol(d, ts[0].v)
      case None => Refused
      case Some(c) => PRight(d, table, c, left, ts[1..])
    else if d.Sqlite? && ts[0] == Kw("like") then PRight(d, table, Like, left, ts[1..])
    else if d.Sqlite? && ts[0] == Kw("in") then
      if Heads(LParen, ts[1..]) then PIn(d, table, left, ts[2..], [RParen]) else Refused
    else if ts[0] == Kw("is") then PIs(left, ts[1..])
    else Refused
  }

  function PCompare(d: Dialect, table: string, ts: seq<Tok>): (r: Parsed)
    ensures r.Done? ==> |r.rest| < |ts|
  {
    match POperand(d, table, ts)
    case Refused => Refused
    case Done(left, rest) => PComparison(d, table, left, rest)
  }

  // ---------------------------------------------------------------- or, and, not, parentheses

  function Joined(op: LogicOp, terms: seq<Expr>): Expr
    requires terms != []
  {
    if |terms| == 1 then terms[0] else Logic(op, terms)
  }

  function POr(d: Dialect, table: string, ts: seq<Tok>): (r: Parsed)
    ensures r.Done? ==> |r.rest| < |ts|
    decreases |ts|, 5
  {
    match PAnd(d, table, ts)
    case Refused => Refused
    case Done(e, rest) => POrRest(d, table, [e], rest)
  }

  function POrRest(d: Dialect, table: string, terms: seq<Expr>, ts: seq<Tok>): (r: Parsed)
    requires terms != []
    ensures r.Done? ==> |r.rest| <= |ts|
    decreases |ts|, 4
  {
    if !Heads(Kw("or"), ts) then Done(Joined(Or, terms), ts)
    else
      match PAnd(d, table, ts[1..])
      case Refused => Refused
      case Done(e, rest) => POrRest(d, table, terms + [e], rest)
  }

  function PAnd(d: Dialect, table: string, ts: seq<Tok>): (r: Parsed)
    ensures r.Done? ==> |r.rest| < |ts|
    decreases |ts|, 3
  {
    match PNot(d, table, ts)
    case Refused => Refused
    case Done(e, rest) => PAndRest(d, table, [e], rest)
  }

  function PAndRest(d: Dialect, table: string, terms: seq<Expr>, ts: seq<Tok>): (r: Parsed)
    requires terms != []
    ensures r.Done? ==> |r.rest| <= |ts|
    decreases |ts|, 2
  {
    if !Heads(Kw("and"), ts) then Done(Joined(And, terms), ts)
    else
      match PNot(d, table, ts[1..])
      case Refused => Refused
      case Done(e, rest) => PAndRest(d, table, terms + [e], rest)
  }

  function PNot(d: Dialect, table: string, ts: seq<Tok>): (r: Parsed)
    ensures r.Done? ==> |r.rest| < |ts|
    decreases |ts|, 1
  {
    if Heads(Kw("not"), ts) then
      match PNot(d, table, ts[1..])
      case Refused => Refused
      case Done(e, rest) => Done(Not(e), rest)
    else PPrimary(d, table, ts)
  }

  function PPrimary(d: Dialect, table: string, ts: seq<Tok>): (r: Parsed)
    ensures r.Done? ==> |r.rest| < |ts|
    decreases |ts|, 0
  {
    if Heads(LParen, ts) then
      match POr(d, table, ts[1..])
      case Refused => Refused
      case Done(e, rest) => if Heads(RParen, rest) then Done(e, rest[1..]) else Refused
    else PCompare(d, table, ts)
  }

  function Whole(r: Parsed): Option<Expr> {
    if r.Done? && r.rest == [] then Some(r.e) else None
  }

  // ---------------------------------------------------------------- the parser object

  /** What a parsing method leaves behind: its result, and the cursor in front of the rest. */
  predicate Outcome(r: Option<Expr>, toks: seq<Tok>, pos: nat, spec: Parsed) {
    match spec
    case Refused => r == None
    case Done(e, rest) => r == Some(e) && pos <= |toks| && toks[pos..] == rest
  }

  class Parser {
    const d: Dialect
    const table: string
    const toks: seq<Tok>
    var pos: nat

    constructor (d: Dialect, table: string, toks: seq<Tok>)
      ensures this.d == d && this.table == table && this.toks == toks && pos == 0
    {
      this.d, this.table, this.toks := d, table, toks;
      pos := 0;
    }

    function Left(): seq<Tok>
      requires pos <= |toks|
      reads this
    {
      toks[pos..]
    }

    method Parse() returns (r: Option<Expr>)
      requires pos == 0
      modifies this`pos
      ensures r == Whole(POr(d, table, toks))
    {
      assert Left() == toks;
      r := OrExpr();
      if pos != |toks| {
        return None;
      }
    }

    method IsNext(t: Tok) returns (yes: bool)
      requires pos <= |toks|
      ensures yes <==> Heads(t, Left())
    {
      yes := pos < |toks| && toks[pos] == t;
    }

    /** Consumes the next token when it is `t`. */
    method Accept(t: Tok) returns (yes: bool)
      requires pos <= |toks|
      modifies this`pos
      ensures pos <= |toks|
      ensures yes == old(Heads(t, Left()))
      ensures if yes then pos == old(pos) + 1 && Left() == old(Left())[1..] else pos == old(pos)
    {
      yes := IsNext(t);
      if yes {
        pos := pos + 1;
      }
    }

    method OrExpr() returns (r: Option<Expr>)
      requires pos <= |toks|
      modifies this`pos
      ensures Outcome(r, toks, pos, POr(d, table, old(Left())))
      ensures old(pos) <= pos <= |toks| && (r.Some? ==> pos > old(pos))
      decreases |toks| - pos, 3
    {
      var first := AndExpr();
      if first.None? {
        return None;
      }
      var terms := [first.value];
      var more := Accept(Kw("or"));
      while more
        invariant old(pos) < pos <= |toks| && terms != []
        invariant POr(d, table, old(Left()))
               == if more then
                    (match PAnd(d, table, Left())
                     case Refused => Refused
                     case Done(e, rest) => POrRest(d, table, terms + [e], rest))
                  else Done(Joined(Or, terms), Left())
        decreases |toks| - pos, more
      {
        var e := AndExpr();
        if e.None? {
          return None;
        }
        terms := terms + [e.value];
        more := Accept(Kw("or"));
      }
      return Some(Joined(Or, terms));
    }

    method AndExpr() returns (r: Option<Expr>)
      requires pos <= |toks|
      modifies this`pos
      ensures Outcome(r, toks, pos, PAnd(d, table, old(Left())))
      ensures old(pos) <= pos <= |toks| && (r.Some? ==> pos > old(pos))
      decreases |toks| - pos, 2
    {
      var first := NotExpr();
      if first.None? {
        return None;
      }
      var terms := [first.value];
      var more := Accept(Kw("and"));
      while more
        invariant old(pos) < pos <= |toks| && terms != []
        invariant PAnd(d, table, old(Left()))
               == if more then
                    (match PNot(d, table, Left())
                     case Refused => Refused
                     case Done(e, rest) => PAndRest(d, table, terms + [e], rest))
                  else Done(Joined(And, terms), Left())
        decreases |toks| - pos, more
      {
        var e := NotExpr();
        if e.None? {
          return None;
        }
        terms := terms + [e.value];
        more := Accept(Kw("and"));
      }
      return Some(Joined(And, terms));
    }

    method NotExpr() returns (r: Option<Expr>)
      requires pos <= |toks|
      modifies this`pos
      ensures Outcome(r, toks, pos, PNot(d, table, old(Left())))
      ensures old(pos) <= pos <= |toks| && (r.Some? ==> pos > old(pos))
      decreases |toks| - pos, 1
    {
      var negated := Accept(Kw("not"));
      if negated {
        var t := NotExpr();
        r := if t.Some? then Some(Not(t.value)) else None;
      } else {
        r := Primary();
      }
    }

    method Primary() returns (r: Option<Expr>)
      requires pos <= |toks|
      modifies this`pos
      ensures Outcome(r, toks, pos, PPrimary(d, table, old(Left())))
      ensures old(pos) <= pos <= |toks| && (r.Some? ==> pos > old(pos))
      decreases |toks| - pos, 0
    {
      var open := Accept(LParen);
      if open {
        var e := OrExpr();
        if e.None? {
          return None;
        }
        var closed := Accept(RParen);
        r := if closed then e else None;
      } else {
        r := CompareExpr();
      }
    }

    method CompareExpr() returns (r: Option<Expr>)
      requires pos <= |toks|
      modifies this`pos
      ensures Outcome(r, toks, pos, PCompare(d, table, old(Left())))
      ensures old(pos) <= pos <= |toks| && (r.Some? ==> pos > old(pos))
    {
      var left := Operand();
      if left.None? {
        return None;
      }
      r := Comparison(left.value);
    }

    method Comparison(left: Expr) returns (r: Option<Expr>)
      requires pos <= |toks|
      modifies this`pos
      ensures Outcome(r, toks, pos, PComparison(d, table, left, old(Left())))
      ensures old(pos) <= pos <= |toks|
    {
      if pos == |toks| {
        return None;
      }
      var t := toks[pos];
      if OpensAny(d, Left()) {
        if pos + 5 <= |toks| && toks[pos + 2] == LParen && toks[pos + 3] == Kw("array") && toks[pos + 4] == LBracket {
          pos := pos + 5;
          r := InList(left, [RBracket, RParen]);
        } else {
          r := None;
        }
      } else if t.OpTok? {
        pos := pos + 1;
        var c := Symbol(d, t.v);
        if c.None? {
          return None;
        }
        r := Right(c.value, left);
      } else if d.Sqlite? && t == Kw("like") {
        pos := pos + 1;
        r := Right(Like, left);
      } else if d.Sqlite? && t == Kw("in") {
        pos := pos + 1;
        var open := Accept(LParen);
        if !open {
          return None;
        }
        r := InList(left, [RParen]);
      } else if t == Kw("is") {
        pos := pos + 1;
        r := IsTest(left);
      } else {
        r := None;
      }
    }

    method Right(c: CompareOp, left: Expr) returns (r: Option<Expr>)
      requires pos <= |toks|
      modifies this`pos
      ensures Outcome(r, toks, pos, PRight(d, table, c, left, old(Left())))
      ensures old(pos) <= pos <= |toks|
    {
      var right := Operand();
      r := if right.None? then None else Some(Compare(c, left, right.value));
    }

    method IsTest(left: Expr) returns (r: Option<Expr>)
      requires pos <= |toks|
      modifies this`pos
      ensures Outcome(r, toks, pos, PIs(left, old(Left())))
      ensures old(pos) <= pos <= |toks|
    {
      var negated := Accept(Kw("not"));
      var isNull := Accept(Kw("null"));
      if !isNull {
        return None;
      }
      var e := Compare(Is, left, Literal(Null));
      r := Some(if negated then Not(e) else e);
    }

    method InList(left: Expr, close: seq<Tok>) returns (r: Option<Expr>)
      requires pos <= |toks|
      modifies this`pos
      ensures Outcome(r, toks, pos, PIn(d, table, left, old(Left()), close))
      ensures old(pos) <= pos <= |toks|
    {
      var items := Items();
      if items.None? || pos + |close| > |toks| || toks[pos..pos + |close|] != close {
        return None;
      }
      assert Left()[..|close|] == toks[pos..pos + |close|];
      pos := pos + |close|;
      r := Some(Compare(In, left, Literal(Arr(items.value))));
    }

    /** The loop over `literalOnly` and commas. */
    method Items() returns (r: Option<seq<Json>>)
      requires pos <= |toks|
      modifies this`pos
      ensures Outcome(if r.Some? then Some(Literal(Arr(r.value))) else None, toks, pos, PList(d, table, old(Left())))
      ensures old(pos) <= pos <= |toks|
    {
      var first := Operand();
      if first.None? || !first.value.Literal? {
        return None;
      }
      var items := [first.value.value];
      var more := Accept(Comma);
      while more
        invariant old(pos) < pos <= |toks|
        invariant PList(d, table, old(Left()))
               == if more then
                    (match POperand(d, table, Left())
                     case Refused => Refused
                     case Done(e, rest) => if e.Literal? then PItems(d, table, items + [e.value], rest) else Refused)
                  else Done(Literal(Arr(items)), Left())
        decreases |toks| - pos, more
      {
        var e := Operand();
        if e.None? || !e.value.Literal? {
          return None;
        }
        items := items + [e.value.value];
        more := Accept(Comma);
      }
      return Some(items);
    }

    method Operand() returns (r: Option<Expr>)
      requires pos <= |toks|
      modifies this`pos
      ensures Outcome(r, toks, pos, POperand(d, table, old(Left())))
      ensures old(pos) <= pos <= |toks| && (r.Some? ==> pos > old(pos))
    {
      if d.Sqlite? {
        r := OperandSqlite();
      } else {
        r := OperandPg();
      }
    }

    method ColumnAfter(name: string) returns (r: Option<Expr>)
      requires pos <= |toks|
      modifies this`pos
      ensures Outcome(r, toks, pos, PColumn(table, name, old(Left())))
      ensures old(pos) <= pos <= |toks|
    {
      var e := Column(table, name);
      var dot := Accept(Dot);
      if dot {
        if pos == |toks| || !toks[pos].Ident? {
          return None;
        }
        e := Column(name, toks[pos].v);
        pos := pos + 1;
      }
      var call := IsNext(LParen);
      r := if call then None else Some(e);
    }

    method OperandSqlite() returns (r: Option<Expr>)
      requires pos <= |toks|
      modifies this`pos
      ensures Outcome(r, toks, pos, POperandSqlite(table, old(Left())))
      ensures old(pos) <= pos <= |toks| && (r.Some? ==> pos > old(pos))
      decreases |toks| - pos
    {
      hide LiteralOf, IsAffinity, PColumn;
      if pos == |toks| {
        return None;
      }
      var t := toks[pos];
      pos := pos + 1;
      if t == Kw("cast") {
        var open := Accept(LParen);
        if !open {
          return None;
        }
        var inner := OperandSqlite();
        if inner.None? || pos + 3 > |toks| || toks[pos] != Kw("as") || !IsAffinity(toks[pos + 1])
           || toks[pos + 2] != RParen || !inner.value.Column? {
          return None;
        }
        pos := pos + 3;
        r := inner;
      } else if t.Ident? {
        r := ColumnAfter(t.v);
      } else {
        r := LiteralOf(t);
      }
    }

    method OperandPg() returns (r: Option<Expr>)
      requires pos <= |toks|
      modifies this`pos
      ensures Outcome(r, toks, pos, POperandPg(table, old(Left())))
      ensures old(pos) <= pos <= |toks| && (r.Some? ==> pos > old(pos))
      decreases |toks| - pos
    {
      if pos == |toks| {
        return None;
      }
      var t := toks[pos];
      pos := pos + 1;
      if t.LParen? {
        r := OperandPg();
        if r.None? {
          return None;
        }
        var closed := Accept(RParen);
        if !closed {
          return None;
        }
      } else if t.Ident? {
        r := ColumnAfter(t.v);
      } else {
        r := LiteralOf(t);
      }
      if r.Some? {
        var ok := StripCast();
        r := if ok then r else None;
      }
    }

    /** Drops `::type` suffixes. */
    method StripCast() returns (ok: bool)
      requires pos <= |toks|
      modifies this`pos
      ensures Landed(ok, toks, pos, StripCasts(old(Left())))
      ensures old(pos) <= pos <= |toks|
    {
      var more := Accept(Cast);
      while more
        invariant old(pos) <= pos <= |toks|
        invariant StripCasts(old(Left()))
               == if more then
                    (match SkipType(Left()) case None => None case Some(rest) => StripCasts(rest))
                  else Some(Left())
        decreases |toks| - pos, more
      {
        var skipped := TypeName();
        if !skipped {
          return false;
        }
        more := Accept(Cast);
      }
      return true;
    }

    method TypeName() returns (ok: bool)
      requires pos <= |toks|
      modifies this`pos
      ensures Landed(ok, toks, pos, SkipType(old(Left())))
      ensures old(pos) <= pos <= |toks| && (ok ==> pos > old(pos))
    {
      if pos == |toks| || !toks[pos].Ident? {
        return false;
      }
      pos := pos + 1;
      var dot := Accept(Dot);
      if dot {
        if pos == |toks| || !toks[pos].Ident? {
          return false;
        }
        pos := pos + 1;
      }
      var bracket := Accept(LBracket);
      if bracket {
        var closed := Accept(RBracket);
        if !closed {
          return false;
        }
      }
      var paren := IsNext(LParen);
      if paren {
        ok := SkipGroup();
      } else {
        ok := true;
      }
    }

    /** Skips a parenthesised group by counting its parentheses. */
    method SkipGroup() returns (ok: bool)
      requires pos <= |toks|
      modifies this`pos
      ensures Landed(ok, toks, pos, SkipParens(old(Left()), 0))
      ensures old(pos) <= pos <= |toks|
    {
      var depth, going := 0, true;
      while going
        invariant old(pos) <= pos <= |toks|
        invariant SkipParens(old(Left()), 0) == if going then SkipParens(Left(), depth) else Some(Left())
        decreases |toks| - pos, going
      {
        if pos == |toks| {
          return false;
        }
        depth := if toks[pos].LParen? then depth + 1 else if toks[pos].RParen? then depth - 1 else depth;
        pos := pos + 1;
        going := depth > 0;
      }
      return true;
    }
  }

  predicate Landed(ok: bool, toks: seq<Tok>, pos: nat, spec: Option<seq<Tok>>) {
    match spec
    case None => !ok
    case Some(rest) => ok && pos <= |toks| && toks[pos..] == rest
  }
}
