/**
 * Evaluation of a check expression over a candidate row, with SQL's three truth values, and
 * what the two rewritings of expressions (principal resolution, normalisation) do to it.
 */
module Evaluate {
  import opened Text
  import opened Numbers
  import opened CanonicalJson
  import opened Expressions
  import opened NormalForms

  type Row = map<string, Json>

  /** A JSON value or JavaScript's undefined, which stands for SQL's unknown. */
  datatype Tri = Undefined | Val(v: Json)

  const TRUE: Tri := Val(Bool(true))
  const FALSE: Tri := Val(Bool(false))

  // ---------------------------------------------------------------- comparisons

  predicate Composite(v: Json) {
    v.Arr? || v.Obj?
  }

  /**
   * The strict equality of two values. Arrays and objects are compared by identity, so two of
   * them are equal only when both sides read the same column.
   */
  predicate StrictEqual(l: Json, r: Json, sameColumn: bool) {
    if Composite(l) || Composite(r) then sameColumn else l == r
  }

  predicate SameColumn(l: Expr, r: Expr) {
    l.Column? && r.Column? && l.name == r.name
  }

  /** String(v) */
  function ToText(v: Json): string {
    match v
    case Null => "null"
    case Bool(b) => if b then "true" else "false"
    case Num(n) => NumberText(n)
    case Str(s) => s
    case Arr(items) => JoinText(items)
    case Obj(_) => "[object Object]"
  }

  /** Array elements joined by commas; null elements are empty. */
  function JoinText(items: seq<Json>): string {
    if items == [] then ""
    else
      var first := if items[0].Null? then "" else ToText(items[0]);
      if |items| == 1 then first else first + "," + JoinText(items[1..])
  }

  /** Whether a sorts before b: numerically for two numbers, as text otherwise. */
  predicate Precedes(a: Json, b: Json) {
    if a.Num? && b.Num? then Less(a.n, b.n)
    else ToText(a) != ToText(b) && Leq(ToText(a), ToText(b))
  }

  predicate LineTerminator(c: char) {
    c as int == 10 || c as int == 13 || c as int == 0x2028 || c as int == 0x2029
  }

  /** LIKE: `%` is any run of characters and `_` any one, neither crossing a line end. */
  predicate LikeMatch(value: string, pattern: string, ignoreCase: bool)
    decreases |value| + |pattern|
  {
    if pattern == [] then value == []
    else if pattern[0] == '%' then
      LikeMatch(value, pattern[1..], ignoreCase)
      || (value != [] && !LineTerminator(value[0]) && LikeMatch(value[1..], pattern, ignoreCase))
    else
      value != []
      && (if pattern[0] == '_' then !LineTerminator(value[0])
          else if ignoreCase then LowerChar(value[0]) == LowerChar(pattern[0]) else value[0] == pattern[0])
      && LikeMatch(value[1..], pattern[1..], ignoreCase)
  }

  function OrNull(t: Tri): Json {
    if t.Undefined? then Null else t.v
  }

  /** evalCompare on the values of the two sides. */
  function CompareValues(c: CompareOp, l: Tri, r: Tri, sameColumn: bool): (t: Tri)
    ensures t.Val? ==> t.v.Bool?
    ensures c.Is? ==> t.Val?
  {
    if c.Is? then Val(Bool(StrictEqual(OrNull(l), OrNull(r), sameColumn)))
    else if l.Undefined? || r.Undefined? || l.v.Null? || r.v.Null? then Undefined
    else
      Val(Bool(match c
        case Eq => StrictEqual(l.v, r.v, sameColumn)
        case Neq => !StrictEqual(l.v, r.v, sameColumn)
        case Gt => Precedes(r.v, l.v)
        case Gte => !Precedes(l.v, r.v)
        case Lt => Precedes(l.v, r.v)
        case Lte => !Precedes(r.v, l.v)
        case Like => LikeMatch(ToText(l.v), ToText(r.v), false)
        case ILike => LikeMatch(ToText(l.v), ToText(r.v), true)
        case In => r.v.Arr? && exists i | 0 <= i < |r.v.items| :: StrictEqual(l.v, r.v.items[i], false)
        case Is => false))
  }

  // ---------------------------------------------------------------- and / or / not

  /** The value of and/or over the values of its terms. */
  function Decide(op: LogicOp, vals: seq<Tri>): Tri {
    match op
    case And =>
      if FALSE in vals then FALSE
      else if Undefined in vals then Undefined
      else Val(Bool(forall v | v in vals :: v == TRUE))
    case Or =>
      if TRUE in vals then TRUE
      else if Undefined in vals then Undefined
      else FALSE
  }

  function Negation(t: Tri): Tri {
    if t.Undefined? then Undefined else Val(Bool(t != TRUE))
  }

  /** evalNode */
  function Eval(e: Expr, row: Row, now: string): Tri
    decreases e, 0
  {
    match e
    case Literal(v) => Val(v)
    case Column(_, name) => if name in row then Val(row[name]) else Undefined
    case Context(c) => if c.Now? then Val(Str(now)) else Undefined
    case Claim(_) => Undefined
    case Not(t) => Negation(Eval(t, row, now))
    case Logic(op, ts) => Decide(op, EvalTerms(ts, row, now))
    case Compare(c, l, r) => CompareValues(c, Eval(l, row, now), Eval(r, row, now), SameColumn(l, r))
  }

  function EvalTerms(ts: seq<Expr>, row: Row, now: string): (vals: seq<Tri>)
    ensures |vals| == |ts|
    ensures forall i | 0 <= i < |ts| :: vals[i] == Eval(ts[i], row, now)
    decreases ts, 1
  {
    if ts == [] then [] else [Eval(ts[0], row, now)] + EvalTerms(ts[1..], row, now)
  }

  /** evalCheck: a row passes only when the check is exactly true. */
  predicate EvalCheck(e: Expr, row: Row, now: string) {
    Eval(e, row, now) == TRUE
  }

  // ---------------------------------------------------------------- principal resolution

  datatype Principal = Principal(
    kind: string, subjectId: Json, tenantId: string, role: string, claims: map<string, Json>,
    credentialSource: string)

  /** What a JSON path addresses; Null where the path leaves the objects. */
  function AtPath(v: Json, path: seq<string>): Json {
    if path == [] then v
    else if v.Obj? && path[0] in v.fields then AtPath(v.fields[path[0]], path[1..])
    else Null
  }

  /** claimValue: walks the claims with a cursor. */
  method ClaimValue(p: Principal, path: seq<string>) returns (v: Json)
    ensures v == AtPath(Obj(p.claims), path)
  {
    v := Obj(p.claims);
    for i := 0 to |path|
      invariant AtPath(v, path[i..]) == AtPath(Obj(p.claims), path)
    {
      if v.Obj? && path[i] in v.fields {
        v := v.fields[path[i]];
        assert path[i..][1..] == path[i + 1..];
      } else {
        return Null;
      }
    }
  }

  function ContextValue(p: Principal, c: ContextName, now: string): Json {
    match c
    case SubjectId => p.subjectId
    case TenantId => Str(p.tenantId)
    case Role => Str(p.role)
    case Now => Str(now)
  }

  /** resolvePrincipalRefs */
  function Resolve(e: Expr, p: Principal, now: string): Expr
    decreases e, 0
  {
    match e
    case Claim(path) => Literal(AtPath(Obj(p.claims), path))
    case Context(c) => Literal(ContextValue(p, c, now))
    case Not(t) => Not(Resolve(t, p, now))
    case Compare(c, l, r) => Compare(c, Resolve(l, p, now), Resolve(r, p, now))
    case Logic(op, ts) => Logic(op, ResolveTerms(ts, p, now))
    case _ => e
  }

  function ResolveTerms(ts: seq<Expr>, p: Principal, now: string): (rs: seq<Expr>)
    ensures |rs| == |ts|
    ensures forall i | 0 <= i < |ts| :: rs[i] == Resolve(ts[i], p, now)
    decreases ts, 1
  {
    if ts == [] then [] else [Resolve(ts[0], p, now)] + ResolveTerms(ts[1..], p, now)
  }

  /** The meaning of an unresolved expression: claims and context are read from the principal. */
  function EvalFor(e: Expr, row: Row, p: Principal, now: string): Tri
    decreases e, 0
  {
    match e
    case Literal(v) => Val(v)
    case Column(_, name) => if name in row then Val(row[name]) else Undefined
    case Context(c) =>
      Val(match c
          case SubjectId => p.subjectId
          case TenantId => Str(p.tenantId)
          case Role => Str(p.role)
          case Now => Str(now))
    case Claim(path) => Val(AtPath(Obj(p.claims), path))
    case Not(t) => Negation(EvalFor(t, row, p, now))
    case Logic(op, ts) => Decide(op, EvalTermsFor(ts, row, p, now))
    case Compare(c, l, r) => CompareValues(c, EvalFor(l, row, p, now), EvalFor(r, row, p, now), SameColumn(l, r))
  }

  function EvalTermsFor(ts: seq<Expr>, row: Row, p: Principal, now: string): (vals: seq<Tri>)
    ensures |vals| == |ts|
    ensures forall i | 0 <= i < |ts| :: vals[i] == EvalFor(ts[i], row, p, now)
    decreases ts, 1
  {
    if ts == [] then [] else [EvalFor(ts[0], row, p, now)] + EvalTermsFor(ts[1..], row, p, now)
  }

  predicate Resolved(e: Expr) {
    match e
    case Claim(_) => false
    case Context(_) => false
    case Not(t) => Resolved(t)
    case Compare(_, l, r) => Resolved(l) && Resolved(r)
    case Logic(_, ts) => forall t | t in ts :: Resolved(t)
    case _ => true
  }

  /** Resolution leaves no reference to the principal and keeps every verdict. */
  lemma {:induction false} ResolveKeepsVerdict(e: Expr, row: Row, p: Principal, now: string)
    ensures Eval(Resolve(e, p, now), row, now) == EvalFor(e, row, p, now)
    ensures Resolved(Resolve(e, p, now))
    decreases e
  {
    match e
    case Not(t) => ResolveKeepsVerdict(t, row, p, now);
    case Compare(_, l, r) =>
      ResolveKeepsVerdict(l, row, p, now);
      ResolveKeepsVerdict(r, row, p, now);
    case Logic(op, ts) =>
      var rs := ResolveTerms(ts, p, now);
      forall i | 0 <= i < |ts|
        ensures Eval(rs[i], row, now) == EvalFor(ts[i], row, p, now) && Resolved(rs[i])
      {
        ResolveKeepsVerdict(ts[i], row, p, now);
      }
      assert EvalTerms(rs, row, now) == EvalTermsFor(ts, row, p, now);
    case _ =>
  }

  // ---------------------------------------------------------------- normalisation

  /** Can only be true, false or unknown. */
  predicate TruthValued(e: Expr) {
    e.Compare? || e.Logic? || e.Not? || (e.Literal? && e.value.Bool?)
  }

  /** Terms of and/or/not are truth valued, at every depth. */
  predicate WellTyped(e: Expr) {
    match e
    case Not(t) => TruthValued(t) && WellTyped(t)
    case Compare(_, l, r) => WellTyped(l) && WellTyped(r)
    case Logic(_, ts) => TruthTerms(ts)
    case _ => true
  }

  predicate TruthTerms(ts: seq<Expr>) {
    forall t | t in ts :: TruthValued(t) && WellTyped(t)
  }

  lemma TruthValuedResult(e: Expr, row: Row, now: string)
    requires TruthValued(e)
    ensures Eval(e, row, now) in {TRUE, FALSE, Undefined}
  {}

  ghost predicate Occurs(ts: seq<Expr>, v: Tri, row: Row, now: string) {
    exists i | 0 <= i < |ts| :: Eval(ts[i], row, now) == v
  }

  function Absorbing(op: LogicOp): Tri {
    if op.And? then FALSE else TRUE
  }

  /** And/or of truth valued terms depends only on which values occur among the terms. */
  lemma LogicValue(op: LogicOp, ts: seq<Expr>, row: Row, now: string)
    requires TruthTerms(ts)
    ensures Eval(Logic(op, ts), row, now)
         == if Occurs(ts, Absorbing(op), row, now) then Absorbing(op)
            else if Occurs(ts, Undefined, row, now) then Undefined
            else Negation(Absorbing(op))
  {
    var vals := EvalTerms(ts, row, now);
    forall i | 0 <= i < |ts| ensures vals[i] in {TRUE, FALSE, Undefined} {
      assert ts[i] in ts;
      TruthValuedResult(ts[i], row, now);
    }
    assert forall v :: v in vals <==> Occurs(ts, v, row, now);
  }

  lemma SameValues(op: LogicOp, s: seq<Expr>, t: seq<Expr>, row: Row, now: string)
    requires TruthTerms(s) && TruthTerms(t)
    requires Occurs(s, Absorbing(op), row, now) <==> Occurs(t, Absorbing(op), row, now)
    requires Occurs(s, Absorbing(op), row, now)
          || (Occurs(s, Undefined, row, now) <==> Occurs(t, Undefined, row, now))
    ensures Eval(Logic(op, s), row, now) == Eval(Logic(op, t), row, now)
  {
    LogicValue(op, s, row, now);
    LogicValue(op, t, row, now);
  }

  lemma SomeConcat(s: seq<Expr>, t: seq<Expr>, v: Tri, row: Row, now: string)
    ensures Occurs(s + t, v, row, now) <==> Occurs(s, v, row, now) || Occurs(t, v, row, now)
  {
    var u := s + t;
    if Occurs(s, v, row, now) {
      var i :| 0 <= i < |s| && Eval(s[i], row, now) == v;
      assert u[i] == s[i];
    }
    if Occurs(t, v, row, now) {
      var i :| 0 <= i < |t| && Eval(t[i], row, now) == v;
      assert u[|s| + i] == t[i];
    }
  }

  lemma SomeReordered(s: seq<Expr>, t: seq<Expr>, v: Tri, row: Row, now: string)
    requires multiset(s) == multiset(t)
    ensures Occurs(s, v, row, now) ==> Occurs(t, v, row, now)
  {
    if Occurs(s, v, row, now) {
      var i :| 0 <= i < |s| && Eval(s[i], row, now) == v;
      InMultiset(s[i], s);
      InMultiset(s[i], t);
    }
  }

  /** Flattening one level keeps which values occur. */
  lemma SpreadKeeps(op: LogicOp, n: Expr, row: Row, now: string)
    requires TruthValued(n) && WellTyped(n)
    ensures TruthTerms(Spread(op, n))
    ensures Occurs(Spread(op, n), Absorbing(op), row, now) <==> Eval(n, row, now) == Absorbing(op)
    ensures !Occurs(Spread(op, n), Absorbing(op), row, now) ==>
              (Occurs(Spread(op, n), Undefined, row, now) <==> Eval(n, row, now) == Undefined)
  {
    if IsLogic(n, op) {
      LogicValue(op, n.terms, row, now);
    } else {
      assert Spread(op, n)[0] == n;
    }
  }

  lemma {:induction false} SpreadAllKeeps(op: LogicOp, ns: seq<Expr>, row: Row, now: string)
    requires TruthTerms(ns)
    ensures TruthTerms(SpreadAll(op, ns))
    ensures Occurs(SpreadAll(op, ns), Absorbing(op), row, now) <==> Occurs(ns, Absorbing(op), row, now)
    ensures !Occurs(ns, Absorbing(op), row, now) ==>
              (Occurs(SpreadAll(op, ns), Undefined, row, now) <==> Occurs(ns, Undefined, row, now))
  {
    if ns != [] {
      var head, rest := Spread(op, ns[0]), SpreadAll(op, ns[1..]);
      assert ns[0] in ns;
      SpreadKeeps(op, ns[0], row, now);
      SpreadAllKeeps(op, ns[1..], row, now);
      forall v ensures Occurs(ns, v, row, now) <==> Eval(ns[0], row, now) == v || Occurs(ns[1..], v, row, now) {
        SomeConcat([ns[0]], ns[1..], v, row, now);
        assert ns == [ns[0]] + ns[1..];
        assert Occurs([ns[0]], v, row, now) <==> Eval([ns[0]][0], row, now) == v;
      }
      SomeConcat(head, rest, Absorbing(op), row, now);
      SomeConcat(head, rest, Undefined, row, now);
    }
  }

  lemma SortKeeps(key: Key, op: LogicOp, ts: seq<Expr>, row: Row, now: string)
    requires TruthTerms(ts)
    ensures TruthTerms(Sort(key, ts))
    ensures Eval(Logic(op, Sort(key, ts)), row, now) == Eval(Logic(op, ts), row, now)
  {
    var sorted := Sort(key, ts);
    forall t | t in sorted ensures t in ts {
      InMultiset(t, sorted);
      InMultiset(t, ts);
    }
    forall v ensures Occurs(sorted, v, row, now) <==> Occurs(ts, v, row, now) {
      SomeReordered(sorted, ts, v, row, now);
      SomeReordered(ts, sorted, v, row, now);
    }
    SameValues(op, sorted, ts, row, now);
  }

  lemma CollapseKeeps(op: LogicOp, ts: seq<Expr>, row: Row, now: string)
    requires TruthTerms(ts)
    ensures TruthValued(Collapse(op, ts)) && WellTyped(Collapse(op, ts))
    ensures Eval(Collapse(op, ts), row, now) == Eval(Logic(op, ts), row, now)
  {
    if |ts| == 1 {
      assert ts[0] in ts;
      LogicValue(op, ts, row, now);
      TruthValuedResult(ts[0], row, now);
    }
  }

  lemma SpreadAllValue(op: LogicOp, ns: seq<Expr>, row: Row, now: string)
    requires TruthTerms(ns)
    ensures TruthTerms(SpreadAll(op, ns))
    ensures Eval(Logic(op, SpreadAll(op, ns)), row, now) == Eval(Logic(op, ns), row, now)
  {
    SpreadAllKeeps(op, ns, row, now);
    SameValues(op, SpreadAll(op, ns), ns, row, now);
  }

  /** Normalisation keeps the verdict of a well-typed expression on every row. */
  lemma {:induction false} NormalizeKeepsVerdict(key: Key, e: Expr, row: Row, now: string)
    requires WellTyped(e)
    ensures Eval(Normalize(key, e), row, now) == Eval(e, row, now)
    ensures WellTyped(Normalize(key, e)) && (TruthValued(e) ==> TruthValued(Normalize(key, e)))
    ensures e.Column? || Normalize(key, e).Column? ==> Normalize(key, e) == e
    decreases e
  {
    match e
    case Not(t) => NormalizeKeepsVerdict(key, t, row, now);
    case Compare(_, l, r) =>
      NormalizeKeepsVerdict(key, l, row, now);
      NormalizeKeepsVerdict(key, r, row, now);
    case Logic(op, ts) =>
      var ns := NormalTerms(key, ts);
      forall i | 0 <= i < |ts|
        ensures Eval(ns[i], row, now) == Eval(ts[i], row, now) && TruthValued(ns[i]) && WellTyped(ns[i])
      {
        assert ts[i] in ts;
        NormalizeKeepsVerdict(key, ts[i], row, now);
      }
      assert EvalTerms(ns, row, now) == EvalTerms(ts, row, now);
      SpreadAllValue(op, ns, row, now);
      SortKeeps(key, op, SpreadAll(op, ns), row, now);
      CollapseKeeps(op, Sort(key, SpreadAll(op, ns)), row, now);
    case _ =>
  }

  lemma NormalizeSingleton(key: Key, op: LogicOp, t: Expr)
    requires t.Literal?
    ensures Normalize(key, Logic(op, [t])) == t
  {
    SpreadOne(op, t);
    assert NormalTerms(key, [t]) == [t];
    assert Sort(key, [t]) == [t] by {
      assert Sort(key, []) == [];
      assert [t][1..] == [];
    }
  }

  lemma NormalizePair(key: Key, op: LogicOp, v: Json, c: Expr)
    requires c.Column?
    ensures Normalize(key, Logic(op, [Logic(op, [Literal(v)]), c])) == Logic(op, Sort(key, [Literal(v), c]))
  {
    var flat := [Literal(v), c];
    NormalizeSingleton(key, op, Literal(v));
    assert NormalTerms(key, [Logic(op, [Literal(v)]), c]) == flat;
    SpreadOne(op, c);
    assert flat[1..] == [c];
    assert SpreadAll(op, flat) == [Literal(v)] + [c];
  }

  lemma UnknownPair(key: Key, c: Expr, now: string)
    requires c.Column?
    ensures Eval(Logic(And, Sort(key, [Literal(Null), c])), map[], now) == Undefined
  {
    var sorted := Sort(key, [Literal(Null), c]);
    var vals := EvalTerms(sorted, map[], now);
    forall i | 0 <= i < |sorted| ensures vals[i] != FALSE {
      InMultiset(sorted[i], sorted);
      InMultiset(sorted[i], [Literal(Null), c]);
    }
    InMultiset(c, [Literal(Null), c]);
    InMultiset(c, sorted);
    var j :| 0 <= j < |sorted| && sorted[j] == c;
    assert vals[j] == Undefined;
  }

  lemma FalsePair(c: Expr, now: string)
    ensures Eval(Logic(And, [Logic(And, [Literal(Null)]), c]), map[], now) == FALSE
  {
    assert EvalTerms([Literal(Null)], map[], now) == [Val(Null)];
    assert Val(Null) in [Val(Null)];
    assert EvalTerms([Logic(And, [Literal(Null)]), c], map[], now)[0] == FALSE;
  }

  /** Outside the well-typed fragment it can flip a verdict: here through an `and` of a bare null. */
  lemma NormalizeFlipsUntyped(key: Key, table: string, name: string, now: string)
    ensures var e := Not(Logic(And, [Logic(And, [Literal(Null)]), Column(table, name)]));
            EvalCheck(e, map[], now) && !EvalCheck(Normalize(key, e), map[], now)
  {
    var c := Column(table, name);
    FalsePair(c, now);
    NormalizePair(key, And, Null, c);
    UnknownPair(key, c, now);
    NegationFlips(key, Logic(And, [Logic(And, [Literal(Null)]), c]), map[], now);
  }

  lemma NegationFlips(key: Key, e: Expr, row: Row, now: string)
    requires Eval(e, row, now) == FALSE && Eval(Normalize(key, e), row, now) == Undefined
    ensures EvalCheck(Not(e), row, now) && !EvalCheck(Normalize(key, Not(e)), row, now)
  {}

  // ---------------------------------------------------------------- partial rows

  ghost predicate Extends(full: Row, part: Row) {
    forall k | k in part :: k in full && full[k] == part[k]
  }

  /** Every column read under an IS test is present in the row. */
  predicate IsCovered(e: Expr, row: Row) {
    match e
    case Not(t) => IsCovered(t, row)
    case Compare(c, l, r) => if c.Is? then Present(l, row) && Present(r, row) else IsCovered(l, row) && IsCovered(r, row)
    case Logic(_, ts) => forall t | t in ts :: IsCovered(t, row)
    case _ => true
  }

  predicate Present(e: Expr, row: Row) {
    match e
    case Column(_, name) => name in row
    case Not(t) => Present(t, row)
    case Compare(_, l, r) => Present(l, row) && Present(r, row)
    case Logic(_, ts) => forall t | t in ts :: Present(t, row)
    case _ => true
  }

  predicate IsFree(e: Expr) {
    match e
    case Not(t) => IsFree(t)
    case Compare(c, l, r) => !c.Is? && IsFree(l) && IsFree(r)
    case Logic(_, ts) => forall t | t in ts :: IsFree(t)
    case _ => true
  }

  lemma {:induction false} IsFreeCovered(e: Expr, row: Row)
    requires IsFree(e)
    ensures IsCovered(e, row)
    decreases e
  {
    match e
    case Not(t) => IsFreeCovered(t, row);
    case Compare(_, l, r) => IsFreeCovered(l, row); IsFreeCovered(r, row);
    case Logic(_, ts) => forall t | t in ts ensures IsCovered(t, row) { IsFreeCovered(t, row); }
    case _ =>
  }

  /** With all its columns present an expression does not see the columns added to a row. */
  lemma {:induction false} PresentUnchanged(e: Expr, part: Row, full: Row, now: string)
    requires Present(e, part) && Extends(full, part)
    ensures Eval(e, full, now) == Eval(e, part, now)
    decreases e
  {
    match e
    case Not(t) => PresentUnchanged(t, part, full, now);
    case Compare(_, l, r) => PresentUnchanged(l, part, full, now); PresentUnchanged(r, part, full, now);
    case Logic(_, ts) =>
      forall i | 0 <= i < |ts| ensures Eval(ts[i], full, now) == Eval(ts[i], part, now) {
        assert ts[i] in ts;
        PresentUnchanged(ts[i], part, full, now);
      }
      assert EvalTerms(ts, full, now) == EvalTerms(ts, part, now);
    case _ =>
  }

  /** Filling in unknown terms cannot change a definite and/or. */
  lemma DecideMonotone(op: LogicOp, s: seq<Tri>, t: seq<Tri>)
    requires |s| == |t| && forall i | 0 <= i < |s| :: s[i].Val? ==> t[i] == s[i]
    requires Decide(op, s).Val?
    ensures Decide(op, t) == Decide(op, s)
  {
    if Absorbing(op) in s {
      var i :| 0 <= i < |s| && s[i] == Absorbing(op);
      assert t[i] == Absorbing(op);
    } else {
      assert forall i | 0 <= i < |s| :: s[i].Val?;
      assert s == t;
    }
  }

  /** A definite verdict on a partial row holds on every way of completing it. */
  lemma {:induction false} DefiniteVerdictKept(e: Expr, part: Row, full: Row, now: string)
    requires IsCovered(e, part) && Extends(full, part)
    requires Eval(e, part, now).Val?
    ensures Eval(e, full, now) == Eval(e, part, now)
    decreases e
  {
    match e
    case Not(t) => DefiniteVerdictKept(t, part, full, now);
    case Compare(c, l, r) =>
      if c.Is? {
        PresentUnchanged(l, part, full, now);
        PresentUnchanged(r, part, full, now);
      } else {
        DefiniteVerdictKept(l, part, full, now);
        DefiniteVerdictKept(r, part, full, now);
      }
    case Logic(op, ts) =>
      var s, t := EvalTerms(ts, part, now), EvalTerms(ts, full, now);
      forall i | 0 <= i < |ts| && s[i].Val? ensures t[i] == s[i] {
        assert ts[i] in ts;
        DefiniteVerdictKept(ts[i], part, full, now);
      }
      DecideMonotone(op, s, t);
    case _ =>
  }

  predicate HoldsComposite(e: Expr, row: Row) {
    match e
    case Column(_, name) => name in row && Composite(row[name])
    case Literal(v) => Composite(v)
    case _ => false
  }

  /**
   * An IS test of columns and literals keeps its verdict exactly when both sides are given, or are
   * one column, or one of them holds an array or object, which is never identical to another value.
   */
  lemma IsTestKeptIff(l: Expr, r: Expr, part: Row, now: string)
    requires (l.Column? || l.Literal?) && (r.Column? || r.Literal?)
    ensures (forall full: Row | Extends(full, part) :: Eval(Compare(Is, l, r), full, now) == Eval(Compare(Is, l, r), part, now))
       <==> (Present(l, part) && Present(r, part)) || SameColumn(l, r) || HoldsComposite(l, part) || HoldsComposite(r, part)
  {
    var e := Compare(Is, l, r);
    if (Present(l, part) && Present(r, part)) || SameColumn(l, r) || HoldsComposite(l, part) || HoldsComposite(r, part) {
      forall full: Row | Extends(full, part) ensures Eval(e, full, now) == Eval(e, part, now) {
        if Present(l, part) && Present(r, part) { PresentUnchanged(e, part, full, now); }
      }
    } else if !Present(l, part) {
      IsTestFlips(l, r, e, part, now);
    } else {
      IsTestFlips(r, l, e, part, now);
    }
  }

  /** With one column missing, some value for it flips the test. */
  lemma IsTestFlips(missing: Expr, other: Expr, e: Expr, part: Row, now: string)
    requires missing.Column? && missing.name !in part && (other.Column? || other.Literal?)
    requires !SameColumn(missing, other) && !HoldsComposite(other, part)
    requires e == Compare(Is, missing, other) || e == Compare(Is, other, missing)
    ensures exists full: Row | Extends(full, part) :: Eval(e, full, now) != Eval(e, part, now)
  {
    var v := OrNull(Eval(other, part, now));
    var full := part[missing.name := if v.Null? then Bool(true) else v];
    assert Extends(full, part);
    assert Eval(other, full, now) == Eval(other, part, now);
    assert Eval(e, full, now) != Eval(e, part, now);
  }

  // ---------------------------------------------------------------- normalisation outside the well-typed fragment

  /** An and/or of one term becomes the term: kept exactly when the term has a truth value. */
  lemma CollapseKeptIff(op: LogicOp, t: Expr, row: Row, now: string)
    ensures Eval(Logic(op, [t]), row, now) == Eval(t, row, now) <==> Eval(t, row, now) in {TRUE, FALSE, Undefined}
  {
    var vals := EvalTerms([t], row, now);
    assert vals == [Eval(t, row, now)];
  }

  /**
   * A nested and/or dissolves in the outer one: always kept for or; for and exactly unless the inner
   * one is false only because of a term that is no truth value, and the outer terms are unknown.
   */
  lemma UnnestKeptIff(op: LogicOp, before: seq<Tri>, inner: seq<Tri>, after: seq<Tri>)
    ensures Decide(op, before + [Decide(op, inner)] + after) == Decide(op, before + inner + after)
       <==> || op.Or? || FALSE in inner || Undefined in inner || AllTrue(inner)
            || FALSE in before + after || Undefined !in before + after
  {
    var x, outer := Decide(op, inner), before + after;
    var nested, flat := before + [x] + after, before + inner + after;
    assert forall v :: v in nested <==> v in outer || v == x;
    assert forall v :: v in flat <==> v in outer || v in inner;
    hide Decide;
    AllTrueOf(nested, outer, [x]);
    AllTrueOf(flat, outer, inner);
    DecideByMembers(op, nested);
    DecideByMembers(op, flat);
    DecideByMembers(op, inner);
    assert forall v :: v in [x] <==> v == x;
  }

  predicate AllTrue(vals: seq<Tri>) {
    forall v | v in vals :: v == TRUE
  }

  lemma AllTrueOf(vals: seq<Tri>, s: seq<Tri>, t: seq<Tri>)
    requires forall v :: v in vals <==> v in s || v in t
    ensures AllTrue(vals) <==> AllTrue(s) && AllTrue(t)
  {}

  lemma DecideByMembers(op: LogicOp, vals: seq<Tri>)
    ensures Decide(op, vals)
         == if Absorbing(op) in vals then Absorbing(op)
            else if Undefined in vals then Undefined
            else if op.And? && AllTrue(vals) then TRUE
            else FALSE
  {}
}
