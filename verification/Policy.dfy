/** Row policies: permissive and restrictive rules combined into one predicate per operation. */
module Policy {
  import opened Text
  import opened CanonicalJson
  import opened Expressions
  import opened Evaluate

  datatype Action = Select | Insert | Update | Delete | Subscribe | StorageRead | StorageWrite

  datatype Mode = Permissive | Restrictive

  datatype Rule = Rule(
    table: string, action: Action, role: string, mode: Mode, using: Option<Expr>, check: Option<Expr>)

  datatype Clause = Using | Check

  function ClauseOf(r: Rule, c: Clause): Option<Expr> {
    if c.Using? then r.using else r.check
  }

  predicate Governs(c: Clause, a: Action) {
    match c
    case Using => !a.Insert?
    case Check => a.Insert? || a.Update? || a.StorageWrite?
  }

  /** ruleApplies */
  predicate Applies(r: Rule, table: string, a: Action, p: Principal) {
    r.table == table && r.action == a && (r.role == "*" || r.role == p.role)
  }

  function Applicable(rules: seq<Rule>, table: string, a: Action, p: Principal, mode: Mode): (rs: seq<Rule>)
    ensures forall r :: r in rs <==> r in rules && Applies(r, table, a, p) && r.mode == mode
  {
    if rules == [] then []
    else
      var rest := Applicable(rules[1..], table, a, p, mode);
      assert rules == [rules[0]] + rules[1..];
      if Applies(rules[0], table, a, p) && rules[0].mode == mode then [rules[0]] + rest else rest
  }

  /** One term per permissive rule; a rule without the clause grants every row. */
  function Grants(rs: seq<Rule>, c: Clause): seq<Expr> {
    if rs == [] then []
    else [match ClauseOf(rs[0], c) case Some(e) => e case None => Literal(Bool(true))] + Grants(rs[1..], c)
  }

  /** The clauses of the restrictive rules that have one. */
  function Restrictions(rs: seq<Rule>, c: Clause): seq<Expr> {
    if rs == [] then []
    else (match ClauseOf(rs[0], c) case Some(e) => [e] case None => []) + Restrictions(rs[1..], c)
  }

  /** combineClause */
  function CombineClause(permissive: seq<Rule>, restrictive: seq<Rule>, c: Clause): Expr {
    if permissive == [] then Literal(Bool(false))
    else
      var grants := Grants(permissive, c);
      var orPart := if |grants| == 1 then grants[0] else Logic(Or, grants);
      var restrictions := Restrictions(restrictive, c);
      if restrictions == [] then orPart else Logic(And, [orPart] + restrictions)
  }

  datatype Plan = Plan(allow: bool, rowUsing: Option<Expr>, rowCheck: Option<Expr>)

  function RowClause(plan: Plan, c: Clause): Option<Expr> {
    if c.Using? then plan.rowUsing else plan.rowCheck
  }

  predicate Privileged(p: Principal) {
    p.kind == "service" && p.role == "service_role" && p.credentialSource == "secret_key"
  }

  predicate RlsEnabled(rules: seq<Rule>, table: string) {
    exists i | 0 <= i < |rules| :: rules[i].table == table
  }

  function ResolvedClause(permissive: seq<Rule>, restrictive: seq<Rule>, a: Action, p: Principal, now: string, c: Clause): Option<Expr> {
    if Governs(c, a) then Some(Resolve(CombineClause(permissive, restrictive, c), p, now)) else None
  }

  /** buildSecurityPlan; None is the refusal of an unknown table. */
  function BuildPlan(tables: set<string>, rules: seq<Rule>, p: Principal, now: string, table: string, a: Action): Option<Plan> {
    if table !in tables then None
    else if Privileged(p) || !RlsEnabled(rules, table) then Some(Plan(true, None, None))
    else
      var permissive := Applicable(rules, table, a, p, Permissive);
      var restrictive := Applicable(rules, table, a, p, Restrictive);
      if permissive == [] then
        var no := Some(Literal(Bool(false)));
        Some(Plan(false, no, no))
      else
        Some(Plan(true,
                  ResolvedClause(permissive, restrictive, a, p, now, Using),
                  ResolvedClause(permissive, restrictive, a, p, now, Check)))
  }

  // ---------------------------------------------------------------- what a plan lets through

  /** A clause holds of a row for a principal; a missing clause holds of every row. */
  predicate Holds(clause: Option<Expr>, row: Row, p: Principal, now: string) {
    clause.None? || EvalFor(clause.value, row, p, now) == TRUE
  }

  /** The rule is for this table and action, and for everybody or for the principal's role. */
  predicate Concerns(r: Rule, table: string, a: Action, p: Principal) {
    r.table == table && r.action == a && r.role in {"*", p.role}
  }

  /** The rule's condition on rows read, or on rows written, is true of the row, or it has none. */
  predicate Met(r: Rule, c: Clause, row: Row, p: Principal, now: string) {
    var condition := match c case Using => r.using case Check => r.check;
    condition.None? || EvalFor(condition.value, row, p, now) == TRUE
  }

  lemma ConcernsIsApplies(r: Rule, table: string, a: Action, p: Principal, c: Clause, row: Row, now: string)
    ensures Concerns(r, table, a, p) <==> Applies(r, table, a, p)
    ensures Met(r, c, row, p, now) <==> Holds(ClauseOf(r, c), row, p, now)
  {
    hide EvalFor;
  }

  /** Some applicable permissive rule grants the row and no applicable restrictive rule bars it. */
  ghost predicate Granted(rules: seq<Rule>, table: string, a: Action, p: Principal, now: string, c: Clause, row: Row) {
    && (exists r :: r in rules && Concerns(r, table, a, p) && r.mode.Permissive? && Met(r, c, row, p, now))
    && (forall r | r in rules && Concerns(r, table, a, p) && r.mode.Restrictive? :: Met(r, c, row, p, now))
  }

  ghost predicate OccursFor(ts: seq<Expr>, v: Tri, row: Row, p: Principal, now: string) {
    exists i | 0 <= i < |ts| :: EvalFor(ts[i], row, p, now) == v
  }

  lemma OrTrue(ts: seq<Expr>, row: Row, p: Principal, now: string)
    ensures EvalFor(Logic(Or, ts), row, p, now) == TRUE <==> OccursFor(ts, TRUE, row, p, now)
  {
    var vals := EvalTermsFor(ts, row, p, now);
    assert forall v :: v in vals <==> OccursFor(ts, v, row, p, now);
  }

  lemma AndTrue(ts: seq<Expr>, row: Row, p: Principal, now: string)
    ensures EvalFor(Logic(And, ts), row, p, now) == TRUE
       <==> forall i | 0 <= i < |ts| :: EvalFor(ts[i], row, p, now) == TRUE
  {
    var vals := EvalTermsFor(ts, row, p, now);
    if forall i | 0 <= i < |ts| :: vals[i] == TRUE {
      assert forall v | v in vals :: v == TRUE;
    }
    if EvalFor(Logic(And, ts), row, p, now) == TRUE {
      forall i | 0 <= i < |ts| ensures vals[i] == TRUE { assert vals[i] in vals; }
    }
  }

  lemma {:induction false} GrantsTrue(rs: seq<Rule>, c: Clause, row: Row, p: Principal, now: string)
    ensures |Grants(rs, c)| == |rs|
    ensures OccursFor(Grants(rs, c), TRUE, row, p, now) <==> exists r :: r in rs && Holds(ClauseOf(r, c), row, p, now)
  {
    if rs != [] {
      var ts, rest := Grants(rs, c), Grants(rs[1..], c);
      GrantsTrue(rs[1..], c, row, p, now);
      assert rs == [rs[0]] + rs[1..] && ts == [ts[0]] + rest;
      assert EvalFor(ts[0], row, p, now) == TRUE <==> Holds(ClauseOf(rs[0], c), row, p, now);
      if OccursFor(rest, TRUE, row, p, now) {
        var i :| 0 <= i < |rest| && EvalFor(rest[i], row, p, now) == TRUE;
        assert ts[i + 1] == rest[i];
      }
      if OccursFor(ts, TRUE, row, p, now) && EvalFor(ts[0], row, p, now) != TRUE {
        var i :| 0 <= i < |ts| && EvalFor(ts[i], row, p, now) == TRUE;
        assert rest[i - 1] == ts[i];
      }
    }
  }

  lemma {:induction false} RestrictionsTrue(rs: seq<Rule>, c: Clause, row: Row, p: Principal, now: string)
    ensures (forall e | e in Restrictions(rs, c) :: EvalFor(e, row, p, now) == TRUE)
       <==> forall r | r in rs :: Holds(ClauseOf(r, c), row, p, now)
  {
    if rs != [] {
      RestrictionsTrue(rs[1..], c, row, p, now);
      assert rs == [rs[0]] + rs[1..];
      var head := match ClauseOf(rs[0], c) case Some(e) => [e] case None => [];
      assert Restrictions(rs, c) == head + Restrictions(rs[1..], c);
      assert (forall e | e in head :: EvalFor(e, row, p, now) == TRUE) <==> Holds(ClauseOf(rs[0], c), row, p, now) by {
        if ClauseOf(rs[0], c).Some? { assert ClauseOf(rs[0], c).value in head; }
      }
      assert (forall e | e in Restrictions(rs, c) :: EvalFor(e, row, p, now) == TRUE)
        <==> (forall e | e in head :: EvalFor(e, row, p, now) == TRUE)
             && (forall e | e in Restrictions(rs[1..], c) :: EvalFor(e, row, p, now) == TRUE);
      assert (forall r | r in rs :: Holds(ClauseOf(r, c), row, p, now))
        <==> Holds(ClauseOf(rs[0], c), row, p, now) && forall r | r in rs[1..] :: Holds(ClauseOf(r, c), row, p, now);
    }
  }

  lemma AllTrueCons(e: Expr, es: seq<Expr>, row: Row, p: Principal, now: string)
    ensures (forall i | 0 <= i < |[e] + es| :: EvalFor(([e] + es)[i], row, p, now) == TRUE)
       <==> EvalFor(e, row, p, now) == TRUE && forall f | f in es :: EvalFor(f, row, p, now) == TRUE
  {
    hide EvalFor;
    var ts := [e] + es;
    if forall i | 0 <= i < |ts| :: EvalFor(ts[i], row, p, now) == TRUE {
      assert ts[0] == e;
      forall f | f in es ensures EvalFor(f, row, p, now) == TRUE {
        var i :| 0 <= i < |es| && es[i] == f;
        assert ts[i + 1] == f;
      }
    }
  }

  lemma CombineVerdict(permissive: seq<Rule>, restrictive: seq<Rule>, c: Clause, row: Row, p: Principal, now: string)
    requires permissive != []
    ensures EvalFor(CombineClause(permissive, restrictive, c), row, p, now) == TRUE
       <==> && (exists r :: r in permissive && Holds(ClauseOf(r, c), row, p, now))
            && (forall r | r in restrictive :: Holds(ClauseOf(r, c), row, p, now))
  {
    hide EvalFor, ClauseOf;
    var grants, restrictions := Grants(permissive, c), Restrictions(restrictive, c);
    var orPart := if |grants| == 1 then grants[0] else Logic(Or, grants);
    GrantsTrue(permissive, c, row, p, now);
    OrTrue(grants, row, p, now);
    RestrictionsTrue(restrictive, c, row, p, now);
    assert EvalFor(orPart, row, p, now) == TRUE <==> OccursFor(grants, TRUE, row, p, now);
    var ts := [orPart] + restrictions;
    AndTrue(ts, row, p, now);
    AllTrueCons(orPart, restrictions, row, p, now);
  }

  lemma GrantedByRules(rules: seq<Rule>, table: string, a: Action, p: Principal, now: string, c: Clause, row: Row)
    ensures Granted(rules, table, a, p, now, c, row)
       <==> && (exists r :: r in Applicable(rules, table, a, p, Permissive) && Holds(ClauseOf(r, c), row, p, now))
            && (forall r | r in Applicable(rules, table, a, p, Restrictive) :: Holds(ClauseOf(r, c), row, p, now))
    ensures (exists r :: r in rules && Concerns(r, table, a, p) && r.mode.Permissive?)
       <==> Applicable(rules, table, a, p, Permissive) != []
  {
    forall r
      ensures Concerns(r, table, a, p) <==> Applies(r, table, a, p)
      ensures Met(r, c, row, p, now) <==> Holds(ClauseOf(r, c), row, p, now)
    {
      ConcernsIsApplies(r, table, a, p, c, row, now);
    }
    NoneIsEmpty(Applicable(rules, table, a, p, Permissive));
    hide Concerns, Met, Applies, Holds, ClauseOf;
  }

  /**
   * On a table with rules, an unprivileged principal's plan passes a row exactly when the rules
   * grant it, with claims and context read from that principal.
   */
  lemma PlanVerdict(tables: set<string>, rules: seq<Rule>, p: Principal, now: string, table: string, a: Action, c: Clause, row: Row)
    requires table in tables && !Privileged(p) && RlsEnabled(rules, table) && Governs(c, a)
    ensures var plan := BuildPlan(tables, rules, p, now, table, a);
            && plan.Some? && RowClause(plan.value, c).Some?
            && Resolved(RowClause(plan.value, c).value)
            && (EvalCheck(RowClause(plan.value, c).value, row, now) <==> Granted(rules, table, a, p, now, c, row))
            && (plan.value.allow <==> exists r :: r in rules && Concerns(r, table, a, p) && r.mode.Permissive?)
  {
    var permissive := Applicable(rules, table, a, p, Permissive);
    var restrictive := Applicable(rules, table, a, p, Restrictive);
    GrantedByRules(rules, table, a, p, now, c, row);
    hide Granted, Concerns, Applies, Holds, ClauseOf;
    if permissive != [] {
      assert permissive[0] in permissive;
      ResolveKeepsVerdict(CombineClause(permissive, restrictive, c), row, p, now);
      CombineVerdict(permissive, restrictive, c, row, p, now);
    } else {
      assert forall r :: r !in permissive;
    }
  }

  /** The plan passes a row that is read and a row that is written. */
  predicate PassesRow(plan: Plan, row: Row, now: string) {
    && plan.allow
    && (plan.rowUsing.None? || EvalCheck(plan.rowUsing.value, row, now))
    && (plan.rowCheck.None? || EvalCheck(plan.rowCheck.value, row, now))
  }

  /**
   * A service principal with the service role and a secret key is exempt, and nobody else is: on a
   * table with rules its plan passes every row, and any other principal that no permissive rule
   * applies to is refused every row. On a table without rules every plan passes every row.
   */
  lemma ExemptPassesAll(tables: set<string>, rules: seq<Rule>, p: Principal, now: string, table: string, a: Action, row: Row)
    requires table in tables
    requires (p.kind == "service" && p.role == "service_role" && p.credentialSource == "secret_key")
          || forall r | r in rules :: r.table != table
    ensures BuildPlan(tables, rules, p, now, table, a).Some? && PassesRow(BuildPlan(tables, rules, p, now, table, a).value, row, now)
  {}

  lemma OthersNeedGrants(tables: set<string>, rules: seq<Rule>, p: Principal, now: string, table: string, a: Action, row: Row)
    requires table in tables && (exists r :: r in rules && r.table == table)
    requires p.kind != "service" || p.role != "service_role" || p.credentialSource != "secret_key"
    requires forall r | r in rules && r.table == table && r.action == a && r.mode == Permissive :: r.role != "*" && r.role != p.role
    ensures BuildPlan(tables, rules, p, now, table, a).Some? && !PassesRow(BuildPlan(tables, rules, p, now, table, a).value, row, now)
  {
    var r :| r in rules && r.table == table;
    assert RlsEnabled(rules, table);
    NoneIsEmpty(Applicable(rules, table, a, p, Permissive));
  }

  lemma NoneIsEmpty(rs: seq<Rule>)
    ensures rs != [] ==> exists r :: r in rs
  {
    if rs != [] { assert rs[0] in rs; }
  }

  /** A table that is not known has no plan. */
  lemma PlanIffKnown(tables: set<string>, rules: seq<Rule>, p: Principal, now: string, table: string, a: Action)
    ensures BuildPlan(tables, rules, p, now, table, a).Some? <==> table in tables
  {}

  /** With a grant, rows are filtered for every action but insert, and checked for insert, update and storage writes. */
  lemma ClausesCarried(tables: set<string>, rules: seq<Rule>, p: Principal, now: string, table: string, a: Action)
    requires table in tables && !Privileged(p) && (exists r :: r in rules && r.table == table)
    ensures var plan := BuildPlan(tables, rules, p, now, table, a);
            && plan.Some?
            && (plan.value.allow ==> (plan.value.rowUsing.Some? <==> a != Insert)
                                     && (plan.value.rowCheck.Some? <==> a in {Insert, Update, StorageWrite}))
            && (!plan.value.allow ==> plan.value.rowUsing.Some? && plan.value.rowCheck.Some?)
  {
    var r :| r in rules && r.table == table;
    assert RlsEnabled(rules, table);
    hide CombineClause, Applicable;
  }
}
