/**
 * A reader of expressions from their plain objects, and with it of the stable keys: the key of an
 * expression is JSON text from which the expression can be read back.
 */
module ExpressionReader {
  import opened Text
  import opened CanonicalJson
  import opened Expressions
  import opened JsonReader

  // ---------------------------------------------------------------- members of objects

  function Member(v: Json, key: string): (r: Option<Json>)
    ensures r.Some? ==> r.value < v
  {
    if v.Obj? && key in v.fields then Some(v.fields[key]) else None
  }

  function TextMember(v: Json, key: string): Option<string> {
    match Member(v, key)
    case Some(Str(s)) => Some(s)
    case _ => None
  }

  function ReadContext(s: string): Option<ContextName> {
    if s == "subjectId" then Some(SubjectId)
    else if s == "tenantId" then Some(TenantId)
    else if s == "role" then Some(Role)
    else if s == "now" then Some(Now)
    else None
  }

  function ReadCompare(s: string): Option<CompareOp> {
    if s == "eq" then Some(Eq) else if s == "neq" then Some(Neq)
    else if s == "gt" then Some(Gt) else if s == "gte" then Some(Gte)
    else if s == "lt" then Some(Lt) else if s == "lte" then Some(Lte)
    else if s == "like" then Some(Like) else if s == "ilike" then Some(ILike)
    else if s == "in" then Some(In) else if s == "is" then Some(Is)
    else None
  }

  function ReadLogic(s: string): Option<LogicOp> {
    if s == "and" then Some(And) else if s == "or" then Some(Or) else None
  }

  function ReadStrings(items: seq<Json>): Option<seq<string>> {
    if items == [] then Some([])
    else
      match ReadStrings(items[1..])
      case None => None
      case Some(rest) => if items[0].Str? then Some([items[0].s] + rest) else None
  }

  // ---------------------------------------------------------------- expressions

  function ReadExpr(v: Json): Option<Expr>
    decreases v, 1
  {
    match TextMember(v, "kind")
    case None => None
    case Some(kind) =>
      if kind == "literal" then
        match Member(v, "value")
        case None => None
        case Some(w) => Some(Literal(w))
      else if kind == "column" then
        match TextMember(v, "table")
        case None => None
        case Some(t) => (match TextMember(v, "name") case None => None case Some(n) => Some(Column(t, n)))
      else if kind == "claim" then
        match Member(v, "path")
        case Some(Arr(items)) => (match ReadStrings(items) case None => None case Some(p) => Some(Claim(p)))
        case _ => None
      else if kind == "context" then
        match TextMember(v, "name")
        case None => None
        case Some(n) => (match ReadContext(n) case None => None case Some(c) => Some(Context(c)))
      else if kind == "not" then
        match Member(v, "term")
        case None => None
        case Some(t) => (match ReadExpr(t) case None => None case Some(e) => Some(Not(e)))
      else if kind == "compare" then ReadComparison(v)
      else if kind == "logic" then
        match Member(v, "terms")
        case Some(Arr(items)) => ReadJoint(TextMember(v, "op"), ReadTerms(items))
        case _ => None
      else None
  }

  function ReadComparison(v: Json): Option<Expr>
    decreases v, 0
  {
    match Member(v, "left")
    case None => None
    case Some(l) =>
      match Member(v, "right")
      case None => None
      case Some(r) =>
        var op, left, right := TextMember(v, "op"), ReadExpr(l), ReadExpr(r);
        if op.None? || left.None? || right.None? || ReadCompare(op.value).None? then None
        else Some(Compare(ReadCompare(op.value).value, left.value, right.value))
  }

  function ReadJoint(op: Option<string>, terms: Option<seq<Expr>>): Option<Expr> {
    if op.None? || terms.None? || ReadLogic(op.value).None? then None
    else Some(Logic(ReadLogic(op.value).value, terms.value))
  }

  function ReadTerms(items: seq<Json>): Option<seq<Expr>>
    decreases items, 0
  {
    if items == [] then Some([])
    else
      match ReadExpr(items[0])
      case None => None
      case Some(e) => (match ReadTerms(items[1..]) case None => None case Some(rest) => Some([e] + rest))
  }

  lemma {:induction false} StringsRead(ss: seq<string>)
    ensures ReadStrings(Strings(ss)) == Some(ss)
  {
    if ss != [] {
      StringsRead(ss[1..]);
      assert Strings(ss)[1..] == Strings(ss[1..]);
      assert ss == [ss[0]] + ss[1..];
    }
  }

  lemma OperatorsRead(c: CompareOp, op: LogicOp, n: ContextName)
    ensures ReadCompare(CompareText(c)) == Some(c) && ReadLogic(LogicText(op)) == Some(op) && ReadContext(ContextText(n)) == Some(n)
  {}

  lemma LeafReads(e: Expr)
    requires e.Literal? || e.Column? || e.Context?
    ensures ReadExpr(ToJson(e)) == Some(e)
  {
    if e.Context? { OperatorsRead(Eq, And, e.ctx); }
    hide ReadComparison, ReadTerms, ReadStrings, ContextText, ReadContext;
  }

  lemma ClaimReads(e: Expr)
    requires e.Claim?
    ensures ReadExpr(ToJson(e)) == Some(e)
  {
    StringsRead(e.path);
    hide ReadComparison, ReadTerms, ReadStrings, Strings;
  }

  lemma NotReads(e: Expr)
    requires e.Not? && ReadExpr(ToJson(e.term)) == Some(e.term)
    ensures ReadExpr(ToJson(e)) == Some(e)
  {
    var v := ToJson(e);
    assert TextMember(v, "kind") == Some("not") && Member(v, "term") == Some(ToJson(e.term));
    hide ToJson, ReadComparison, ReadTerms;
  }

  lemma JointReads(e: Expr)
    requires e.Logic? && ReadTerms(TermsToJson(e.terms)) == Some(e.terms)
    ensures ReadExpr(ToJson(e)) == Some(e)
  {
    OperatorsRead(Eq, e.op, Now);
    var v := ToJson(e);
    assert TextMember(v, "kind") == Some("logic") && TextMember(v, "op") == Some(LogicText(e.op));
    assert Member(v, "terms") == Some(Arr(TermsToJson(e.terms)));
    hide ToJson, TermsToJson, ReadComparison, ReadTerms, ReadLogic, LogicText;
  }

  /** The object of an expression is read back as the expression. */
  lemma {:induction false} ExprReads(e: Expr)
    ensures ReadExpr(ToJson(e)) == Some(e)
    decreases e, 1
  {
    hide *;
    match e
    case Claim(_) => ClaimReads(e);
    case Not(t) => ExprReads(t); NotReads(e);
    case Compare(_, l, r) => ExprReads(l); ExprReads(r); ComparisonReads(e);
    case Logic(_, ts) => TermsRead(ts); JointReads(e);
    case _ => LeafReads(e);
  }

  lemma ComparisonReads(e: Expr)
    requires e.Compare? && ReadExpr(ToJson(e.left)) == Some(e.left) && ReadExpr(ToJson(e.right)) == Some(e.right)
    ensures ReadExpr(ToJson(e)) == Some(e)
  {
    OperatorsRead(e.cmp, And, Now);
    var v := ToJson(e);
    assert TextMember(v, "kind") == Some("compare") && TextMember(v, "op") == Some(CompareText(e.cmp));
    assert Member(v, "left") == Some(ToJson(e.left)) && Member(v, "right") == Some(ToJson(e.right));
    assert ReadExpr(v) == ReadComparison(v);
    hide ReadExpr, ToJson, ReadCompare, CompareText;
  }

  lemma {:induction false} TermsRead(ts: seq<Expr>)
    ensures ReadTerms(TermsToJson(ts)) == Some(ts)
    decreases ts, 0
  {
    hide ReadExpr, ToJson;
    if ts != [] {
      ExprReads(ts[0]);
      TermsRead(ts[1..]);
      OneMoreTerm(ts);
    }
  }

  lemma OneMoreTerm(ts: seq<Expr>)
    requires ts != [] && ReadExpr(ToJson(ts[0])) == Some(ts[0]) && ReadTerms(TermsToJson(ts[1..])) == Some(ts[1..])
    ensures ReadTerms(TermsToJson(ts)) == Some(ts)
  {
    hide ReadExpr, ToJson, ReadTerms;
    var items := TermsToJson(ts);
    assert items[0] == ToJson(ts[0]) && items[1..] == TermsToJson(ts[1..]);
    TermsOf(items, ts[0], ts[1..]);
    assert ts == [ts[0]] + ts[1..];
  }

  lemma TermsOf(items: seq<Json>, e: Expr, rest: seq<Expr>)
    requires items != [] && ReadExpr(items[0]) == Some(e) && ReadTerms(items[1..]) == Some(rest)
    ensures ReadTerms(items) == Some([e] + rest)
  {
    hide ReadExpr;
  }

  /** The stable key of an expression is JSON text of an object that says the expression. */
  lemma KeyReads(e: Expr)
    ensures ReadValue(StableKey(e)) == Some((ToJson(e), "")) && ReadExpr(ToJson(e)) == Some(e)
  {
    CanonicalIsJson(ToJson(e));
    ExprReads(e);
    hide ReadValue, ReadExpr, ToJson;
  }
}
