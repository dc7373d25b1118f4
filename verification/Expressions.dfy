/** The portable expression grammar and the string key that orders its terms. */
module Expressions {
  import opened CanonicalJson

  datatype ContextName = SubjectId | TenantId | Role | Now

  datatype CompareOp = Eq | Neq | Gt | Gte | Lt | Lte | Like | ILike | In | Is

  datatype LogicOp = And | Or

  datatype Expr =
    | Literal(value: Json)
    | Column(table: string, name: string)
    | Claim(path: seq<string>)
    | Context(ctx: ContextName)
    | Compare(cmp: CompareOp, left: Expr, right: Expr)
    | Logic(op: LogicOp, terms: seq<Expr>)
    | Not(term: Expr)

  function ContextText(c: ContextName): string {
    match c
    case SubjectId => "subjectId"
    case TenantId => "tenantId"
    case Role => "role"
    case Now => "now"
  }

  function CompareText(c: CompareOp): string {
    match c
    case Eq => "eq" case Neq => "neq" case Gt => "gt" case Gte => "gte" case Lt => "lt"
    case Lte => "lte" case Like => "like" case ILike => "ilike" case In => "in" case Is => "is"
  }

  function LogicText(op: LogicOp): string {
    match op
    case And => "and"
    case Or => "or"
  }

  function Strings(ss: seq<string>): seq<Json> {
    if ss == [] then [] else [Str(ss[0])] + Strings(ss[1..])
  }

  /** The expression as the plain object that canonical JSON serialises. */
  function ToJson(e: Expr): (j: Json)
    ensures j.Obj? && "kind" in j.fields
  {
    match e
    case Literal(v) => Obj(map["kind" := Str("literal"), "value" := v])
    case Column(t, n) => Obj(map["kind" := Str("column"), "table" := Str(t), "name" := Str(n)])
    case Claim(p) => Obj(map["kind" := Str("claim"), "path" := Arr(Strings(p))])
    case Context(c) => Obj(map["kind" := Str("context"), "name" := Str(ContextText(c))])
    case Compare(o, l, r) =>
      Obj(map["kind" := Str("compare"), "op" := Str(CompareText(o)), "left" := ToJson(l), "right" := ToJson(r)])
    case Logic(o, ts) =>
      Obj(map["kind" := Str("logic"), "op" := Str(LogicText(o)), "terms" := Arr(TermsToJson(ts))])
    case Not(t) => Obj(map["kind" := Str("not"), "term" := ToJson(t)])
  }

  function TermsToJson(ts: seq<Expr>): seq<Json> {
    if ts == [] then [] else [ToJson(ts[0])] + TermsToJson(ts[1..])
  }

  function Tag(e: Expr): string {
    match e
    case Literal(_) => "literal" case Column(_, _) => "column" case Claim(_) => "claim"
    case Context(_) => "context" case Compare(_, _, _) => "compare" case Logic(_, _) => "logic"
    case Not(_) => "not"
  }

  lemma KindIsTag(e: Expr)
    ensures ToJson(e).fields["kind"] == Str(Tag(e))
  {}

  lemma StringsInjective(s: seq<string>, t: seq<string>)
    requires Strings(s) == Strings(t)
    ensures s == t
  {
    if s != [] && t != [] {
      assert Strings(s)[0] == Strings(t)[0] && Strings(s)[1..] == Strings(t)[1..];
      StringsInjective(s[1..], t[1..]);
      assert s == [s[0]] + s[1..] && t == [t[0]] + t[1..];
    }
  }

  lemma {:induction false} ToJsonInjective(a: Expr, b: Expr)
    requires ToJson(a) == ToJson(b)
    ensures a == b
  {
    KindIsTag(a);
    KindIsTag(b);
    var f, g := ToJson(a).fields, ToJson(b).fields;
    match a
    case Literal(_) => assert f["value"] == g["value"];
    case Column(_, _) => assert f["table"] == g["table"] && f["name"] == g["name"];
    case Claim(p) => assert f["path"] == g["path"]; StringsInjective(p, b.path);
    case Context(_) => assert f["name"] == g["name"];
    case Compare(_, l, r) =>
      assert f["op"] == g["op"] && f["left"] == g["left"] && f["right"] == g["right"];
      ToJsonInjective(l, b.left);
      ToJsonInjective(r, b.right);
    case Logic(_, ts) =>
      assert f["op"] == g["op"] && f["terms"] == g["terms"];
      TermsInjective(ts, b.terms);
    case Not(t) =>
      assert f["term"] == g["term"];
      ToJsonInjective(t, b.term);
  }

  lemma {:induction false} TermsInjective(s: seq<Expr>, t: seq<Expr>)
    requires TermsToJson(s) == TermsToJson(t)
    ensures s == t
  {
    if s != [] && t != [] {
      assert TermsToJson(s)[0] == TermsToJson(t)[0] && TermsToJson(s)[1..] == TermsToJson(t)[1..];
      ToJsonInjective(s[0], t[0]);
      TermsInjective(s[1..], t[1..]);
      assert s == [s[0]] + s[1..] && t == [t[0]] + t[1..];
    }
  }

  /** stableKey */
  function StableKey(e: Expr): string {
    Canonical(ToJson(e))
  }

  /** Different expressions have different keys, so sorting by key never depends on a tie. */
  lemma StableKeyInjective(a: Expr, b: Expr)
    ensures StableKey(a) == StableKey(b) <==> a == b
  {
    CanonicalInjective(ToJson(a), ToJson(b));
    if ToJson(a) == ToJson(b) { ToJsonInjective(a, b); }
  }
}
