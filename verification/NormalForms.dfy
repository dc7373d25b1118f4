/**
 * normalizeExpr: nested and/or of the same kind is flattened, terms are sorted by their stable
 * key and a one-term and/or becomes its term. Two expressions get the same normal form exactly
 * when they are equal up to those three laws.
 */
module NormalForms {
  import opened Text
  import opened Expressions

  /** What the terms are sorted by. */
  type Key = Expr -> string

  ghost predicate Injective(key: Key) {
    forall a, b :: key(a) == key(b) ==> a == b
  }

  // ---------------------------------------------------------------- sorting

  predicate Before(key: Key, a: Expr, b: Expr) {
    Leq(key(a), key(b))
  }

  predicate Sorted(key: Key, s: seq<Expr>) {
    forall i, j | 0 <= i < j < |s| :: Before(key, s[i], s[j])
  }

  function Insert(key: Key, e: Expr, s: seq<Expr>): (r: seq<Expr>)
    ensures |r| == |s| + 1
    ensures multiset(r) == multiset{e} + multiset(s)
  {
    if s == [] then [e]
    else if Before(key, e, s[0]) then [e] + s
    else
      assert s == [s[0]] + s[1..];
      [s[0]] + Insert(key, e, s[1..])
  }

  function Sort(key: Key, s: seq<Expr>): (r: seq<Expr>)
    ensures |r| == |s|
    ensures multiset(r) == multiset(s)
  {
    if s == [] then []
    else
      assert s == [s[0]] + s[1..];
      Insert(key, s[0], Sort(key, s[1..]))
  }

  lemma InMultiset(e: Expr, s: seq<Expr>)
    ensures e in multiset(s) <==> e in s
  {}

  lemma {:induction false} InsertSorted(key: Key, e: Expr, s: seq<Expr>)
    requires Sorted(key, s)
    ensures Sorted(key, Insert(key, e, s))
  {
    hide Leq;
    if s != [] {
      var rest := Insert(key, e, s[1..]);
      LeqTotal(key(e), key(s[0]));
      if Before(key, e, s[0]) {
        forall j | 0 <= j < |s| ensures Before(key, e, s[j]) {
          if j > 0 { LeqTransitive(key(e), key(s[0]), key(s[j])); }
        }
      } else {
        InsertSorted(key, e, s[1..]);
        forall j | 0 <= j < |rest| ensures Before(key, s[0], rest[j]) {
          InMultiset(rest[j], rest);
          InMultiset(rest[j], s[1..]);
        }
      }
    }
  }

  lemma {:induction false} SortSorted(key: Key, s: seq<Expr>)
    ensures Sorted(key, Sort(key, s))
  {
    if s != [] {
      SortSorted(key, s[1..]);
      InsertSorted(key, s[0], Sort(key, s[1..]));
    }
  }

  /** A multiset of expressions has one sorted arrangement. */
  lemma {:induction false} SortedUnique(key: Key, s: seq<Expr>, t: seq<Expr>)
    requires Injective(key)
    requires Sorted(key, s) && Sorted(key, t) && multiset(s) == multiset(t)
    ensures s == t
  {
    assert |s| == |multiset(s)| && |t| == |multiset(t)|;
    if s != [] {
      InMultiset(s[0], s); InMultiset(s[0], t);
      InMultiset(t[0], s); InMultiset(t[0], t);
      LeqTotal(key(s[0]), key(s[0]));
      assert Before(key, s[0], t[0]) && Before(key, t[0], s[0]);
      LeqAntisymmetric(key(s[0]), key(t[0]));
      assert t == [] + [s[0]] + t[1..] && [] + t[1..] == t[1..];
      MultisetOfParts(s, t, [], t[1..]);
      SortedUnique(key, s[1..], t[1..]);
    }
  }

  lemma SortSame(key: Key, s: seq<Expr>, t: seq<Expr>)
    requires Injective(key)
    requires multiset(s) == multiset(t)
    ensures Sort(key, s) == Sort(key, t)
    ensures Sorted(key, t) ==> Sort(key, s) == t
  {
    SortSorted(key, s);
    SortSorted(key, t);
    SortedUnique(key, Sort(key, s), Sort(key, t));
    if Sorted(key, t) { SortedUnique(key, Sort(key, s), t); }
  }

  // ---------------------------------------------------------------- normalizeExpr

  /** The terms an already normalised expression contributes to an enclosing `op`. */
  function Spread(op: LogicOp, n: Expr): seq<Expr> {
    if n.Logic? && n.op == op then n.terms else [n]
  }

  function Collapse(op: LogicOp, terms: seq<Expr>): Expr {
    if |terms| == 1 then terms[0] else Logic(op, terms)
  }

  function SpreadAll(op: LogicOp, ns: seq<Expr>): seq<Expr> {
    if ns == [] then [] else Spread(op, ns[0]) + SpreadAll(op, ns[1..])
  }

  /** normalizeExpr */
  function Normalize(key: Key, e: Expr): Expr
    decreases e, 0
  {
    match e
    case Not(t) => Not(Normalize(key, t))
    case Compare(c, l, r) => Compare(c, Normalize(key, l), Normalize(key, r))
    case Logic(op, ts) => Collapse(op, Sort(key, SpreadAll(op, NormalTerms(key, ts))))
    case _ => e
  }

  function NormalTerms(key: Key, ts: seq<Expr>): (r: seq<Expr>)
    ensures |r| == |ts|
    ensures forall i | 0 <= i < |ts| :: r[i] == Normalize(key, ts[i])
    decreases ts, 1
  {
    if ts == [] then [] else [Normalize(key, ts[0])] + NormalTerms(key, ts[1..])
  }

  /** Nothing left to flatten, sort or collapse, at any depth. */
  predicate NormalForm(key: Key, e: Expr) {
    match e
    case Not(t) => NormalForm(key, t)
    case Compare(_, l, r) => NormalForm(key, l) && NormalForm(key, r)
    case Logic(op, ts) =>
      |ts| != 1 && Sorted(key, ts) && forall t | t in ts :: NormalForm(key, t) && !IsLogic(t, op)
    case _ => true
  }

  predicate IsLogic(e: Expr, op: LogicOp) {
    e.Logic? && e.op == op
  }

  predicate AllNormalBelow(key: Key, op: LogicOp, ts: seq<Expr>) {
    forall t | t in ts :: NormalForm(key, t) && !IsLogic(t, op)
  }

  lemma {:induction false} NormalizeIsNormal(key: Key, e: Expr)
    ensures NormalForm(key, Normalize(key, e))
    decreases e
  {
    match e
    case Not(t) => NormalizeIsNormal(key, t);
    case Compare(_, l, r) => NormalizeIsNormal(key, l); NormalizeIsNormal(key, r);
    case Logic(op, ts) =>
      forall i | 0 <= i < |ts| ensures NormalForm(key, NormalTerms(key, ts)[i]) { NormalizeIsNormal(key, ts[i]); }
      SpreadAllNormal(key, op, NormalTerms(key, ts));
      SortNormal(key, op, SpreadAll(op, NormalTerms(key, ts)));
    case _ =>
  }

  lemma {:induction false} SpreadAllNormal(key: Key, op: LogicOp, ns: seq<Expr>)
    requires forall n | n in ns :: NormalForm(key, n)
    ensures AllNormalBelow(key, op, SpreadAll(op, ns))
  {
    if ns != [] {
      assert ns[0] in ns;
      SpreadAllNormal(key, op, ns[1..]);
      forall t | t in SpreadAll(op, ns) ensures NormalForm(key, t) && !IsLogic(t, op) {
        assert t in Spread(op, ns[0]) || t in SpreadAll(op, ns[1..]);
      }
    }
  }

  lemma SortNormal(key: Key, op: LogicOp, ts: seq<Expr>)
    requires AllNormalBelow(key, op, ts)
    ensures AllNormalBelow(key, op, Sort(key, ts)) && Sorted(key, Sort(key, ts))
  {
    SortSorted(key, ts);
    forall t | t in Sort(key, ts) ensures t in ts {
      InMultiset(t, Sort(key, ts));
      InMultiset(t, ts);
    }
  }

  lemma {:induction false} NormalFormFixed(key: Key, e: Expr)
    requires Injective(key)
    requires NormalForm(key, e)
    ensures Normalize(key, e) == e
    decreases e
  {
    match e
    case Not(t) => NormalFormFixed(key, t);
    case Compare(_, l, r) => NormalFormFixed(key, l); NormalFormFixed(key, r);
    case Logic(op, ts) =>
      forall i | 0 <= i < |ts| ensures NormalTerms(key, ts)[i] == ts[i] { NormalFormFixed(key, ts[i]); }
      assert NormalTerms(key, ts) == ts;
      SpreadAllFixed(op, ts);
      SortSame(key, ts, ts);
    case _ =>
  }

  lemma {:induction false} SpreadAllFixed(op: LogicOp, ns: seq<Expr>)
    requires forall n | n in ns :: !IsLogic(n, op)
    ensures SpreadAll(op, ns) == ns
  {
    if ns != [] {
      assert ns[0] in ns;
      SpreadAllFixed(op, ns[1..]);
      assert ns == [ns[0]] + ns[1..];
    }
  }

  lemma NormalizeIdempotent(key: Key, e: Expr)
    requires Injective(key)
    ensures Normalize(key, Normalize(key, e)) == Normalize(key, e)
  {
    NormalizeIsNormal(key, e);
    NormalFormFixed(key, Normalize(key, e));
  }

  // ---------------------------------------------------------------- the three laws

  /** A proof that two expressions differ only by reordering, re-nesting and one-term wrapping. */
  datatype Proof =
    | Refl
    | Sym(p: Proof)
    | Trans(first: Proof, middle: Expr, second: Proof)
    | InNot(p: Proof)
    | InCompare(l: Proof, r: Proof)
    | InTerms(ps: seq<Proof>)
    | Reorder
    | Unnest(pre: seq<Expr>, mid: seq<Expr>, post: seq<Expr>)
    | Unwrap

  ghost predicate Shows(p: Proof, a: Expr, b: Expr)
    decreases p
  {
    match p
    case Refl => a == b
    case Sym(q) => Shows(q, b, a)
    case Trans(q, m, r) => Shows(q, a, m) && Shows(r, m, b)
    case InNot(q) => a.Not? && b.Not? && Shows(q, a.term, b.term)
    case InCompare(q, r) =>
      a.Compare? && b.Compare? && a.cmp == b.cmp && Shows(q, a.left, b.left) && Shows(r, a.right, b.right)
    case InTerms(ps) =>
      a.Logic? && b.Logic? && a.op == b.op && |a.terms| == |b.terms| == |ps|
      && forall i | 0 <= i < |ps| :: Shows(ps[i], a.terms[i], b.terms[i])
    case Reorder => a.Logic? && b.Logic? && a.op == b.op && multiset(a.terms) == multiset(b.terms)
    case Unnest(pre, mid, post) =>
      a.Logic? && a == Logic(a.op, pre + [Logic(a.op, mid)] + post) && b == Logic(a.op, pre + mid + post)
    case Unwrap => a.Logic? && |a.terms| == 1 && b == a.terms[0]
  }

  ghost predicate Equivalent(a: Expr, b: Expr) {
    exists p :: Shows(p, a, b)
  }

  lemma {:induction false} SpreadAllConcat(op: LogicOp, s: seq<Expr>, t: seq<Expr>)
    ensures SpreadAll(op, s + t) == SpreadAll(op, s) + SpreadAll(op, t)
  {
    hide Spread;
    if s == [] {
      assert s + t == t;
    } else {
      SpreadAllConcat(op, s[1..], t);
      TailOfConcat(s, t);
      ConcatAssociates(Spread(op, s[0]), SpreadAll(op, s[1..]), SpreadAll(op, t));
    }
  }

  lemma SpreadOne(op: LogicOp, n: Expr)
    ensures SpreadAll(op, [n]) == Spread(op, n)
  {
    assert SpreadAll(op, [n]) == Spread(op, n) + SpreadAll(op, []);
  }

  lemma MultisetOfParts(s: seq<Expr>, t: seq<Expr>, pre: seq<Expr>, post: seq<Expr>)
    requires s != [] && multiset(s) == multiset(t) && t == pre + [s[0]] + post
    ensures multiset(s[1..]) == multiset(pre + post)
  {
    assert s == [s[0]] + s[1..];
    assert multiset(s) == multiset{s[0]} + multiset(s[1..]);
    assert multiset(t) == multiset(pre) + multiset{s[0]} + multiset(post);
    assert multiset(pre + post) == multiset(pre) + multiset(post);
    assert multiset(s[1..]) == multiset(s) - multiset{s[0]};
  }

  lemma Locate(s: seq<Expr>, t: seq<Expr>) returns (pre: seq<Expr>, post: seq<Expr>)
    requires s != [] && multiset(s) == multiset(t)
    ensures t == pre + [s[0]] + post
    ensures multiset(s[1..]) == multiset(pre + post)
  {
    InMultiset(s[0], s); InMultiset(s[0], t);
    var i :| 0 <= i < |t| && t[i] == s[0];
    pre, post := t[..i], t[i + 1..];
    MultisetOfParts(s, t, pre, post);
  }

  lemma NormalTermsConcat(key: Key, s: seq<Expr>, t: seq<Expr>)
    ensures NormalTerms(key, s + t) == NormalTerms(key, s) + NormalTerms(key, t)
  {
    var r, q := NormalTerms(key, s + t), NormalTerms(key, s) + NormalTerms(key, t);
    assert forall i | 0 <= i < |r| :: r[i] == Normalize(key, (s + t)[i]);
    assert forall i | 0 <= i < |q| :: q[i] == Normalize(key, (s + t)[i]);
  }

  /** What the terms contribute to `op`, as a multiset: the part of the result that sorting keeps. */
  ghost function Flat(key: Key, op: LogicOp, ts: seq<Expr>): multiset<Expr> {
    multiset(SpreadAll(op, NormalTerms(key, ts)))
  }

  lemma FlatConcat(key: Key, op: LogicOp, s: seq<Expr>, t: seq<Expr>)
    ensures Flat(key, op, s + t) == Flat(key, op, s) + Flat(key, op, t)
  {
    NormalTermsConcat(key, s, t);
    SpreadAllConcat(op, NormalTerms(key, s), NormalTerms(key, t));
  }

  lemma FlatOne(key: Key, op: LogicOp, t: Expr)
    ensures Flat(key, op, [t]) == multiset(Spread(op, Normalize(key, t)))
  {
    assert NormalTerms(key, [t]) == [Normalize(key, t)];
    SpreadOne(op, Normalize(key, t));
  }

  lemma FlatAround(key: Key, op: LogicOp, pre: seq<Expr>, mid: seq<Expr>, post: seq<Expr>)
    ensures Flat(key, op, pre + mid + post) == Flat(key, op, pre) + Flat(key, op, mid) + Flat(key, op, post)
  {
    FlatConcat(key, op, pre + mid, post);
    FlatConcat(key, op, pre, mid);
  }

  lemma FlatDecides(key: Key, op: LogicOp, s: seq<Expr>, t: seq<Expr>)
    requires Injective(key)
    requires Flat(key, op, s) == Flat(key, op, t)
    ensures Normalize(key, Logic(op, s)) == Normalize(key, Logic(op, t))
  {
    SortSame(key, SpreadAll(op, NormalTerms(key, s)), SpreadAll(op, NormalTerms(key, t)));
  }

  lemma {:induction false} FlatReordered(key: Key, op: LogicOp, s: seq<Expr>, t: seq<Expr>)
    requires multiset(s) == multiset(t)
    ensures Flat(key, op, s) == Flat(key, op, t)
  {
    if s == [] {
      assert |t| == |multiset(t)| == |multiset(s)|;
      assert t == [];
    } else {
      var e, rest := s[0], s[1..];
      var pre, post := Locate(s, t);
      FlatReordered(key, op, rest, pre + post);
      FlatMoved(key, op, e, rest, pre, post);
      assert s == [e] + rest;
    }
  }

  lemma FlatMoved(key: Key, op: LogicOp, e: Expr, rest: seq<Expr>, pre: seq<Expr>, post: seq<Expr>)
    requires Flat(key, op, rest) == Flat(key, op, pre + post)
    ensures Flat(key, op, [e] + rest) == Flat(key, op, pre + [e] + post)
  {
    FlatAround(key, op, pre, [e], post);
    FlatConcat(key, op, pre, post);
    FlatConcat(key, op, [e], rest);
  }

  /** An already normalised and/or contributes a rearrangement of its flattened terms. */
  lemma FlatOfLogic(key: Key, op: LogicOp, ts: seq<Expr>)
    ensures Flat(key, op, [Logic(op, ts)]) == Flat(key, op, ts)
  {
    var flat := SpreadAll(op, NormalTerms(key, ts));
    forall i | 0 <= i < |ts| ensures NormalForm(key, NormalTerms(key, ts)[i]) { NormalizeIsNormal(key, ts[i]); }
    SpreadAllNormal(key, op, NormalTerms(key, ts));
    SortNormal(key, op, flat);
    FlatOne(key, op, Logic(op, ts));
    SpreadOfCollapse(key, op, Sort(key, flat));
  }

  lemma SpreadOfCollapse(key: Key, op: LogicOp, ts: seq<Expr>)
    requires AllNormalBelow(key, op, ts)
    ensures Spread(op, Collapse(op, ts)) == ts
  {
    if |ts| == 1 {
      assert ts[0] in ts;
    }
  }

  lemma UnnestSound(key: Key, op: LogicOp, pre: seq<Expr>, mid: seq<Expr>, post: seq<Expr>)
    requires Injective(key)
    ensures Normalize(key, Logic(op, pre + [Logic(op, mid)] + post)) == Normalize(key, Logic(op, pre + mid + post))
  {
    FlatUnnested(key, op, pre, mid, post);
    FlatDecides(key, op, pre + [Logic(op, mid)] + post, pre + mid + post);
  }

  lemma FlatUnnested(key: Key, op: LogicOp, pre: seq<Expr>, mid: seq<Expr>, post: seq<Expr>)
    ensures Flat(key, op, pre + [Logic(op, mid)] + post) == Flat(key, op, pre + mid + post)
  {
    FlatAround(key, op, pre, [Logic(op, mid)], post);
    FlatAround(key, op, pre, mid, post);
    FlatOfLogic(key, op, mid);
  }

  lemma UnwrapSound(key: Key, op: LogicOp, t: Expr)
    requires Injective(key)
    ensures Normalize(key, Logic(op, [t])) == Normalize(key, t)
  {
    var n := Normalize(key, t);
    NormalizeIsNormal(key, t);
    assert NormalTerms(key, [t]) == [n];
    SpreadOne(op, n);
    SortSame(key, Spread(op, n), Spread(op, n));
  }

  lemma {:induction false} LawsSound(key: Key, p: Proof, a: Expr, b: Expr)
    requires Injective(key)
    requires Shows(p, a, b)
    ensures Normalize(key, a) == Normalize(key, b)
    decreases p
  {
    match p
    case Refl =>
    case Sym(q) => LawsSound(key, q, b, a);
    case Trans(q, m, r) => LawsSound(key, q, a, m); LawsSound(key, r, m, b);
    case InNot(q) => LawsSound(key, q, a.term, b.term);
    case InCompare(q, r) => LawsSound(key, q, a.left, b.left); LawsSound(key, r, a.right, b.right);
    case InTerms(ps) =>
      forall i | 0 <= i < |ps| ensures Normalize(key, a.terms[i]) == Normalize(key, b.terms[i]) {
        LawsSound(key, ps[i], a.terms[i], b.terms[i]);
      }
      assert NormalTerms(key, a.terms) == NormalTerms(key, b.terms);
    case Reorder => FlatReordered(key, a.op, a.terms, b.terms); FlatDecides(key, a.op, a.terms, b.terms);
    case Unnest(pre, mid, post) => UnnestSound(key, a.op, pre, mid, post);
    case Unwrap =>
      UnwrapSound(key, a.op, a.terms[0]);
      assert a.terms == [a.terms[0]];
  }

  // ---------------------------------------------------------------- and they are all of it

  lemma {:induction false} DeriveTerms(key: Key, ts: seq<Expr>) returns (ps: seq<Proof>)
    ensures |ps| == |ts|
    ensures forall i | 0 <= i < |ts| :: Shows(ps[i], ts[i], Normalize(key, ts[i]))
    decreases ts, 1
  {
    if ts == [] {
      ps := [];
    } else {
      var p := Derive(key, ts[0]);
      var rest := DeriveTerms(key, ts[1..]);
      ps := [p] + rest;
    }
  }

  lemma DeriveUnnest(op: LogicOp, pre: seq<Expr>, mid: seq<Expr>, post: seq<Expr>) returns (p: Proof)
    ensures Shows(p, Logic(op, pre + [Logic(op, mid)] + post), Logic(op, pre + mid + post))
  {
    p := Unnest(pre, mid, post);
  }

  lemma DeriveRefl(a: Expr) returns (p: Proof)
    ensures Shows(p, a, a)
  {
    p := Refl;
  }

  lemma {:induction false} DeriveFlat(op: LogicOp, done: seq<Expr>, ns: seq<Expr>) returns (p: Proof)
    ensures Shows(p, Logic(op, done + ns), Logic(op, done + SpreadAll(op, ns)))
    decreases |ns|
  {
    hide Shows;
    if ns == [] {
      p := DeriveRefl(Logic(op, done + ns));
    } else {
      var done' := done + Spread(op, ns[0]);
      p := DeriveFlat(op, done', ns[1..]);
      var a, b, c := done + ns, done' + ns[1..], done' + SpreadAll(op, ns[1..]);
      assert done + SpreadAll(op, ns) == c;
      if IsLogic(ns[0], op) {
        assert a == done + [Logic(op, ns[0].terms)] + ns[1..];
        var q := DeriveUnnest(op, done, ns[0].terms, ns[1..]);
        p := Chain(q, Logic(op, a), Logic(op, b), p, Logic(op, c));
      } else {
        assert a == b;
      }
    }
  }

  lemma Chain(p: Proof, a: Expr, b: Expr, q: Proof, c: Expr) returns (r: Proof)
    requires Shows(p, a, b) && Shows(q, b, c)
    ensures Shows(r, a, c)
  {
    r := Trans(p, b, q);
  }

  lemma DeriveCollapse(op: LogicOp, ts: seq<Expr>) returns (p: Proof)
    ensures Shows(p, Logic(op, ts), Collapse(op, ts))
  {
    p := if |ts| == 1 then Unwrap else Refl;
  }

  lemma DeriveInside(key: Key, op: LogicOp, ts: seq<Expr>, ps: seq<Proof>) returns (p: Proof)
    requires |ps| == |ts| && forall i | 0 <= i < |ts| :: Shows(ps[i], ts[i], Normalize(key, ts[i]))
    ensures Shows(p, Logic(op, ts), Logic(op, NormalTerms(key, ts)))
  {
    p := InTerms(ps);
  }

  lemma DeriveSpread(op: LogicOp, ns: seq<Expr>) returns (p: Proof)
    ensures Shows(p, Logic(op, ns), Logic(op, SpreadAll(op, ns)))
  {
    p := DeriveFlat(op, [], ns);
    assert [] + ns == ns && [] + SpreadAll(op, ns) == SpreadAll(op, ns);
  }

  lemma DeriveSort(key: Key, op: LogicOp, ns: seq<Expr>) returns (p: Proof)
    ensures Shows(p, Logic(op, ns), Logic(op, Sort(key, ns)))
  {
    p := Reorder;
  }

  lemma DeriveLogic(key: Key, op: LogicOp, ts: seq<Expr>, ps: seq<Proof>) returns (p: Proof)
    requires |ps| == |ts| && forall i | 0 <= i < |ts| :: Shows(ps[i], ts[i], Normalize(key, ts[i]))
    ensures Shows(p, Logic(op, ts), Normalize(key, Logic(op, ts)))
  {
    hide Shows, NormalTerms, SpreadAll, Sort, Collapse;
    var normal := NormalTerms(key, ts);
    var flat := SpreadAll(op, normal);
    p := DeriveInside(key, op, ts, ps);
    var q := DeriveSpread(op, normal);
    p := Chain(p, Logic(op, ts), Logic(op, normal), q, Logic(op, flat));
    q := DeriveSort(key, op, flat);
    p := Chain(p, Logic(op, ts), Logic(op, flat), q, Logic(op, Sort(key, flat)));
    q := DeriveCollapse(op, Sort(key, flat));
    p := Chain(p, Logic(op, ts), Logic(op, Sort(key, flat)), q, Collapse(op, Sort(key, flat)));
  }

  lemma {:induction false} Derive(key: Key, e: Expr) returns (p: Proof)
    ensures Shows(p, e, Normalize(key, e))
    decreases e, 0
  {
    match e
    case Not(t) => var q := Derive(key, t); p := InNot(q);
    case Compare(_, l, r) => var q := Derive(key, l); var q' := Derive(key, r); p := InCompare(q, q');
    case Logic(op, ts) => var ps := DeriveTerms(key, ts); p := DeriveLogic(key, op, ts, ps);
    case _ => p := Refl;
  }

  /** Same normal form exactly when equal up to reordering, re-nesting and one-term wrapping. */
  lemma NormalFormsDecideEquivalence(key: Key, a: Expr, b: Expr)
    requires Injective(key)
    ensures Normalize(key, a) == Normalize(key, b) <==> Equivalent(a, b)
  {
    if Equivalent(a, b) {
      var p :| Shows(p, a, b);
      LawsSound(key, p, a, b);
    }
    if Normalize(key, a) == Normalize(key, b) {
      var p := Derive(key, a);
      var q := Derive(key, b);
      var r := Chain(p, a, Normalize(key, a), Sym(q), b);
    }
  }

  // ---------------------------------------------------------------- with the kernel's key

  /** normalizeExpr as the kernel runs it: terms sorted by their canonical JSON. */
  function NormalizeExpr(e: Expr): Expr {
    Normalize(StableKey, e)
  }

  lemma StableKeyIsInjective()
    ensures Injective(StableKey)
  {
    forall a, b | StableKey(a) == StableKey(b) ensures a == b { StableKeyInjective(a, b); }
  }

  lemma NormalizeExprIdempotent(e: Expr)
    ensures NormalizeExpr(NormalizeExpr(e)) == NormalizeExpr(e)
  {
    StableKeyIsInjective();
    NormalizeIdempotent(StableKey, e);
  }

  /** The normal form, and its serialisation, identify exactly the equivalent expressions. */
  lemma NormalizeExprDecides(a: Expr, b: Expr)
    ensures NormalizeExpr(a) == NormalizeExpr(b) <==> Equivalent(a, b)
    ensures StableKey(NormalizeExpr(a)) == StableKey(NormalizeExpr(b)) <==> Equivalent(a, b)
  {
    StableKeyIsInjective();
    NormalFormsDecideEquivalence(StableKey, a, b);
    StableKeyInjective(NormalizeExpr(a), NormalizeExpr(b));
  }
}
