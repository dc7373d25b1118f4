/** The comparators of the conformance harness: what it means that they report nothing. */
module Comparators {
  import opened Text
  import opened CanonicalJson

  datatype Note = Mismatch | Missing(n: nat) | Extra(n: nat) | NeedsArrays | Unsatisfied

  datatype Diff = Diff(path: string, expected: Json, actual: Json, note: Note)

  // ---------------------------------------------------------------- exact comparison

  /** A field or an item; null where there is none. */
  function Field(v: Json, k: string): Json
    requires v.Obj?
  {
    if k in v.fields then v.fields[k] else Null
  }

  function Item(items: seq<Json>, i: nat): Json {
    if i < |items| then items[i] else Null
  }

  function Longest(s: seq<Json>, t: seq<Json>): nat {
    if |s| >= |t| then |s| else |t|
  }

  /** Two values of which one is null, or which are not both objects or both arrays. */
  function LeafDiff(a: Json, b: Json, path: string): seq<Diff> {
    if JsonEquals(a, b) then [] else [Diff(if path == "" then "/" else path, a, b, Mismatch)]
  }

  /** The entries that diffExact pushes. */
  function ExactDiff(a: Json, b: Json, path: string): seq<Diff>
    decreases a, 2
  {
    if JsonEquals(a, b) then []
    else if a.Obj? && b.Obj? then FieldsDiff(SortedKeys(a.fields.Keys + b.fields.Keys), a, b, path)
    else if a.Arr? && b.Arr? then ItemsDiff(Longest(a.items, b.items), a, b, path)
    else LeafDiff(a, b, path)
  }

  function FieldsDiff(ks: seq<string>, a: Json, b: Json, path: string): seq<Diff>
    requires a.Obj? && b.Obj?
    decreases a, 1, |ks|
  {
    if ks == [] then []
    else
      var k := ks[|ks| - 1];
      FieldsDiff(ks[..|ks| - 1], a, b, path)
      + (if k in a.fields && k in b.fields then ExactDiff(a.fields[k], b.fields[k], path + "/" + k)
         else LeafDiff(Field(a, k), Field(b, k), path + "/" + k))
  }

  function ItemsDiff(n: nat, a: Json, b: Json, path: string): seq<Diff>
    requires a.Arr? && b.Arr?
    decreases a, 1, n
  {
    if n == 0 then []
    else
      ItemsDiff(n - 1, a, b, path)
      + (if n <= |a.items| && n <= |b.items| then ExactDiff(a.items[n - 1], b.items[n - 1], path + "/" + Digits(n - 1))
         else LeafDiff(Item(a.items, n - 1), Item(b.items, n - 1), path + "/" + Digits(n - 1)))
  }

  /** diffExact: pushes what it finds onto `out`. */
  method DiffExact(a: Json, b: Json, path: string, out: seq<Diff>) returns (out': seq<Diff>)
    ensures out' == out + ExactDiff(a, b, path)
    decreases a, 1
  {
    hide JsonEquals, LeafDiff, FieldsDiff, ItemsDiff;
    if JsonEquals(a, b) {
      out' := out;
    } else if a.Obj? && b.Obj? {
      out' := DiffFields(a, b, path, out);
    } else if a.Arr? && b.Arr? {
      out' := DiffItems(a, b, path, out);
    } else {
      out' := out + LeafDiff(a, b, path);
    }
  }

  lemma NoFields(ks: seq<string>, a: Json, b: Json, path: string)
    requires a.Obj? && b.Obj?
    ensures FieldsDiff(ks[..0], a, b, path) == []
  {}

  lemma FieldsStep(ks: seq<string>, a: Json, b: Json, path: string, i: nat)
    requires a.Obj? && b.Obj? && i < |ks|
    ensures FieldsDiff(ks[..i + 1], a, b, path)
         == FieldsDiff(ks[..i], a, b, path)
            + (if ks[i] in a.fields && ks[i] in b.fields then ExactDiff(a.fields[ks[i]], b.fields[ks[i]], path + "/" + ks[i])
               else LeafDiff(Field(a, ks[i]), Field(b, ks[i]), path + "/" + ks[i]))
  {
    hide ExactDiff, LeafDiff, Field;
    assert ks[..i + 1][..i] == ks[..i];
  }

  method DiffFields(a: Json, b: Json, path: string, out: seq<Diff>) returns (out': seq<Diff>)
    requires a.Obj? && b.Obj?
    ensures out' == out + FieldsDiff(SortedKeys(a.fields.Keys + b.fields.Keys), a, b, path)
    decreases a, 0
  {
    hide ExactDiff, LeafDiff, Field, FieldsDiff, SortedKeys;
    out' := out;
    var ks := SortedKeys(a.fields.Keys + b.fields.Keys);
    NoFields(ks, a, b, path);
    for i := 0 to |ks|
      invariant out' == out + FieldsDiff(ks[..i], a, b, path)
    {
      var k := ks[i];
      FieldsStep(ks, a, b, path, i);
      ghost var pushed := FieldsDiff(ks[..i], a, b, path);
      if k in a.fields && k in b.fields {
        ConcatAssociates(out, pushed, ExactDiff(a.fields[k], b.fields[k], path + "/" + k));
        out' := DiffExact(a.fields[k], b.fields[k], path + "/" + k, out');
      } else {
        ConcatAssociates(out, pushed, LeafDiff(Field(a, k), Field(b, k), path + "/" + k));
        out' := out' + LeafDiff(Field(a, k), Field(b, k), path + "/" + k);
      }
    }
    assert ks[..|ks|] == ks;
  }

  method DiffItems(a: Json, b: Json, path: string, out: seq<Diff>) returns (out': seq<Diff>)
    requires a.Arr? && b.Arr?
    ensures out' == out + ItemsDiff(Longest(a.items, b.items), a, b, path)
    decreases a, 0
  {
    hide ExactDiff, LeafDiff, Item, Longest, Digits;
    out' := out;
    for i := 0 to Longest(a.items, b.items)
      invariant out' == out + ItemsDiff(i, a, b, path)
    {
      ghost var pushed := ItemsDiff(i, a, b, path);
      if i < |a.items| && i < |b.items| {
        ConcatAssociates(out, pushed, ExactDiff(a.items[i], b.items[i], path + "/" + Digits(i)));
        out' := DiffExact(a.items[i], b.items[i], path + "/" + Digits(i), out');
      } else {
        ConcatAssociates(out, pushed, LeafDiff(Item(a.items, i), Item(b.items, i), path + "/" + Digits(i)));
        out' := out' + LeafDiff(Item(a.items, i), Item(b.items, i), path + "/" + Digits(i));
      }
    }
  }

  // ---------------------------------------------------------------- what it compares

  function TrimNulls(s: seq<Json>): (r: seq<Json>)
    ensures |r| <= |s| && r == s[..|r|]
    ensures r != [] ==> r[|r| - 1] != Null
    ensures forall i | |r| <= i < |s| :: s[i] == Null
  {
    if s != [] && s[|s| - 1] == Null then TrimNulls(s[..|s| - 1]) else s
  }

  /** A value without the nulls that absence also stands for: null fields and trailing null items. */
  function Prune(v: Json): (r: Json)
    ensures r == Null <==> v == Null
  {
    match v
    case Arr(items) => Arr(TrimNulls(seq(|items|, i requires 0 <= i < |items| => Prune(items[i]))))
    case Obj(fields) => Obj(map k | k in fields && fields[k] != Null :: Prune(fields[k]))
    case _ => v
  }

  lemma EqualsIsEquality(a: Json, b: Json)
    ensures JsonEquals(a, b) <==> a == b
  {
    if JsonEquals(a, b) { CanonicalInjective(a, b); }
  }

  function PrunedItems(items: seq<Json>): (r: seq<Json>)
    ensures |r| == |items| && forall i | 0 <= i < |items| :: r[i] == Prune(items[i])
  {
    seq(|items|, i requires 0 <= i < |items| => Prune(items[i]))
  }

  lemma PruneArr(items: seq<Json>)
    ensures Prune(Arr(items)) == Arr(TrimNulls(PrunedItems(items)))
  {
    assert seq(|items|, i requires 0 <= i < |items| => Prune(items[i])) == PrunedItems(items);
  }

  lemma TrimmedItem(s: seq<Json>, i: nat)
    ensures Item(TrimNulls(s), i) == Item(s, i)
  {
    var r := TrimNulls(s);
    if i < |r| {
      assert r[i] == s[..|r|][i];
    }
  }

  lemma TrimmedLength(r: seq<Json>, u: seq<Json>)
    requires (r != [] ==> r[|r| - 1] != Null) && (u != [] ==> u[|u| - 1] != Null)
    requires forall i: nat :: Item(r, i) == Item(u, i)
    ensures r == u
  {
    assert |r| < |u| ==> Item(r, |u| - 1) == Item(u, |u| - 1);
    assert |u| < |r| ==> Item(r, |r| - 1) == Item(u, |r| - 1);
    forall i | 0 <= i < |r| && i < |u| ensures r[i] == u[i] { assert Item(r, i) == Item(u, i); }
  }

  /** Trimmed arrays are equal when the arrays agree at every index, null beyond the end. */
  lemma TrimmedEqualIff(s: seq<Json>, t: seq<Json>, n: nat)
    requires n >= |s| && n >= |t|
    ensures TrimNulls(s) == TrimNulls(t) <==> forall i | 0 <= i < n :: Item(s, i) == Item(t, i)
  {
    var r, u := TrimNulls(s), TrimNulls(t);
    hide TrimNulls;
    forall i: nat ensures Item(r, i) == Item(s, i) && Item(u, i) == Item(t, i) {
      TrimmedItem(s, i);
      TrimmedItem(t, i);
    }
    if forall i | 0 <= i < n :: Item(s, i) == Item(t, i) {
      forall i: nat ensures Item(r, i) == Item(u, i) {
        assert i < n ==> Item(s, i) == Item(t, i);
      }
      TrimmedLength(r, u);
    }
  }

  lemma PrunedItem(items: seq<Json>, i: nat)
    ensures Item(PrunedItems(items), i) == Prune(Item(items, i))
  {}

  lemma PrunedArraysEqualIff(a: Json, b: Json)
    requires a.Arr? && b.Arr?
    ensures Prune(a) == Prune(b)
       <==> forall i | 0 <= i < Longest(a.items, b.items) :: Prune(Item(a.items, i)) == Prune(Item(b.items, i))
  {
    hide Prune, TrimNulls;
    var s, t, n := PrunedItems(a.items), PrunedItems(b.items), Longest(a.items, b.items);
    PruneArr(a.items);
    PruneArr(b.items);
    TrimmedEqualIff(s, t, n);
    forall i | 0 <= i < n ensures Item(s, i) == Prune(Item(a.items, i)) && Item(t, i) == Prune(Item(b.items, i)) {
      PrunedItem(a.items, i);
      PrunedItem(b.items, i);
    }
  }

  lemma PrunedField(v: Json, k: string)
    requires v.Obj?
    ensures Prune(v).Obj? && Field(Prune(v), k) == Prune(Field(v, k))
    ensures k in Prune(v).fields <==> k in v.fields && v.fields[k] != Null
  {}

  /** Two maps say the same of a key. */
  predicate SameAt(p: map<string, Json>, q: map<string, Json>, k: string) {
    (k in p <==> k in q) && (k in p && k in q ==> p[k] == q[k])
  }

  lemma MapsEqualIff(p: map<string, Json>, q: map<string, Json>, ks: set<string>)
    requires p.Keys <= ks && q.Keys <= ks
    ensures p == q <==> forall k | k in ks :: SameAt(p, q, k)
  {
    if forall k | k in ks :: SameAt(p, q, k) {
      forall k | k in p ensures k in q && p[k] == q[k] { assert SameAt(p, q, k); }
      forall k | k in q ensures k in p { assert SameAt(p, q, k); }
    }
  }

  lemma PrunedFieldEqualIff(a: Json, b: Json, k: string)
    requires a.Obj? && b.Obj? && Prune(a).Obj? && Prune(b).Obj?
    ensures Prune(Field(a, k)) == Prune(Field(b, k)) <==> SameAt(Prune(a).fields, Prune(b).fields, k)
  {
    PrunedField(a, k);
    PrunedField(b, k);
    var p, q := Prune(a), Prune(b);
    assert k in p.fields ==> p.fields[k] != Null;
    assert k in q.fields ==> q.fields[k] != Null;
  }

  lemma PrunedKeys(v: Json)
    requires v.Obj?
    ensures Prune(v).Obj? && Prune(v).fields.Keys <= v.fields.Keys
  {}

  lemma PrunedObjectsEqualIff(a: Json, b: Json)
    requires a.Obj? && b.Obj?
    ensures Prune(a) == Prune(b)
       <==> forall k | k in a.fields.Keys + b.fields.Keys :: Prune(Field(a, k)) == Prune(Field(b, k))
  {
    hide Prune, Field, SameAt;
    PrunedKeys(a);
    PrunedKeys(b);
    MapsEqualIff(Prune(a).fields, Prune(b).fields, a.fields.Keys + b.fields.Keys);
    forall k ensures Prune(Field(a, k)) == Prune(Field(b, k)) <==> SameAt(Prune(a).fields, Prune(b).fields, k) {
      PrunedFieldEqualIff(a, b, k);
    }
  }

  lemma LeafReportsNothing(a: Json, b: Json, path: string)
    requires !(a.Obj? && b.Obj?) && !(a.Arr? && b.Arr?)
    ensures LeafDiff(a, b, path) == [] <==> Prune(a) == Prune(b)
  {
    EqualsIsEquality(a, b);
  }

  /** diffExact pushes nothing precisely when the pruned values are equal. */
  lemma {:induction false} ExactReportsNothingIff(a: Json, b: Json, path: string)
    ensures ExactDiff(a, b, path) == [] <==> Prune(a) == Prune(b)
    decreases a, 2
  {
    hide Prune, JsonEquals, SortedKeys, Item, Field;
    EqualsIsEquality(a, b);
    if a.Obj? && b.Obj? {
      FieldsReportNothingIff(SortedKeys(a.fields.Keys + b.fields.Keys), a, b, path);
      PrunedObjectsEqualIff(a, b);
    } else if a.Arr? && b.Arr? {
      ItemsReportNothingIff(Longest(a.items, b.items), a, b, path);
      PrunedArraysEqualIff(a, b);
    } else {
      LeafReportsNothing(a, b, path);
    }
  }

  lemma {:induction false} FieldsReportNothingIff(ks: seq<string>, a: Json, b: Json, path: string)
    requires a.Obj? && b.Obj? && forall k | k in ks :: k in a.fields || k in b.fields
    ensures FieldsDiff(ks, a, b, path) == [] <==> forall k | k in ks :: Prune(Field(a, k)) == Prune(Field(b, k))
    decreases a, 1, |ks|
  {
    hide Prune, ExactDiff, LeafDiff;
    if ks != [] {
      var k := ks[|ks| - 1];
      var init := FieldsDiff(ks[..|ks| - 1], a, b, path);
      assert init <= FieldsDiff(ks, a, b, path);
      FieldsReportNothingIff(ks[..|ks| - 1], a, b, path);
      if k in a.fields && k in b.fields {
        ExactReportsNothingIff(a.fields[k], b.fields[k], path + "/" + k);
      } else {
        LeafReportsNothing(Field(a, k), Field(b, k), path + "/" + k);
      }
      assert forall j | j in ks :: j in ks[..|ks| - 1] || j == k;
      assert k in ks;
    }
  }

  lemma {:induction false} ItemsReportNothingIff(n: nat, a: Json, b: Json, path: string)
    requires a.Arr? && b.Arr? && n <= Longest(a.items, b.items)
    ensures ItemsDiff(n, a, b, path) == [] <==> forall i | 0 <= i < n :: Prune(Item(a.items, i)) == Prune(Item(b.items, i))
    decreases a, 1, n
  {
    hide Prune, ExactDiff, LeafDiff, Digits;
    if n > 0 {
      var x, y := Item(a.items, n - 1), Item(b.items, n - 1);
      ItemsReportNothingIff(n - 1, a, b, path);
      if n <= |a.items| && n <= |b.items| {
        ExactReportsNothingIff(x, y, path + "/" + Digits(n - 1));
        ConcatEmpty(ItemsDiff(n - 1, a, b, path), ExactDiff(x, y, path + "/" + Digits(n - 1)));
      } else {
        LeafReportsNothing(x, y, path + "/" + Digits(n - 1));
        ConcatEmpty(ItemsDiff(n - 1, a, b, path), LeafDiff(x, y, path + "/" + Digits(n - 1)));
      }
    }
  }

  // ---------------------------------------------------------------- multiset comparison

  /** How many more times a value occurs in the first sequence. */
  function Delta(s: seq<Json>, t: seq<Json>, v: Json): int {
    multiset(s)[v] as int - multiset(t)[v] as int
  }

  function Report(v: Json, delta: int): Diff {
    if delta > 0 then Diff("/", v, Null, Missing(delta))
    else Diff("/", Null, v, Extra(if delta < 0 then -delta else 0))
  }

  /** The counts of the canonical texts, in order of first appearance. */
  ghost predicate Counted(counts: map<string, int>, keys: seq<string>, s: seq<Json>, t: seq<Json>) {
    && counts.Keys == (set k | k in keys)
    && (forall i, j | 0 <= i < j < |keys| :: keys[i] != keys[j])
    && (forall v | v in s || v in t :: Canonical(v) in counts && counts[Canonical(v)] == Delta(s, t, v))
    && (forall k | k in counts :: exists v :: (v in s || v in t) && Canonical(v) == k)
  }

  predicate OneMore(s: seq<Json>, t: seq<Json>, v: Json, d: int, s': seq<Json>, t': seq<Json>) {
    (d == 1 && s' == s + [v] && t' == t) || (d == -1 && s' == s && t' == t + [v])
  }

  function Bumped(counts: map<string, int>, key: string, d: int): map<string, int> {
    counts[key := (if key in counts then counts[key] else 0) + d]
  }

  lemma BumpedIs(counts: map<string, int>, key: string, d: int)
    ensures Bumped(counts, key, d) == counts[key := (if key in counts then counts[key] else 0) + d]
  {}

  lemma UncountedDelta(counts: map<string, int>, keys: seq<string>, s: seq<Json>, t: seq<Json>, v: Json)
    requires Counted(counts, keys, s, t)
    ensures Delta(s, t, v) == if Canonical(v) in counts then counts[Canonical(v)] else 0
  {
    hide Canonical;
    if Canonical(v) in counts {
      var w :| (w in s || w in t) && Canonical(w) == Canonical(v);
      CanonicalInjective(v, w);
    } else {
      assert !(v in s || v in t);
    }
  }

  lemma CountsMore(counts: map<string, int>, keys: seq<string>, s: seq<Json>, t: seq<Json>, v: Json, d: int,
                   s': seq<Json>, t': seq<Json>, w: Json)
    requires Counted(counts, keys, s, t) && OneMore(s, t, v, d, s', t') && (w in s' || w in t')
    ensures Canonical(w) in Bumped(counts, Canonical(v), d)
    ensures Bumped(counts, Canonical(v), d)[Canonical(w)] == Delta(s', t', w)
  {
    DeltaMore(s, t, v, d, s', t', w);
    UncountedDelta(counts, keys, s, t, w);
    CanonicalInjective(v, w);
    hide Canonical, Delta, OneMore;
  }

  lemma KeysMore(counts: map<string, int>, keys: seq<string>, s: seq<Json>, t: seq<Json>, v: Json, d: int,
                 s': seq<Json>, t': seq<Json>, k: string)
    requires Counted(counts, keys, s, t) && OneMore(s, t, v, d, s', t') && k in Bumped(counts, Canonical(v), d)
    ensures exists w :: (w in s' || w in t') && Canonical(w) == k
  {
    hide Canonical;
    var w: Json;
    if k == Canonical(v) {
      w := v;
    } else {
      w :| (w in s || w in t) && Canonical(w) == k;
    }
    DeltaMore(s, t, v, d, s', t', w);
    assert (w in s' || w in t') && Canonical(w) == k;
  }

  lemma CountedMore(counts: map<string, int>, keys: seq<string>, s: seq<Json>, t: seq<Json>, v: Json, d: int,
                    s': seq<Json>, t': seq<Json>)
    requires Counted(counts, keys, s, t) && OneMore(s, t, v, d, s', t')
    ensures Counted(Bumped(counts, Canonical(v), d), if Canonical(v) in counts then keys else keys + [Canonical(v)], s', t')
  {
    hide Canonical, OneMore, Delta;
    var counts' := Bumped(counts, Canonical(v), d);
    forall w | w in s' || w in t' ensures Canonical(w) in counts' && counts'[Canonical(w)] == Delta(s', t', w) {
      CountsMore(counts, keys, s, t, v, d, s', t', w);
    }
    forall k | k in counts' ensures exists w :: (w in s' || w in t') && Canonical(w) == k {
      KeysMore(counts, keys, s, t, v, d, s', t', k);
    }
  }

  lemma DeltaMore(s: seq<Json>, t: seq<Json>, v: Json, d: int, s': seq<Json>, t': seq<Json>, w: Json)
    requires OneMore(s, t, v, d, s', t')
    ensures Delta(s', t', w) == Delta(s, t, w) + if w == v then d else 0
    ensures w in s' || w in t' <==> w in s || w in t || w == v
    ensures !(w in s || w in t) ==> Delta(s, t, w) == 0
  {}

  /** Every difference of multiplicities is reported once, with its size and sign, and nothing else is. */
  ghost predicate ReportsDeltas(out: seq<Diff>, s: seq<Json>, t: seq<Json>) {
    && (forall v :: Delta(s, t, v) != 0 ==> Report(v, Delta(s, t, v)) in out)
    && (forall e | e in out :: exists v :: Delta(s, t, v) != 0 && e == Report(v, Delta(s, t, v)))
    && (forall i, j | 0 <= i < j < |out| :: out[i] != out[j])
  }

  /** diffMultiset; `parse` is JSON.parse, which reads canonical text back. */
  method DiffMultiset(s: seq<Json>, t: seq<Json>, parse: string -> Json) returns (out: seq<Diff>)
    requires forall v :: parse(Canonical(v)) == v
    ensures ReportsDeltas(out, s, t)
  {
    hide Canonical;
    var counts: map<string, int>, keys := map[], [];
    assert s[..0] == [] && t[..0] == [];
    for i := 0 to |s|
      invariant Counted(counts, keys, s[..i], t[..0])
    {
      counts, keys := Count(counts, keys, s[..i], [], s[i], 1, s[..i + 1], []);
    }
    assert s[..|s|] == s;
    for i := 0 to |t|
      invariant Counted(counts, keys, s, t[..i])
    {
      counts, keys := Count(counts, keys, s, t[..i], t[i], -1, s, t[..i + 1]);
    }
    assert t[..|t|] == t;
    out := ReportCounts(counts, keys, s, t, parse);
  }

  method Count(counts: map<string, int>, keys: seq<string>, ghost s: seq<Json>, ghost t: seq<Json>, v: Json, d: int,
               ghost s': seq<Json>, ghost t': seq<Json>)
    returns (counts': map<string, int>, keys': seq<string>)
    requires Counted(counts, keys, s, t) && OneMore(s, t, v, d, s', t')
    ensures Counted(counts', keys', s', t')
  {
    hide *;
    CountedMore(counts, keys, s, t, v, d, s', t');
    BumpedIs(counts, Canonical(v), d);
    var key := Canonical(v);
    var c := if key in counts then counts[key] else 0;
    keys' := if key in counts then keys else keys + [key];
    counts' := counts[key := c + d];
  }

  /** The reports of the first `n` keys. */
  ghost predicate ReportsKeys(out: seq<Diff>, counts: map<string, int>, keys: seq<string>, n: nat, parse: string -> Json)
    requires n <= |keys| && forall k | k in keys :: k in counts
  {
    && (forall i | 0 <= i < n && counts[keys[i]] != 0 :: Report(parse(keys[i]), counts[keys[i]]) in out)
    && (forall e | e in out :: exists i :: 0 <= i < n && counts[keys[i]] != 0 && e == Report(parse(keys[i]), counts[keys[i]]))
    && (forall i, j | 0 <= i < j < |out| :: out[i] != out[j])
  }

  method ReportCounts(counts: map<string, int>, keys: seq<string>, ghost s: seq<Json>, ghost t: seq<Json>, parse: string -> Json)
    returns (out: seq<Diff>)
    requires Counted(counts, keys, s, t) && forall v :: parse(Canonical(v)) == v
    ensures ReportsDeltas(out, s, t)
  {
    KeysCounted(counts, keys, s, t);
    out := [];
    for n := 0 to |keys|
      invariant ReportsKeys(out, counts, keys, n, parse)
    {
      hide *;
      var key := keys[n];
      var delta := counts[key];
      ReportsOneMore(out, counts, keys, n, parse, s, t);
      ReportIs(parse(key), delta);
      if delta > 0 {
        out := out + [Diff("/", parse(key), Null, Missing(delta))];
      } else if delta < 0 {
        out := out + [Diff("/", Null, parse(key), Extra(-delta))];
      }
    }
    KeysAreDeltas(out, counts, keys, parse, s, t);
  }

  lemma ReportIs(v: Json, delta: int)
    ensures delta > 0 ==> Report(v, delta) == Diff("/", v, Null, Missing(delta))
    ensures delta < 0 ==> Report(v, delta) == Diff("/", Null, v, Extra(-delta))
  {}

  lemma KeyIsValue(counts: map<string, int>, keys: seq<string>, key: string, parse: string -> Json, s: seq<Json>, t: seq<Json>)
    requires Counted(counts, keys, s, t) && (forall v :: parse(Canonical(v)) == v) && key in counts
    ensures Canonical(parse(key)) == key && counts[key] == Delta(s, t, parse(key))
  {
    hide Canonical;
    var v :| (v in s || v in t) && Canonical(v) == key;
  }

  lemma ReportInjective(v: Json, d: int, w: Json, e: int)
    requires d != 0 && e != 0 && Report(v, d) == Report(w, e)
    ensures v == w
  {}

  lemma NotYetReported(out: seq<Diff>, counts: map<string, int>, keys: seq<string>, n: nat, parse: string -> Json,
                       s: seq<Json>, t: seq<Json>)
    requires Counted(counts, keys, s, t) && (forall v :: parse(Canonical(v)) == v) && n < |keys|
    requires ReportsKeys(out, counts, keys, n, parse) && counts[keys[n]] != 0
    ensures Report(parse(keys[n]), counts[keys[n]]) !in out
  {
    hide Canonical, Report;
    var e := Report(parse(keys[n]), counts[keys[n]]);
    KeyIsValue(counts, keys, keys[n], parse, s, t);
    forall j | 0 <= j < |out| ensures out[j] != e {
      assert out[j] in out;
      var i :| 0 <= i < n && counts[keys[i]] != 0 && out[j] == Report(parse(keys[i]), counts[keys[i]]);
      KeyIsValue(counts, keys, keys[i], parse, s, t);
      if out[j] == e { ReportInjective(parse(keys[i]), counts[keys[i]], parse(keys[n]), counts[keys[n]]); }
    }
  }

  lemma ReportPushed(out: seq<Diff>, counts: map<string, int>, keys: seq<string>, n: nat, parse: string -> Json, e: Diff)
    requires n < |keys| && (forall k | k in keys :: k in counts) && ReportsKeys(out, counts, keys, n, parse)
    requires counts[keys[n]] != 0 && e == Report(parse(keys[n]), counts[keys[n]]) && e !in out
    ensures ReportsKeys(out + [e], counts, keys, n + 1, parse)
  {
    hide Report;
  }

  lemma NothingPushed(out: seq<Diff>, counts: map<string, int>, keys: seq<string>, n: nat, parse: string -> Json)
    requires n < |keys| && (forall k | k in keys :: k in counts) && ReportsKeys(out, counts, keys, n, parse)
    requires counts[keys[n]] == 0
    ensures ReportsKeys(out, counts, keys, n + 1, parse)
  {
    hide Report;
  }

  lemma KeysCounted(counts: map<string, int>, keys: seq<string>, s: seq<Json>, t: seq<Json>)
    requires Counted(counts, keys, s, t)
    ensures forall k | k in keys :: k in counts
  {}

  lemma ReportsOneMore(out: seq<Diff>, counts: map<string, int>, keys: seq<string>, n: nat, parse: string -> Json,
                       s: seq<Json>, t: seq<Json>)
    requires Counted(counts, keys, s, t) && (forall v :: parse(Canonical(v)) == v) && n < |keys|
    requires (forall k | k in keys :: k in counts) && ReportsKeys(out, counts, keys, n, parse)
    ensures ReportsKeys(if counts[keys[n]] == 0 then out else out + [Report(parse(keys[n]), counts[keys[n]])],
                        counts, keys, n + 1, parse)
  {
    hide *;
    if counts[keys[n]] != 0 {
      NotYetReported(out, counts, keys, n, parse, s, t);
      ReportPushed(out, counts, keys, n, parse, Report(parse(keys[n]), counts[keys[n]]));
    } else {
      NothingPushed(out, counts, keys, n, parse);
    }
  }

  lemma KeysAreDeltas(out: seq<Diff>, counts: map<string, int>, keys: seq<string>, parse: string -> Json, s: seq<Json>, t: seq<Json>)
    requires Counted(counts, keys, s, t) && (forall v :: parse(Canonical(v)) == v)
    requires ReportsKeys(out, counts, keys, |keys|, parse)
    ensures ReportsDeltas(out, s, t)
  {
    hide Canonical, Report;
    forall v | Delta(s, t, v) != 0 ensures Report(v, Delta(s, t, v)) in out {
      assert v in s || v in t;
      assert Canonical(v) in keys;
      var i :| 0 <= i < |keys| && keys[i] == Canonical(v);
    }
    forall e | e in out ensures exists v :: Delta(s, t, v) != 0 && e == Report(v, Delta(s, t, v)) {
      var i :| 0 <= i < |keys| && counts[keys[i]] != 0 && e == Report(parse(keys[i]), counts[keys[i]]);
      KeyIsValue(counts, keys, keys[i], parse, s, t);
    }
  }

  /** So diffMultiset reports nothing precisely when the multisets are equal. */
  lemma MultisetReportsNothingIff(out: seq<Diff>, s: seq<Json>, t: seq<Json>)
    requires ReportsDeltas(out, s, t)
    ensures out == [] <==> multiset(s) == multiset(t)
  {
    hide Report;
    if out == [] {
      forall v ensures multiset(s)[v] == multiset(t)[v] { assert Delta(s, t, v) == 0; }
      assert multiset(s) == multiset(t);
    }
    if out != [] {
      assert out[0] in out;
      var v :| Delta(s, t, v) != 0 && out[0] == Report(v, Delta(s, t, v));
    }
  }

  // ---------------------------------------------------------------- modes

  datatype Mode = Exact | OrderedSequence | UnorderedMultiset | Subset | Predicate | StateInvariant

  /** stripExtra */
  function Strip(v: Json, extra: set<string>): Json {
    match v
    case Arr(items) => Arr(seq(|items|, i requires 0 <= i < |items| => Strip(items[i], extra)))
    case Obj(fields) => Obj(map k | k in fields && k !in extra :: Strip(fields[k], extra))
    case _ => v
  }

  /** When a mode takes two values for the same. */
  predicate Agree(mode: Mode, extra: set<string>, a: Json, b: Json) {
    match mode
    case UnorderedMultiset => a.Arr? && b.Arr? && multiset(a.items) == multiset(b.items)
    case Subset => Prune(Strip(a, extra)) == Prune(Strip(b, extra))
    case Predicate => a == b
    case _ => Prune(a) == Prune(b)
  }

  /** compare: it reports nothing precisely when the mode takes the values for the same. */
  method Compare(mode: Mode, extra: set<string>, a: Json, b: Json, parse: string -> Json) returns (out: seq<Diff>)
    requires forall v :: parse(Canonical(v)) == v
    ensures out == [] <==> Agree(mode, extra, a, b)
  {
    hide Canonical, Prune, Strip, ExactDiff;
    out := [];
    match mode
    case UnorderedMultiset =>
      if a.Arr? && b.Arr? {
        out := DiffMultiset(a.items, b.items, parse);
        MultisetReportsNothingIff(out, a.items, b.items);
      } else {
        out := [Diff("/", a, b, NeedsArrays)];
      }
    case Subset =>
      out := DiffExact(Strip(a, extra), Strip(b, extra), "", out);
      ExactReportsNothingIff(Strip(a, extra), Strip(b, extra), "");
    case Predicate =>
      EqualsIsEquality(a, b);
      if !JsonEquals(a, b) {
        out := [Diff("/", a, b, Unsatisfied)];
      }
    case _ =>
      out := DiffExact(a, b, "", out);
      ExactReportsNothingIff(a, b, "");
  }

  // ---------------------------------------------------------------- what an entry says

  /** One step into a value: to a field, or to an item. */
  datatype Step = Key(key: string) | Index(index: nat)

  function StepText(s: Step): string {
    match s
    case Key(k) => "/" + k
    case Index(i) => "/" + Digits(i)
  }

  function PathText(steps: seq<Step>): string {
    if steps == [] then "" else PathText(steps[..|steps| - 1]) + StepText(steps[|steps| - 1])
  }

  /** What stands at the end of some steps; null where they lead nowhere. */
  function Reached(v: Json, steps: seq<Step>): Json {
    if steps == [] then v
    else
      var at := Reached(v, steps[..|steps| - 1]);
      match steps[|steps| - 1]
      case Key(k) => if at.Obj? && k in at.fields then at.fields[k] else Null
      case Index(i) => if at.Arr? && i < |at.items| then at.items[i] else Null
  }

  /** The entry names a place and the two values that stand there, and they differ. */
  ghost predicate Tells(d: Diff, v: Json, w: Json) {
    exists steps: seq<Step> :: TellsAt(d, v, w, steps)
  }

  predicate TellsAt(d: Diff, v: Json, w: Json, steps: seq<Step>) {
    && d.path == (if steps == [] then "/" else PathText(steps))
    && d.expected == Reached(v, steps) && d.actual == Reached(w, steps) && d.expected != d.actual && d.note == Mismatch
  }

  lemma OneStepOn(v: Json, steps: seq<Step>, s: Step)
    ensures PathText(steps + [s]) == PathText(steps) + StepText(s)
    ensures Reached(v, steps + [s])
         == match s
            case Key(k) => (if Reached(v, steps).Obj? && k in Reached(v, steps).fields then Reached(v, steps).fields[k] else Null)
            case Index(i) => (if Reached(v, steps).Arr? && i < |Reached(v, steps).items| then Reached(v, steps).items[i] else Null)
  {
    assert (steps + [s])[..|steps|] == steps;
  }

  lemma PathGoesOn(steps: seq<Step>, k: string, i: nat)
    ensures PathText(steps + [Key(k)]) == PathText(steps) + "/" + k
    ensures PathText(steps + [Index(i)]) == PathText(steps) + "/" + Digits(i)
  {
    OneStepOn(Null, steps, Key(k));
    OneStepOn(Null, steps, Index(i));
    hide PathText, Digits;
  }

  lemma {:induction false} PathIsEmptyIff(steps: seq<Step>)
    ensures PathText(steps) == "" <==> steps == []
  {}

  lemma LeafTells(v: Json, w: Json, steps: seq<Step>, d: Diff)
    requires d in LeafDiff(Reached(v, steps), Reached(w, steps), PathText(steps))
    ensures Tells(d, v, w)
  {
    EqualsIsEquality(Reached(v, steps), Reached(w, steps));
    PathIsEmptyIff(steps);
    hide Reached, PathText, JsonEquals;
    assert TellsAt(d, v, w, steps);
  }

  /** Every entry that is pushed names a place where the two values differ, with what stands there on each side. */
  lemma {:induction false} EntriesTell(v: Json, w: Json, steps: seq<Step>, d: Diff)
    requires d in ExactDiff(Reached(v, steps), Reached(w, steps), PathText(steps))
    ensures Tells(d, v, w)
    decreases Reached(v, steps), 2
  {
    var a, b := Reached(v, steps), Reached(w, steps);
    hide Reached, PathText, JsonEquals, SortedKeys, LeafDiff, FieldsDiff, ItemsDiff, Tells;
    if a.Obj? && b.Obj? {
      FieldEntriesTell(SortedKeys(a.fields.Keys + b.fields.Keys), v, w, steps, d);
    } else if a.Arr? && b.Arr? {
      ItemEntriesTell(Longest(a.items, b.items), v, w, steps, d);
    } else {
      LeafTells(v, w, steps, d);
    }
  }

  lemma {:induction false} FieldEntriesTell(ks: seq<string>, v: Json, w: Json, steps: seq<Step>, d: Diff)
    requires Reached(v, steps).Obj? && Reached(w, steps).Obj?
    requires d in FieldsDiff(ks, Reached(v, steps), Reached(w, steps), PathText(steps))
    ensures Tells(d, v, w)
    decreases Reached(v, steps), 1, |ks|
  {
    hide Reached, PathText, ExactDiff, LeafDiff, Tells;
    var a, b := Reached(v, steps), Reached(w, steps);
    var k := ks[|ks| - 1];
    var on := steps + [Key(k)];
    OneStepOn(v, steps, Key(k));
    OneStepOn(w, steps, Key(k));
    PathGoesOn(steps, k, 0);
    if d in FieldsDiff(ks[..|ks| - 1], a, b, PathText(steps)) {
      FieldEntriesTell(ks[..|ks| - 1], v, w, steps, d);
    } else if k in a.fields && k in b.fields {
      EntriesTell(v, w, on, d);
    } else {
      LeafTells(v, w, on, d);
    }
  }

  lemma {:induction false} ItemEntriesTell(n: nat, v: Json, w: Json, steps: seq<Step>, d: Diff)
    requires Reached(v, steps).Arr? && Reached(w, steps).Arr?
    requires d in ItemsDiff(n, Reached(v, steps), Reached(w, steps), PathText(steps))
    ensures Tells(d, v, w)
    decreases Reached(v, steps), 1, n
  {
    hide Reached, PathText, ExactDiff, LeafDiff, Digits, Tells;
    var a, b := Reached(v, steps), Reached(w, steps);
    var on := steps + [Index(n - 1)];
    OneStepOn(v, steps, Index(n - 1));
    OneStepOn(w, steps, Index(n - 1));
    PathGoesOn(steps, "", n - 1);
    if d in ItemsDiff(n - 1, a, b, PathText(steps)) {
      ItemEntriesTell(n - 1, v, w, steps, d);
    } else if n <= |a.items| && n <= |b.items| {
      EntriesTell(v, w, on, d);
    } else {
      LeafTells(v, w, on, d);
    }
  }

  lemma EveryEntryTells(v: Json, w: Json, d: Diff)
    requires d in ExactDiff(v, w, "")
    ensures Tells(d, v, w)
  {
    assert Reached(v, []) == v && Reached(w, []) == w && PathText([]) == "";
    EntriesTell(v, w, [], d);
  }
}
