/**
 * The UUID normaliser of the conformance harness: a walk that numbers UUIDs in order of first
 * appearance, proved to be a canonical form for values up to renaming of UUIDs.
 */
module UuidNormalization {
  import opened Text
  import opened CanonicalJson

  // ---------------------------------------------------------------- UUIDs and placeholders

  predicate IsHex(c: char) {
    '0' <= c <= '9' || 'a' <= c <= 'f' || 'A' <= c <= 'F'
  }

  /** Eight, four, four, four and twelve hexadecimal digits, with a version and a variant. */
  predicate IsUuid(s: string) {
    && |s| == 36
    && (forall i | 0 <= i < 36 :: if i == 8 || i == 13 || i == 18 || i == 23 then s[i] == '-' else IsHex(s[i]))
    && '1' <= s[14] <= '8'
    && s[19] in "89abAB"
  }

  predicate HexGroup(s: string, digits: nat) {
    |s| == digits && forall c | c in s :: c in "0123456789abcdefABCDEF"
  }

  /** Five groups of digits between hyphens; the third begins with the version, the fourth with the variant. */
  predicate Grouped(s: string, a: string, b: string, c: string, d: string, e: string) {
    && s == a + "-" + b + "-" + c + "-" + d + "-" + e
    && HexGroup(a, 8) && HexGroup(b, 4) && HexGroup(c, 4) && HexGroup(d, 4) && HexGroup(e, 12)
    && c[0] in "12345678" && d[0] in "89abAB"
  }

  lemma HexIff(c: char)
    ensures IsHex(c) <==> c in "0123456789abcdefABCDEF"
  {}

  lemma HexGroupIff(s: string, digits: nat)
    requires |s| == digits
    ensures HexGroup(s, digits) <==> forall i | 0 <= i < digits :: IsHex(s[i])
  {
    forall c: char ensures IsHex(c) <==> c in "0123456789abcdefABCDEF" { HexIff(c); }
    hide IsHex;
  }

  /** A UUID is what can be taken apart in this way. */
  lemma UuidShape(s: string)
    ensures IsUuid(s) <==> exists a, b, c, d, e :: Grouped(s, a, b, c, d, e)
  {
    if |s| == 36 {
      var a, b, c, d, e := s[..8], s[9..13], s[14..18], s[19..23], s[24..];
      HexGroupIff(a, 8); HexGroupIff(b, 4); HexGroupIff(c, 4); HexGroupIff(d, 4); HexGroupIff(e, 12);
      if IsUuid(s) {
        assert s == a + "-" + b + "-" + c + "-" + d + "-" + e;
        assert Grouped(s, a, b, c, d, e);
      }
    }
    if a, b, c, d, e :| Grouped(s, a, b, c, d, e) {
      HexGroupIff(a, 8); HexGroupIff(b, 4); HexGroupIff(c, 4); HexGroupIff(d, 4); HexGroupIff(e, 12);
      GroupsAreUuid(s, a, b, c, d, e);
    }
  }

  lemma GroupsAreUuid(s: string, a: string, b: string, c: string, d: string, e: string)
    requires s == a + "-" + b + "-" + c + "-" + d + "-" + e
    requires |a| == 8 && |b| == 4 && |c| == 4 && |d| == 4 && |e| == 12
    requires forall i | 0 <= i < 8 :: IsHex(a[i])
    requires forall i | 0 <= i < 4 :: IsHex(b[i]) && IsHex(c[i]) && IsHex(d[i])
    requires forall i | 0 <= i < 12 :: IsHex(e[i])
    requires c[0] in "12345678" && d[0] in "89abAB"
    ensures IsUuid(s)
  {
    hide IsHex;
    assert s[14] == c[0] && s[19] == d[0];
    forall i | 0 <= i < 36 ensures if i == 8 || i == 13 || i == 18 || i == 23 then s[i] == '-' else IsHex(s[i]) {
      if i < 8 { assert s[i] == a[i]; }
      else if 8 < i < 13 { assert s[i] == b[i - 9]; }
      else if 13 < i < 18 { assert s[i] == c[i - 14]; }
      else if 18 < i < 23 { assert s[i] == d[i - 19]; }
      else if 23 < i { assert s[i] == e[i - 24]; }
    }
  }

  function Placeholder(n: nat): string {
    "<uuid:" + Digits(n) + ">"
  }

  lemma PlaceholderInjective(m: nat, n: nat)
    requires Placeholder(m) == Placeholder(n)
    ensures m == n
  {
    assert Placeholder(m)[6..|Placeholder(m)| - 1] == Digits(m);
    assert Placeholder(n)[6..|Placeholder(n)| - 1] == Digits(n);
    DigitsInjective(m, n);
  }

  // ---------------------------------------------------------------- the walk on values

  /** The place of a UUID among those seen, counted from one; the next place if it is new. */
  function Place(order: seq<string>, u: string): (n: nat)
    ensures 1 <= n <= |order| + 1
    ensures n <= |order| ==> order[n - 1] == u
    ensures n == |order| + 1 <==> u !in order
  {
    if order == [] then 1
    else if order[0] == u then 1
    else 1 + Place(order[1..], u)
  }

  function Seen(order: seq<string>, u: string): seq<string> {
    if u in order then order else order + [u]
  }

  /** The normal form of a value and the UUIDs seen after it, in order of first appearance. */
  function Normal(v: Json, order: seq<string>): (Json, seq<string>)
    decreases v, 2
  {
    match v
    case Str(s) =>
      if IsUuid(s) then (Str(Placeholder(Place(order, Lower(s)))), Seen(order, Lower(s))) else (v, order)
    case Arr(items) =>
      var (rs, after) := NormalItems(items, order);
      (Arr(rs), after)
    case Obj(fields) =>
      var (rs, after) := NormalFields(SortedKeys(fields.Keys), v, order);
      (Obj(rs), after)
    case _ => (v, order)
  }

  function NormalItems(items: seq<Json>, order: seq<string>): (r: (seq<Json>, seq<string>))
    ensures |r.0| == |items|
    decreases items, 0
  {
    if items == [] then ([], order)
    else
      var last := |items| - 1;
      var (rs, mid) := NormalItems(items[..last], order);
      var (r, after) := Normal(items[last], mid);
      (rs + [r], after)
  }

  function NormalFields(ks: seq<string>, v: Json, order: seq<string>): (map<string, Json>, seq<string>)
    requires v.Obj? && forall k | k in ks :: k in v.fields
    decreases v, 1, |ks|
  {
    if ks == [] then (map[], order)
    else
      var k := ks[|ks| - 1];
      var (rs, mid) := NormalFields(ks[..|ks| - 1], v, order);
      var (r, after) := Normal(v.fields[k], mid);
      (rs[k := r], after)
  }

  // ---------------------------------------------------------------- renaming

  predicate NoDup(order: seq<string>) {
    forall i, j | 0 <= i < j < |order| :: order[i] != order[j]
  }

  predicate Injective(r: map<string, string>) {
    forall u, w | u in r && w in r && r[u] == r[w] :: u == w
  }

  /** The second value is the first with its UUIDs renamed, letter case aside, and nothing else changed. */
  predicate Renames(r: map<string, string>, a: Json, b: Json)
    decreases a
  {
    match a
    case Str(s) =>
      if IsUuid(s) then b.Str? && IsUuid(b.s) && Lower(s) in r && r[Lower(s)] == Lower(b.s) else b == a
    case Arr(items) => b.Arr? && |b.items| == |items| && forall i | 0 <= i < |items| :: Renames(r, items[i], b.items[i])
    case Obj(fields) =>
      b.Obj? && b.fields.Keys == fields.Keys && forall k | k in fields :: Renames(r, fields[k], b.fields[k])
    case _ => b == a
  }

  /** No string looks like a placeholder. */
  ghost predicate Clean(v: Json) {
    match v
    case Str(s) => forall n: nat :: s != Placeholder(n)
    case Arr(items) => forall i | 0 <= i < |items| :: Clean(items[i])
    case Obj(fields) => forall k | k in fields :: Clean(fields[k])
    case _ => true
  }

  // ---------------------------------------------------------------- renamed values have one normal form

  /** What has been seen on one side is the renaming of what has been seen on the other. */
  predicate Carried(r: map<string, string>, p: seq<string>, q: seq<string>) {
    |p| == |q| && forall i | 0 <= i < |p| :: p[i] in r && r[p[i]] == q[i]
  }

  lemma PlaceUnique(order: seq<string>, i: nat)
    requires NoDup(order) && i < |order|
    ensures Place(order, order[i]) == i + 1
  {}

  lemma SeenDistinct(order: seq<string>, u: string)
    requires NoDup(order)
    ensures NoDup(Seen(order, u))
  {}

  lemma LeafCarried(r: map<string, string>, u: string, p: seq<string>, q: seq<string>)
    requires Injective(r) && NoDup(p) && Carried(r, p, q) && u in r
    ensures Place(p, u) == Place(q, r[u])
    ensures NoDup(Seen(p, u)) && Carried(r, Seen(p, u), Seen(q, r[u]))
  {
    assert NoDup(q) by {
      forall i, j | 0 <= i < j < |q| ensures q[i] != q[j] { assert p[i] != p[j]; }
    }
    if u in p {
      var i :| 0 <= i < |p| && p[i] == u;
      PlaceUnique(p, i);
      PlaceUnique(q, i);
    } else {
      assert forall i | 0 <= i < |q| :: q[i] == r[u] ==> p[i] == u;
    }
  }

  lemma {:induction false} RenamedSameNormal(r: map<string, string>, a: Json, b: Json, p: seq<string>, q: seq<string>)
    requires Injective(r) && NoDup(p) && Carried(r, p, q) && Renames(r, a, b)
    ensures Normal(a, p).0 == Normal(b, q).0
    ensures NoDup(Normal(a, p).1) && Carried(r, Normal(a, p).1, Normal(b, q).1)
    decreases a, 2
  {
    hide Injective, NoDup, Carried, IsUuid, Lower, Placeholder;
    match a
    case Str(s) =>
      if IsUuid(s) { LeafCarried(r, Lower(s), p, q); }
    case Arr(items) => RenamedItems(r, items, b.items, p, q);
    case Obj(fields) => RenamedFields(r, SortedKeys(fields.Keys), a, b, p, q);
    case _ =>
  }

  lemma {:induction false} RenamedItems(r: map<string, string>, s: seq<Json>, t: seq<Json>, p: seq<string>, q: seq<string>)
    requires Injective(r) && NoDup(p) && Carried(r, p, q)
    requires |s| == |t| && forall i | 0 <= i < |s| :: Renames(r, s[i], t[i])
    ensures NormalItems(s, p).0 == NormalItems(t, q).0
    ensures NoDup(NormalItems(s, p).1) && Carried(r, NormalItems(s, p).1, NormalItems(t, q).1)
    decreases s, 0
  {
    hide Injective, NoDup, Carried, Normal, Renames;
    if s != [] {
      var last := |s| - 1;
      RenamedItems(r, s[..last], t[..last], p, q);
      RenamedSameNormal(r, s[last], t[last], NormalItems(s[..last], p).1, NormalItems(t[..last], q).1);
    }
  }

  lemma {:induction false} RenamedFields(r: map<string, string>, ks: seq<string>, a: Json, b: Json, p: seq<string>, q: seq<string>)
    requires Injective(r) && NoDup(p) && Carried(r, p, q)
    requires a.Obj? && b.Obj? && a.fields.Keys == b.fields.Keys && forall k | k in ks :: k in a.fields
    requires forall k | k in a.fields :: Renames(r, a.fields[k], b.fields[k])
    ensures NormalFields(ks, a, p).0 == NormalFields(ks, b, q).0
    ensures NoDup(NormalFields(ks, a, p).1) && Carried(r, NormalFields(ks, a, p).1, NormalFields(ks, b, q).1)
    decreases a, 1, |ks|
  {
    hide Injective, NoDup, Carried, Normal, Renames;
    if ks != [] {
      var last := |ks| - 1;
      var k := ks[last];
      RenamedFields(r, ks[..last], a, b, p, q);
      RenamedSameNormal(r, a.fields[k], b.fields[k], NormalFields(ks[..last], a, p).1, NormalFields(ks[..last], b, q).1);
    }
  }

  // ---------------------------------------------------------------- one normal form, renamed values

  /** The renaming that sends what was seen on one side to what was seen on the other. */
  function Zip(p: seq<string>, q: seq<string>): map<string, string>
    requires |p| == |q|
  {
    map u | u in p :: q[Place(p, u) - 1]
  }

  /** Both sides have seen as many distinct UUIDs. */
  predicate Paired(p: seq<string>, q: seq<string>) {
    |p| == |q| && NoDup(p) && NoDup(q)
  }

  /** Both sides have gone on from there. */
  predicate Extends(p: seq<string>, q: seq<string>, p': seq<string>, q': seq<string>) {
    Paired(p', q') && p <= p' && q <= q'
  }

  lemma ZipAt(p: seq<string>, q: seq<string>, i: nat)
    requires Paired(p, q) && i < |p|
    ensures p[i] in Zip(p, q) && Zip(p, q)[p[i]] == q[i]
  {
    PlaceUnique(p, i);
  }

  lemma ZipInjective(p: seq<string>, q: seq<string>)
    requires Paired(p, q)
    ensures Injective(Zip(p, q))
  {
    var r := Zip(p, q);
    forall u, w | u in r && w in r && r[u] == r[w] ensures u == w {
      assert q[Place(p, u) - 1] == q[Place(p, w) - 1];
    }
  }

  lemma ZipGrows(p: seq<string>, q: seq<string>, p': seq<string>, q': seq<string>)
    requires Paired(p, q) && Extends(p, q, p', q')
    ensures forall u | u in Zip(p, q) :: u in Zip(p', q') && Zip(p', q')[u] == Zip(p, q)[u]
  {
    forall u | u in Zip(p, q) ensures u in Zip(p', q') && Zip(p', q')[u] == Zip(p, q)[u] {
      var i := Place(p, u) - 1;
      assert p'[i] == u && q'[i] == q[i];
      ZipAt(p', q', i);
    }
  }

  lemma {:induction false} RenamesGrows(r: map<string, string>, r': map<string, string>, a: Json, b: Json)
    requires Renames(r, a, b) && forall u | u in r :: u in r' && r'[u] == r[u]
    ensures Renames(r', a, b)
    decreases a
  {
    hide IsUuid, Lower;
    match a
    case Arr(items) =>
      forall i | 0 <= i < |items| ensures Renames(r', items[i], b.items[i]) { RenamesGrows(r, r', items[i], b.items[i]); }
    case Obj(fields) =>
      forall k | k in fields ensures Renames(r', fields[k], b.fields[k]) { RenamesGrows(r, r', fields[k], b.fields[k]); }
    case _ =>
  }

  lemma RenamesLater(p: seq<string>, q: seq<string>, p': seq<string>, q': seq<string>, a: Json, b: Json)
    requires Paired(p, q) && Extends(p, q, p', q') && Renames(Zip(p, q), a, b)
    ensures Renames(Zip(p', q'), a, b)
  {
    ZipGrows(p, q, p', q');
    RenamesGrows(Zip(p, q), Zip(p', q'), a, b);
  }

  lemma LeafOld(u: string, w: string, p: seq<string>, q: seq<string>)
    requires Paired(p, q) && Place(p, u) == Place(q, w) && u in p
    ensures Extends(p, q, Seen(p, u), Seen(q, w))
    ensures u in Zip(Seen(p, u), Seen(q, w)) && Zip(Seen(p, u), Seen(q, w))[u] == w
  {
    var i := Place(p, u) - 1;
    assert |p| == |q| && p[i] == u && q[i] == w;
    assert Seen(p, u) == p && Seen(q, w) == q;
    hide Place, Zip, NoDup, Seen;
    ZipAt(p, q, i);
  }

  lemma LeafNew(u: string, w: string, p: seq<string>, q: seq<string>)
    requires Paired(p, q) && Place(p, u) == Place(q, w) && u !in p
    ensures Extends(p, q, Seen(p, u), Seen(q, w))
    ensures u in Zip(Seen(p, u), Seen(q, w)) && Zip(Seen(p, u), Seen(q, w))[u] == w
  {
    SeenDistinct(p, u);
    SeenDistinct(q, w);
    hide NoDup, Zip;
    assert Seen(p, u)[|p|] == u && Seen(q, w)[|p|] == w;
    ZipAt(Seen(p, u), Seen(q, w), |p|);
  }

  lemma LeafPaired(u: string, w: string, p: seq<string>, q: seq<string>)
    requires Paired(p, q) && Place(p, u) == Place(q, w)
    ensures Extends(p, q, Seen(p, u), Seen(q, w))
    ensures u in Zip(Seen(p, u), Seen(q, w)) && Zip(Seen(p, u), Seen(q, w))[u] == w
  {
    hide *;
    if u in p { LeafOld(u, w, p, q); } else { LeafNew(u, w, p, q); }
  }

  lemma SameLeaf(s: string, b: Json, p: seq<string>, q: seq<string>)
    requires Paired(p, q) && Clean(Str(s)) && Clean(b) && Normal(Str(s), p).0 == Normal(b, q).0
    ensures Extends(p, q, Normal(Str(s), p).1, Normal(b, q).1)
    ensures Renames(Zip(Normal(Str(s), p).1, Normal(b, q).1), Str(s), b)
  {
    hide IsUuid, Lower, Zip;
    assert b.Str?;
    if IsUuid(s) && IsUuid(b.s) {
      PlaceholderInjective(Place(p, Lower(s)), Place(q, Lower(b.s)));
      LeafPaired(Lower(s), Lower(b.s), p, q);
    }
  }

  lemma {:induction false} SameNormalRenamed(a: Json, b: Json, p: seq<string>, q: seq<string>)
    requires Paired(p, q) && Clean(a) && Clean(b) && Normal(a, p).0 == Normal(b, q).0
    ensures Extends(p, q, Normal(a, p).1, Normal(b, q).1)
    ensures Renames(Zip(Normal(a, p).1, Normal(b, q).1), a, b)
    decreases a, 3
  {
    hide Paired, IsUuid, Lower, Placeholder, Zip, NormalFields, SortedKeys;
    match a
    case Str(s) => SameLeaf(s, b, p, q);
    case Arr(items) =>
      assert b.Arr?;
      SameItems(items, b.items, p, q);
    case Obj(fields) =>
      assert b.Obj?;
      SameObject(a, b, p, q);
    case _ => NoneSeen(p, q);
  }

  lemma NoneSeen(p: seq<string>, q: seq<string>)
    requires Paired(p, q)
    ensures Extends(p, q, p, q)
  {}

  lemma {:induction false} SameObject(a: Json, b: Json, p: seq<string>, q: seq<string>)
    requires Paired(p, q) && a.Obj? && b.Obj? && Clean(a) && Clean(b) && Normal(a, p).0 == Normal(b, q).0
    ensures Extends(p, q, Normal(a, p).1, Normal(b, q).1)
    ensures Renames(Zip(Normal(a, p).1, Normal(b, q).1), a, b)
    decreases a, 2
  {
    hide Paired, IsUuid, Lower, Placeholder, Zip, Clean, NormalFields, SortedKeys;
    var ks, ls := SortedKeys(a.fields.Keys), SortedKeys(b.fields.Keys);
    NormalKeys(ks, a, p);
    NormalKeys(ls, b, q);
    assert a.fields.Keys == set k | k in ks;
    assert b.fields.Keys == set k | k in ls;
    SameFields(ks, a, b, p, q);
  }

  lemma {:induction false} NormalKeys(ks: seq<string>, v: Json, order: seq<string>)
    requires v.Obj? && forall k | k in ks :: k in v.fields
    ensures NormalFields(ks, v, order).0.Keys == set k | k in ks
    decreases |ks|
  {
    hide Normal;
    if ks != [] {
      NormalKeys(ks[..|ks| - 1], v, order);
      assert ks == ks[..|ks| - 1] + [ks[|ks| - 1]];
    }
  }

  lemma {:induction false} SameItems(s: seq<Json>, t: seq<Json>, p: seq<string>, q: seq<string>)
    requires Paired(p, q) && (forall i | 0 <= i < |s| :: Clean(s[i])) && forall i | 0 <= i < |t| :: Clean(t[i])
    requires NormalItems(s, p).0 == NormalItems(t, q).0
    ensures |s| == |t| && Extends(p, q, NormalItems(s, p).1, NormalItems(t, q).1)
    ensures forall i | 0 <= i < |s| :: Renames(Zip(NormalItems(s, p).1, NormalItems(t, q).1), s[i], t[i])
    decreases s, 0
  {
    hide Normal, NoDup, Zip, Clean, Renames;
    if s != [] {
      var last := |s| - 1;
      var mp, mq := NormalItems(s[..last], p).1, NormalItems(t[..last], q).1;
      assert NormalItems(s[..last], p).0 == NormalItems(s, p).0[..last];
      assert NormalItems(t[..last], q).0 == NormalItems(t, q).0[..last];
      SameItems(s[..last], t[..last], p, q);
      assert Normal(s[last], mp).0 == NormalItems(s, p).0[last];
      SameNormalRenamed(s[last], t[last], mp, mq);
      forall i | 0 <= i < last ensures Renames(Zip(NormalItems(s, p).1, NormalItems(t, q).1), s[i], t[i]) {
        assert s[i] == s[..last][i] && t[i] == t[..last][i];
        RenamesLater(mp, mq, NormalItems(s, p).1, NormalItems(t, q).1, s[i], t[i]);
      }
    }
  }

  lemma {:induction false} SameFields(ks: seq<string>, a: Json, b: Json, p: seq<string>, q: seq<string>)
    requires Paired(p, q) && a.Obj? && b.Obj? && a.fields.Keys == b.fields.Keys && Clean(a) && Clean(b)
    requires (forall k | k in ks :: k in a.fields) && NoDup(ks)
    requires NormalFields(ks, a, p).0 == NormalFields(ks, b, q).0
    ensures Extends(p, q, NormalFields(ks, a, p).1, NormalFields(ks, b, q).1)
    ensures forall k | k in ks :: Renames(Zip(NormalFields(ks, a, p).1, NormalFields(ks, b, q).1), a.fields[k], b.fields[k])
    decreases a, 1, |ks|
  {
    hide Normal, Zip, Renames;
    if ks != [] {
      var last := |ks| - 1;
      var k, init := ks[last], ks[..last];
      var mp, mq := NormalFields(init, a, p).1, NormalFields(init, b, q).1;
      NormalKeys(init, a, p);
      NormalKeys(init, b, q);
      assert k !in init;
      SplitUpdate(NormalFields(init, a, p).0, NormalFields(init, b, q).0, k, Normal(a.fields[k], mp).0, Normal(b.fields[k], mq).0);
      SameFields(init, a, b, p, q);
      SameNormalRenamed(a.fields[k], b.fields[k], mp, mq);
      forall j | j in ks && j != k
        ensures Renames(Zip(NormalFields(ks, a, p).1, NormalFields(ks, b, q).1), a.fields[j], b.fields[j])
      {
        assert j in init;
        RenamesLater(mp, mq, NormalFields(ks, a, p).1, NormalFields(ks, b, q).1, a.fields[j], b.fields[j]);
      }
    }
  }

  lemma SplitUpdate<V>(m: map<string, V>, n: map<string, V>, k: string, v: V, w: V)
    requires k !in m && k !in n && m[k := v] == n[k := w]
    ensures v == w && m == n
  {
    assert m[k := v][k] == n[k := w][k];
    forall j | j in m ensures j in n && m[j] == n[j] { assert m[k := v][j] == n[k := w][j]; }
    forall j | j in n ensures j in m { assert j in m[k := v]; }
  }

  /**
   * The normal form decides equality up to renaming: with fresh contexts, two values without
   * placeholder-looking strings normalise alike exactly when an injective renaming of UUIDs,
   * blind to letter case, carries one to the other.
   */
  lemma NormalDecidesRenaming(a: Json, b: Json)
    requires Clean(a) && Clean(b)
    ensures Normal(a, []).0 == Normal(b, []).0 <==> exists r :: Injective(r) && Renames(r, a, b)
  {
    hide Clean, Normal, Renames, Injective;
    if r :| Injective(r) && Renames(r, a, b) {
      RenamedSameNormal(r, a, b, [], []);
    }
    if Normal(a, []).0 == Normal(b, []).0 {
      SameNormalRenamed(a, b, [], []);
      var p, q := Normal(a, []).1, Normal(b, []).1;
      ZipInjective(p, q);
      assert Injective(Zip(p, q)) && Renames(Zip(p, q), a, b);
    }
  }

  /** Without that proviso it does not: a placeholder written out collides with a UUID. */
  lemma PlaceholderCollides(u: string, r: map<string, string>)
    requires IsUuid(u)
    ensures Normal(Str(u), []).0 == Normal(Str(Placeholder(1)), []).0
    ensures !Renames(r, Str(u), Str(Placeholder(1)))
  {
    assert Digits(1) == ['1'];
    assert |Placeholder(1)| == 8;
  }

  // ---------------------------------------------------------------- the walk in place

  lemma {:induction false} SizeOf(order: seq<string>)
    requires NoDup(order)
    ensures |set u | u in order| == |order|
    decreases |order|
  {
    if order != [] {
      var init, u := order[..|order| - 1], order[|order| - 1];
      SizeOf(init);
      assert order == init + [u];
      assert (set w | w in order) == (set w | w in init) + {u};
    }
  }

  /** A normalisation context: placeholders by lower-cased UUID. */
  class NormalizeContext {
    var uuids: map<string, string>
    ghost var order: seq<string>

    ghost predicate Valid()
      reads this
    {
      && NoDup(order)
      && uuids.Keys == (set u | u in order)
      && forall u | u in order :: uuids[u] == Placeholder(Place(order, u))
    }

    constructor ()
      ensures Valid() && order == []
    {
      uuids, order := map[], [];
    }

    /** bijection */
    method Bijection(raw: string) returns (placeholder: string)
      requires Valid()
      modifies this
      ensures Valid() && order == Seen(old(order), raw)
      ensures placeholder == Placeholder(Place(old(order), raw))
    {
      if raw in uuids {
        return uuids[raw];
      }
      SizeOf(order);
      assert |uuids| == |uuids.Keys|;
      placeholder := Placeholder(|uuids| + 1);
      SeenDistinct(order, raw);
      SeenPlaces(order, raw);
      uuids := uuids[raw := placeholder];
      order := order + [raw];
    }

    /** walk, with the UUID normaliser declared */
    method Walk(value: Json) returns (out: Json)
      requires Valid()
      modifies this
      ensures Valid() && (out, order) == Normal(value, old(order))
      decreases value, 1
    {
      match value
      case Str(s) =>
        if IsUuid(s) {
          var placeholder := Bijection(Lower(s));
          out := Str(placeholder);
        } else {
          out := value;
        }
      case Arr(items) =>
        var walked := [];
        for i := 0 to |items|
          invariant Valid() && (walked, order) == NormalItems(items[..i], old(order))
        {
          var item := Walk(items[i]);
          walked := walked + [item];
          assert items[..i + 1][..i] == items[..i];
        }
        assert items[..|items|] == items;
        out := Arr(walked);
      case Obj(fields) => out := WalkObject(value);
      case _ => out := value;
    }

    /** recurseObject: the fields in the order of their sorted keys */
    method WalkObject(value: Json) returns (out: Json)
      requires Valid() && value.Obj?
      modifies this
      ensures Valid() && (out, order) == Normal(value, old(order))
      decreases value, 0
    {
      var ks := SortedKeys(value.fields.Keys);
      var walked := map[];
      hide SortedKeys, Normal;
      for i := 0 to |ks|
        invariant Valid() && (walked, order) == NormalFields(ks[..i], value, old(order))
      {
        NextField(ks, value, old(order), i);
        var field := Walk(value.fields[ks[i]]);
        walked := walked[ks[i] := field];
      }
      ObjectNormal(value, old(order));
      assert ks[..|ks|] == ks;
      out := Obj(walked);
    }
  }

  lemma NextField(ks: seq<string>, v: Json, order: seq<string>, i: nat)
    requires v.Obj? && i < |ks| && forall k | k in ks :: k in v.fields
    ensures ks[i] in v.fields
    ensures var (rs, mid) := NormalFields(ks[..i], v, order);
            var (r, after) := Normal(v.fields[ks[i]], mid);
            NormalFields(ks[..i + 1], v, order) == (rs[ks[i] := r], after)
  {
    assert ks[..i + 1][..i] == ks[..i];
    hide Normal;
  }

  lemma ObjectNormal(v: Json, order: seq<string>)
    requires v.Obj?
    ensures var (rs, after) := NormalFields(SortedKeys(v.fields.Keys), v, order);
            Normal(v, order) == (Obj(rs), after)
  {
    hide SortedKeys, NormalFields;
  }

  lemma SeenPlaces(order: seq<string>, u: string)
    requires NoDup(order) && u !in order
    ensures forall w | w in order :: Place(order + [u], w) == Place(order, w)
    ensures Place(order + [u], u) == |order| + 1
  {
    SeenDistinct(order, u);
    forall w | w in order ensures Place(order + [u], w) == Place(order, w) {
      var i :| 0 <= i < |order| && order[i] == w;
      PlaceUnique(order, i);
      assert (order + [u])[i] == w;
      PlaceUnique(order + [u], i);
    }
    assert (order + [u])[|order|] == u;
    PlaceUnique(order + [u], |order|);
  }
}
