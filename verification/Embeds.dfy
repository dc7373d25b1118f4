/**
 * The batched join of embedded rows: one query for all parents, children grouped by the text of
 * their foreign key, and each parent served from its group.
 */
module Embeds {
  import opened Text

  /** A child row as the query returns it, and as the projection shows it. */
  datatype Child<V, R> = Child(foreignKey: V, shown: R)

  datatype Cell<R> = Scalar(text: string) | One(row: Option<R>) | Many(rows: seq<R>)

  /** String(normalizeScalar(key)); a missing key is null. */
  function KeyText<V>(key: Option<V>, text: V -> string): string {
    match key
    case None => "null"
    case Some(v) => text(v)
  }

  /** What a parent is given: all matches, or the first one. */
  function Shape<R>(rows: seq<R>, manyToOne: bool): Cell<R> {
    if manyToOne then One(if rows == [] then None else Some(rows[0])) else Many(rows)
  }

  /** The nested loop: the visible children of one key, in query order. */
  function Matching<V(==), R>(table: seq<Child<V, R>>, visible: Child<V, R> -> bool, v: V): seq<R> {
    if table == [] then []
    else
      var last := |table| - 1;
      var rest := Matching(table[..last], visible, v);
      if table[last].foreignKey == v && visible(table[last]) then rest + [table[last].shown] else rest
  }

  /** SELECT .. WHERE foreign key IN keys AND policy, in query order. */
  function Select<V(==), R>(table: seq<Child<V, R>>, visible: Child<V, R> -> bool, keys: set<V>): (r: seq<Child<V, R>>)
    ensures forall c | c in r :: c.foreignKey in keys
  {
    if table == [] then []
    else
      var last := |table| - 1;
      var rest := Select(table[..last], visible, keys);
      if table[last].foreignKey in keys && visible(table[last]) then rest + [table[last]] else rest
  }

  /** The rows of fetched children whose key has a text. */
  function WithText<V, R>(rows: seq<Child<V, R>>, t: string, text: V -> string): seq<R> {
    if rows == [] then []
    else
      var last := |rows| - 1;
      var rest := WithText(rows[..last], t, text);
      if text(rows[last].foreignKey) == t then rest + [rows[last].shown] else rest
  }

  /** String keeps the keys of the batch apart. */
  predicate TextApart<V(==)>(keys: set<V>, text: V -> string) {
    forall u, v | u in keys && v in keys && text(u) == text(v) :: u == v
  }

  lemma {:induction false} GroupIsMatching<V(!new), R>(table: seq<Child<V, R>>, visible: Child<V, R> -> bool, keys: set<V>,
                                                  text: V -> string, v: V)
    requires v in keys && TextApart(keys, text)
    ensures WithText(Select(table, visible, keys), text(v), text) == Matching(table, visible, v)
    decreases |table|
  {
    if table != [] {
      var last := |table| - 1;
      GroupIsMatching(table[..last], visible, keys, text, v);
      var rest := Select(table[..last], visible, keys);
      assert (rest + [table[last]])[..|rest|] == rest;
    }
  }

  lemma {:induction false} NoGroup<V(!new), R>(rows: seq<Child<V, R>>, t: string, text: V -> string)
    requires forall c | c in rows :: text(c.foreignKey) != t
    ensures WithText(rows, t, text) == []
    decreases |rows|
  {
    if rows != [] {
      assert rows[|rows| - 1] in rows;
      assert forall c | c in rows[..|rows| - 1] :: c in rows;
      NoGroup(rows[..|rows| - 1], t, text);
    }
  }

  // ---------------------------------------------------------------- the join

  method Keys<V(==,!new)>(parents: seq<Option<V>>) returns (keys: set<V>)
    ensures forall v :: v in keys <==> Some(v) in parents
  {
    keys := {};
    for i := 0 to |parents|
      invariant forall v :: v in keys <==> Some(v) in parents[..i]
    {
      assert forall x :: x in parents[..i + 1] <==> x in parents[..i] || x == parents[i];
      if parents[i].Some? {
        keys := keys + {parents[i].value};
      }
    }
    assert parents[..|parents|] == parents;
  }

  /** The children, grouped by the text of their foreign key. */
  method Group<V(!new), R>(rows: seq<Child<V, R>>, text: V -> string) returns (grouped: map<string, seq<R>>)
    ensures forall t :: (if t in grouped then grouped[t] else []) == WithText(rows, t, text)
  {
    grouped := map[];
    for i := 0 to |rows|
      invariant forall t :: (if t in grouped then grouped[t] else []) == WithText(rows[..i], t, text)
    {
      var fk := text(rows[i].foreignKey);
      var list := if fk in grouped then grouped[fk] else [];
      assert rows[..i + 1][..i] == rows[..i];
      grouped := grouped[fk := list + [rows[i].shown]];
    }
    assert rows[..|rows|] == rows;
  }

  /** What the nested loop gives a parent. */
  ghost predicate Served<V(!new), R>(cell: Cell<R>, parent: Option<V>, parents: seq<Option<V>>, table: seq<Child<V, R>>,
                               visible: Child<V, R> -> bool, denied: bool, manyToOne: bool, text: V -> string)
  {
    if denied then cell == Shape([], manyToOne)
    else
      match parent
      case Some(v) => cell == Shape(Matching(table, visible, v), manyToOne)
      case None =>
        // a parent without a key is served the children of the key that reads "null", if there is one
        (forall v | Some(v) in parents && text(v) == "null" :: cell == Shape(Matching(table, visible, v), manyToOne))
        && ((forall v | Some(v) in parents :: text(v) != "null") ==> cell == Shape([], manyToOne))
  }

  /** attachEmbeds for one embed: fills one column of every parent row, in place. */
  method AttachEmbed<V(==,!new), R>(rows: array<map<string, Cell<R>>>, parents: seq<Option<V>>, table: seq<Child<V, R>>,
                               visible: Child<V, R> -> bool, denied: bool, manyToOne: bool, column: string, text: V -> string)
    requires rows.Length == |parents|
    requires forall u, v | Some(u) in parents && Some(v) in parents && text(u) == text(v) :: u == v
    modifies rows
    ensures forall i | 0 <= i < rows.Length ::
              && column in rows[i] && rows[i] == old(rows[i])[column := rows[i][column]]
              && Served(rows[i][column], parents[i], parents, table, visible, denied, manyToOne, text)
  {
    var keys := Keys(parents);
    if denied || keys == {} {
      NothingServed(parents, table, visible, denied, manyToOne, text);
      hide *;
      assert forall i | 0 <= i < |parents| :: parents[i] in parents;
      for i := 0 to rows.Length
        invariant forall j | 0 <= j < i :: rows[j] == old(rows[j])[column := Shape([], manyToOne)]
        invariant forall j | i <= j < rows.Length :: rows[j] == old(rows[j])
      {
        rows[i] := rows[i][column := Shape([], manyToOne)];
      }
      return;
    }
    hide Served, Shape, Matching, Select, WithText, KeyText;
    var fetched := Select(table, visible, keys);
    var grouped := Group(fetched, text);
    for i := 0 to rows.Length
      invariant forall j | 0 <= j < i ::
                  && column in rows[j] && rows[j] == old(rows[j])[column := rows[j][column]]
                  && Served(rows[j][column], parents[j], parents, table, visible, denied, manyToOne, text)
      invariant forall j | i <= j < rows.Length :: rows[j] == old(rows[j])
    {
      var key := KeyText(parents[i], text);
      var matches := if key in grouped then grouped[key] else [];
      GroupServes(parents[i], parents, keys, table, visible, manyToOne, text);
      rows[i] := rows[i][column := Shape(matches, manyToOne)];
    }
  }

  lemma NothingServed<V(!new), R>(parents: seq<Option<V>>, table: seq<Child<V, R>>, visible: Child<V, R> -> bool,
                                  denied: bool, manyToOne: bool, text: V -> string)
    requires denied || forall v :: Some(v) !in parents
    ensures forall parent | parent in parents :: Served(Shape([], manyToOne), parent, parents, table, visible, denied, manyToOne, text)
  {
    hide Matching, Shape;
    assert !denied ==> forall parent | parent in parents :: parent.None?;
  }

  lemma GroupServes<V(!new), R>(parent: Option<V>, parents: seq<Option<V>>, keys: set<V>, table: seq<Child<V, R>>,
                          visible: Child<V, R> -> bool, manyToOne: bool, text: V -> string)
    requires parent in parents && (forall v :: v in keys <==> Some(v) in parents) && TextApart(keys, text)
    ensures Served(Shape(WithText(Select(table, visible, keys), KeyText(parent, text), text), manyToOne),
                   parent, parents, table, visible, false, manyToOne, text)
  {
    match parent
    case Some(v) => GroupIsMatching(table, visible, keys, text, v);
    case None =>
      forall v | Some(v) in parents && text(v) == "null"
        ensures WithText(Select(table, visible, keys), "null", text) == Matching(table, visible, v)
      {
        GroupIsMatching(table, visible, keys, text, v);
      }
      if forall v | Some(v) in parents :: text(v) != "null" {
        NoGroup(Select(table, visible, keys), "null", text);
      }
  }

  /** The child is visible and has this foreign key. */
  predicate Matches<V(==), R>(c: Child<V, R>, visible: Child<V, R> -> bool, v: V) {
    c.foreignKey == v && visible(c)
  }

  lemma {:induction false} FirstMatch<V, R>(table: seq<Child<V, R>>, visible: Child<V, R> -> bool, v: V, i: nat)
    requires i <= |table| && forall j | 0 <= j < i :: !Matches(table[j], visible, v)
    requires i < |table| ==> Matches(table[i], visible, v)
    ensures if i < |table| then Matching(table, visible, v) != [] && Matching(table, visible, v)[0] == table[i].shown
            else Matching(table, visible, v) == []
    decreases |table|
  {
    if table != [] {
      var front := table[..|table| - 1];
      if i < |table| - 1 {
        FirstMatch(front, visible, v, i);
      } else {
        FirstMatch(front, visible, v, |front|);
        assert Matches(table[|table| - 1], visible, v) <==> i == |table| - 1;
      }
    }
  }

  /** Where one row is embedded, a parent with a key is given the first visible child of it, or none. */
  lemma FirstChildServed<V(!new), R>(cell: Cell<R>, v: V, parents: seq<Option<V>>, table: seq<Child<V, R>>,
                                     visible: Child<V, R> -> bool, text: V -> string, i: nat)
    requires i <= |table| && forall j | 0 <= j < i :: !Matches(table[j], visible, v)
    requires i < |table| ==> Matches(table[i], visible, v)
    ensures Served(cell, Some(v), parents, table, visible, false, true, text)
       <==> cell == One(if i < |table| then Some(table[i].shown) else None)
  {
    FirstMatch(table, visible, v, i);
    hide Matching, Matches;
  }

  // ---------------------------------------------------------------- parents without a key

  /** A parent without a key is served nothing exactly when no key of the batch that reads "null" has children. */
  lemma KeylessServedNothingIff<V(!new), R>(cell: Cell<R>, parents: seq<Option<V>>, table: seq<Child<V, R>>,
                                            visible: Child<V, R> -> bool, manyToOne: bool, text: V -> string)
    requires Served(cell, None, parents, table, visible, false, manyToOne, text)
    ensures cell == Shape([], manyToOne)
       <==> forall v | Some(v) in parents && text(v) == "null" :: Matching(table, visible, v) == []
  {
    forall v | Some(v) in parents && text(v) == "null" ensures cell == Shape(Matching(table, visible, v), manyToOne) {}
    hide Matching;
  }

  function Same(v: string): string {
    v
  }

  predicate Anyone(c: Child<string, string>) {
    true
  }

  /** Such a batch: the keyless parent is shown the child of the parent whose key is the text "null". */
  lemma NullKeyServed(shown: string, cell: Cell<string>)
    ensures var parents, table := [None, Some("null")], [Child("null", shown)];
            Served(cell, None, parents, table, Anyone, false, false, Same) <==> cell == Many([shown])
  {
    var parents, table := [None, Some("null")], [Child("null", shown)];
    assert Some("null") in parents;
    assert table[..0] == [] && Matching(table, Anyone, "null") == [shown];
    assert forall v | Some(v) in parents && Same(v) == "null" :: v == "null";
  }
}
