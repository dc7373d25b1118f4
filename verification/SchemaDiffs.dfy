/**
 * The schema diff: exactly the needed changes, each of them once, in phase order, and none exactly
 * when there is nothing to do. A constraint or index is its name and its key, the canonical text of
 * its definition.
 */
module SchemaDiffs {
  import opened Text
  import opened CanonicalJson

  datatype Column = Column(kind: string, enumLabels: Json, nullable: bool, default: Json, generated: bool)

  datatype Named = Named(name: string, key: string)

  datatype Kind = Unique | ForeignKey | Check | Index

  datatype Table = Table(columns: map<string, Column>, primaryKey: Json, named: map<Kind, seq<Named>>)
  {
    function Items(k: Kind): seq<Named> {
      if k in named then named[k] else []
    }
  }

  /** Sequences with their owner, and tables. */
  datatype Schema = Schema(sequences: map<string, Option<string>>, tables: map<string, Table>)

  datatype Change =
    | CreateSequence(sequence: string)
    | DropSequence(sequence: string)
    | AlterSequenceOwner(sequence: string)
    | CreateTable(table: string)
    | DropTable(table: string)
    | AddColumn(table: string, column: string, notNullNoDefault: bool)
    | DropColumn(table: string, column: string)
    | AlterColumn(table: string, column: string, changed: seq<string>)
    | SetPrimaryKey(table: string)
    | Add(kind: Kind, table: string, name: string)
    | Drop(kind: Kind, table: string, name: string)

  function Phase(c: Change): nat {
    match c
    case CreateSequence(_) => 0
    case AlterSequenceOwner(_) => 5
    case CreateTable(_) => 10
    case AddColumn(_, _, _) => 20
    case AlterColumn(_, _, _) => 21
    case SetPrimaryKey(_) => 30
    case Add(k, _, _) => (match k case Unique => 31 case ForeignKey => 32 case Check => 34 case Index => 40)
    case Drop(k, _, _) => (match k case Unique => 93 case ForeignKey => 33 case Check => 94 case Index => 95)
    case DropSequence(_) => 90
    case DropTable(_) => 91
    case DropColumn(_, _) => 92
  }

  /** The changes of one table from the first to the last: everything is made before it is used and dropped after. */
  function InOrder(seqName: string, t: string, c: string, n: string, changed: seq<string>): seq<Change> {
    [CreateSequence(seqName), AlterSequenceOwner(seqName), CreateTable(t), AddColumn(t, c, false), AlterColumn(t, c, changed),
     SetPrimaryKey(t), Add(Unique, t, n), Add(ForeignKey, t, n), Drop(ForeignKey, t, n), Add(Check, t, n), Add(Index, t, n),
     DropSequence(seqName), DropTable(t), DropColumn(t, c), Drop(Unique, t, n), Drop(Check, t, n), Drop(Index, t, n)]
  }

  /** No two kinds of changes share a phase, and the phases have this order. */
  lemma PhasesInOrder(seqName: string, t: string, c: string, n: string, changed: seq<string>, i: nat, j: nat)
    requires i < j < 17
    ensures Phase(InOrder(seqName, t, c, n, changed)[i]) < Phase(InOrder(seqName, t, c, n, changed)[j])
  {
    var cs := InOrder(seqName, t, c, n, changed);
    assert forall k | 0 <= k < 16 :: Phase(cs[k]) < Phase(cs[k + 1]);
    Ascending(cs, i, j);
  }

  lemma {:induction false} Ascending(cs: seq<Change>, i: nat, j: nat)
    requires |cs| == 17 && i < j < 17 && forall k | 0 <= k < 16 :: Phase(cs[k]) < Phase(cs[k + 1])
    ensures Phase(cs[i]) < Phase(cs[j])
    decreases j
  {
    hide Phase;
    assert Phase(cs[j - 1]) < Phase(cs[j - 1 + 1]);
    if i < j - 1 { Ascending(cs, i, j - 1); }
  }

  const KINDS: set<Kind> := {Unique, ForeignKey, Check, Index}

  // ---------------------------------------------------------------- columns

  /** columnChanges */
  function ColumnChanges(x: Column, y: Column): seq<string> {
    (if x.kind != y.kind || !JsonEquals(x.enumLabels, y.enumLabels) then ["type"] else [])
    + (if x.nullable != y.nullable then ["nullable"] else [])
    + (if !JsonEquals(x.default, y.default) then ["default"] else [])
    + (if x.generated != y.generated then ["generated"] else [])
  }

  /** A column altered in the named respects, and in no others, to be like another. */
  function Altered(x: Column, y: Column, changed: seq<string>): Column {
    Column(if "type" in changed then y.kind else x.kind,
           if "type" in changed then y.enumLabels else x.enumLabels,
           if "nullable" in changed then y.nullable else x.nullable,
           if "default" in changed then y.default else x.default,
           if "generated" in changed then y.generated else x.generated)
  }

  lemma ColumnChangesComplete(x: Column, y: Column)
    ensures Altered(x, y, ColumnChanges(x, y)) == y
    ensures ColumnChanges(x, y) == [] <==> x == y
  {
    CanonicalInjective(x.enumLabels, y.enumLabels);
    CanonicalInjective(x.default, y.default);
    hide JsonEquals;
    var cs := ColumnChanges(x, y);
    assert x.kind != y.kind || x.enumLabels != y.enumLabels ==> cs[0] == "type";
  }

  /** A respect is named exactly when the columns differ in it. */
  lemma ColumnChangesExact(x: Column, y: Column)
    ensures "type" in ColumnChanges(x, y) <==> x.kind != y.kind || x.enumLabels != y.enumLabels
    ensures "nullable" in ColumnChanges(x, y) <==> x.nullable != y.nullable
    ensures "default" in ColumnChanges(x, y) <==> x.default != y.default
    ensures "generated" in ColumnChanges(x, y) <==> x.generated != y.generated
  {
    CanonicalInjective(x.enumLabels, y.enumLabels);
    CanonicalInjective(x.default, y.default);
    hide JsonEquals;
    var a := if x.kind != y.kind || x.enumLabels != y.enumLabels then ["type"] else [];
    var b := if x.nullable != y.nullable then ["nullable"] else [];
    var c := if x.default != y.default then ["default"] else [];
    var d := if x.generated != y.generated then ["generated"] else [];
    assert ColumnChanges(x, y) == a + b + c + d;
    assert "type"[0] == 't' && "nullable"[0] == 'n' && "default"[0] == 'd' && "generated"[0] == 'g';
    hide *;
    InFour("type", a, b, c, d); InFour("nullable", a, b, c, d);
    InFour("default", a, b, c, d); InFour("generated", a, b, c, d);
  }

  lemma InFour(s: string, a: seq<string>, b: seq<string>, c: seq<string>, d: seq<string>)
    ensures s in a + b + c + d <==> s in a || s in b || s in c || s in d
  {}

  // ---------------------------------------------------------------- what a change list has to hold

  function KeysOf(items: seq<Named>): set<string> {
    set i | i in items :: i.key
  }

  /** The entry that a map from keys to items ends up with: the last item of a key. */
  function NameOf(items: seq<Named>, key: string): (name: string)
    requires key in KeysOf(items)
    ensures Named(name, key) in items
  {
    var last := |items| - 1;
    if items[last].key == key then items[last].name else NameOf(items[..last], key)
  }

  predicate NeededAdds(before: seq<Named>, after: seq<Named>, keys: set<string>, kind: Kind, table: string, c: Change)
    requires keys <= KeysOf(after)
  {
    exists key | key in keys :: key !in KeysOf(before) && c == Add(kind, table, NameOf(after, key))
  }

  predicate NeededDrops(before: seq<Named>, after: seq<Named>, keys: set<string>, kind: Kind, table: string, c: Change)
    requires keys <= KeysOf(before)
  {
    exists key | key in keys :: key !in KeysOf(after) && c == Drop(kind, table, NameOf(before, key))
  }

  predicate NeededNamed(before: seq<Named>, after: seq<Named>, kind: Kind, table: string, c: Change) {
    || NeededAdds(before, after, KeysOf(after), kind, table, c)
    || NeededDrops(before, after, KeysOf(before), kind, table, c)
  }

  predicate NeededColumn(x: Table, y: Table, table: string, n: string, c: Change) {
    || (n in y.columns && n !in x.columns
        && c == AddColumn(table, n, !y.columns[n].nullable && y.columns[n].default == Null && !y.columns[n].generated))
    || (n in x.columns && n !in y.columns && c == DropColumn(table, n))
    || (n in x.columns && n in y.columns && ColumnChanges(x.columns[n], y.columns[n]) != []
        && c == AlterColumn(table, n, ColumnChanges(x.columns[n], y.columns[n])))
  }

  predicate NeededTable(x: Table, y: Table, table: string, c: Change) {
    || NeededColumns(x, y, table, SortedKeys(x.columns.Keys + y.columns.Keys), c)
    || (c == SetPrimaryKey(table) && !JsonEquals(x.primaryKey, y.primaryKey))
    || NeededNamed(x.Items(Unique), y.Items(Unique), Unique, table, c)
    || NeededNamed(x.Items(ForeignKey), y.Items(ForeignKey), ForeignKey, table, c)
    || NeededNamed(x.Items(Check), y.Items(Check), Check, table, c)
    || NeededNamed(x.Items(Index), y.Items(Index), Index, table, c)
  }

  predicate NeededSequence(from: Schema, to: Schema, n: string, c: Change) {
    || (n in to.sequences && n !in from.sequences && c == CreateSequence(n))
    || (n in from.sequences && n !in to.sequences && c == DropSequence(n))
    || (n in from.sequences && n in to.sequences && from.sequences[n] != to.sequences[n] && c == AlterSequenceOwner(n))
  }

  predicate NeededAtTable(from: Schema, to: Schema, t: string, c: Change) {
    || (t in to.tables && t !in from.tables && c == CreateTable(t))
    || (t in from.tables && t !in to.tables && c == DropTable(t))
    || (t in from.tables && t in to.tables && NeededTable(from.tables[t], to.tables[t], t, c))
  }

  predicate NeededColumns(x: Table, y: Table, table: string, names: seq<string>, c: Change) {
    exists n | n in names :: NeededColumn(x, y, table, n, c)
  }

  predicate NeededSequences(from: Schema, to: Schema, names: seq<string>, c: Change) {
    exists n | n in names :: NeededSequence(from, to, n, c)
  }

  predicate NeededTables(from: Schema, to: Schema, names: seq<string>, c: Change) {
    exists t | t in names :: NeededAtTable(from, to, t, c)
  }

  predicate Needed(from: Schema, to: Schema, c: Change) {
    || NeededSequences(from, to, SortedKeys(from.sequences.Keys + to.sequences.Keys), c)
    || NeededTables(from, to, SortedKeys(from.tables.Keys + to.tables.Keys), c)
  }

  predicate InPhaseOrder(cs: seq<Change>) {
    forall i, j | 0 <= i < j < |cs| :: Phase(cs[i]) <= Phase(cs[j])
  }

  /** Exactly the needed changes, in any order. */
  ghost predicate HoldsNeeded(from: Schema, to: Schema, cs: seq<Change>) {
    forall c :: c in cs <==> Needed(from, to, c)
  }

  /** Exactly the needed changes, in phase order. */
  ghost predicate IsDiff(from: Schema, to: Schema, cs: seq<Change>) {
    HoldsNeeded(from, to, cs) && InPhaseOrder(cs)
  }

  predicate ListedOnce(cs: seq<Change>) {
    forall c | c in cs :: multiset(cs)[c] == 1
  }

  lemma PushOnce(cs: seq<Change>, c: Change)
    ensures ListedOnce(cs) && c !in cs ==> ListedOnce(cs + [c])
  {
    assert multiset(cs + [c]) == multiset(cs) + multiset{c};
    assert c !in cs ==> multiset(cs)[c] == 0;
  }

  predicate DistinctNames(items: seq<Named>) {
    forall i, j | i in items && j in items && i.name == j.name :: i == j
  }

  predicate TableDistinct(t: Table) {
    forall k | k in KINDS :: DistinctNames(t.Items(k))
  }

  /** Names of constraints and indexes are unique within a table and kind. */
  predicate SchemaDistinct(s: Schema) {
    forall t | t in s.tables :: TableDistinct(s.tables[t])
  }

  // ---------------------------------------------------------------- which changes a diff holds

  /** What a change is about: a sequence, a whole table, or something inside a table. */
  datatype Subject = OfSequence(name: string) | OfTable(name: string) | Inside(table: string)

  function About(c: Change): Subject {
    match c
    case CreateSequence(n) => OfSequence(n)
    case DropSequence(n) => OfSequence(n)
    case AlterSequenceOwner(n) => OfSequence(n)
    case CreateTable(t) => OfTable(t)
    case DropTable(t) => OfTable(t)
    case AddColumn(t, _, _) => Inside(t)
    case DropColumn(t, _) => Inside(t)
    case AlterColumn(t, _, _) => Inside(t)
    case SetPrimaryKey(t) => Inside(t)
    case Add(_, t, _) => Inside(t)
    case Drop(_, t, _) => Inside(t)
  }

  lemma NamedAbout(before: seq<Named>, after: seq<Named>, kind: Kind, t: string, c: Change)
    requires NeededNamed(before, after, kind, t, c)
    ensures About(c) == Inside(t) && (c.Add? || c.Drop?) && c.kind == kind
  {
    hide NameOf, KeysOf;
  }

  lemma NotNamed(before: seq<Named>, after: seq<Named>, kind: Kind, t: string, c: Change)
    requires !c.Add? && !c.Drop?
    ensures !NeededNamed(before, after, kind, t, c)
  {
    hide NameOf, KeysOf;
  }

  lemma ColumnAbout(x: Table, y: Table, t: string, n: string, c: Change)
    requires NeededColumn(x, y, t, n, c)
    ensures About(c) == Inside(t) && (c.AddColumn? || c.DropColumn? || c.AlterColumn?) && c.column == n
  {
    hide ColumnChanges;
  }

  lemma SequenceAbout(from: Schema, to: Schema, n: string, c: Change)
    requires NeededSequence(from, to, n, c)
    ensures About(c) == OfSequence(n)
  {}

  lemma TableAbout(x: Table, y: Table, t: string, c: Change)
    requires NeededTable(x, y, t, c)
    ensures About(c) == Inside(t)
  {
    hide NeededNamed, NeededColumn, SortedKeys, JsonEquals, About;
    if NeededColumns(x, y, t, SortedKeys(x.columns.Keys + y.columns.Keys), c) {
      var n :| n in SortedKeys(x.columns.Keys + y.columns.Keys) && NeededColumn(x, y, t, n, c);
      ColumnAbout(x, y, t, n, c);
    } else if c == SetPrimaryKey(t) {
      PrimaryKeyAbout(t);
    } else {
      forall k | NeededNamed(x.Items(k), y.Items(k), k, t, c) ensures About(c) == Inside(t) {
        NamedAbout(x.Items(k), y.Items(k), k, t, c);
      }
    }
  }

  lemma PrimaryKeyAbout(t: string)
    ensures About(SetPrimaryKey(t)) == Inside(t)
  {}

  lemma AtTableAbout(from: Schema, to: Schema, t: string, c: Change)
    requires NeededAtTable(from, to, t, c)
    ensures About(c) == OfTable(t) || About(c) == Inside(t)
    ensures About(c) == Inside(t) ==> t in from.tables && t in to.tables && NeededTable(from.tables[t], to.tables[t], t, c)
  {
    hide NeededTable;
    if t in from.tables && t in to.tables && NeededTable(from.tables[t], to.tables[t], t, c) {
      TableAbout(from.tables[t], to.tables[t], t, c);
    }
  }

  lemma SequenceListed(from: Schema, to: Schema, n: string, c: Change)
    requires NeededSequence(from, to, n, c)
    ensures n in SortedKeys(from.sequences.Keys + to.sequences.Keys)
  {
    hide SortedKeys;
  }

  lemma TableListed(from: Schema, to: Schema, t: string, c: Change)
    requires NeededAtTable(from, to, t, c)
    ensures t in SortedKeys(from.tables.Keys + to.tables.Keys)
  {
    hide SortedKeys, NeededTable;
  }

  lemma NeededSequencesAbout(from: Schema, to: Schema, c: Change)
    ensures var all := NeededSequences(from, to, SortedKeys(from.sequences.Keys + to.sequences.Keys), c);
            all <==> About(c).OfSequence? && NeededSequence(from, to, About(c).name, c)
  {
    hide SortedKeys, NeededSequence, About;
    var names := SortedKeys(from.sequences.Keys + to.sequences.Keys);
    forall n | NeededSequence(from, to, n, c) ensures About(c) == OfSequence(n) && n in names {
      SequenceAbout(from, to, n, c);
      SequenceListed(from, to, n, c);
    }
  }

  lemma NeededTablesAbout(from: Schema, to: Schema, c: Change)
    ensures var all := NeededTables(from, to, SortedKeys(from.tables.Keys + to.tables.Keys), c);
            all <==> (About(c).OfTable? && NeededAtTable(from, to, About(c).name, c))
                     || (About(c).Inside? && NeededAtTable(from, to, About(c).table, c))
  {
    hide SortedKeys, NeededAtTable, About;
    var names := SortedKeys(from.tables.Keys + to.tables.Keys);
    forall t | NeededAtTable(from, to, t, c) ensures (About(c) == OfTable(t) || About(c) == Inside(t)) && t in names {
      AtTableAbout(from, to, t, c);
      TableListed(from, to, t, c);
    }
  }

  /** What is needed of a sequence, or at a table, is what the diff holds about it. */
  lemma NeededAbout(from: Schema, to: Schema, c: Change)
    ensures About(c).OfSequence? ==> (Needed(from, to, c) <==> NeededSequence(from, to, About(c).name, c))
    ensures About(c).OfTable? ==> (Needed(from, to, c) <==> NeededAtTable(from, to, About(c).name, c))
    ensures About(c).Inside? ==> (Needed(from, to, c) <==> NeededAtTable(from, to, About(c).table, c))
  {
    hide NeededSequences, NeededTables, NeededSequence, NeededAtTable, SortedKeys, About;
    NeededSequencesAbout(from, to, c);
    NeededTablesAbout(from, to, c);
  }

  lemma SequenceChanges(from: Schema, to: Schema, cs: seq<Change>, n: string)
    requires HoldsNeeded(from, to, cs)
    ensures CreateSequence(n) in cs <==> n in to.sequences && n !in from.sequences
    ensures DropSequence(n) in cs <==> n in from.sequences && n !in to.sequences
    ensures AlterSequenceOwner(n) in cs <==> n in from.sequences && n in to.sequences && from.sequences[n] != to.sequences[n]
  {
    hide Needed;
    NeededAbout(from, to, CreateSequence(n));
    NeededAbout(from, to, DropSequence(n));
    NeededAbout(from, to, AlterSequenceOwner(n));
    hide NeededAtTable;
  }

  lemma TableChanges(from: Schema, to: Schema, cs: seq<Change>, t: string)
    requires HoldsNeeded(from, to, cs)
    ensures CreateTable(t) in cs <==> t in to.tables && t !in from.tables
    ensures DropTable(t) in cs <==> t in from.tables && t !in to.tables
  {
    hide Needed;
    NeededAbout(from, to, CreateTable(t));
    NeededAbout(from, to, DropTable(t));
    forall c | c == CreateTable(t) || c == DropTable(t) ensures c in cs <==> NeededAtTable(from, to, t, c) {}
    if t in from.tables && t in to.tables {
      forall c | NeededTable(from.tables[t], to.tables[t], t, c) ensures About(c) == Inside(t) {
        TableAbout(from.tables[t], to.tables[t], t, c);
      }
    }
    hide NeededTable, HoldsNeeded;
  }

  lemma InsideChanges(from: Schema, to: Schema, cs: seq<Change>, t: string, c: Change)
    requires HoldsNeeded(from, to, cs) && t in from.tables && t in to.tables && About(c) == Inside(t)
    ensures c in cs <==> NeededTable(from.tables[t], to.tables[t], t, c)
  {
    hide Needed, NeededTable;
    NeededAbout(from, to, c);
    if NeededAtTable(from, to, t, c) { AtTableAbout(from, to, t, c); }
  }

  predicate OfColumn(c: Change, t: string, n: string) {
    (c.AddColumn? || c.DropColumn? || c.AlterColumn?) && c.table == t && c.column == n
  }

  lemma NeededOfColumn(x: Table, y: Table, t: string, n: string, c: Change)
    requires OfColumn(c, t, n)
    ensures NeededTable(x, y, t, c) <==> NeededColumn(x, y, t, n, c)
  {
    var names := SortedKeys(x.columns.Keys + y.columns.Keys);
    assert n in names <==> n in x.columns || n in y.columns;
    assert NeededColumn(x, y, t, n, c) ==> n in x.columns || n in y.columns;
    forall m | NeededColumn(x, y, t, m, c) ensures m == n { ColumnAbout(x, y, t, m, c); }
    forall k ensures !NeededNamed(x.Items(k), y.Items(k), k, t, c) {
      NotNamed(x.Items(k), y.Items(k), k, t, c);
    }
    hide SortedKeys, NeededColumn, NeededNamed, JsonEquals;
  }

  lemma ColumnChangesIn(from: Schema, to: Schema, cs: seq<Change>, t: string, n: string, c: Change)
    requires HoldsNeeded(from, to, cs) && t in from.tables && t in to.tables && OfColumn(c, t, n)
    ensures c in cs <==> NeededColumn(from.tables[t], to.tables[t], t, n, c)
  {
    hide HoldsNeeded, NeededColumn;
    InsideChanges(from, to, cs, t, c);
    NeededOfColumn(from.tables[t], to.tables[t], t, n, c);
  }

  predicate OfNamed(c: Change, t: string, k: Kind) {
    (c.Add? || c.Drop?) && c.table == t && c.kind == k
  }

  lemma NeededOfNamed(x: Table, y: Table, t: string, k: Kind, c: Change)
    requires OfNamed(c, t, k)
    ensures NeededTable(x, y, t, c) <==> NeededNamed(x.Items(k), y.Items(k), k, t, c)
  {
    forall n ensures !NeededColumn(x, y, t, n, c) {}
    forall j | j != k ensures !NeededNamed(x.Items(j), y.Items(j), j, t, c) {
      OtherKind(x.Items(j), y.Items(j), j, t, c);
    }
    assert c != SetPrimaryKey(t);
    hide SortedKeys, NeededColumn, NeededNamed, JsonEquals;
  }

  lemma OtherKind(before: seq<Named>, after: seq<Named>, kind: Kind, t: string, c: Change)
    requires (c.Add? || c.Drop?) && c.kind != kind
    ensures !NeededNamed(before, after, kind, t, c)
  {
    hide NameOf, KeysOf;
  }

  lemma PrimaryKeyChange(from: Schema, to: Schema, cs: seq<Change>, t: string)
    requires HoldsNeeded(from, to, cs) && t in from.tables && t in to.tables
    ensures SetPrimaryKey(t) in cs <==> from.tables[t].primaryKey != to.tables[t].primaryKey
  {
    var x, y, c := from.tables[t], to.tables[t], SetPrimaryKey(t);
    InsideChanges(from, to, cs, t, c);
    CanonicalInjective(x.primaryKey, y.primaryKey);
    forall n ensures !NeededColumn(x, y, t, n, c) {}
    forall k ensures !NeededNamed(x.Items(k), y.Items(k), k, t, c) {
      NotNamed(x.Items(k), y.Items(k), k, t, c);
    }
    hide SortedKeys, NeededColumn, NeededNamed, JsonEquals, HoldsNeeded;
  }

  // ---------------------------------------------------------------- how the diff is built

  function InsertByPhase(cs: seq<Change>, c: Change): (r: seq<Change>)
    ensures multiset(r) == multiset(cs) + multiset{c}
    ensures InPhaseOrder(cs) ==> InPhaseOrder(r)
  {
    if cs == [] then [c]
    else
      var last := |cs| - 1;
      LastInOrder(cs);
      if Phase(cs[last]) <= Phase(c) then
        AppendedInOrder(cs, c);
        cs + [c]
      else
        var r := InsertByPhase(cs[..last], c);
        InsertedBelow(cs, c, r);
        AppendedInOrder(r, cs[last]);
        r + [cs[last]]
  }

  lemma LastInOrder(cs: seq<Change>)
    requires cs != []
    ensures var last := |cs| - 1;
            && multiset(cs) == multiset(cs[..last]) + multiset{cs[last]}
            && (InPhaseOrder(cs) ==> InPhaseOrder(cs[..last]) && forall i | 0 <= i < |cs| :: Phase(cs[i]) <= Phase(cs[last]))
  {
    hide Phase;
    assert cs == cs[..|cs| - 1] + [cs[|cs| - 1]];
  }

  lemma AppendedInOrder(cs: seq<Change>, c: Change)
    ensures multiset(cs + [c]) == multiset(cs) + multiset{c}
    ensures InPhaseOrder(cs) && (forall i | 0 <= i < |cs| :: Phase(cs[i]) <= Phase(c)) ==> InPhaseOrder(cs + [c])
  {
    hide Phase;
  }

  lemma InsertedBelow(cs: seq<Change>, c: Change, r: seq<Change>)
    requires cs != [] && multiset(r) == multiset(cs[..|cs| - 1]) + multiset{c}
    ensures InPhaseOrder(cs) && Phase(c) <= Phase(cs[|cs| - 1]) ==> forall i | 0 <= i < |r| :: Phase(r[i]) <= Phase(cs[|cs| - 1])
  {
    hide Phase;
    forall i | 0 <= i < |r| ensures r[i] == c || r[i] in cs[..|cs| - 1] {
      assert r[i] in multiset(r);
    }
  }

  /** changes.sort by phase, which is stable. */
  function SortByPhase(cs: seq<Change>): (r: seq<Change>)
    ensures multiset(r) == multiset(cs) && InPhaseOrder(r)
  {
    if cs == [] then []
    else
      assert cs == cs[..|cs| - 1] + [cs[|cs| - 1]];
      InsertByPhase(SortByPhase(cs[..|cs| - 1]), cs[|cs| - 1])
  }

  /** Nothing of the kind has been pushed for a table. */
  predicate NoneNamed(cs: seq<Change>, t: string, k: Kind) {
    forall c | c in cs :: !OfNamed(c, t, k)
  }

  predicate NoneOfColumn(cs: seq<Change>, t: string, n: string) {
    forall c | c in cs :: !OfColumn(c, t, n)
  }

  predicate NoneAbout(cs: seq<Change>, s: Subject) {
    forall c | c in cs :: About(c) != s
  }

  /** The keys of the target and of the source that have been gone through, and what was pushed for them. */
  ghost predicate Pushed(before: seq<Named>, after: seq<Named>, kind: Kind, table: string, changes: seq<Change>,
                         added: set<string>, dropped: set<string>, cs: seq<Change>)
    requires added <= KeysOf(after) && dropped <= KeysOf(before)
  {
    && (forall c :: c in cs <==> c in changes || NeededAdds(before, after, added, kind, table, c)
                                 || NeededDrops(before, after, dropped, kind, table, c))
    && (ListedOnce(changes) && NoneNamed(changes, table, kind) && DistinctNames(before) && DistinctNames(after) ==> ListedOnce(cs))
  }

  lemma AddStep(before: seq<Named>, after: seq<Named>, kind: Kind, table: string, changes: seq<Change>,
                added: set<string>, key: string, cs: seq<Change>)
    requires added <= KeysOf(after) && key in KeysOf(after) && key !in added
    requires Pushed(before, after, kind, table, changes, added, {}, cs)
    ensures Pushed(before, after, kind, table, changes, added + {key}, {},
                   if key in KeysOf(before) then cs else cs + [Add(kind, table, NameOf(after, key))])
  {
    NamesApart(after, key);
    hide NameOf, DistinctNames, KeysOf, ListedOnce;
    var add := Add(kind, table, NameOf(after, key));
    assert OfNamed(add, table, kind);
    PushOnce(cs, add);
    forall c ensures NeededAdds(before, after, added + {key}, kind, table, c)
                <==> NeededAdds(before, after, added, kind, table, c) || (key !in KeysOf(before) && c == add) {}
    hide NeededAdds;
  }

  lemma DropStep(before: seq<Named>, after: seq<Named>, kind: Kind, table: string, changes: seq<Change>,
                 dropped: set<string>, key: string, cs: seq<Change>)
    requires dropped <= KeysOf(before) && key in KeysOf(before) && key !in dropped
    requires Pushed(before, after, kind, table, changes, KeysOf(after), dropped, cs)
    ensures Pushed(before, after, kind, table, changes, KeysOf(after), dropped + {key},
                   if key in KeysOf(after) then cs else cs + [Drop(kind, table, NameOf(before, key))])
  {
    NamesApart(before, key);
    hide NameOf, DistinctNames, KeysOf, ListedOnce;
    var drop := Drop(kind, table, NameOf(before, key));
    assert OfNamed(drop, table, kind);
    PushOnce(cs, drop);
    forall c ensures NeededDrops(before, after, dropped + {key}, kind, table, c)
                <==> NeededDrops(before, after, dropped, kind, table, c) || (key !in KeysOf(after) && c == drop) {}
    hide NeededDrops;
  }

  lemma NothingPushed(before: seq<Named>, after: seq<Named>, kind: Kind, table: string, changes: seq<Change>)
    ensures Pushed(before, after, kind, table, changes, {}, {}, changes)
  {}

  /** diffNamed: pushes onto `changes`. */
  method DiffNamed(before: seq<Named>, after: seq<Named>, kind: Kind, table: string, changes: seq<Change>) returns (cs: seq<Change>)
    ensures forall c :: c in cs <==> c in changes || NeededNamed(before, after, kind, table, c)
    ensures ListedOnce(changes) && NoneNamed(changes, table, kind) && DistinctNames(before) && DistinctNames(after) ==> ListedOnce(cs)
  {
    hide *;
    NothingPushed(before, after, kind, table, changes);
    cs := changes;
    var todo := KeysOf(after);
    assert KeysOf(after) - todo == {};
    while todo != {}
      invariant todo <= KeysOf(after)
      invariant Pushed(before, after, kind, table, changes, KeysOf(after) - todo, {}, cs)
      decreases |todo|
    {
      var key :| key in todo;
      AddStep(before, after, kind, table, changes, KeysOf(after) - todo, key, cs);
      if key !in KeysOf(before) {
        cs := cs + [Add(kind, table, NameOf(after, key))];
      }
      assert KeysOf(after) - (todo - {key}) == KeysOf(after) - todo + {key};
      todo := todo - {key};
    }
    assert KeysOf(after) - {} == KeysOf(after);
    todo := KeysOf(before);
    assert KeysOf(before) - todo == {};
    while todo != {}
      invariant todo <= KeysOf(before)
      invariant Pushed(before, after, kind, table, changes, KeysOf(after), KeysOf(before) - todo, cs)
      decreases |todo|
    {
      var key :| key in todo;
      DropStep(before, after, kind, table, changes, KeysOf(before) - todo, key, cs);
      if key !in KeysOf(after) {
        cs := cs + [Drop(kind, table, NameOf(before, key))];
      }
      assert KeysOf(before) - (todo - {key}) == KeysOf(before) - todo + {key};
      todo := todo - {key};
    }
    assert KeysOf(before) - {} == KeysOf(before);
    AllPushed(before, after, kind, table, changes, cs);
  }

  lemma AllPushed(before: seq<Named>, after: seq<Named>, kind: Kind, table: string, changes: seq<Change>, cs: seq<Change>)
    requires Pushed(before, after, kind, table, changes, KeysOf(after), KeysOf(before), cs)
    ensures forall c :: c in cs <==> c in changes || NeededNamed(before, after, kind, table, c)
    ensures ListedOnce(changes) && NoneNamed(changes, table, kind) && DistinctNames(before) && DistinctNames(after) ==> ListedOnce(cs)
  {
    hide NeededAdds, NeededDrops;
  }

  lemma NamesApart(items: seq<Named>, key: string)
    requires key in KeysOf(items)
    ensures DistinctNames(items) ==> forall other | other in KeysOf(items) && NameOf(items, other) == NameOf(items, key) :: other == key
  {
    hide NameOf;
    if DistinctNames(items) {
      forall other | other in KeysOf(items) && NameOf(items, other) == NameOf(items, key) ensures other == key {
        assert Named(NameOf(items, other), other) in items && Named(NameOf(items, key), key) in items;
      }
    }
  }

  method DiffColumn(x: Table, y: Table, table: string, n: string, changes: seq<Change>) returns (cs: seq<Change>)
    ensures forall c :: c in cs <==> c in changes || NeededColumn(x, y, table, n, c)
    ensures ListedOnce(changes) && NoneOfColumn(changes, table, n) ==> ListedOnce(cs)
  {
    hide ColumnChanges, ListedOnce;
    cs := changes;
    if n in y.columns && n !in x.columns {
      var col := y.columns[n];
      var c := AddColumn(table, n, !col.nullable && col.default == Null && !col.generated);
      PushOnce(cs, c);
      assert OfColumn(c, table, n);
      cs := cs + [c];
    } else if n in x.columns && n !in y.columns {
      PushOnce(cs, DropColumn(table, n));
      assert OfColumn(DropColumn(table, n), table, n);
      cs := cs + [DropColumn(table, n)];
    } else if n in x.columns && n in y.columns {
      var changed := ColumnChanges(x.columns[n], y.columns[n]);
      if changed != [] {
        PushOnce(cs, AlterColumn(table, n, changed));
        assert OfColumn(AlterColumn(table, n, changed), table, n);
        cs := cs + [AlterColumn(table, n, changed)];
      }
    }
  }

  /** What has been pushed for other columns leaves room for one more. */
  lemma ColumnsApart(x: Table, y: Table, table: string, names: seq<string>, n: string, changes: seq<Change>, cs: seq<Change>)
    requires n !in names && NoneAbout(changes, Inside(table))
    requires forall c :: c in cs <==> c in changes || NeededColumns(x, y, table, names, c)
    ensures NoneOfColumn(cs, table, n)
  {
    hide NeededColumn;
    forall c | c in cs ensures !OfColumn(c, table, n) {
      if NeededColumns(x, y, table, names, c) {
        var m :| m in names && NeededColumn(x, y, table, m, c);
        ColumnAbout(x, y, table, m, c);
      }
    }
  }

  method DiffColumns(x: Table, y: Table, table: string, changes: seq<Change>) returns (cs: seq<Change>)
    ensures forall c :: c in cs <==> c in changes || NeededColumns(x, y, table, SortedKeys(x.columns.Keys + y.columns.Keys), c)
    ensures ListedOnce(changes) && NoneAbout(changes, Inside(table)) ==> ListedOnce(cs)
  {
    hide NeededColumn, SortedKeys, ListedOnce, NoneAbout, NoneOfColumn;
    cs := changes;
    var names := SortedKeys(x.columns.Keys + y.columns.Keys);
    for i := 0 to |names|
      invariant forall c :: c in cs <==> c in changes || NeededColumns(x, y, table, names[..i], c)
      invariant ListedOnce(changes) && NoneAbout(changes, Inside(table)) ==> ListedOnce(cs)
    {
      assert forall m :: m in names[..i + 1] <==> m in names[..i] || m == names[i];
      if NoneAbout(changes, Inside(table)) {
        ColumnsApart(x, y, table, names[..i], names[i], changes, cs);
      }
      cs := DiffColumn(x, y, table, names[i], cs);
    }
    assert names[..|names|] == names;
  }

  method DiffTable(x: Table, y: Table, table: string, changes: seq<Change>) returns (cs: seq<Change>)
    ensures forall c :: c in cs <==> c in changes || NeededTable(x, y, table, c)
    ensures ListedOnce(changes) && NoneAbout(changes, Inside(table)) && TableDistinct(x) && TableDistinct(y) ==> ListedOnce(cs)
  {
    hide NeededNamed, NeededColumns, SortedKeys, ListedOnce, NoneNamed, DistinctNames, JsonEquals;
    cs := DiffColumns(x, y, table, changes);
    ghost var columns := cs;
    ColumnsOnly(x, y, table, changes, columns);
    if !JsonEquals(x.primaryKey, y.primaryKey) {
      PushOnce(cs, SetPrimaryKey(table));
      cs := cs + [SetPrimaryKey(table)];
    }
    NamedApart(x, y, table, columns, cs, {}, Unique);
    cs := DiffNamed(x.Items(Unique), y.Items(Unique), Unique, table, cs);
    NamedApart(x, y, table, columns, cs, {Unique}, ForeignKey);
    cs := DiffNamed(x.Items(ForeignKey), y.Items(ForeignKey), ForeignKey, table, cs);
    NamedApart(x, y, table, columns, cs, {Unique, ForeignKey}, Check);
    cs := DiffNamed(x.Items(Check), y.Items(Check), Check, table, cs);
    NamedApart(x, y, table, columns, cs, {Unique, ForeignKey, Check}, Index);
    cs := DiffNamed(x.Items(Index), y.Items(Index), Index, table, cs);
  }

  /** The columns push neither a primary key nor a constraint or index. */
  predicate OnlyColumns(cs: seq<Change>, table: string) {
    forall c | c in cs && About(c) == Inside(table) :: c.AddColumn? || c.DropColumn? || c.AlterColumn?
  }

  lemma ColumnsOnly(x: Table, y: Table, table: string, changes: seq<Change>, cs: seq<Change>)
    requires forall c :: c in cs <==> c in changes || NeededColumns(x, y, table, SortedKeys(x.columns.Keys + y.columns.Keys), c)
    ensures NoneAbout(changes, Inside(table)) ==> OnlyColumns(cs, table) && SetPrimaryKey(table) !in cs
  {
    hide NeededColumn, SortedKeys;
    forall c | NeededColumns(x, y, table, SortedKeys(x.columns.Keys + y.columns.Keys), c)
      ensures c.AddColumn? || c.DropColumn? || c.AlterColumn?
    {
      var n :| n in SortedKeys(x.columns.Keys + y.columns.Keys) && NeededColumn(x, y, table, n, c);
      ColumnAbout(x, y, table, n, c);
    }
    PrimaryKeyAbout(table);
  }

  /** What has been pushed before the constraints or indexes of one kind holds none of them. */
  lemma NamedApart(x: Table, y: Table, table: string, columns: seq<Change>, cs: seq<Change>, done: set<Kind>, k: Kind)
    requires k !in done
    requires forall c | c in cs :: c in columns || c == SetPrimaryKey(table)
                                   || exists j | j in done :: NeededNamed(x.Items(j), y.Items(j), j, table, c)
    ensures OnlyColumns(columns, table) ==> NoneNamed(cs, table, k)
  {
    hide NeededNamed;
    forall c | c in cs && OfNamed(c, table, k) ensures c in columns {
      forall j | j in done ensures !NeededNamed(x.Items(j), y.Items(j), j, table, c) {
        OtherKind(x.Items(j), y.Items(j), j, table, c);
      }
    }
  }

  method DiffSequence(from: Schema, to: Schema, n: string, changes: seq<Change>) returns (cs: seq<Change>)
    ensures forall c :: c in cs <==> c in changes || NeededSequence(from, to, n, c)
    ensures ListedOnce(changes) && NoneAbout(changes, OfSequence(n)) ==> ListedOnce(cs)
  {
    hide ListedOnce;
    cs := changes;
    if n !in from.sequences && n in to.sequences {
      PushOnce(cs, CreateSequence(n));
      cs := cs + [CreateSequence(n)];
    } else if n in from.sequences && n !in to.sequences {
      PushOnce(cs, DropSequence(n));
      cs := cs + [DropSequence(n)];
    } else if n in from.sequences && n in to.sequences && from.sequences[n] != to.sequences[n] {
      PushOnce(cs, AlterSequenceOwner(n));
      cs := cs + [AlterSequenceOwner(n)];
    }
  }

  method DiffAtTable(from: Schema, to: Schema, t: string, changes: seq<Change>) returns (cs: seq<Change>)
    ensures forall c :: c in cs <==> c in changes || NeededAtTable(from, to, t, c)
    ensures SchemaDistinct(from) && SchemaDistinct(to) ==>
              (ListedOnce(changes) && NoneAbout(changes, OfTable(t)) && NoneAbout(changes, Inside(t)) ==> ListedOnce(cs))
  {
    hide NeededTable, ListedOnce, TableDistinct;
    cs := changes;
    if t !in from.tables && t in to.tables {
      PushOnce(cs, CreateTable(t));
      cs := cs + [CreateTable(t)];
    } else if t in from.tables && t !in to.tables {
      PushOnce(cs, DropTable(t));
      cs := cs + [DropTable(t)];
    } else if t in from.tables && t in to.tables {
      cs := DiffTable(from.tables[t], to.tables[t], t, cs);
    }
  }

  lemma SequencesApart(from: Schema, to: Schema, names: seq<string>, cs: seq<Change>)
    requires forall c :: c in cs <==> NeededSequences(from, to, names, c)
    ensures forall n | n !in names :: NoneAbout(cs, OfSequence(n))
    ensures forall t :: NoneAbout(cs, OfTable(t)) && NoneAbout(cs, Inside(t))
  {
    hide NeededSequence, About;
    forall c | c in cs ensures About(c).OfSequence? && About(c).name in names {
      var n :| n in names && NeededSequence(from, to, n, c);
      SequenceAbout(from, to, n, c);
    }
  }

  lemma TablesApart(from: Schema, to: Schema, names: seq<string>, t: string, sequences: seq<Change>, cs: seq<Change>)
    requires t !in names && NoneAbout(sequences, OfTable(t)) && NoneAbout(sequences, Inside(t))
    requires forall c :: c in cs <==> c in sequences || NeededTables(from, to, names, c)
    ensures NoneAbout(cs, OfTable(t)) && NoneAbout(cs, Inside(t))
  {
    hide NeededAtTable, About;
    forall c | NeededTables(from, to, names, c) ensures About(c) != OfTable(t) && About(c) != Inside(t) {
      var n :| n in names && NeededAtTable(from, to, n, c);
      AtTableAbout(from, to, n, c);
    }
  }

  /** diffSchemas */
  method DiffSchemas(from: Schema, to: Schema) returns (changes: seq<Change>)
    ensures IsDiff(from, to, changes)
    ensures SchemaDistinct(from) && SchemaDistinct(to) ==> ListedOnce(changes)
  {
    hide NeededSequence, NeededAtTable, Phase, SortedKeys, ListedOnce, NoneAbout, SchemaDistinct;
    var cs := [];
    var names := SortedKeys(from.sequences.Keys + to.sequences.Keys);
    EmptyOnce();
    for i := 0 to |names|
      invariant forall c :: c in cs <==> NeededSequences(from, to, names[..i], c)
      invariant ListedOnce(cs)
    {
      assert forall m :: m in names[..i + 1] <==> m in names[..i] || m == names[i];
      SequencesApart(from, to, names[..i], cs);
      cs := DiffSequence(from, to, names[i], cs);
    }
    assert names[..|names|] == names;
    SequencesApart(from, to, names, cs);
    ghost var sequences := cs;
    names := SortedKeys(from.tables.Keys + to.tables.Keys);
    for i := 0 to |names|
      invariant forall c :: c in cs <==> c in sequences || NeededTables(from, to, names[..i], c)
      invariant SchemaDistinct(from) && SchemaDistinct(to) ==> ListedOnce(cs)
    {
      assert forall m :: m in names[..i + 1] <==> m in names[..i] || m == names[i];
      TablesApart(from, to, names[..i], names[i], sequences, cs);
      cs := DiffAtTable(from, to, names[i], cs);
    }
    assert names[..|names|] == names;
    changes := SortByPhase(cs);
    SameOnce(cs, changes);
  }

  lemma EmptyOnce()
    ensures ListedOnce([])
  {}

  lemma SameOnce(cs: seq<Change>, ds: seq<Change>)
    requires multiset(cs) == multiset(ds)
    ensures forall c :: c in cs <==> c in ds
    ensures ListedOnce(cs) <==> ListedOnce(ds)
  {
    assert forall c :: c in cs <==> c in multiset(cs);
    assert forall c :: c in ds <==> c in multiset(ds);
  }

  // ---------------------------------------------------------------- nothing to do

  /** A table up to column order and the names of constraints and indexes. */
  datatype TableView = TableView(columns: map<string, Column>, primaryKey: Json, keys: map<Kind, set<string>>)

  datatype SchemaView = SchemaView(sequences: map<string, Option<string>>, tables: map<string, TableView>)


  function ViewTable(t: Table): TableView {
    TableView(t.columns, t.primaryKey, map k | k in KINDS :: KeysOf(t.Items(k)))
  }

  function View(s: Schema): SchemaView {
    SchemaView(s.sequences, map t | t in s.tables :: ViewTable(s.tables[t]))
  }

  lemma EqualKeysNeedNothing(before: seq<Named>, after: seq<Named>, k: Kind, t: string, c: Change)
    requires KeysOf(before) == KeysOf(after)
    ensures !NeededNamed(before, after, k, t, c)
  {
    hide NameOf, KeysOf;
  }

  lemma EqualTablesNeedNothing(x: Table, y: Table, t: string, c: Change)
    requires ViewTable(x) == ViewTable(y)
    ensures !NeededTable(x, y, t, c)
  {
    forall k | k in KINDS ensures KeysOf(x.Items(k)) == KeysOf(y.Items(k)) {
      assert ViewTable(x).keys[k] == ViewTable(y).keys[k];
    }
    forall n ensures !NeededColumn(x, y, t, n, c) {}
    EqualKeysNeedNothing(x.Items(Unique), y.Items(Unique), Unique, t, c);
    EqualKeysNeedNothing(x.Items(ForeignKey), y.Items(ForeignKey), ForeignKey, t, c);
    EqualKeysNeedNothing(x.Items(Check), y.Items(Check), Check, t, c);
    EqualKeysNeedNothing(x.Items(Index), y.Items(Index), Index, t, c);
    hide NeededNamed, NeededColumn, KeysOf;
  }

  lemma EqualViewsNeedNothing(from: Schema, to: Schema, c: Change)
    requires View(from) == View(to)
    ensures !Needed(from, to, c)
  {
    hide NeededTable, ViewTable;
    assert View(from).tables.Keys == from.tables.Keys && View(to).tables.Keys == to.tables.Keys;
    forall n ensures !NeededSequence(from, to, n, c) {}
    forall t ensures !NeededAtTable(from, to, t, c) {
      if t in from.tables && t in to.tables {
        assert View(from).tables[t] == View(to).tables[t];
        EqualTablesNeedNothing(from.tables[t], to.tables[t], t, c);
      }
    }
    hide NeededSequence, NeededAtTable;
  }

  lemma NothingNeededKeys(from: Schema, to: Schema, t: string, k: Kind)
    requires HoldsNeeded(from, to, []) && t in from.tables && t in to.tables
    ensures KeysOf(from.tables[t].Items(k)) == KeysOf(to.tables[t].Items(k))
  {
    var before, after := from.tables[t].Items(k), to.tables[t].Items(k);
    forall c | OfNamed(c, t, k) ensures !NeededNamed(before, after, k, t, c) {
      InsideChanges(from, to, [], t, c);
      NeededOfNamed(from.tables[t], to.tables[t], t, k, c);
    }
    hide HoldsNeeded, NameOf;
    forall key | key in KeysOf(after) ensures key in KeysOf(before) {
      assert OfNamed(Add(k, t, NameOf(after, key)), t, k);
    }
    forall key | key in KeysOf(before) ensures key in KeysOf(after) {
      assert OfNamed(Drop(k, t, NameOf(before, key)), t, k);
    }
  }

  lemma NothingNeededColumns(from: Schema, to: Schema, t: string)
    requires HoldsNeeded(from, to, []) && t in from.tables && t in to.tables
    ensures from.tables[t].columns == to.tables[t].columns
  {
    var x, y := from.tables[t].columns, to.tables[t].columns;
    forall n, c | OfColumn(c, t, n) ensures !NeededColumn(from.tables[t], to.tables[t], t, n, c) {
      ColumnChangesIn(from, to, [], t, n, c);
    }
    hide HoldsNeeded, ColumnChanges;
    forall n ensures n in x <==> n in y {
      assert OfColumn(AddColumn(t, n, true), t, n) && OfColumn(AddColumn(t, n, false), t, n) && OfColumn(DropColumn(t, n), t, n);
    }
    forall n | n in x && n in y ensures x[n] == y[n] {
      ColumnChangesComplete(x[n], y[n]);
      assert OfColumn(AlterColumn(t, n, ColumnChanges(x[n], y[n])), t, n);
    }
  }

  lemma NothingNeededTable(from: Schema, to: Schema, t: string)
    requires HoldsNeeded(from, to, []) && t in from.tables && t in to.tables
    ensures ViewTable(from.tables[t]) == ViewTable(to.tables[t])
  {
    hide HoldsNeeded, KeysOf;
    var x, y := from.tables[t], to.tables[t];
    NothingNeededColumns(from, to, t);
    PrimaryKeyChange(from, to, [], t);
    forall k | k in KINDS ensures KeysOf(x.Items(k)) == KeysOf(y.Items(k)) { NothingNeededKeys(from, to, t, k); }
    assert ViewTable(x).keys == ViewTable(y).keys;
  }

  lemma NothingNeeded(from: Schema, to: Schema)
    requires HoldsNeeded(from, to, [])
    ensures View(from) == View(to)
  {
    hide HoldsNeeded, ViewTable;
    forall n ensures n in from.sequences <==> n in to.sequences
      ensures n in from.sequences ==> from.sequences[n] == to.sequences[n]
    {
      SequenceChanges(from, to, [], n);
    }
    assert from.sequences == to.sequences;
    forall t ensures t in from.tables <==> t in to.tables { TableChanges(from, to, [], t); }
    forall t | t in from.tables ensures ViewTable(from.tables[t]) == ViewTable(to.tables[t]) {
      NothingNeededTable(from, to, t);
    }
    assert View(from).tables == View(to).tables;
  }

  lemma FirstIsNeeded(from: Schema, to: Schema, cs: seq<Change>)
    requires HoldsNeeded(from, to, cs) && cs != []
    ensures Needed(from, to, cs[0])
  {
    hide Needed;
    assert cs[0] in cs;
  }

  /** The diff is empty exactly when source and target already agree that far. */
  lemma DiffEmptyIff(from: Schema, to: Schema, cs: seq<Change>)
    requires HoldsNeeded(from, to, cs)
    ensures cs == [] <==> View(from) == View(to)
  {
    hide HoldsNeeded, View, Needed;
    if cs == [] {
      NothingNeeded(from, to);
    } else if View(from) == View(to) {
      EqualViewsNeedNothing(from, to, cs[0]);
      FirstIsNeeded(from, to, cs);
    }
  }

  /** An added column is marked exactly when a row that leaves it out would be refused. */
  lemma AddedColumnMarked(from: Schema, to: Schema, cs: seq<Change>, t: string, n: string, marked: bool)
    requires IsDiff(from, to, cs) && AddColumn(t, n, marked) in cs
    ensures t in to.tables && n in to.tables[t].columns
    ensures var column := to.tables[t].columns[n];
            marked <==> !column.nullable && column.default == Null && !column.generated
  {
    var c := AddColumn(t, n, marked);
    assert Needed(from, to, c);
    AddedColumnNeeded(from, to, t, n, marked);
  }

  lemma AddedColumnNeeded(from: Schema, to: Schema, t: string, n: string, marked: bool)
    requires Needed(from, to, AddColumn(t, n, marked))
    ensures t in from.tables && t in to.tables && NeededColumn(from.tables[t], to.tables[t], t, n, AddColumn(t, n, marked))
  {
    var c := AddColumn(t, n, marked);
    hide NeededTable, NeededColumn, SortedKeys, NeededNamed;
    forall m | NeededSequence(from, to, m, c) ensures false { SequenceAbout(from, to, m, c); }
    var u :| u in SortedKeys(from.tables.Keys + to.tables.Keys) && NeededAtTable(from, to, u, c);
    AtTableAbout(from, to, u, c);
    AddedInTable(from.tables[t], to.tables[t], t, n, marked);
  }

  lemma AddedInTable(x: Table, y: Table, t: string, n: string, marked: bool)
    requires NeededTable(x, y, t, AddColumn(t, n, marked))
    ensures NeededColumn(x, y, t, n, AddColumn(t, n, marked))
  {
    var c := AddColumn(t, n, marked);
    hide NeededNamed, NeededColumn, SortedKeys, JsonEquals;
    NotNamed(x.Items(Unique), y.Items(Unique), Unique, t, c);
    NotNamed(x.Items(ForeignKey), y.Items(ForeignKey), ForeignKey, t, c);
    NotNamed(x.Items(Check), y.Items(Check), Check, t, c);
    NotNamed(x.Items(Index), y.Items(Index), Index, t, c);
    var m :| m in SortedKeys(x.columns.Keys + y.columns.Keys) && NeededColumn(x, y, t, m, c);
    ColumnAbout(x, y, t, m, c);
  }
}
