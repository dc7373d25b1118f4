/**
 * Making the changes of a diff one after the other on a catalogue, the way their statements are
 * run: by name, and refused when the name is taken or missing.
 */
module SchemaChanges {
  import opened Text
  import opened CanonicalJson
  import opened SchemaDiffs

  /** What a catalogue holds entries for. */
  datatype Slot =
    | SequenceSlot(sequence: string)
    | TableSlot(table: string)
    | PrimaryKeySlot(table: string)
    | ColumnSlot(table: string, column: string)
    | NamedSlot(table: string, kind: Kind, name: string)

  datatype Entry = Owner(owner: Option<string>) | Present | KeyColumns(columns: Json) | Shape(shape: Column) | Definition(key: string)

  type Catalog = map<Slot, Entry>

  function Lookup(db: Catalog, s: Slot): Option<Entry> {
    if s in db then Some(db[s]) else None
  }

  /** The first item of a name. */
  function EntryOf(items: seq<Named>, name: string): (r: Option<Entry>)
    ensures r.Some? <==> exists i | i in items :: i.name == name
    ensures r.Some? ==> r.value.Definition? && Named(name, r.value.key) in items
  {
    if items == [] then None
    else if items[0].name == name then Some(Definition(items[0].key))
    else EntryOf(items[1..], name)
  }

  /** The entry of a slot in a schema. */
  function EntryIn(schema: Schema, s: Slot): Option<Entry> {
    match s
    case SequenceSlot(n) => if n in schema.sequences then Some(Owner(schema.sequences[n])) else None
    case TableSlot(t) => if t in schema.tables then Some(Present) else None
    case PrimaryKeySlot(t) => if t in schema.tables then Some(KeyColumns(schema.tables[t].primaryKey)) else None
    case ColumnSlot(t, n) =>
      if t in schema.tables && n in schema.tables[t].columns then Some(Shape(schema.tables[t].columns[n])) else None
    case NamedSlot(t, k, n) => if t in schema.tables then EntryOf(schema.tables[t].Items(k), n) else None
  }

  function Slots(schema: Schema): set<Slot> {
    (set n | n in schema.sequences :: SequenceSlot(n))
    + (set t | t in schema.tables :: TableSlot(t))
    + (set t | t in schema.tables :: PrimaryKeySlot(t))
    + (set t, n | t in schema.tables && n in schema.tables[t].columns :: ColumnSlot(t, n))
    + (set t, k, i | t in schema.tables && k in KINDS && i in schema.tables[t].Items(k) :: NamedSlot(t, k, i.name))
  }

  lemma SlotsHeld(schema: Schema, s: Slot)
    ensures s in Slots(schema) <==> EntryIn(schema, s).Some?
  {
    if s.NamedSlot? && EntryIn(schema, s).Some? {
      assert s.kind.Unique? || s.kind.ForeignKey? || s.kind.Check? || s.kind.Index?;
      var i :| i in schema.tables[s.table].Items(s.kind) && i.name == s.name;
      assert s == NamedSlot(s.table, s.kind, i.name);
    }
  }

  /** A database in which a schema has been set up. */
  function CatalogOf(schema: Schema): (db: Catalog)
    ensures forall s :: Lookup(db, s) == EntryIn(schema, s)
    ensures forall s :: s in db <==> EntryIn(schema, s).Some?
  {
    assert forall s :: s in Slots(schema) <==> EntryIn(schema, s).Some? by {
      forall s ensures s in Slots(schema) <==> EntryIn(schema, s).Some? { SlotsHeld(schema, s); }
    }
    map s | s in Slots(schema) :: EntryIn(schema, s).value
  }

  // ---------------------------------------------------------------- one change

  /** The slot that a change names. */
  function SlotOf(c: Change): Slot {
    match c
    case CreateSequence(n) => SequenceSlot(n)
    case DropSequence(n) => SequenceSlot(n)
    case AlterSequenceOwner(n) => SequenceSlot(n)
    case CreateTable(t) => TableSlot(t)
    case DropTable(t) => TableSlot(t)
    case AddColumn(t, n, _) => ColumnSlot(t, n)
    case DropColumn(t, n) => ColumnSlot(t, n)
    case AlterColumn(t, n, _) => ColumnSlot(t, n)
    case SetPrimaryKey(t) => PrimaryKeySlot(t)
    case Add(k, t, n) => NamedSlot(t, k, n)
    case Drop(k, t, n) => NamedSlot(t, k, n)
  }

  predicate InTable(s: Slot, t: string) {
    !s.SequenceSlot? && s.table == t
  }

  /** The slots that a change writes: a table comes and goes with all that is in it. */
  predicate Writes(c: Change, s: Slot) {
    s == SlotOf(c) || ((c.CreateTable? || c.DropTable?) && InTable(s, c.table))
  }

  predicate Creates(c: Change) {
    c.CreateSequence? || c.CreateTable? || c.AddColumn? || c.Add?
  }

  predicate Drops(c: Change) {
    c.DropSequence? || c.DropTable? || c.DropColumn? || c.Drop?
  }

  /** A name that is created must be free, any other must be there, and so must the table. */
  predicate Applies(db: Catalog, c: Change) {
    && (SlotOf(c) in db <==> !Creates(c))
    && (About(c).Inside? ==> TableSlot(About(c).table) in db)
  }

  /** What a change writes into a slot: the definition of the target, as far as the change goes. */
  function Written(target: Schema, c: Change, s: Slot, was: Option<Entry>): Option<Entry> {
    if Drops(c) then None
    else if c.AlterColumn? then
      var x, y := was, EntryIn(target, s);
      if x.Some? && x.value.Shape? && y.Some? && y.value.Shape?
      then Some(Shape(Altered(x.value.shape, y.value.shape, c.changed)))
      else x
    else EntryIn(target, s)
  }

  function EntryAfter(db: Catalog, target: Schema, c: Change, s: Slot): Option<Entry> {
    if Writes(c, s) then Written(target, c, s, Lookup(db, s)) else Lookup(db, s)
  }

  /** The catalogue after a change. */
  function Make(db: Catalog, target: Schema, c: Change): (r: Catalog)
    ensures forall s :: Lookup(r, s) == EntryAfter(db, target, c, s)
  {
    assert forall s | EntryAfter(db, target, c, s).Some? :: s in db.Keys + Slots(target) by {
      hide Slots;
      forall s | EntryAfter(db, target, c, s).Some? ensures s in db.Keys + Slots(target) { SlotsHeld(target, s); }
    }
    map s | s in db.Keys + Slots(target) && EntryAfter(db, target, c, s).Some? :: EntryAfter(db, target, c, s).value
  }

  // ---------------------------------------------------------------- one after the other

  /** The catalogue after a list of changes, none if one of them is refused. */
  function MakeAll(db: Catalog, target: Schema, cs: seq<Change>): Option<Catalog> {
    if cs == [] then Some(db)
    else
      var last := |cs| - 1;
      var before := MakeAll(db, target, cs[..last]);
      if before.Some? && Applies(before.value, cs[last]) then Some(Make(before.value, target, cs[last])) else None
  }

  lemma {:induction false} PrefixMade(db: Catalog, target: Schema, cs: seq<Change>, i: nat)
    requires i <= |cs| && MakeAll(db, target, cs).Some?
    ensures MakeAll(db, target, cs[..i]).Some?
  {
    if i < |cs| {
      PrefixMade(db, target, cs[..|cs| - 1], i);
      assert cs[..|cs| - 1][..i] == cs[..i];
    } else {
      assert cs[..i] == cs;
    }
  }

  lemma MakeOneMore(db: Catalog, target: Schema, cs: seq<Change>, i: nat)
    requires i < |cs|
    ensures MakeAll(db, target, cs[..i + 1]) ==
            var before := MakeAll(db, target, cs[..i]);
            if before.Some? && Applies(before.value, cs[i]) then Some(Make(before.value, target, cs[i])) else None
  {
    assert cs[..i + 1][..i] == cs[..i];
  }

  /** A slot that no change writes stays as it is. */
  lemma {:induction false} Unwritten(db: Catalog, target: Schema, cs: seq<Change>, s: Slot)
    requires MakeAll(db, target, cs).Some? && forall c | c in cs :: !Writes(c, s)
    ensures Lookup(MakeAll(db, target, cs).value, s) == Lookup(db, s)
  {
    hide Writes, Written;
    if cs != [] {
      Unwritten(db, target, cs[..|cs| - 1], s);
    }
  }

  /** A slot holds what the last change that writes it has left there. */
  lemma {:induction false} LastWritten(db: Catalog, target: Schema, cs: seq<Change>, i: nat, s: Slot)
    requires i < |cs| && MakeAll(db, target, cs).Some? && MakeAll(db, target, cs[..i]).Some?
    requires Writes(cs[i], s) && forall j | i < j < |cs| :: !Writes(cs[j], s)
    ensures Lookup(MakeAll(db, target, cs).value, s)
         == Written(target, cs[i], s, Lookup(MakeAll(db, target, cs[..i]).value, s))
  {
    hide Writes, Written, Applies;
    var last := |cs| - 1;
    if i < last {
      assert cs[..last][..i] == cs[..i];
      LastWritten(db, target, cs[..last], i, s);
    }
  }

  // ---------------------------------------------------------------- which changes meet

  lemma CountedTwice(cs: seq<Change>, i: nat, j: nat)
    requires i < j < |cs| && cs[i] == cs[j]
    ensures multiset(cs)[cs[i]] >= 2
  {
    assert cs == cs[..j] + cs[j..];
    assert multiset(cs) == multiset(cs[..j]) + multiset(cs[j..]);
    assert cs[..j][i] in multiset(cs[..j]) && cs[j..][0] in multiset(cs[j..]);
  }

  lemma OnceAt(cs: seq<Change>, i: nat, j: nat)
    requires ListedOnce(cs) && i < |cs| && j < |cs| && cs[i] == cs[j]
    ensures i == j
  {
    assert cs[i] in cs;
    if i < j { CountedTwice(cs, i, j); }
    if j < i { CountedTwice(cs, j, i); }
  }

  /** The two changes that may write one slot: a constraint or index dropped and one added under its name. */
  predicate Swap(c: Change, d: Change) {
    && SlotOf(c) == SlotOf(d)
    && ((c.Add? && d.Drop?) || (c.Drop? && d.Add?))
  }

  lemma InsideBoth(from: Schema, to: Schema, cs: seq<Change>, c: Change)
    requires HoldsNeeded(from, to, cs) && c in cs && About(c).Inside?
    ensures About(c).table in from.tables && About(c).table in to.tables
    ensures CreateTable(About(c).table) !in cs && DropTable(About(c).table) !in cs
  {
    hide Needed;
    NeededAbout(from, to, c);
    AtTableAbout(from, to, About(c).table, c);
    TableChanges(from, to, cs, About(c).table);
    hide *;
  }

  lemma SameSlot(from: Schema, to: Schema, cs: seq<Change>, c: Change, d: Change)
    requires HoldsNeeded(from, to, cs) && c in cs && d in cs && SlotOf(c) == SlotOf(d)
    ensures c == d || Swap(c, d)
  {
    hide HoldsNeeded, NeededColumn;
    match SlotOf(c)
    case SequenceSlot(n) => SequenceChanges(from, to, cs, n);
    case TableSlot(t) => TableChanges(from, to, cs, t);
    case ColumnSlot(t, n) =>
      InsideBoth(from, to, cs, c);
      ColumnChangesIn(from, to, cs, t, n, c);
      ColumnChangesIn(from, to, cs, t, n, d);
      OneColumnChange(from.tables[t], to.tables[t], t, n, c, d);
    case _ =>
  }

  lemma OneColumnChange(x: Table, y: Table, t: string, n: string, c: Change, d: Change)
    requires NeededColumn(x, y, t, n, c) && NeededColumn(x, y, t, n, d)
    ensures c == d
  {
    hide ColumnChanges;
  }

  /** Two changes that write one slot are one change, or drop and add under one name. */
  lemma WritersMeet(from: Schema, to: Schema, cs: seq<Change>, c: Change, d: Change, s: Slot)
    requires HoldsNeeded(from, to, cs) && c in cs && d in cs && Writes(c, s) && Writes(d, s)
    ensures c == d || Swap(c, d)
  {
    hide HoldsNeeded;
    if SlotOf(c) == SlotOf(d) {
      SameSlot(from, to, cs, c, d);
    } else {
      if About(c).Inside? { InsideBoth(from, to, cs, c); }
      if About(d).Inside? { InsideBoth(from, to, cs, d); }
    }
  }

  /** Names that are dropped or altered are there at the start; only an added name may be taken. */
  lemma AppliesAtStart(from: Schema, to: Schema, cs: seq<Change>, c: Change)
    requires HoldsNeeded(from, to, cs) && c in cs
    ensures About(c).Inside? ==> TableSlot(About(c).table) in CatalogOf(from)
    ensures !c.Add? ==> (SlotOf(c) in CatalogOf(from) <==> !Creates(c))
  {
    hide HoldsNeeded, CatalogOf, NeededTable, EntryOf;
    match SlotOf(c)
    case SequenceSlot(n) => SequenceChanges(from, to, cs, n);
    case TableSlot(t) => TableChanges(from, to, cs, t);
    case PrimaryKeySlot(t) => InsideBoth(from, to, cs, c);
    case ColumnSlot(t, n) =>
      InsideBoth(from, to, cs, c);
      ColumnAtStart(from, to, cs, c);
    case NamedSlot(t, k, n) =>
      InsideBoth(from, to, cs, c);
      if c.Drop? { NamedAtStart(from, to, cs, c); }
  }

  lemma ColumnAtStart(from: Schema, to: Schema, cs: seq<Change>, c: Change)
    requires HoldsNeeded(from, to, cs) && c in cs && (c.AddColumn? || c.DropColumn? || c.AlterColumn?)
    requires c.table in from.tables && c.table in to.tables
    ensures c.column in from.tables[c.table].columns <==> !c.AddColumn?
  {
    hide HoldsNeeded, ColumnChanges;
    ColumnChangesIn(from, to, cs, c.table, c.column, c);
  }

  lemma NamedAtStart(from: Schema, to: Schema, cs: seq<Change>, c: Change)
    requires HoldsNeeded(from, to, cs) && c in cs && c.Drop?
    requires c.table in from.tables && c.table in to.tables
    ensures EntryOf(from.tables[c.table].Items(c.kind), c.name).Some?
  {
    hide HoldsNeeded, NeededTable, EntryOf, NeededNamed;
    var x, y := from.tables[c.table], to.tables[c.table];
    InsideChanges(from, to, cs, c.table, c);
    NeededOfNamed(x, y, c.table, c.kind, c);
    DroppedIsHeld(x.Items(c.kind), y.Items(c.kind), c.kind, c.table, c.name);
  }

  lemma DroppedIsHeld(before: seq<Named>, after: seq<Named>, k: Kind, t: string, n: string)
    requires NeededNamed(before, after, k, t, Drop(k, t, n))
    ensures EntryOf(before, n).Some?
  {
    hide EntryOf, NameOf;
    var key :| key in KeysOf(before) && Drop(k, t, n) == Drop(k, t, NameOf(before, key));
    assert Named(NameOf(before, key), key) in before;
  }

  // ---------------------------------------------------------------- which lists go through

  /** Every name that is added and taken at the start has been dropped before. */
  predicate Clear(from: Schema, cs: seq<Change>) {
    forall i | 0 <= i < |cs| && cs[i].Add? && SlotOf(cs[i]) in CatalogOf(from) ::
      Drop(cs[i].kind, cs[i].table, cs[i].name) in cs[..i]
  }

  /** Nothing before a change writes the table it is in. */
  lemma TableStays(from: Schema, to: Schema, cs: seq<Change>, i: nat)
    requires HoldsNeeded(from, to, cs) && i < |cs| && About(cs[i]).Inside?
    requires MakeAll(CatalogOf(from), to, cs[..i]).Some?
    ensures TableSlot(About(cs[i]).table) in MakeAll(CatalogOf(from), to, cs[..i]).value
  {
    hide HoldsNeeded, CatalogOf, MakeAll;
    var s := TableSlot(About(cs[i]).table);
    InsideBoth(from, to, cs, cs[i]);
    AppliesAtStart(from, to, cs, cs[i]);
    forall d | d in cs[..i] ensures !Writes(d, s) { assert d in cs; }
    Unwritten(CatalogOf(from), to, cs[..i], s);
  }

  /** A change that is not the second one of a swap finds its slot as it was at the start. */
  lemma SlotStays(from: Schema, to: Schema, cs: seq<Change>, i: nat)
    requires HoldsNeeded(from, to, cs) && ListedOnce(cs) && i < |cs|
    requires forall d | d in cs[..i] :: !Swap(d, cs[i])
    requires MakeAll(CatalogOf(from), to, cs[..i]).Some?
    ensures Lookup(MakeAll(CatalogOf(from), to, cs[..i]).value, SlotOf(cs[i])) == Lookup(CatalogOf(from), SlotOf(cs[i]))
  {
    hide HoldsNeeded, CatalogOf, MakeAll, ListedOnce, Swap, SlotOf;
    forall d | d in cs[..i] ensures !Writes(d, SlotOf(cs[i])) {
      var j :| 0 <= j < i && cs[j] == d;
      if d == cs[i] { OnceAt(cs, i, j); }
      if Writes(d, SlotOf(cs[i])) { WritersMeet(from, to, cs, cs[i], d, SlotOf(cs[i])); SwapSymmetric(d, cs[i]); }
    }
    hide Writes;
    Unwritten(CatalogOf(from), to, cs[..i], SlotOf(cs[i]));
  }

  lemma SwapSymmetric(c: Change, d: Change)
    ensures Swap(c, d) <==> Swap(d, c)
    ensures Swap(c, d) && c.Add? ==> d == Drop(c.kind, c.table, c.name)
    ensures Swap(c, d) && c.Drop? ==> d == Add(c.kind, c.table, c.name)
  {}

  lemma DropFrees(to: Schema, drop: Change, s: Slot)
    ensures drop.Drop? && s == SlotOf(drop) ==> Writes(drop, s) && forall was :: Written(to, drop, s, was) == None
  {}

  /** Between a drop and an add under its name nothing writes their slot. */
  lemma NoneBetween(from: Schema, to: Schema, cs: seq<Change>, j: nat, i: nat)
    requires HoldsNeeded(from, to, cs) && ListedOnce(cs) && j < i < |cs| && cs[i].Add? && Swap(cs[j], cs[i])
    ensures forall m | j < m < i :: !Writes(cs[m], SlotOf(cs[i]))
  {
    SwapSymmetric(cs[i], cs[j]);
    assert Writes(cs[i], SlotOf(cs[i]));
    hide HoldsNeeded, ListedOnce, Writes;
    forall m | j < m < i ensures !Writes(cs[m], SlotOf(cs[i])) {
      if Writes(cs[m], SlotOf(cs[i])) {
        WritersMeet(from, to, cs, cs[i], cs[m], SlotOf(cs[i]));
        SwapSymmetric(cs[i], cs[m]);
        if cs[m] == cs[i] { OnceAt(cs, m, i); } else { OnceAt(cs, m, j); }
      }
    }
  }

  /** After a drop, the name is free until something is added under it. */
  lemma DroppedIsFree(from: Schema, to: Schema, cs: seq<Change>, j: nat, i: nat)
    requires HoldsNeeded(from, to, cs) && ListedOnce(cs) && j < i < |cs| && cs[i].Add? && Swap(cs[j], cs[i])
    requires MakeAll(CatalogOf(from), to, cs[..i]).Some?
    ensures SlotOf(cs[i]) !in MakeAll(CatalogOf(from), to, cs[..i]).value
  {
    var s := SlotOf(cs[i]);
    NoneBetween(from, to, cs, j, i);
    DropFrees(to, cs[j], s);
    assert Swap(cs[j], cs[i]) && cs[i].Add?;
    hide HoldsNeeded, CatalogOf, MakeAll, ListedOnce, Written, SlotOf, Writes;
    assert cs[..i][..j] == cs[..j];
    PrefixMade(CatalogOf(from), to, cs[..i], j);
    LastWritten(CatalogOf(from), to, cs[..i], j, s);
  }

  lemma {:induction false} ClearGoesThrough(from: Schema, to: Schema, cs: seq<Change>, i: nat)
    requires HoldsNeeded(from, to, cs) && ListedOnce(cs) && Clear(from, cs) && i <= |cs|
    ensures MakeAll(CatalogOf(from), to, cs[..i]).Some?
  {
    if i > 0 {
      ClearGoesThrough(from, to, cs, i - 1);
      ClearStep(from, to, cs, i - 1);
      MakeOneMore(CatalogOf(from), to, cs, i - 1);
    }
  }

  lemma ClearStep(from: Schema, to: Schema, cs: seq<Change>, i: nat)
    requires HoldsNeeded(from, to, cs) && ListedOnce(cs) && Clear(from, cs) && i < |cs|
    requires MakeAll(CatalogOf(from), to, cs[..i]).Some?
    ensures Applies(MakeAll(CatalogOf(from), to, cs[..i]).value, cs[i])
  {
    var c := cs[i];
    if About(c).Inside? { TableStays(from, to, cs, i); }
    AppliesAtStart(from, to, cs, c);
    hide HoldsNeeded, CatalogOf, MakeAll, ListedOnce, Clear, SlotOf;
    if c.Drop? { NotAddedBefore(from, cs, i); }
    if d :| d in cs[..i] && Swap(d, c) {
      var j :| 0 <= j < i && cs[j] == d;
      DroppedIsFree(from, to, cs, j, i);
    } else {
      SlotStays(from, to, cs, i);
      if c.Add? { AddedIsFree(from, cs, i); }
    }
  }

  /** A dropped name was there at the start, so it is added only after it has been dropped. */
  lemma NotAddedBefore(from: Schema, cs: seq<Change>, i: nat)
    requires ListedOnce(cs) && Clear(from, cs) && i < |cs| && cs[i].Drop? && SlotOf(cs[i]) in CatalogOf(from)
    ensures forall j | 0 <= j < i :: !Swap(cs[j], cs[i])
  {
    hide CatalogOf, ListedOnce;
    forall j | 0 <= j < i ensures !Swap(cs[j], cs[i]) {
      if Swap(cs[j], cs[i]) {
        assert cs[i] in cs[..j];
        var m :| 0 <= m < j && cs[m] == cs[i];
        OnceAt(cs, m, i);
      }
    }
  }

  lemma AddedIsFree(from: Schema, cs: seq<Change>, i: nat)
    requires Clear(from, cs) && i < |cs| && cs[i].Add? && forall d | d in cs[..i] :: !Swap(d, cs[i])
    ensures SlotOf(cs[i]) !in CatalogOf(from)
  {
    hide CatalogOf;
    assert Swap(Drop(cs[i].kind, cs[i].table, cs[i].name), cs[i]);
  }

  lemma GoesThroughClear(from: Schema, to: Schema, cs: seq<Change>)
    requires HoldsNeeded(from, to, cs) && ListedOnce(cs) && MakeAll(CatalogOf(from), to, cs).Some?
    ensures Clear(from, cs)
  {
    hide HoldsNeeded, CatalogOf, MakeAll, ListedOnce;
    forall i | 0 <= i < |cs| && cs[i].Add? && SlotOf(cs[i]) in CatalogOf(from)
      ensures Drop(cs[i].kind, cs[i].table, cs[i].name) in cs[..i]
    {
      PrefixMade(CatalogOf(from), to, cs, i);
      PrefixMade(CatalogOf(from), to, cs, i + 1);
      MakeOneMore(CatalogOf(from), to, cs, i);
      if Drop(cs[i].kind, cs[i].table, cs[i].name) !in cs[..i] {
        forall d | d in cs[..i] ensures !Swap(d, cs[i]) { SwapSymmetric(d, cs[i]); }
        SlotStays(from, to, cs, i);
      }
    }
  }
}
