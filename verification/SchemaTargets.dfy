/**
 * What the changes of a diff leave behind: which lists go through, and when the target is reached.
 */
module SchemaTargets {
  import opened Text
  import opened CanonicalJson
  import opened SchemaDiffs
  import opened SchemaChanges

  // ---------------------------------------------------------------- what is there in the end

  predicate GoesThrough(from: Schema, to: Schema, cs: seq<Change>) {
    MakeAll(CatalogOf(from), to, cs).Some?
  }

  function InTheEnd(from: Schema, to: Schema, cs: seq<Change>, s: Slot): Option<Entry>
    requires GoesThrough(from, to, cs)
  {
    Lookup(MakeAll(CatalogOf(from), to, cs).value, s)
  }

  /** A slot that a change of the list writes, if nothing is added there later. */
  lemma WrittenInTheEnd(from: Schema, to: Schema, cs: seq<Change>, c: Change, s: Slot)
    requires HoldsNeeded(from, to, cs) && ListedOnce(cs) && GoesThrough(from, to, cs)
    requires c in cs && Writes(c, s) && (c.Drop? ==> Add(c.kind, c.table, c.name) !in cs)
    ensures InTheEnd(from, to, cs, s) == Written(to, c, s, EntryIn(from, s))
  {
    var i :| 0 <= i < |cs| && cs[i] == c;
    hide HoldsNeeded, ListedOnce, CatalogOf, MakeAll, EntryIn;
    PrefixMade(CatalogOf(from), to, cs, i);
    OtherWriters(from, to, cs, i, s);
    hide Writes, Written;
    LastWritten(CatalogOf(from), to, cs, i, s);
    if !c.Add? {
      Unwritten(CatalogOf(from), to, cs[..i], s);
    } else {
      AddedValue(to, c, s);
    }
  }

  lemma AddedValue(to: Schema, c: Change, s: Slot)
    requires !c.AlterColumn?
    ensures forall was :: Written(to, c, s, was) == if Drops(c) then None else EntryIn(to, s)
  {}

  /** No other change writes the slot, except that a drop may come before an add. */
  lemma OtherWriters(from: Schema, to: Schema, cs: seq<Change>, i: nat, s: Slot)
    requires HoldsNeeded(from, to, cs) && ListedOnce(cs) && GoesThrough(from, to, cs)
    requires i < |cs| && Writes(cs[i], s) && (cs[i].Drop? ==> Add(cs[i].kind, cs[i].table, cs[i].name) !in cs)
    ensures forall j | 0 <= j < |cs| && Writes(cs[j], s) :: j == i || (cs[i].Add? && j < i)
  {
    GoesThroughClear(from, to, cs);
    hide HoldsNeeded, ListedOnce, CatalogOf, MakeAll, Clear, Writes;
    forall j | 0 <= j < |cs| && Writes(cs[j], s) ensures j == i || (cs[i].Add? && j < i) {
      WritersMeet(from, to, cs, cs[i], cs[j], s);
      SwapSymmetric(cs[i], cs[j]);
      if cs[j] == cs[i] { OnceAt(cs, i, j); } else { DropIsFirst(from, to, cs, j, i); }
    }
  }

  /** In a list that goes through, of a drop and an add under one name the drop comes first. */
  lemma DropIsFirst(from: Schema, to: Schema, cs: seq<Change>, d: nat, a: nat)
    requires HoldsNeeded(from, to, cs) && ListedOnce(cs) && Clear(from, cs)
    requires d < |cs| && a < |cs| && Swap(cs[d], cs[a])
    ensures cs[a].Add? ==> d < a
  {
    SwapSymmetric(cs[d], cs[a]);
    if cs[a].Add? {
      AppliesAtStart(from, to, cs, cs[d]);
      hide HoldsNeeded, ListedOnce, CatalogOf, Clear;
      NotAddedBefore(from, cs, d);
    }
  }

  lemma UnwrittenInTheEnd(from: Schema, to: Schema, cs: seq<Change>, s: Slot)
    requires GoesThrough(from, to, cs) && forall c | c in cs :: !Writes(c, s)
    ensures InTheEnd(from, to, cs, s) == EntryIn(from, s)
  {
    hide MakeAll, Writes, CatalogOf, EntryIn;
    Unwritten(CatalogOf(from), to, cs, s);
  }

  lemma SequenceWriters(n: string)
    ensures forall c :: Writes(c, SequenceSlot(n)) <==> c == CreateSequence(n) || c == DropSequence(n) || c == AlterSequenceOwner(n)
  {}

  lemma SequenceWritten(from: Schema, to: Schema, n: string, c: Change)
    requires c == CreateSequence(n) || c == DropSequence(n) || c == AlterSequenceOwner(n)
    requires c.DropSequence? <==> n !in to.sequences
    ensures Written(to, c, SequenceSlot(n), EntryIn(from, SequenceSlot(n))) == EntryIn(to, SequenceSlot(n))
  {}

  lemma SequenceUnwritten(from: Schema, to: Schema, n: string)
    requires n in from.sequences <==> n in to.sequences
    requires n in from.sequences ==> from.sequences[n] == to.sequences[n]
    ensures EntryIn(from, SequenceSlot(n)) == EntryIn(to, SequenceSlot(n))
  {}

  /** The slot of a sequence. */
  lemma SequenceInTheEnd(from: Schema, to: Schema, cs: seq<Change>, n: string)
    requires HoldsNeeded(from, to, cs) && ListedOnce(cs) && GoesThrough(from, to, cs)
    ensures InTheEnd(from, to, cs, SequenceSlot(n)) == EntryIn(to, SequenceSlot(n))
  {
    hide *;
    var s := SequenceSlot(n);
    SequenceChanges(from, to, cs, n);
    SequenceWriters(n);
    if c :| c in cs && Writes(c, s) {
      WrittenInTheEnd(from, to, cs, c, s);
      SequenceWritten(from, to, n, c);
    } else {
      UnwrittenInTheEnd(from, to, cs, s);
      SequenceUnwritten(from, to, n);
    }
  }

  lemma TableWriters(from: Schema, to: Schema, cs: seq<Change>, s: Slot)
    requires HoldsNeeded(from, to, cs)
    requires !s.SequenceSlot? && (s.TableSlot? || s.table !in from.tables || s.table !in to.tables)
    ensures forall c | c in cs && Writes(c, s) :: c == CreateTable(s.table) || c == DropTable(s.table)
  {
    hide HoldsNeeded;
    forall c | c in cs && Writes(c, s) ensures c == CreateTable(s.table) || c == DropTable(s.table) {
      if About(c).Inside? { InsideBoth(from, to, cs, c); }
    }
  }

  lemma TableWritten(from: Schema, to: Schema, s: Slot)
    requires !s.SequenceSlot? && (s.TableSlot? || s.table !in from.tables || s.table !in to.tables)
    ensures Writes(CreateTable(s.table), s) && Writes(DropTable(s.table), s)
    ensures forall was :: Written(to, CreateTable(s.table), s, was) == EntryIn(to, s)
    ensures forall was :: Written(to, DropTable(s.table), s, was) == None
    ensures s.table !in to.tables ==> EntryIn(to, s) == None
    ensures (s.table in from.tables <==> s.table in to.tables) ==> EntryIn(from, s) == EntryIn(to, s)
  {
    hide EntryOf;
  }

  /** Every slot of a table that comes or goes, or is in neither schema. */
  lemma OtherTableInTheEnd(from: Schema, to: Schema, cs: seq<Change>, s: Slot)
    requires HoldsNeeded(from, to, cs) && ListedOnce(cs) && GoesThrough(from, to, cs)
    requires !s.SequenceSlot? && (s.TableSlot? || s.table !in from.tables || s.table !in to.tables)
    ensures InTheEnd(from, to, cs, s) == EntryIn(to, s)
  {
    hide *;
    var t := s.table;
    TableChanges(from, to, cs, t);
    TableWriters(from, to, cs, s);
    TableWritten(from, to, s);
    if c :| c in cs && Writes(c, s) {
      WrittenInTheEnd(from, to, cs, c, s);
    } else {
      UnwrittenInTheEnd(from, to, cs, s);
    }
  }

  lemma PrimaryKeyWriters(from: Schema, to: Schema, cs: seq<Change>, t: string)
    requires CreateTable(t) !in cs && DropTable(t) !in cs && t in from.tables && t in to.tables
    ensures var s := PrimaryKeySlot(t);
            && (forall c | c in cs :: Writes(c, s) <==> c == SetPrimaryKey(t))
            && (forall was :: Written(to, SetPrimaryKey(t), s, was) == EntryIn(to, s))
            && (from.tables[t].primaryKey == to.tables[t].primaryKey ==> EntryIn(from, s) == EntryIn(to, s))
  {}

  lemma PrimaryKeyInTheEnd(from: Schema, to: Schema, cs: seq<Change>, t: string)
    requires HoldsNeeded(from, to, cs) && ListedOnce(cs) && GoesThrough(from, to, cs)
    requires t in from.tables && t in to.tables
    ensures InTheEnd(from, to, cs, PrimaryKeySlot(t)) == EntryIn(to, PrimaryKeySlot(t))
  {
    hide *;
    var s := PrimaryKeySlot(t);
    PrimaryKeyChange(from, to, cs, t);
    TableChanges(from, to, cs, t);
    PrimaryKeyWriters(from, to, cs, t);
    if SetPrimaryKey(t) in cs {
      WrittenInTheEnd(from, to, cs, SetPrimaryKey(t), s);
    } else {
      UnwrittenInTheEnd(from, to, cs, s);
    }
  }

  lemma ColumnWriters(from: Schema, to: Schema, cs: seq<Change>, t: string, n: string)
    requires CreateTable(t) !in cs && DropTable(t) !in cs
    ensures forall c | c in cs :: Writes(c, ColumnSlot(t, n)) <==> OfColumn(c, t, n)
  {}

  lemma OfColumnOnly(c: Change, t: string, n: string)
    requires OfColumn(c, t, n)
    ensures !c.Drop?
  {}

  lemma ColumnInTheEnd(from: Schema, to: Schema, cs: seq<Change>, t: string, n: string)
    requires HoldsNeeded(from, to, cs) && ListedOnce(cs) && GoesThrough(from, to, cs)
    requires t in from.tables && t in to.tables
    ensures InTheEnd(from, to, cs, ColumnSlot(t, n)) == EntryIn(to, ColumnSlot(t, n))
  {
    hide *;
    var s := ColumnSlot(t, n);
    var x, y := from.tables[t], to.tables[t];
    TableChanges(from, to, cs, t);
    ColumnWriters(from, to, cs, t, n);
    forall c | OfColumn(c, t, n) ensures c in cs <==> NeededColumn(x, y, t, n, c) {
      ColumnChangesIn(from, to, cs, t, n, c);
    }
    if c :| c in cs && Writes(c, s) {
      OfColumnOnly(c, t, n);
      WrittenInTheEnd(from, to, cs, c, s);
      ColumnWritten(x, y, from, to, t, n, c);
    } else {
      UnwrittenInTheEnd(from, to, cs, s);
      ColumnUnwritten(x, y, from, to, t, n);
    }
  }

  lemma ColumnWritten(x: Table, y: Table, from: Schema, to: Schema, t: string, n: string, c: Change)
    requires t in from.tables && t in to.tables && x == from.tables[t] && y == to.tables[t]
    requires OfColumn(c, t, n) && NeededColumn(x, y, t, n, c)
    ensures Written(to, c, ColumnSlot(t, n), EntryIn(from, ColumnSlot(t, n))) == EntryIn(to, ColumnSlot(t, n))
  {
    hide ColumnChanges, Altered;
    if c.AlterColumn? { ColumnChangesComplete(x.columns[n], y.columns[n]); }
  }

  lemma ColumnUnwritten(x: Table, y: Table, from: Schema, to: Schema, t: string, n: string)
    requires t in from.tables && t in to.tables && x == from.tables[t] && y == to.tables[t]
    requires forall c | OfColumn(c, t, n) :: !NeededColumn(x, y, t, n, c)
    ensures EntryIn(from, ColumnSlot(t, n)) == EntryIn(to, ColumnSlot(t, n))
  {
    hide ColumnChanges;
    assert OfColumn(AddColumn(t, n, true), t, n) && OfColumn(AddColumn(t, n, false), t, n) && OfColumn(DropColumn(t, n), t, n);
    if n in x.columns && n in y.columns {
      ColumnChangesComplete(x.columns[n], y.columns[n]);
      assert OfColumn(AlterColumn(t, n, ColumnChanges(x.columns[n], y.columns[n])), t, n);
    }
  }

  // ---------------------------------------------------------------- constraints and indexes

  /** The definitions of a kind that a table of the catalogue holds. */
  function KeysHeld(db: Catalog, t: string, k: Kind): set<string> {
    set s | s in db && s.NamedSlot? && s.table == t && s.kind == k && db[s].Definition? :: db[s].key
  }

  /** Constraints that are not dropped stay, those that are added come with their definition in the target. */
  function KeysAfter(before: seq<Named>, after: seq<Named>, kind: Kind, table: string, cs: seq<Change>): set<string> {
    (set i | i in before && Drop(kind, table, i.name) !in cs :: i.key)
    + (set i | i in after && Add(kind, table, i.name) in cs :: i.key)
  }

  /** An item is added exactly when it stands for a key that is new. */
  lemma AddedItem(before: seq<Named>, after: seq<Named>, kind: Kind, t: string, i: Named)
    requires DistinctNames(after) && i in after
    ensures NeededNamed(before, after, kind, t, Add(kind, t, i.name)) <==> i.key !in KeysOf(before) && NameOf(after, i.key) == i.name
  {
    hide NameOf;
    if NeededAdds(before, after, KeysOf(after), kind, t, Add(kind, t, i.name)) {
      var key :| key in KeysOf(after) && key !in KeysOf(before) && i.name == NameOf(after, key);
      assert Named(i.name, key) == i;
    }
  }

  lemma DroppedItem(before: seq<Named>, after: seq<Named>, kind: Kind, t: string, i: Named)
    requires DistinctNames(before) && i in before
    ensures NeededNamed(before, after, kind, t, Drop(kind, t, i.name)) <==> i.key !in KeysOf(after) && NameOf(before, i.key) == i.name
  {
    hide NameOf;
    if NeededDrops(before, after, KeysOf(before), kind, t, Drop(kind, t, i.name)) {
      var key :| key in KeysOf(before) && key !in KeysOf(after) && i.name == NameOf(before, key);
      assert Named(i.name, key) == i;
    }
  }

  /** No definition that has to go occurs twice: the diff names only one item of each. */
  predicate NoneTwice(before: seq<Named>, after: seq<Named>) {
    forall i, j | i in before && j in before && i.key == j.key && i.key !in KeysOf(after) :: i == j
  }

  /** The keys that are left are those of the target, exactly when no dropped definition occurs twice. */
  lemma NamedCompleteIff(before: seq<Named>, after: seq<Named>, kind: Kind, t: string, cs: seq<Change>)
    requires DistinctNames(before) && DistinctNames(after)
    requires forall c | OfNamed(c, t, kind) :: c in cs <==> NeededNamed(before, after, kind, t, c)
    ensures KeysAfter(before, after, kind, t, cs) == KeysOf(after) <==> NoneTwice(before, after)
  {
    hide NeededNamed, NameOf, DistinctNames;
    forall i | i in before ensures Drop(kind, t, i.name) in cs <==> i.key !in KeysOf(after) && NameOf(before, i.key) == i.name {
      DroppedItem(before, after, kind, t, i);
      assert OfNamed(Drop(kind, t, i.name), t, kind);
    }
    forall i | i in after ensures Add(kind, t, i.name) in cs <==> i.key !in KeysOf(before) && NameOf(after, i.key) == i.name {
      AddedItem(before, after, kind, t, i);
      assert OfNamed(Add(kind, t, i.name), t, kind);
    }
    AfterKeys(before, after, kind, t, cs);
    LeftoversIff(before, after);
  }

  /** The keys of items that should go and stay, because another item of the same key is named. */
  function Leftovers(before: seq<Named>, after: seq<Named>): set<string> {
    set i | i in before && i.key !in KeysOf(after) && NameOf(before, i.key) != i.name :: i.key
  }

  lemma LeftoversIff(before: seq<Named>, after: seq<Named>)
    requires DistinctNames(before)
    ensures Leftovers(before, after) == {} <==> NoneTwice(before, after)
  {
    hide NameOf;
    if Leftovers(before, after) == {} {
      forall i, j | i in before && j in before && i.key == j.key && i.key !in KeysOf(after) ensures i == j {
        assert i.key !in Leftovers(before, after);
        assert NameOf(before, i.key) == i.name == j.name;
      }
    } else {
      var key :| key in Leftovers(before, after);
      var i :| i in before && i.key == key && NameOf(before, key) != i.name;
      assert Named(NameOf(before, key), key) in before;
    }
  }

  lemma AfterKeys(before: seq<Named>, after: seq<Named>, kind: Kind, t: string, cs: seq<Change>)
    requires forall i | i in before :: Drop(kind, t, i.name) in cs <==> i.key !in KeysOf(after) && NameOf(before, i.key) == i.name
    requires forall i | i in after :: Add(kind, t, i.name) in cs <==> i.key !in KeysOf(before) && NameOf(after, i.key) == i.name
    ensures KeysAfter(before, after, kind, t, cs) == KeysOf(after) + Leftovers(before, after)
    ensures KeysOf(after) * Leftovers(before, after) == {}
  {
    hide NameOf;
    forall key | key in KeysOf(after) ensures key in KeysAfter(before, after, kind, t, cs) {
      if key in KeysOf(before) {
        var i :| i in before && i.key == key;
        assert Drop(kind, t, i.name) !in cs;
      } else {
        var i := Named(NameOf(after, key), key);
        assert i in after && Add(kind, t, i.name) in cs;
      }
    }
    forall key | key in Leftovers(before, after) ensures key in KeysAfter(before, after, kind, t, cs) {
      var i :| i in before && i.key == key && i.key !in KeysOf(after) && NameOf(before, i.key) != i.name;
      assert Drop(kind, t, i.name) !in cs;
    }
    forall key | key in KeysAfter(before, after, kind, t, cs) ensures key in KeysOf(after) || key in Leftovers(before, after) {
      if i :| i in before && Drop(kind, t, i.name) !in cs && i.key == key {
        assert i.key in KeysOf(after) || NameOf(before, i.key) != i.name;
      }
    }
  }

  predicate TableNoneTwice(x: Table, y: Table) {
    forall k | k in KINDS :: NoneTwice(x.Items(k), y.Items(k))
  }

  /** No table has to lose a definition that it holds twice. */
  predicate SchemaNoneTwice(from: Schema, to: Schema) {
    forall t | t in from.tables && t in to.tables :: TableNoneTwice(from.tables[t], to.tables[t])
  }

  lemma NamedWriters(cs: seq<Change>, t: string, k: Kind, n: string)
    requires CreateTable(t) !in cs && DropTable(t) !in cs
    ensures forall c | c in cs :: Writes(c, NamedSlot(t, k, n)) <==> c == Add(k, t, n) || c == Drop(k, t, n)
  {}

  lemma NamedInTheEnd(from: Schema, to: Schema, cs: seq<Change>, t: string, k: Kind, n: string)
    requires HoldsNeeded(from, to, cs) && ListedOnce(cs) && GoesThrough(from, to, cs)
    requires t in from.tables && t in to.tables
    ensures InTheEnd(from, to, cs, NamedSlot(t, k, n))
         == if Add(k, t, n) in cs then EntryOf(to.tables[t].Items(k), n)
            else if Drop(k, t, n) in cs then None
            else EntryOf(from.tables[t].Items(k), n)
    ensures Add(k, t, n) in cs && EntryOf(from.tables[t].Items(k), n).Some? ==> Drop(k, t, n) in cs
  {
    hide *;
    var s := NamedSlot(t, k, n);
    TableChanges(from, to, cs, t);
    NamedWriters(cs, t, k, n);
    AddedIfDropped(from, to, cs, t, k, n);
    NamedEntries(from, to, t, k, n);
    if Add(k, t, n) in cs {
      WrittenInTheEnd(from, to, cs, Add(k, t, n), s);
    } else if Drop(k, t, n) in cs {
      WrittenInTheEnd(from, to, cs, Drop(k, t, n), s);
    } else {
      UnwrittenInTheEnd(from, to, cs, s);
    }
  }

  lemma NamedEntries(from: Schema, to: Schema, t: string, k: Kind, n: string)
    requires t in from.tables && t in to.tables
    ensures var s := NamedSlot(t, k, n);
            && EntryIn(from, s) == EntryOf(from.tables[t].Items(k), n)
            && (forall was :: Written(to, Add(k, t, n), s, was) == EntryOf(to.tables[t].Items(k), n))
            && (forall was :: Written(to, Drop(k, t, n), s, was) == None)
  {
    hide EntryOf;
  }

  lemma AddedIfDropped(from: Schema, to: Schema, cs: seq<Change>, t: string, k: Kind, n: string)
    requires HoldsNeeded(from, to, cs) && ListedOnce(cs) && GoesThrough(from, to, cs) && t in from.tables
    ensures Add(k, t, n) in cs && EntryOf(from.tables[t].Items(k), n).Some? ==> Drop(k, t, n) in cs
  {
    assert MakeAll(CatalogOf(from), to, cs).Some?;
    HeldIsTaken(from, t, k, n);
    hide *;
    GoesThroughClear(from, to, cs);
    if Add(k, t, n) in cs && EntryOf(from.tables[t].Items(k), n).Some? {
      ClearAt(from, cs, Add(k, t, n));
    }
  }

  lemma HeldIsTaken(from: Schema, t: string, k: Kind, n: string)
    requires t in from.tables
    ensures SlotOf(Add(k, t, n)) in CatalogOf(from) <==> EntryOf(from.tables[t].Items(k), n).Some?
  {
    hide EntryOf, CatalogOf;
    assert EntryIn(from, SlotOf(Add(k, t, n))) == EntryOf(from.tables[t].Items(k), n);
  }

  lemma ClearAt(from: Schema, cs: seq<Change>, add: Change)
    requires Clear(from, cs) && add in cs && add.Add? && SlotOf(add) in CatalogOf(from)
    ensures Drop(add.kind, add.table, add.name) in cs
  {
    var i :| 0 <= i < |cs| && cs[i] == add;
    assert Drop(add.kind, add.table, add.name) in cs[..i];
    hide CatalogOf;
  }

  lemma EntryOfItem(items: seq<Named>, i: Named)
    requires DistinctNames(items) && i in items
    ensures EntryOf(items, i.name) == Some(Definition(i.key))
  {
    var key := EntryOf(items, i.name).value.key;
    assert Named(i.name, key) == i;
  }

  lemma KindInTheEnd(from: Schema, to: Schema, cs: seq<Change>, t: string, k: Kind)
    requires HoldsNeeded(from, to, cs) && ListedOnce(cs) && GoesThrough(from, to, cs)
    requires t in from.tables && t in to.tables
    requires DistinctNames(from.tables[t].Items(k)) && DistinctNames(to.tables[t].Items(k))
    ensures KeysHeld(MakeAll(CatalogOf(from), to, cs).value, t, k)
         == KeysAfter(from.tables[t].Items(k), to.tables[t].Items(k), k, t, cs)
  {
    var db := MakeAll(CatalogOf(from), to, cs).value;
    var before, after := from.tables[t].Items(k), to.tables[t].Items(k);
    forall n ensures Lookup(db, NamedSlot(t, k, n)) == (if Add(k, t, n) in cs then EntryOf(after, n)
                                                        else if Drop(k, t, n) in cs then None else EntryOf(before, n))
      ensures Add(k, t, n) in cs && EntryOf(before, n).Some? ==> Drop(k, t, n) in cs
    {
      NamedInTheEnd(from, to, cs, t, k, n);
    }
    hide HoldsNeeded, ListedOnce, MakeAll, CatalogOf, GoesThrough, InTheEnd;
    KeysFromSlots(db, before, after, k, t, cs);
  }

  lemma KeysFromSlots(db: Catalog, before: seq<Named>, after: seq<Named>, k: Kind, t: string, cs: seq<Change>)
    requires DistinctNames(before) && DistinctNames(after)
    requires forall n :: Lookup(db, NamedSlot(t, k, n)) == (if Add(k, t, n) in cs then EntryOf(after, n)
                                                            else if Drop(k, t, n) in cs then None else EntryOf(before, n))
    requires forall n | Add(k, t, n) in cs && EntryOf(before, n).Some? :: Drop(k, t, n) in cs
    ensures KeysHeld(db, t, k) == KeysAfter(before, after, k, t, cs)
  {
    hide EntryOf, DistinctNames;
    forall i | i in before && Drop(k, t, i.name) !in cs ensures i.key in KeysHeld(db, t, k) {
      EntryOfItem(before, i);
      assert db[NamedSlot(t, k, i.name)] == Definition(i.key);
    }
    forall i | i in after && Add(k, t, i.name) in cs ensures i.key in KeysHeld(db, t, k) {
      EntryOfItem(after, i);
      assert db[NamedSlot(t, k, i.name)] == Definition(i.key);
    }
    forall s | s in db && s.NamedSlot? && s.table == t && s.kind == k && db[s].Definition?
      ensures db[s].key in KeysAfter(before, after, k, t, cs)
    {
      assert s == NamedSlot(t, k, s.name) && Lookup(db, NamedSlot(t, k, s.name)) == Some(db[s]);
      var i := Named(s.name, db[s].key);
      assert if Add(k, t, s.name) in cs then i in after else i in before;
    }
  }

  // ---------------------------------------------------------------- completeness

  /** The catalogue is that of a schema, up to the names of constraints and indexes. */
  ghost predicate Reaches(db: Catalog, to: Schema) {
    && (forall s: Slot | !s.NamedSlot? :: Lookup(db, s) == EntryIn(to, s))
    && (forall t, k :: KeysHeld(db, t, k) == KeysHeld(CatalogOf(to), t, k))
  }

  /** No change is refused, and the target is what there is in the end. */
  ghost predicate Completes(from: Schema, to: Schema, cs: seq<Change>) {
    GoesThrough(from, to, cs) && Reaches(MakeAll(CatalogOf(from), to, cs).value, to)
  }

  lemma PlainSlotsReached(from: Schema, to: Schema, cs: seq<Change>, s: Slot)
    requires HoldsNeeded(from, to, cs) && ListedOnce(cs) && GoesThrough(from, to, cs)
    requires !s.NamedSlot?
    ensures InTheEnd(from, to, cs, s) == EntryIn(to, s)
  {
    hide *;
    match s
    case SequenceSlot(n) => SequenceInTheEnd(from, to, cs, n);
    case TableSlot(t) => OtherTableInTheEnd(from, to, cs, s);
    case PrimaryKeySlot(t) =>
      if t in from.tables && t in to.tables { PrimaryKeyInTheEnd(from, to, cs, t); } else { OtherTableInTheEnd(from, to, cs, s); }
    case ColumnSlot(t, n) =>
      if t in from.tables && t in to.tables { ColumnInTheEnd(from, to, cs, t, n); } else { OtherTableInTheEnd(from, to, cs, s); }
  }

  /** Catalogues with the same slots of a table hold the same definitions for it. */
  lemma SameSlotsSameKeys(db: Catalog, other: Catalog, t: string, k: Kind)
    requires forall n :: Lookup(db, NamedSlot(t, k, n)) == Lookup(other, NamedSlot(t, k, n))
    ensures KeysHeld(db, t, k) == KeysHeld(other, t, k)
  {
    forall s: Slot | s.NamedSlot? && s.table == t && s.kind == k ensures Lookup(db, s) == Lookup(other, s) {
      assert s == NamedSlot(t, k, s.name);
    }
  }

  lemma EmptyDistinct()
    ensures DistinctNames([])
  {}

  lemma KeysKept(items: seq<Named>, k: Kind, t: string)
    ensures KeysAfter(items, [], k, t, []) == KeysOf(items)
  {}

  lemma NamedEntryOf(schema: Schema, t: string, k: Kind, n: string)
    requires t in schema.tables
    ensures Lookup(CatalogOf(schema), NamedSlot(t, k, n)) == EntryOf(schema.tables[t].Items(k), n)
  {
    hide CatalogOf, EntryOf, Lookup;
  }

  lemma KeysOfSchema(schema: Schema, t: string, k: Kind)
    requires t in schema.tables && DistinctNames(schema.tables[t].Items(k))
    ensures KeysHeld(CatalogOf(schema), t, k) == KeysOf(schema.tables[t].Items(k))
  {
    hide *;
    var items, db := schema.tables[t].Items(k), CatalogOf(schema);
    forall n ensures Lookup(db, NamedSlot(t, k, n)) == EntryOf(items, n) { NamedEntryOf(schema, t, k, n); }
    EmptyDistinct();
    KeysKept(items, k, t);
    KeysFromSlots(db, items, [], k, t, []);
  }

  /** A table of one schema only, or of neither, ends up with the definitions of the target. */
  lemma OtherKeysReached(from: Schema, to: Schema, cs: seq<Change>, t: string, k: Kind)
    requires HoldsNeeded(from, to, cs) && ListedOnce(cs) && GoesThrough(from, to, cs)
    requires t !in from.tables || t !in to.tables
    ensures KeysHeld(MakeAll(CatalogOf(from), to, cs).value, t, k) == KeysHeld(CatalogOf(to), t, k)
  {
    var db := MakeAll(CatalogOf(from), to, cs).value;
    hide HoldsNeeded, ListedOnce, MakeAll, CatalogOf, EntryIn, KeysHeld;
    forall n ensures Lookup(db, NamedSlot(t, k, n)) == Lookup(CatalogOf(to), NamedSlot(t, k, n)) {
      OtherTableInTheEnd(from, to, cs, NamedSlot(t, k, n));
      assert Lookup(db, NamedSlot(t, k, n)) == InTheEnd(from, to, cs, NamedSlot(t, k, n));
    }
    SameSlotsSameKeys(db, CatalogOf(to), t, k);
  }

  lemma KindReachedIff(from: Schema, to: Schema, cs: seq<Change>, t: string, k: Kind)
    requires HoldsNeeded(from, to, cs) && ListedOnce(cs) && GoesThrough(from, to, cs)
    requires t in from.tables && t in to.tables
    requires DistinctNames(from.tables[t].Items(k)) && DistinctNames(to.tables[t].Items(k))
    ensures KeysHeld(MakeAll(CatalogOf(from), to, cs).value, t, k) == KeysHeld(CatalogOf(to), t, k)
       <==> NoneTwice(from.tables[t].Items(k), to.tables[t].Items(k))
  {
    var x, y := from.tables[t], to.tables[t];
    KindInTheEnd(from, to, cs, t, k);
    KeysOfSchema(to, t, k);
    forall c | OfNamed(c, t, k) ensures c in cs <==> NeededNamed(x.Items(k), y.Items(k), k, t, c) {
      InsideChanges(from, to, cs, t, c);
      NeededOfNamed(x, y, t, k, c);
    }
    NamedCompleteIff(x.Items(k), y.Items(k), k, t, cs);
    hide *;
  }

  /**
   * Making the needed changes one after the other, in whatever order they are listed, goes through
   * and reaches the target exactly when no table has to lose a definition that it holds twice, and
   * every name that is added and taken at the start is dropped first.
   */
  lemma AnyOrderCompletesIff(from: Schema, to: Schema, cs: seq<Change>)
    requires HoldsNeeded(from, to, cs) && ListedOnce(cs) && SchemaDistinct(from) && SchemaDistinct(to)
    ensures Completes(from, to, cs) <==> SchemaNoneTwice(from, to) && Clear(from, cs)
  {
    if Clear(from, cs) {
      ClearGoesThrough(from, to, cs, |cs|);
      assert cs[..|cs|] == cs;
    }
    if GoesThrough(from, to, cs) {
      GoesThroughClear(from, to, cs);
      ReachesIff(from, to, cs);
    }
    hide HoldsNeeded, ListedOnce, MakeAll, CatalogOf, Clear, Reaches, SchemaNoneTwice;
  }

  lemma ReachesIff(from: Schema, to: Schema, cs: seq<Change>)
    requires HoldsNeeded(from, to, cs) && ListedOnce(cs) && SchemaDistinct(from) && SchemaDistinct(to)
    requires GoesThrough(from, to, cs)
    ensures Reaches(MakeAll(CatalogOf(from), to, cs).value, to) <==> SchemaNoneTwice(from, to)
  {
    var db := MakeAll(CatalogOf(from), to, cs).value;
    hide HoldsNeeded, ListedOnce, MakeAll, CatalogOf, EntryIn, KeysHeld, NoneTwice, DistinctNames;
    forall s: Slot | !s.NamedSlot? ensures Lookup(db, s) == EntryIn(to, s) {
      PlainSlotsReached(from, to, cs, s);
      assert Lookup(db, s) == InTheEnd(from, to, cs, s);
    }
    forall t, k | t !in from.tables || t !in to.tables ensures KeysHeld(db, t, k) == KeysHeld(CatalogOf(to), t, k) {
      OtherKeysReached(from, to, cs, t, k);
    }
    forall t, k | t in from.tables && t in to.tables
      ensures KeysHeld(db, t, k) == KeysHeld(CatalogOf(to), t, k) <==> NoneTwice(from.tables[t].Items(k), to.tables[t].Items(k))
    {
      EveryKind(k);
      KindReachedIff(from, to, cs, t, k);
    }
    NoneTwiceEverywhere(from, to);
  }

  lemma EveryKind(k: Kind)
    ensures k in KINDS
  {
    assert k.Unique? || k.ForeignKey? || k.Check? || k.Index?;
  }

  lemma NoneTwiceEverywhere(from: Schema, to: Schema)
    ensures SchemaNoneTwice(from, to)
       <==> forall t, k | t in from.tables && t in to.tables :: NoneTwice(from.tables[t].Items(k), to.tables[t].Items(k))
  {
    hide NoneTwice;
    forall k: Kind ensures k in KINDS { EveryKind(k); }
  }

  // ---------------------------------------------------------------- catalogues and views

  predicate SameShape(x: Table, y: Table) {
    x.columns == y.columns && x.primaryKey == y.primaryKey
  }

  lemma SlotsAgree(x: Schema, y: Schema)
    ensures (forall s: Slot | !s.NamedSlot? :: EntryIn(x, s) == EntryIn(y, s))
       <==> x.sequences == y.sequences && x.tables.Keys == y.tables.Keys
            && forall t | t in x.tables && t in y.tables :: SameShape(x.tables[t], y.tables[t])
  {
    if forall s: Slot | !s.NamedSlot? :: EntryIn(x, s) == EntryIn(y, s) {
      forall n ensures n in x.sequences <==> n in y.sequences
        ensures n in x.sequences ==> x.sequences[n] == y.sequences[n]
      {
        assert EntryIn(x, SequenceSlot(n)) == EntryIn(y, SequenceSlot(n));
      }
      forall t ensures t in x.tables <==> t in y.tables { assert EntryIn(x, TableSlot(t)) == EntryIn(y, TableSlot(t)); }
      forall t | t in x.tables && t in y.tables
        ensures SameShape(x.tables[t], y.tables[t])
      {
        assert EntryIn(x, PrimaryKeySlot(t)) == EntryIn(y, PrimaryKeySlot(t));
        ColumnSlotsAgree(x, y, t);
      }
    }
  }

  lemma ColumnSlotsAgree(x: Schema, y: Schema, t: string)
    requires t in x.tables && t in y.tables
    requires forall n :: EntryIn(x, ColumnSlot(t, n)) == EntryIn(y, ColumnSlot(t, n))
    ensures x.tables[t].columns == y.tables[t].columns
  {
    forall n ensures n in x.tables[t].columns <==> n in y.tables[t].columns
      ensures n in x.tables[t].columns ==> x.tables[t].columns[n] == y.tables[t].columns[n]
    {
      assert EntryIn(x, ColumnSlot(t, n)) == EntryIn(y, ColumnSlot(t, n));
    }
  }

  lemma NoTableNoKeys(x: Schema, t: string, k: Kind)
    requires t !in x.tables
    ensures KeysHeld(CatalogOf(x), t, k) == {}
  {
    forall s: Slot | s.NamedSlot? && s.table == t ensures EntryIn(x, s) == None {}
    hide CatalogOf, EntryIn;
  }

  lemma ViewsAgree(x: Schema, y: Schema)
    ensures View(x) == View(y)
       <==> x.sequences == y.sequences && x.tables.Keys == y.tables.Keys
            && (forall t | t in x.tables && t in y.tables :: SameShape(x.tables[t], y.tables[t]))
            && (forall t, k | t in x.tables && t in y.tables :: KeysOf(x.tables[t].Items(k)) == KeysOf(y.tables[t].Items(k)))
  {
    hide KeysOf;
    forall k: Kind ensures k in KINDS { EveryKind(k); }
    forall t | t in x.tables && t in y.tables
      ensures ViewTable(x.tables[t]) == ViewTable(y.tables[t])
         <==> SameShape(x.tables[t], y.tables[t])
              && forall k :: KeysOf(x.tables[t].Items(k)) == KeysOf(y.tables[t].Items(k))
    {
      TableViewsAgree(x.tables[t], y.tables[t]);
    }
    hide ViewTable;
    assert View(x).tables.Keys == x.tables.Keys && View(y).tables.Keys == y.tables.Keys;
    if View(x) == View(y) {
      forall t | t in x.tables && t in y.tables ensures ViewTable(x.tables[t]) == ViewTable(y.tables[t]) {
        assert View(x).tables[t] == View(y).tables[t];
      }
    }
  }

  lemma TableViewsAgree(x: Table, y: Table)
    ensures ViewTable(x) == ViewTable(y)
       <==> SameShape(x, y) && forall k :: KeysOf(x.Items(k)) == KeysOf(y.Items(k))
  {
    hide KeysOf;
    forall k: Kind ensures k in KINDS { EveryKind(k); }
    if ViewTable(x) == ViewTable(y) {
      forall k ensures KeysOf(x.Items(k)) == KeysOf(y.Items(k)) { assert ViewTable(x).keys[k] == ViewTable(y).keys[k]; }
    }
  }

  /** The catalogue of one schema is that of another exactly when their views agree, that is when their diff is empty. */
  lemma ReachesIffViewsAgree(x: Schema, y: Schema)
    requires SchemaDistinct(x) && SchemaDistinct(y)
    ensures Reaches(CatalogOf(x), y) <==> View(x) == View(y)
  {
    SlotsAgree(x, y);
    ViewsAgree(x, y);
    hide CatalogOf, EntryIn, KeysHeld, DistinctNames, View;
    forall t, k ensures t in x.tables ==> KeysHeld(CatalogOf(x), t, k) == KeysOf(x.tables[t].Items(k))
      ensures t !in x.tables ==> KeysHeld(CatalogOf(x), t, k) == {}
      ensures t in y.tables ==> KeysHeld(CatalogOf(y), t, k) == KeysOf(y.tables[t].Items(k))
      ensures t !in y.tables ==> KeysHeld(CatalogOf(y), t, k) == {}
    {
      EveryKind(k);
      if t in x.tables { KeysOfSchema(x, t, k); } else { NoTableNoKeys(x, t, k); }
      if t in y.tables { KeysOfSchema(y, t, k); } else { NoTableNoKeys(y, t, k); }
    }
  }

  // ---------------------------------------------------------------- the diff in phase order

  /** No constraint or index is added under a name that its table already uses for one of the kind. */
  predicate NamesFree(before: seq<Named>, after: seq<Named>) {
    forall key, i | key in KeysOf(after) && key !in KeysOf(before) && i in before :: NameOf(after, key) != i.name
  }

  predicate SchemaNamesFree(from: Schema, to: Schema) {
    forall t, k | t in from.tables && t in to.tables && k in KINDS :: NamesFree(from.tables[t].Items(k), to.tables[t].Items(k))
  }

  lemma AddPrecedesDrop(cs: seq<Change>, i: nat, j: nat)
    requires InPhaseOrder(cs) && i < |cs| && j < |cs| && cs[i].Add? && cs[j].Drop? && cs[i].kind == cs[j].kind
    ensures i < j
  {}

  lemma AddedInBoth(from: Schema, to: Schema, cs: seq<Change>, c: Change)
    requires HoldsNeeded(from, to, cs) && c.Add?
    ensures c in cs <==> c.table in from.tables && c.table in to.tables
                         && NeededNamed(from.tables[c.table].Items(c.kind), to.tables[c.table].Items(c.kind), c.kind, c.table, c)
  {
    assert About(c) == Inside(c.table) && OfNamed(c, c.table, c.kind);
    hide *;
    if c in cs { InsideBoth(from, to, cs, c); }
    if c.table in from.tables && c.table in to.tables {
      InsideChanges(from, to, cs, c.table, c);
      NeededOfNamed(from.tables[c.table], to.tables[c.table], c.table, c.kind, c);
    }
  }

  lemma AddedTakesName(before: seq<Named>, after: seq<Named>, k: Kind, t: string, n: string)
    ensures NeededNamed(before, after, k, t, Add(k, t, n))
       <==> exists key | key in KeysOf(after) :: key !in KeysOf(before) && n == NameOf(after, key)
  {
    hide KeysOf, NameOf;
    assert forall key | key in KeysOf(after) :: Add(k, t, n) == Add(k, t, NameOf(after, key)) <==> n == NameOf(after, key);
  }

  /** No change that the diff adds finds its name taken. */
  predicate NoneTaken(from: Schema, cs: seq<Change>) {
    forall c | c in cs && c.Add? :: SlotOf(c) !in CatalogOf(from)
  }

  lemma NoneTakenIff(from: Schema, to: Schema, cs: seq<Change>)
    requires HoldsNeeded(from, to, cs)
    ensures NoneTaken(from, cs) <==> SchemaNamesFree(from, to)
  {
    hide HoldsNeeded, CatalogOf, EntryOf, NeededNamed, KeysOf, NameOf;
    forall k, t, n ensures Add(k, t, n) in cs && SlotOf(Add(k, t, n)) in CatalogOf(from)
                      <==> t in from.tables && t in to.tables
                           && NeededNamed(from.tables[t].Items(k), to.tables[t].Items(k), k, t, Add(k, t, n))
                           && exists i | i in from.tables[t].Items(k) :: i.name == n
    {
      AddedInBoth(from, to, cs, Add(k, t, n));
      if t in from.tables { HeldIsTaken(from, t, k, n); }
    }
    if SchemaNamesFree(from, to) {
      forall c | c in cs && c.Add? ensures SlotOf(c) !in CatalogOf(from) {
        assert c == Add(c.kind, c.table, c.name);
        EveryKind(c.kind);
        AddedInBoth(from, to, cs, c);
        AddedTakesName(from.tables[c.table].Items(c.kind), to.tables[c.table].Items(c.kind), c.kind, c.table, c.name);
      }
    }
    if NoneTaken(from, cs) {
      forall t, k | t in from.tables && t in to.tables && k in KINDS
        ensures NamesFree(from.tables[t].Items(k), to.tables[t].Items(k))
      {
        var before, after := from.tables[t].Items(k), to.tables[t].Items(k);
        forall key, i | key in KeysOf(after) && key !in KeysOf(before) && i in before ensures NameOf(after, key) != i.name {
          AddedTakesName(before, after, k, t, NameOf(after, key));
        }
      }
    }
  }

  lemma ClearInPhaseOrder(from: Schema, cs: seq<Change>)
    requires InPhaseOrder(cs)
    ensures Clear(from, cs) <==> NoneTaken(from, cs)
  {
    hide CatalogOf, InPhaseOrder, SlotOf;
    if Clear(from, cs) {
      forall c | c in cs && c.Add? ensures SlotOf(c) !in CatalogOf(from) {
        var i :| 0 <= i < |cs| && cs[i] == c;
        if Drop(c.kind, c.table, c.name) in cs[..i] {
          var j :| 0 <= j < i && cs[j] == Drop(c.kind, c.table, c.name);
          AddPrecedesDrop(cs, i, j);
        }
      }
    }
  }

  /**
   * Made in phase order, the changes of a diff go through and turn the source into the target, up to
   * column order, names of constraints and indexes, sequence bounds and policies, exactly when no
   * table has to lose a definition that it holds twice and nothing is added under a name in use.
   */
  lemma DiffCompleteIff(from: Schema, to: Schema, cs: seq<Change>)
    requires IsDiff(from, to, cs) && ListedOnce(cs) && SchemaDistinct(from) && SchemaDistinct(to)
    ensures Completes(from, to, cs) <==> SchemaNoneTwice(from, to) && SchemaNamesFree(from, to)
  {
    AnyOrderCompletesIff(from, to, cs);
    ClearInPhaseOrder(from, cs);
    NoneTakenIff(from, to, cs);
    hide *;
  }

  /** With free names the order does not matter: any rearrangement of the diff does the same. */
  lemma RearrangedCompletes(from: Schema, to: Schema, cs: seq<Change>, steps: seq<Change>)
    requires IsDiff(from, to, cs) && ListedOnce(cs) && SchemaDistinct(from) && SchemaDistinct(to)
    requires multiset(steps) == multiset(cs)
    requires SchemaNamesFree(from, to)
    ensures Completes(from, to, steps) <==> SchemaNoneTwice(from, to)
  {
    SameOnce(cs, steps);
    assert HoldsNeeded(from, to, steps);
    NoneTakenIff(from, to, steps);
    hide HoldsNeeded, ListedOnce, CatalogOf, Completes, SchemaNoneTwice;
    AnyOrderCompletesIff(from, to, steps);
    assert forall i | 0 <= i < |steps| && steps[i].Add? :: steps[i] in steps;
  }

  /** A schema of one table with one check. */
  function OneCheck(t: string, name: string, key: string): Schema {
    Schema(map[], map[t := Table(map[], Null, map[Check := [Named(name, key)]])])
  }

  lemma RedefinedNeeds(t: string, name: string, before: string, after: string, c: Change)
    requires before != after
    ensures Needed(OneCheck(t, name, before), OneCheck(t, name, after), c)
       <==> c == Add(Check, t, name) || c == Drop(Check, t, name)
  {
    var from, to := OneCheck(t, name, before), OneCheck(t, name, after);
    NeededAbout(from, to, c);
    RedefinedNeedsAt(from.tables[t], to.tables[t], t, name, before, after, c);
    RedefinedElsewhere(t, name, before, after, c);
    hide Needed, NeededTable, NeededSequence;
  }

  lemma RedefinedElsewhere(t: string, name: string, before: string, after: string, c: Change)
    ensures forall n :: !NeededSequence(OneCheck(t, name, before), OneCheck(t, name, after), n, c)
    ensures forall s | s != t :: !NeededAtTable(OneCheck(t, name, before), OneCheck(t, name, after), s, c)
  {
    hide NeededTable;
  }

  lemma RedefinedNeedsAt(x: Table, y: Table, t: string, name: string, before: string, after: string, c: Change)
    requires before != after
    requires x == Table(map[], Null, map[Check := [Named(name, before)]]) && y == Table(map[], Null, map[Check := [Named(name, after)]])
    ensures NeededTable(x, y, t, c) <==> c == Add(Check, t, name) || c == Drop(Check, t, name)
  {
    assert x.Items(Check) == [Named(name, before)] && y.Items(Check) == [Named(name, after)];
    assert forall k | k != Check :: x.Items(k) == [] && y.Items(k) == [];
    forall k | k != Check ensures !NeededNamed(x.Items(k), y.Items(k), k, t, c) { NoKeys(k, t, c); }
    OneKeyEach(name, before, after, t, c);
    hide NeededNamed, JsonEquals;
    assert !NeededColumns(x, y, t, SortedKeys(x.columns.Keys + y.columns.Keys), c);
  }

  lemma NoKeys(k: Kind, t: string, c: Change)
    ensures !NeededNamed([], [], k, t, c)
  {}

  lemma OneKeyEach(name: string, before: string, after: string, t: string, c: Change)
    requires before != after
    ensures NeededNamed([Named(name, before)], [Named(name, after)], Check, t, c)
       <==> c == Add(Check, t, name) || c == Drop(Check, t, name)
  {
    var x, y := [Named(name, before)], [Named(name, after)];
    assert Named(name, before) in x && Named(name, after) in y;
    assert KeysOf(x) == {before} && KeysOf(y) == {after};
    assert NameOf(x, before) == name && NameOf(y, after) == name;
    hide KeysOf, NameOf;
  }

  /**
   * A check that keeps its name and changes its definition: the diff adds it while the old one is
   * there and is refused, while dropping the old one first would have done.
   */
  lemma RedefinedCheckCollides(t: string, name: string, before: string, after: string, cs: seq<Change>)
    requires before != after
    ensures var from, to := OneCheck(t, name, before), OneCheck(t, name, after);
            && (IsDiff(from, to, cs) && ListedOnce(cs) ==> !GoesThrough(from, to, cs))
            && Completes(from, to, [Drop(Check, t, name), Add(Check, t, name)])
  {
    hide *;
    var from, to, add, drop := OneCheck(t, name, before), OneCheck(t, name, after), Add(Check, t, name), Drop(Check, t, name);
    forall c ensures Needed(from, to, c) <==> c == add || c == drop { RedefinedNeeds(t, name, before, after, c); }
    OneCheckDistinct(t, name, before, after);
    OneCheckTaken(t, name, before);
    DropThenAdd(from, to, drop, add);
    AnyOrderCompletesIff(from, to, [drop, add]);
    if IsDiff(from, to, cs) && ListedOnce(cs) {
      TakenNameRefused(from, to, cs, add);
    }
  }

  /** A diff that adds under a name in use is refused. */
  lemma TakenNameRefused(from: Schema, to: Schema, cs: seq<Change>, add: Change)
    requires IsDiff(from, to, cs) && ListedOnce(cs)
    requires add.Add? && Needed(from, to, add) && SlotOf(add) in CatalogOf(from)
    ensures !GoesThrough(from, to, cs)
  {
    hide Needed, CatalogOf, ListedOnce;
    assert !NoneTaken(from, cs);
    ClearInPhaseOrder(from, cs);
    if GoesThrough(from, to, cs) { Through(from, to, cs); }
  }

  lemma Through(from: Schema, to: Schema, cs: seq<Change>)
    requires HoldsNeeded(from, to, cs) && ListedOnce(cs) && GoesThrough(from, to, cs)
    ensures Clear(from, cs)
  {
    GoesThroughClear(from, to, cs);
    hide *;
  }

  lemma DropThenAdd(from: Schema, to: Schema, drop: Change, add: Change)
    requires drop.Drop? && add.Add? && drop == Drop(add.kind, add.table, add.name)
    requires forall c :: Needed(from, to, c) <==> c == add || c == drop
    ensures HoldsNeeded(from, to, [drop, add]) && ListedOnce([drop, add]) && Clear(from, [drop, add])
  {
    hide CatalogOf, Needed;
    assert [drop, add][..1] == [drop];
  }

  lemma OneCheckTaken(t: string, name: string, key: string)
    ensures SlotOf(Add(Check, t, name)) in CatalogOf(OneCheck(t, name, key))
  {
    var schema := OneCheck(t, name, key);
    HeldIsTaken(schema, t, Check, name);
    assert schema.tables[t].Items(Check) == [Named(name, key)];
    hide CatalogOf;
  }

  lemma OneCheckDistinct(t: string, name: string, before: string, after: string)
    ensures SchemaDistinct(OneCheck(t, name, before)) && SchemaDistinct(OneCheck(t, name, after))
    ensures SchemaNoneTwice(OneCheck(t, name, before), OneCheck(t, name, after))
  {
    var x, y := OneCheck(t, name, before).tables[t], OneCheck(t, name, after).tables[t];
    assert x.Items(Check) == [Named(name, before)] && y.Items(Check) == [Named(name, after)];
    assert forall k | k != Check :: x.Items(k) == [] && y.Items(k) == [];
    hide KeysOf;
  }
}
