/**
 * Writes under a row check. The check runs on the rows as they were sent, before the statement,
 * and again on the rows as the database returns them. Without interactive transactions nothing
 * can be rolled back in between.
 */
module Mutations {
  import opened CanonicalJson
  import opened Expressions
  import opened Evaluate
  import opened Policy
  import opened Storage
  import opened Text

  datatype Outcome = Written | PolicyDenied | CheckViolation

  /** checkRowAllowed */
  predicate RowAllowed(plan: Plan, row: Row, now: string) {
    plan.allow && (plan.rowCheck.None? || EvalCheck(plan.rowCheck.value, row, now))
  }

  predicate AllAllowed(plan: Plan, rows: seq<Row>, now: string) {
    forall i | 0 <= i < |rows| :: RowAllowed(plan, rows[i], now)
  }

  /** No IS test in the plan's check reads a column that the row leaves out. */
  predicate CheckCovered(plan: Plan, row: Row) {
    plan.rowCheck.None? || IsCovered(plan.rowCheck.value, row)
  }

  /** Every value that the plan's check reads is in the form its column returns. */
  predicate CheckFits(plan: Plan, d: Driver, types: string -> PortableType, row: Row) {
    plan.rowCheck.None? || ReadsFit(d, types, plan.rowCheck.value, row)
  }

  // ---------------------------------------------------------------- inserted rows

  /** What a check reads of a row that storage has completed, when it reads only values that fit. */
  lemma CompletionKept(e: Expr, d: Driver, types: string -> PortableType, part: Row, full: Row, now: string)
    requires EvalCheck(e, part, now) && IsCovered(e, part) && ReadsFit(d, types, e, part)
    requires Extends(full, StoredRow(d, types, part))
    ensures EvalCheck(e, full, now)
  {
    var read := map k | k in part && k in Reads(e) :: part[k];
    SameReads(e, read, part, now);
    CoveredByReads(e, part, read);
    forall k | k in read ensures k in full && full[k] == read[k] {
      FitsIffUnchanged(d, types(k), part[k]);
      assert k in StoredRow(d, types, part);
    }
    DefiniteVerdictKept(e, read, full, now);
  }

  lemma {:induction false} CoveredByReads(e: Expr, row: Row, read: Row)
    requires IsCovered(e, row) && forall k | k in row && k in Reads(e) :: k in read
    ensures IsCovered(e, read)
    decreases e
  {
    match e
    case Not(t) => CoveredByReads(t, row, read);
    case Compare(c, l, r) =>
      if c.Is? {
        PresentByReads(l, row, read);
        PresentByReads(r, row, read);
      } else {
        CoveredByReads(l, row, read);
        CoveredByReads(r, row, read);
      }
    case Logic(_, ts) =>
      forall t | t in ts ensures IsCovered(t, read) {
        assert forall k | k in Reads(t) :: k in Reads(e);
        CoveredByReads(t, row, read);
      }
    case _ =>
  }

  lemma {:induction false} PresentByReads(e: Expr, row: Row, read: Row)
    requires Present(e, row) && forall k | k in row && k in Reads(e) :: k in read
    ensures Present(e, read)
    decreases e
  {
    match e
    case Not(t) => PresentByReads(t, row, read);
    case Compare(_, l, r) => PresentByReads(l, row, read); PresentByReads(r, row, read);
    case Logic(_, ts) =>
      forall t | t in ts ensures Present(t, read) {
        assert forall k | k in Reads(t) :: k in Reads(e);
        PresentByReads(t, row, read);
      }
    case _ =>
  }

  /** Storing and completing an allowed row keeps it allowed. */
  lemma AllowedKept(plan: Plan, d: Driver, types: string -> PortableType, part: Row, full: Row, now: string)
    requires RowAllowed(plan, part, now) && CheckCovered(plan, part) && CheckFits(plan, d, types, part)
    requires Extends(full, StoredRow(d, types, part))
    ensures RowAllowed(plan, full, now)
  {
    if plan.rowCheck.Some? {
      CompletionKept(plan.rowCheck.value, d, types, part, full, now);
    }
  }

  // ---------------------------------------------------------------- updated rows

  /** The post-image of an update. */
  function Patched(row: Row, patch: Row): Row {
    row + patch
  }

  /** The rows an update selects, and the table after it. */
  function Selected(rows: seq<Row>, selects: Row -> bool): seq<Row> {
    if rows == [] then []
    else
      var last := |rows| - 1;
      Selected(rows[..last], selects) + (if selects(rows[last]) then [rows[last]] else [])
  }

  function PatchedAll(rows: seq<Row>, patch: Row): (r: seq<Row>)
    ensures |r| == |rows|
    ensures forall i | 0 <= i < |rows| :: r[i] == Patched(rows[i], patch)
  {
    if rows == [] then []
    else PatchedAll(rows[..|rows| - 1], patch) + [Patched(rows[|rows| - 1], patch)]
  }

  function Updated(rows: seq<Row>, selects: Row -> bool, patch: Row): seq<Row> {
    if rows == [] then []
    else
      var last := |rows| - 1;
      Updated(rows[..last], selects, patch) + [if selects(rows[last]) then Patched(rows[last], patch) else rows[last]]
  }

  /** The check gives the post-image one verdict before and after storage, when it reads only patched values that fit. */
  lemma ImageKept(plan: Plan, d: Driver, types: string -> PortableType, row: Row, patch: Row, now: string)
    requires CheckFits(plan, d, types, patch)
    ensures RowAllowed(plan, Patched(row, StoredRow(d, types, patch)), now) <==> RowAllowed(plan, Patched(row, patch), now)
  {
    if plan.rowCheck.Some? {
      var e, stored := plan.rowCheck.value, StoredRow(d, types, patch);
      forall k | k in Reads(e)
        ensures (k in Patched(row, stored) <==> k in Patched(row, patch))
        ensures k in Patched(row, patch) ==> Patched(row, stored)[k] == Patched(row, patch)[k]
      {
        if k in patch { FitsIffUnchanged(d, types(k), patch[k]); }
      }
      SameReads(e, Patched(row, stored), Patched(row, patch), now);
    }
  }

  lemma ImagesKept(plan: Plan, d: Driver, types: string -> PortableType, rows: seq<Row>, patch: Row, now: string)
    requires CheckFits(plan, d, types, patch)
    ensures AllAllowed(plan, PatchedAll(rows, StoredRow(d, types, patch)), now) <==> AllAllowed(plan, PatchedAll(rows, patch), now)
  {
    hide RowAllowed, StoredRow, CheckFits;
    var images, returned := PatchedAll(rows, patch), PatchedAll(rows, StoredRow(d, types, patch));
    forall i | 0 <= i < |rows| ensures RowAllowed(plan, returned[i], now) <==> RowAllowed(plan, images[i], now) {
      ImageKept(plan, d, types, rows[i], patch, now);
    }
  }

  /** The first check sees the returned rows themselves exactly when nothing is selected or the whole patch fits. */
  lemma ImagesAreReturnedIff(d: Driver, types: string -> PortableType, rows: seq<Row>, patch: Row)
    ensures PatchedAll(rows, patch) == PatchedAll(rows, StoredRow(d, types, patch))
       <==> rows == [] || forall k | k in patch :: Fits(d, types(k), patch[k])
  {
    var stored := StoredRow(d, types, patch);
    forall k | k in patch ensures Fits(d, types(k), patch[k]) <==> stored[k] == patch[k] {
      FitsIffUnchanged(d, types(k), patch[k]);
    }
    hide Fits, Stored;
    if forall k | k in patch :: Fits(d, types(k), patch[k]) {
      assert stored == patch;
    } else if rows != [] {
      var k :| k in patch && !Fits(d, types(k), patch[k]);
      assert Patched(rows[0], patch)[k] != Patched(rows[0], stored)[k];
      assert PatchedAll(rows, patch)[0] != PatchedAll(rows, stored)[0];
    }
  }

  /** A row that is updated is one of the images; every other row stays. */
  lemma {:induction false} UpdatedFrom(rows: seq<Row>, selects: Row -> bool, patch: Row)
    ensures |Updated(rows, selects, patch)| == |rows|
    ensures forall i | 0 <= i < |rows| ::
              if selects(rows[i]) then Updated(rows, selects, patch)[i] in PatchedAll(Selected(rows, selects), patch)
              else Updated(rows, selects, patch)[i] == rows[i]
  {
    if rows != [] {
      var last := |rows| - 1;
      var front, row := rows[..last], rows[last];
      UpdatedFrom(front, selects, patch);
      assert Updated(rows, selects, patch)
          == Updated(front, selects, patch) + [if selects(row) then Patched(row, patch) else row];
      assert rows == front + [row];
      SelectedMore(front, row, selects, patch);
      hide *;
      var images := PatchedAll(Selected(front, selects), patch);
      assert selects(row) ==> Patched(row, patch) in images + [Patched(row, patch)];
    }
  }

  /** One more row. */
  lemma SelectedMore(rows: seq<Row>, row: Row, selects: Row -> bool, patch: Row)
    ensures PatchedAll(Selected(rows + [row], selects), patch)
         == PatchedAll(Selected(rows, selects), patch) + if selects(row) then [Patched(row, patch)] else []
  {
    hide Patched;
    var chosen := Selected(rows, selects);
    FrontOfConcat(rows, row);
    FrontOfConcat(chosen, row);
    assert chosen + [] == chosen;
  }

  lemma UpdatedMore(rows: seq<Row>, row: Row, selects: Row -> bool, patch: Row)
    ensures Updated(rows + [row], selects, patch)
         == Updated(rows, selects, patch) + [if selects(row) then Patched(row, patch) else row]
  {
    hide Patched;
    FrontOfConcat(rows, row);
  }

  /** After an update whose images passed the first check, with patched values that fit where the check reads them. */
  lemma UpdatedAllowed(plan: Plan, d: Driver, types: string -> PortableType, rows: seq<Row>, selects: Row -> bool, patch: Row, now: string)
    requires CheckFits(plan, d, types, patch) && AllAllowed(plan, PatchedAll(Selected(rows, selects), patch), now)
    ensures var after := Updated(rows, selects, StoredRow(d, types, patch));
            && |after| == |rows|
            && forall i | 0 <= i < |rows| :: if selects(rows[i]) then RowAllowed(plan, after[i], now) else after[i] == rows[i]
  {
    ImagesKept(plan, d, types, Selected(rows, selects), patch, now);
    UpdatedFrom(rows, selects, StoredRow(d, types, patch));
    hide RowAllowed, StoredRow, CheckFits, Updated, PatchedAll, Selected;
  }

  /** One more row of a table that is updated in place. */
  lemma WriteStep(before: seq<Row>, rows: seq<Row>, returned: seq<Row>, i: nat, selects: Row -> bool, stored: Row)
    requires |rows| == |before| && i < |before| && rows[i..] == before[i..]
    requires rows[..i] == Updated(before[..i], selects, stored) && returned == PatchedAll(Selected(before[..i], selects), stored)
    ensures var image := Patched(rows[i], stored);
            var next := if selects(rows[i]) then rows[i := image] else rows;
            && next[i + 1..] == before[i + 1..]
            && next[..i + 1] == Updated(before[..i + 1], selects, stored)
            && (if selects(rows[i]) then returned + [image] else returned) == PatchedAll(Selected(before[..i + 1], selects), stored)
  {
    hide *;
    assert rows[i] == before[i] by { assert rows[i..][0] == before[i..][0]; }
    var next := if selects(rows[i]) then rows[i := Patched(rows[i], stored)] else rows;
    SelectedMore(before[..i], before[i], selects, stored);
    UpdatedMore(before[..i], before[i], selects, stored);
    TakeNext(before, i);
    TakeNext(next, i);
    assert next[..i] == rows[..i];
    assert next[i + 1..] == before[i + 1..] by { assert rows[i..][1..] == before[i..][1..]; }
    assert returned + [] == returned;
  }

  // ---------------------------------------------------------------- the statements

  /** A table of rows as they read back. */
  class Table {
    var rows: seq<Row>

    constructor (rows: seq<Row>)
      ensures this.rows == rows
    {
      this.rows := rows;
    }

    /** Stops at the first row that fails the check. */
    static method CheckRows(plan: Plan, candidates: seq<Row>, now: string) returns (ok: bool)
      ensures ok <==> AllAllowed(plan, candidates, now)
    {
      for i := 0 to |candidates|
        invariant AllAllowed(plan, candidates[..i], now)
      {
        if !RowAllowed(plan, candidates[i], now) {
          return false;
        }
        assert candidates[..i + 1] == candidates[..i] + [candidates[i]];
      }
      assert candidates[..|candidates|] == candidates;
      return true;
    }

    /**
     * An insert or upsert. The statement leaves the table as `after` and returns `returned`: each
     * returned row is a requested row as stored, with its omitted columns filled in.
     */
    method Insert(plan: Plan, d: Driver, types: string -> PortableType, requested: seq<Row>, after: seq<Row>,
                  returned: seq<Row>, ghost source: seq<nat>, rollback: bool, now: string)
      returns (outcome: Outcome)
      requires |source| == |returned|
      requires forall i | 0 <= i < |returned| ::
                 && source[i] < |requested|
                 && Extends(returned[i], StoredRow(d, types, requested[source[i]]))
                 && returned[i] in after
      modifies this
      ensures outcome == if !plan.allow then PolicyDenied
                         else if AllAllowed(plan, requested, now) && AllAllowed(plan, returned, now) then Written
                         else CheckViolation
      ensures rows == if plan.allow && AllAllowed(plan, requested, now) && (AllAllowed(plan, returned, now) || !rollback)
                      then after else old(rows)
      ensures (forall i | 0 <= i < |requested| ::
                 CheckCovered(plan, requested[i]) && CheckFits(plan, d, types, requested[i])) ==>
                (outcome.Written? <==> plan.allow && AllAllowed(plan, requested, now))
                && (!outcome.Written? ==> rows == old(rows))
    {
      if !plan.allow {
        return PolicyDenied;
      }
      var before := rows;
      var ok := CheckRows(plan, requested, now);
      if !ok {
        return CheckViolation;
      }
      rows := after;
      ok := CheckRows(plan, returned, now);
      if forall i | 0 <= i < |requested| :: CheckCovered(plan, requested[i]) && CheckFits(plan, d, types, requested[i]) {
        forall i | 0 <= i < |returned| ensures RowAllowed(plan, returned[i], now) {
          AllowedKept(plan, d, types, requested[source[i]], returned[i], now);
        }
      }
      if !ok && rollback {
        rows := before;
      }
      outcome := if ok then Written else CheckViolation;
    }

    /** Writes the stored patch into the selected rows and reads each of them back. */
    method Write(selects: Row -> bool, stored: Row) returns (returned: seq<Row>)
      modifies this
      ensures rows == Updated(old(rows), selects, stored)
      ensures returned == PatchedAll(Selected(old(rows), selects), stored)
    {
      var before := rows;
      returned := [];
      assert before[..0] == [];
      for i := 0 to |before|
        invariant |rows| == |before| && rows[i..] == before[i..]
        invariant rows[..i] == Updated(before[..i], selects, stored)
        invariant returned == PatchedAll(Selected(before[..i], selects), stored)
      {
        WriteStep(before, rows, returned, i, selects, stored);
        hide *;
        if selects(rows[i]) {
          rows := rows[i := Patched(rows[i], stored)];
          returned := returned + [rows[i]];
        }
      }
      assert before[..|before|] == before && rows[..|before|] == rows;
    }

    /**
     * An update. The first check runs on the images of exactly the rows the statement selects, with
     * the patch as sent; the second on those rows as they read back.
     */
    method Update(plan: Plan, d: Driver, types: string -> PortableType, selects: Row -> bool, patch: Row, rollback: bool, now: string)
      returns (outcome: Outcome)
      modifies this
      ensures var sent, stored := PatchedAll(Selected(old(rows), selects), patch),
                                  PatchedAll(Selected(old(rows), selects), StoredRow(d, types, patch));
              && outcome == (if !plan.allow then PolicyDenied
                             else if AllAllowed(plan, sent, now) && AllAllowed(plan, stored, now) then Written
                             else CheckViolation)
              && rows == if plan.allow && AllAllowed(plan, sent, now) && (AllAllowed(plan, stored, now) || !rollback)
                         then Updated(old(rows), selects, StoredRow(d, types, patch)) else old(rows)
      ensures CheckFits(plan, d, types, patch) ==>
                (outcome.Written? <==> plan.allow && AllAllowed(plan, PatchedAll(Selected(old(rows), selects), patch), now))
                && (!outcome.Written? ==> rows == old(rows))
    {
      if !plan.allow {
        return PolicyDenied;
      }
      var before := rows;
      var ok := CheckRows(plan, PatchedAll(Selected(rows, selects), patch), now);
      if !ok {
        return CheckViolation;
      }
      var returned := Write(selects, StoredRow(d, types, patch));
      if CheckFits(plan, d, types, patch) {
        ImagesKept(plan, d, types, Selected(before, selects), patch, now);
      }
      ok := CheckRows(plan, returned, now);
      if !ok && rollback {
        rows := before;
      }
      outcome := if ok then Written else CheckViolation;
    }
  }

  // ---------------------------------------------------------------- where the two checks differ

  /** An IS test on an omitted column lets a row through the first check only. */
  lemma OmittedColumnIsMissed(table: string, name: string, now: string)
    ensures var plan := Plan(true, None, Some(Compare(Is, Column(table, name), Literal(Null))));
            && RowAllowed(plan, map[], now)
            && Extends(map[name := Bool(true)], map[])
            && !RowAllowed(plan, map[name := Bool(true)], now)
  {
    var e := Compare(Is, Column(table, name), Literal(Null));
    assert Eval(e, map[], now) == CompareValues(Is, Undefined, Val(Null), false);
    assert Eval(e, map[name := Bool(true)], now) == CompareValues(Is, Val(Bool(true)), Val(Null), false);
  }

  /** A number sent for an int64 column passes `> 9` as a number and fails it as the text that comes back. */
  lemma RetypedColumnIsMissed(d: Driver, table: string, name: string, now: string)
    requires d.NumberText(TEN) in {"10", "10.0"}
    ensures var plan := Plan(true, None, Some(Compare(Gt, Column(table, name), Literal(Num(NINE)))));
            var stored := StoredRow(d, Int64Column, map[name := Num(TEN)]);
            && RowAllowed(plan, map[name := Num(TEN)], now)
            && forall returned: Row | Extends(returned, stored) :: !RowAllowed(plan, returned, now)
  {
    RetypedNumberFlips(d, table, name, now);
    var e := Compare(Gt, Column(table, name), Literal(Num(NINE)));
    var stored := StoredRow(d, Int64Column, map[name := Num(TEN)]);
    assert stored[name] == Stored(d, Int64, Num(TEN));
    forall returned: Row | Extends(returned, stored) ensures !EvalCheck(e, returned, now) {
      assert name in stored;
      SameReads(e, returned, map[name := Stored(d, Int64, Num(TEN))], now);
    }
  }

  function Int64Column(name: string): PortableType {
    Int64
  }
}
