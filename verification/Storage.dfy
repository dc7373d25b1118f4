/**
 * What a JSON value becomes when a column of the SQLite family stores it and it is read back: the
 * parameter is marshalled, the column's affinity converts it, and the result is normalised.
 */
module Storage {
  import opened Text
  import opened Numbers
  import opened CanonicalJson
  import opened Expressions
  import opened Evaluate

  datatype PortableType =
    | BoolType | Int32 | Int64 | Float64 | DecimalType | TextType | Uuid | Date | Timestamp | TimestampTz
    | JsonType | Bytes | Enum

  /**
   * The parts that belong to the driver: the text SQLite keeps of a number, the number it reads in
   * a text, and the text JSON.stringify gives an array or object.
   */
  datatype Driver = Driver(NumberText: Number -> string, Numeric: string -> Option<Number>, JsonText: Json -> string)

  datatype Affinity = TextAffinity | NumericAffinity | NoAffinity

  /** The affinity of the physical type a portable type is given. */
  function AffinityOf(t: PortableType): Affinity {
    match t
    case BoolType => NumericAffinity
    case Int32 => NumericAffinity
    case Float64 => NumericAffinity
    case Bytes => NoAffinity
    case _ => TextAffinity
  }

  /** A bound parameter: no booleans, arrays or objects. */
  function Physical(d: Driver, v: Json): (r: Json)
    ensures r.Null? || r.Num? || r.Str?
  {
    match v
    case Bool(b) => Num(if b then ONE else ZERO)
    case Arr(_) => Str(d.JsonText(v))
    case Obj(_) => Str(d.JsonText(v))
    case _ => v
  }

  const ZERO: Number := Reduced(0, 0)
  const ONE: Number := Reduced(1, 0)

  function Convert(d: Driver, a: Affinity, v: Json): (r: Json)
    requires v.Null? || v.Num? || v.Str?
    ensures r.Null? || r.Num? || r.Str?
  {
    match a
    case TextAffinity => if v.Num? then Str(d.NumberText(v.n)) else v
    case NumericAffinity =>
      if v.Str? && d.Numeric(v.s).Some? then Num(d.Numeric(v.s).value) else v
    case NoAffinity => v
  }

  /** normalizeScalar */
  function Surfaced(t: PortableType, v: Json): Json
    requires v.Null? || v.Num? || v.Str?
  {
    if t.BoolType? then
      match v
      case Num(n) => Bool(n != ZERO)
      case Str(s) =>
        if s == "0" || s == "false" || s == "f" then Bool(false)
        else if s == "1" || s == "true" || s == "t" then Bool(true)
        else v
      case _ => v
    else v
  }

  /** A value as it comes back from a column. */
  function Stored(d: Driver, t: PortableType, v: Json): (r: Json)
    ensures r.Null? <==> v.Null?
    ensures !Composite(r)
  {
    Surfaced(t, Convert(d, AffinityOf(t), Physical(d, v)))
  }

  /** The values of a type that are already in the form the column returns. */
  predicate Fits(d: Driver, t: PortableType, v: Json) {
    match v
    case Null => true
    case Bool(_) => t.BoolType?
    case Num(_) => !AffinityOf(t).TextAffinity? && !t.BoolType?
    case Str(s) =>
      (AffinityOf(t).NumericAffinity? ==> d.Numeric(s).None?)
      && (t.BoolType? ==> s !in {"0", "false", "f", "1", "true", "t"})
    case _ => false
  }

  /** What comes back, type by type. */
  lemma StoredByType(d: Driver, t: PortableType, v: Json)
    requires !Composite(v) && !v.Null?
    ensures t in {Int64, DecimalType, TextType, Uuid, Date, Timestamp, TimestampTz, JsonType, Enum} ==>
              Stored(d, t, v) == (match v
                case Str(s) => Str(s)
                case Num(n) => Str(d.NumberText(n))
                case Bool(b) => Str(d.NumberText(Decimal(if b then 1 else 0, 0)))
                case _ => Null)
    ensures t in {Int32, Float64} ==>
              Stored(d, t, v) == (match v
                case Str(s) => (match d.Numeric(s) case Some(n) => Num(n) case None => Str(s))
                case Num(n) => Num(n)
                case Bool(b) => Num(Decimal(if b then 1 else 0, 0))
                case _ => Null)
    ensures t == Bytes ==> Stored(d, t, v) == (if v.Bool? then Num(Decimal(if v.b then 1 else 0, 0)) else v)
    ensures t == BoolType && v.Num? ==> Stored(d, t, v) == Bool(v.n.coefficient != 0)
    ensures t == BoolType && v.Bool? ==> Stored(d, t, v) == v
    ensures t == BoolType && v.Str? && d.Numeric(v.s).Some? ==> Stored(d, t, v) == Bool(d.Numeric(v.s).value.coefficient != 0)
    ensures t == BoolType && v.Str? && d.Numeric(v.s).None? ==>
              Stored(d, t, v) == (if v.s in {"0", "false", "f"} then Bool(false) else if v.s in {"1", "true", "t"} then Bool(true) else v)
  {
    OneAndZero();
  }

  lemma OneAndZero()
    ensures ONE == Decimal(1, 0) && ZERO == Decimal(0, 0)
  {}

  lemma FitsIffUnchanged(d: Driver, t: PortableType, v: Json)
    ensures Stored(d, t, v) == v <==> Fits(d, t, v)
  {}

  // ---------------------------------------------------------------- rows and checks

  /** A row as it comes back. */
  function StoredRow(d: Driver, types: string -> PortableType, row: Row): (r: Row)
    ensures r.Keys == row.Keys
  {
    map k | k in row :: Stored(d, types(k), row[k])
  }

  /** A check that the sent value passes and another one does not. */
  function Telling(v: Json, w: Json, column: Expr): Expr {
    if Composite(v) then Compare(Neq, column, Literal(w)) else Compare(Eq, column, Literal(v))
  }

  lemma TellsApart(table: string, name: string, row: Row, other: Row, now: string)
    requires name in row && name in other && row[name] != other[name]
    requires !row[name].Null? && !other[name].Null? && !Composite(other[name])
    ensures var e := Telling(row[name], other[name], Column(table, name));
            IsFree(e) && EvalCheck(e, row, now) && !EvalCheck(e, other, now)
  {
    var v, w := row[name], other[name];
    var e := Telling(v, w, Column(table, name));
    assert Eval(e, row, now) == CompareValues(e.cmp, Val(v), Val(e.right.value), false);
    assert Eval(e, other, now) == CompareValues(e.cmp, Val(w), Val(e.right.value), false);
  }

  /**
   * Storage keeps a row exactly when every check keeps its verdict on it: once a value is retyped,
   * some check without IS tests that the row passed when it was sent fails on what comes back.
   */
  lemma UnchangedIffChecksKept(d: Driver, types: string -> PortableType, row: Row, table: string, now: string)
    ensures (forall k | k in row :: Fits(d, types(k), row[k]))
       <==> forall e | IsFree(e) && EvalCheck(e, row, now) :: EvalCheck(e, StoredRow(d, types, row), now)
  {
    var other := StoredRow(d, types, row);
    forall k | k in row ensures Fits(d, types(k), row[k]) <==> other[k] == row[k] {
      FitsIffUnchanged(d, types(k), row[k]);
    }
    hide Fits, Stored;
    if forall k | k in row :: Fits(d, types(k), row[k]) {
      assert other == row;
    } else {
      var k :| k in row && !Fits(d, types(k), row[k]);
      NotNull(d, types(k), row[k]);
      TellsApart(table, k, row, other, now);
    }
  }

  lemma NotNull(d: Driver, t: PortableType, v: Json)
    requires !Fits(d, t, v)
    ensures !v.Null? && !Stored(d, t, v).Null?
  {}

  // ---------------------------------------------------------------- what a check reads

  /** The columns an expression reads. */
  function Reads(e: Expr): set<string> {
    match e
    case Column(_, name) => {name}
    case Not(t) => Reads(t)
    case Compare(_, l, r) => Reads(l) + Reads(r)
    case Logic(_, ts) => set t, k | t in ts && k in Reads(t) :: k
    case _ => {}
  }

  /** Rows that agree on the columns an expression reads give it one value. */
  lemma {:induction false} SameReads(e: Expr, row: Row, other: Row, now: string)
    requires forall k | k in Reads(e) :: (k in row <==> k in other) && (k in row ==> row[k] == other[k])
    ensures Eval(e, row, now) == Eval(e, other, now)
    decreases e
  {
    match e
    case Not(t) => SameReads(t, row, other, now);
    case Compare(_, l, r) => SameReads(l, row, other, now); SameReads(r, row, other, now);
    case Logic(_, ts) =>
      forall i | 0 <= i < |ts| ensures Eval(ts[i], row, now) == Eval(ts[i], other, now) {
        assert ts[i] in ts;
        assert forall k | k in Reads(ts[i]) :: k in Reads(e);
        SameReads(ts[i], row, other, now);
      }
      assert EvalTerms(ts, row, now) == EvalTerms(ts, other, now);
    case _ =>
  }

  /** Every value of a row that an expression reads comes back as it was sent. */
  predicate ReadsFit(d: Driver, types: string -> PortableType, e: Expr, row: Row) {
    forall k | k in row && k in Reads(e) :: Fits(d, types(k), row[k])
  }

  lemma ReadsFitKeepVerdict(d: Driver, types: string -> PortableType, e: Expr, row: Row, now: string)
    requires ReadsFit(d, types, e, row)
    ensures Eval(e, StoredRow(d, types, row), now) == Eval(e, row, now)
  {
    var other := StoredRow(d, types, row);
    forall k | k in Reads(e) ensures (k in row <==> k in other) && (k in row ==> row[k] == other[k]) {
      if k in row { FitsIffUnchanged(d, types(k), row[k]); }
    }
    SameReads(e, row, other, now);
  }

  // ---------------------------------------------------------------- an input on which the checks disagree

  /** `qty > 9` passes the number ten and fails the text that an int64 column returns for it. */
  lemma RetypedNumberFlips(d: Driver, table: string, name: string, now: string)
    requires d.NumberText(TEN) in {"10", "10.0"}
    ensures var e := Compare(Gt, Column(table, name), Literal(Num(NINE)));
            && IsFree(e)
            && EvalCheck(e, map[name := Num(TEN)], now)
            && !EvalCheck(e, map[name := Stored(d, Int64, Num(TEN))], now)
  {
    var e := Compare(Gt, Column(table, name), Literal(Num(NINE)));
    var w := Stored(d, Int64, Num(TEN));
    assert NumberText(NINE) == "9" && ToText(w)[0] == '1';
    assert Eval(e, map[name := Num(TEN)], now) == CompareValues(Gt, Val(Num(TEN)), Val(Num(NINE)), false);
    assert Eval(e, map[name := w], now) == CompareValues(Gt, Val(w), Val(Num(NINE)), false);
    assert Less(NINE, TEN);
  }

  const TEN: Number := Decimal(1, 1)
  const NINE: Number := Decimal(9, 0)
}
