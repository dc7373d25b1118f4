/**
 * The outbox dispatcher: a cursor over an append-only log, pumps that may overlap, faults before
 * the cursor moves, and garbage collection. Events become visible in the order of their numbers.
 */
module Dispatcher {

  datatype Event = Event(number: int, commitTs: int, payload: string)

  /** How many events one pump fetches at most. */
  const LIMIT := 5000

  predicate Increasing(es: seq<Event>) {
    forall i, j | 0 <= i < j < |es| :: es[i].number < es[j].number
  }

  /** The rows past a cursor, in order. */
  function Above(rows: seq<Event>, cursor: int): (r: seq<Event>)
    ensures forall e :: e in r <==> e in rows && e.number > cursor
    ensures Increasing(rows) ==> Increasing(r)
  {
    if rows == [] then []
    else
      var rest := Above(rows[1..], cursor);
      assert forall e :: e in rows <==> e == rows[0] || e in rows[1..];
      if rows[0].number > cursor then [rows[0]] + rest else rest
  }

  /** What a pump fetches: WHERE seq > cursor ORDER BY seq LIMIT 5000. */
  function Batch(rows: seq<Event>, cursor: int): (r: seq<Event>)
    ensures Increasing(rows) ==> Increasing(r)
    ensures forall e | e in r :: e in rows && e.number > cursor
  {
    var all := Above(rows, cursor);
    if |all| > LIMIT then all[..LIMIT] else all
  }

  /** The rows that garbage collection leaves. */
  function Left(rows: seq<Event>, boundary: int, cutoff: int): (r: seq<Event>)
    ensures |r| <= |rows|
    ensures forall e :: e in r <==> e in rows && !(e.number <= boundary && e.commitTs < cutoff)
    ensures Increasing(rows) ==> Increasing(r)
  {
    if rows == [] then []
    else
      var last := |rows| - 1;
      var rest := Left(rows[..last], boundary, cutoff);
      assert rows == rows[..last] + [rows[last]];
      if rows[last].number <= boundary && rows[last].commitTs < cutoff then rest else rest + [rows[last]]
  }

  /** gc never looks past the cursor, whatever minimum its caller claims. */
  function Boundary(claimed: int, watermark: int): int {
    var least := if claimed <= watermark then claimed else watermark;
    if least > 0 then least else 0
  }

  // ---------------------------------------------------------------- overlapping pumps

  /**
   * The log of everything committed, the rows still stored, the cursor, the pumps that have
   * fetched and not yet moved the cursor, and the results of those that have returned.
   */
  datatype State = State(
    log: seq<Event>, rows: seq<Event>, watermark: int, enabled: bool,
    pumps: map<nat, seq<Event>>, returned: seq<seq<Event>>)

  datatype Move =
    | Commit(e: Event)
    | Fetch(id: nat)
    | Advance(id: nat)
    | Fault(id: nat)
    | Collect(claimed: int, cutoff: int)
    | Drift

  predicate Legal(s: State, m: Move) {
    match m
    case Commit(e) => e.number > 0 && (s.log != [] ==> e.number > s.log[|s.log| - 1].number)
    case Fetch(id) => id !in s.pumps
    case Advance(id) => id in s.pumps
    case Fault(id) => id in s.pumps && s.pumps[id] != []
    case _ => true
  }

  function Events(es: seq<Event>): set<Event> {
    set e | e in es
  }

  function Apply(s: State, m: Move): State
    requires Legal(s, m)
  {
    match m
    case Commit(e) => s.(log := s.log + [e], rows := s.rows + [e])
    case Fetch(id) =>
      var es := if s.enabled then Batch(s.rows, s.watermark) else [];
      s.(pumps := s.pumps[id := es])
    case Advance(id) =>
      var es := s.pumps[id];
      s.(watermark := if es == [] then s.watermark else es[|es| - 1].number,
         pumps := s.pumps - {id}, returned := s.returned + [es])
    case Fault(id) => s.(pumps := s.pumps - {id})
    case Collect(claimed, cutoff) =>
      var boundary := Boundary(claimed, s.watermark);
      if boundary <= 0 then s else s.(rows := Left(s.rows, boundary, cutoff))
    case Drift => s.(enabled := false)
  }

  predicate LegalRun(s: State, ms: seq<Move>)
    decreases |ms|
  {
    ms == [] || (Legal(s, ms[0]) && LegalRun(Apply(s, ms[0]), ms[1..]))
  }

  function Run(s: State, ms: seq<Move>): State
    requires LegalRun(s, ms)
    decreases |ms|
  {
    if ms == [] then s else Run(Apply(s, ms[0]), ms[1..])
  }

  const START := State([], [], 0, true, map[], [])

  /** What some pump has returned. */
  function Delivered(returned: seq<seq<Event>>): set<Event> {
    if returned == [] then {} else Delivered(returned[..|returned| - 1]) + Events(returned[|returned| - 1])
  }

  lemma {:induction false} DeliveredInBatch(returned: seq<seq<Event>>, e: Event)
    ensures e in Delivered(returned) <==> InSomeBatch(returned, e)
  {
    if returned != [] {
      var front, last := returned[..|returned| - 1], |returned| - 1;
      DeliveredInBatch(front, e);
      assert forall i | 0 <= i < last :: returned[i] == front[i];
      assert InSomeBatch(returned, e) <==> InSomeBatch(front, e) || e in returned[last];
    }
  }

  /** Some pump has returned the event. */
  predicate InSomeBatch(returned: seq<seq<Event>>, e: Event) {
    exists i | 0 <= i < |returned| :: e in returned[i]
  }

  /** Every committed event up to a number has been delivered. */
  predicate DeliveredUpTo(log: seq<Event>, delivered: set<Event>, n: int) {
    forall e | e in log && e.number <= n :: e in delivered
  }

  /** The number is no later than the end of the log. */
  predicate Reached(log: seq<Event>, n: int) {
    n <= 0 || (log != [] && n <= log[|log| - 1].number)
  }

  predicate Stored(log: seq<Event>, rows: seq<Event>, delivered: set<Event>) {
    && Increasing(log) && Increasing(rows)
    && (forall e | e in rows :: e in log)
    && (forall e | e in log && e !in rows :: e in delivered)
  }

  /** A pump that has fetched: once it returns, everything up to its last event has been delivered. */
  predicate PumpKept(log: seq<Event>, delivered: set<Event>, es: seq<Event>) {
    && Increasing(es)
    && (forall e | e in es :: e in log)
    && (es != [] ==> DeliveredUpTo(log, delivered + Events(es), es[|es| - 1].number))
  }

  predicate Inv(s: State) {
    && Stored(s.log, s.rows, Delivered(s.returned))
    && DeliveredUpTo(s.log, Delivered(s.returned), s.watermark)
    && Reached(s.log, s.watermark)
    && (forall id | id in s.pumps :: PumpKept(s.log, Delivered(s.returned), s.pumps[id]))
    && (forall i | 0 <= i < |s.returned| :: Increasing(s.returned[i]))
  }

  lemma InOrder(es: seq<Event>, e: Event)
    requires Increasing(es) && e in es
    ensures e.number <= es[|es| - 1].number
  {
    var i :| 0 <= i < |es| && es[i] == e;
    assert i < |es| - 1 ==> es[i].number < es[|es| - 1].number;
  }

  /** A batch leaves out no row up to its last. */
  lemma BatchComplete(rows: seq<Event>, cursor: int, e: Event)
    requires Increasing(rows) && e in rows && e.number > cursor
    requires Batch(rows, cursor) != [] && e.number <= Batch(rows, cursor)[|Batch(rows, cursor)| - 1].number
    ensures e in Batch(rows, cursor)
  {
    var all, es := Above(rows, cursor), Batch(rows, cursor);
    var i :| 0 <= i < |all| && all[i] == e;
    assert es == all[..|es|];
    assert forall j | |es| <= j < |all| :: es[|es| - 1].number < all[j].number;
  }

  /** A batch leaves a row past the cursor out only when it is full, and then only for rows before it. */
  lemma BatchTakesNext(rows: seq<Event>, cursor: int, e: Event)
    requires Increasing(rows) && e in rows && e.number > cursor && e !in Batch(rows, cursor)
    ensures |Batch(rows, cursor)| == 5000 && forall d | d in Batch(rows, cursor) :: d.number < e.number
  {
    var all, es := Above(rows, cursor), Batch(rows, cursor);
    var i :| 0 <= i < |all| && all[i] == e;
    assert es == all[..LIMIT] && |es| == LIMIT;
    assert forall j | 0 <= j < LIMIT :: es[j] == all[j];
    forall d | d in es ensures d.number < e.number {
      var j :| 0 <= j < |es| && es[j] == d;
      assert all[j] == d;
    }
  }

  lemma PumpKeptByCommit(log: seq<Event>, delivered: set<Event>, es: seq<Event>, e: Event)
    requires PumpKept(log, delivered, es) && forall d | d in log :: d.number < e.number
    ensures PumpKept(log + [e], delivered, es)
  {
    assert es != [] ==> es[|es| - 1] in log;
  }

  lemma CommitKeeps(s: State, e: Event)
    requires Inv(s) && Legal(s, Commit(e))
    ensures Inv(Apply(s, Commit(e)))
  {
    var s' := Apply(s, Commit(e));
    forall d | d in s.log ensures d.number < e.number { InOrder(s.log, d); }
    assert e !in s.log;
    forall id | id in s.pumps ensures PumpKept(s'.log, Delivered(s.returned), s.pumps[id]) {
      PumpKeptByCommit(s.log, Delivered(s.returned), s.pumps[id], e);
    }
    hide PumpKept, Delivered;
    assert forall i | 0 <= i < |s.rows| :: s.rows[i] in s.log;
  }

  /** A batch fetched from the rows is kept by the pump. */
  lemma FetchedKept(log: seq<Event>, rows: seq<Event>, delivered: set<Event>, watermark: int)
    requires Stored(log, rows, delivered) && DeliveredUpTo(log, delivered, watermark)
    ensures PumpKept(log, delivered, Batch(rows, watermark))
  {
    var es := Batch(rows, watermark);
    hide Batch;
    if es != [] {
      forall e | e in log && e.number <= es[|es| - 1].number ensures e in delivered + Events(es) {
        if e in rows && e.number > watermark { BatchComplete(rows, watermark, e); }
      }
    }
  }

  lemma NothingKept(log: seq<Event>, delivered: set<Event>)
    ensures PumpKept(log, delivered, [])
  {}

  lemma FetchKeeps(s: State, id: nat)
    requires Inv(s) && Legal(s, Fetch(id))
    ensures Inv(Apply(s, Fetch(id)))
  {
    var s' := Apply(s, Fetch(id));
    hide Delivered, Batch, Stored, DeliveredUpTo, PumpKept, Increasing;
    FetchedKept(s.log, s.rows, Delivered(s.returned), s.watermark);
    NothingKept(s.log, Delivered(s.returned));
    forall j | j in s'.pumps ensures PumpKept(s'.log, Delivered(s.returned), s'.pumps[j]) {
      assert j != id ==> PumpKept(s.log, Delivered(s.returned), s.pumps[j]);
    }
  }

  lemma ReturnedOne(returned: seq<seq<Event>>, es: seq<Event>)
    ensures Delivered(returned + [es]) == Delivered(returned) + Events(es)
  {
    assert (returned + [es])[..|returned|] == returned;
  }

  lemma AdvanceKeeps(s: State, id: nat)
    requires Inv(s) && Legal(s, Advance(id))
    ensures Inv(Apply(s, Advance(id)))
  {
    var es := s.pumps[id];
    assert PumpKept(s.log, Delivered(s.returned), es);
    ReturnedOne(s.returned, es);
    hide Delivered;
    if es != [] {
      assert es[|es| - 1] in es;
      InOrder(s.log, es[|es| - 1]);
    }
  }

  lemma CollectKeeps(s: State, claimed: int, cutoff: int)
    requires Inv(s)
    ensures Inv(Apply(s, Collect(claimed, cutoff)))
  {
    assert Boundary(claimed, s.watermark) <= 0 || Boundary(claimed, s.watermark) <= s.watermark;
  }

  lemma ApplyKeeps(s: State, m: Move)
    requires Inv(s) && Legal(s, m)
    ensures Inv(Apply(s, m))
  {
    match m
    case Commit(e) => CommitKeeps(s, e);
    case Fetch(id) => FetchKeeps(s, id);
    case Advance(id) => AdvanceKeeps(s, id);
    case Collect(claimed, cutoff) => CollectKeeps(s, claimed, cutoff);
    case _ =>
  }

  lemma {:induction false} RunKeeps(s: State, ms: seq<Move>)
    requires Inv(s) && LegalRun(s, ms)
    ensures Inv(Run(s, ms))
    decreases |ms|
  {
    hide Inv, Apply, Legal;
    if ms != [] {
      ApplyKeeps(s, ms[0]);
      RunKeeps(Apply(s, ms[0]), ms[1..]);
    }
  }

  /**
   * At-least-once delivery. However commits, overlapping pumps, faults and collections interleave:
   * every event up to the cursor is in a batch that some pump has returned, so is every event that
   * is no longer stored, and every batch has rising numbers.
   */
  lemma EveryInterleaving(ms: seq<Move>)
    requires LegalRun(START, ms)
    ensures var s := Run(START, ms);
            && (forall e | e in s.log && e.number <= s.watermark :: InSomeBatch(s.returned, e))
            && (forall e | e in s.log && e !in s.rows :: InSomeBatch(s.returned, e))
            && (forall i | 0 <= i < |s.returned| :: Increasing(s.returned[i]))
  {
    RunKeeps(START, ms);
    var s := Run(START, ms);
    forall e: Event ensures e in Delivered(s.returned) <==> InSomeBatch(s.returned, e) {
      DeliveredInBatch(s.returned, e);
    }
  }

  // ---------------------------------------------------------------- one pump at a time

  lemma {:induction false} IncreasingUnique(s: seq<Event>, t: seq<Event>)
    requires Increasing(s) && Increasing(t) && forall e :: e in s <==> e in t
    ensures s == t
    decreases |s|
  {
    SameEmpty(s, t);
    if s != [] {
      assert s[0] in s && t[0] in t;
      SameHead(s, t);
      Tails(s, t);
      IncreasingUnique(s[1..], t[1..]);
      hide *;
      assert s == [s[0]] + s[1..] && t == [t[0]] + t[1..];
    }
  }

  lemma SameEmpty(s: seq<Event>, t: seq<Event>)
    requires forall e :: e in s <==> e in t
    ensures s == [] <==> t == []
  {
    assert s != [] ==> s[0] in s;
    assert t != [] ==> t[0] in t;
  }

  lemma Tails(s: seq<Event>, t: seq<Event>)
    requires Increasing(s) && Increasing(t) && s != [] && t != [] && s[0] == t[0] && forall e :: e in s <==> e in t
    ensures Increasing(s[1..]) && Increasing(t[1..]) && forall e :: e in s[1..] <==> e in t[1..]
  {
    forall e ensures e in s[1..] <==> e in t[1..] {
      TailWithout(s, e);
      TailWithout(t, e);
    }
  }

  lemma SameHead(s: seq<Event>, t: seq<Event>)
    requires Increasing(s) && Increasing(t) && s != [] && t != [] && s[0] in t && t[0] in s
    ensures s[0] == t[0]
  {
    var i :| 0 <= i < |t| && t[i] == s[0];
    var j :| 0 <= j < |s| && s[j] == t[0];
    assert i > 0 ==> t[0].number < t[i].number;
    assert j > 0 ==> s[0].number < s[j].number;
  }

  lemma TailWithout(s: seq<Event>, e: Event)
    requires Increasing(s) && s != []
    ensures e in s[1..] <==> e in s && e != s[0]
  {
    assert s == [s[0]] + s[1..];
    assert forall i | 0 < i < |s| :: s[0].number < s[i].number;
  }

  lemma AboveIsSuffix(log: seq<Event>, rows: seq<Event>, n: nat, cursor: int)
    requires Increasing(log) && Increasing(rows) && n <= |log|
    requires forall e | e in rows :: e in log
    requires forall i | 0 <= i < n :: log[i].number <= cursor
    requires forall i | n <= i < |log| :: log[i].number > cursor && log[i] in rows
    ensures Above(rows, cursor) == log[n..]
  {
    var all := Above(rows, cursor);
    forall e ensures e in all <==> e in log[n..] {
      if e in all {
        var i :| 0 <= i < |log| && log[i] == e;
        assert log[n..][i - n] == e;
      }
      if e in log[n..] {
        var i :| 0 <= i < |log[n..]| && log[n..][i] == e;
        assert log[n + i] == e;
      }
    }
    IncreasingUnique(all, log[n..]);
  }

  /** The results so far are exactly the log up to the cursor; only events up to there may be gone. */
  predicate Delivering(log: seq<Event>, rows: seq<Event>, delivered: seq<Event>, cursor: int) {
    && Increasing(log) && Increasing(rows)
    && delivered <= log
    && (forall i | 0 <= i < |delivered| :: log[i].number <= cursor)
    && (forall i | |delivered| <= i < |log| :: log[i].number > cursor && log[i] in rows)
    && (forall e | e in rows :: e in log)
    && (forall e | e in log :: e.number > 0)
  }

  lemma DeliveringUpTo(log: seq<Event>, rows: seq<Event>, delivered: seq<Event>, cursor: int, n: nat)
    requires Delivering(log, rows, delivered, cursor) && |delivered| < n <= |log|
    ensures Delivering(log, rows, log[..n], log[n - 1].number)
  {
    assert forall i | 0 <= i < n - 1 :: log[i].number < log[n - 1].number;
    assert forall i | n <= i < |log| :: log[n - 1].number < log[i].number;
  }

  lemma BatchIsPrefix(rows: seq<Event>, cursor: int)
    ensures Batch(rows, cursor) <= Above(rows, cursor)
  {}

  lemma PrefixAfter(log: seq<Event>, n: nat, es: seq<Event>)
    requires n <= |log| && es <= log[n..]
    ensures n + |es| <= |log| && log[..n] + es == log[..n + |es|]
  {
    assert es == log[n..][..|es|];
  }

  /** A batch is what comes next in the log. */
  lemma BatchIsSlice(log: seq<Event>, rows: seq<Event>, delivered: seq<Event>, cursor: int)
    requires Delivering(log, rows, delivered, cursor)
    ensures |delivered| + |Batch(rows, cursor)| <= |log|
    ensures delivered + Batch(rows, cursor) == log[..|delivered| + |Batch(rows, cursor)|]
  {
    hide Batch, Above, Increasing;
    AboveIsRest(log, rows, delivered, cursor);
    BatchIsPrefix(rows, cursor);
    PrefixAfter(log, |delivered|, Batch(rows, cursor));
    assert delivered == log[..|delivered|];
  }

  function Smaller(m: int, n: int): int {
    if m <= n then m else n
  }

  lemma BatchOf(rows: seq<Event>, cursor: int)
    ensures Batch(rows, cursor) == Above(rows, cursor)[..Smaller(5000, |Above(rows, cursor)|)]
  {
    hide Above;
  }

  lemma TakeAfter(s: seq<Event>, n: int, k: int)
    requires 0 <= n <= |s|
    requires k == Smaller(5000, |s| - n)
    ensures n + k == Smaller(n + 5000, |s|) && 0 <= k <= |s| - n && s[n..][..k] == s[n..n + k]
  {}

  lemma AboveIsRest(log: seq<Event>, rows: seq<Event>, delivered: seq<Event>, cursor: int)
    requires Delivering(log, rows, delivered, cursor)
    ensures |delivered| <= |log| && Above(rows, cursor) == log[|delivered|..]
  {
    hide Above;
    AboveIsSuffix(log, rows, |delivered|, cursor);
  }

  /** A batch is the next 5000 events of the log after those delivered, or all that are left. */
  lemma BatchIsNext(log: seq<Event>, rows: seq<Event>, delivered: seq<Event>, cursor: int)
    requires Delivering(log, rows, delivered, cursor)
    ensures |delivered| <= |log| && Batch(rows, cursor) == log[|delivered|..Smaller(|delivered| + 5000, |log|)]
  {
    hide *;
    var n := |delivered|;
    AboveIsRest(log, rows, delivered, cursor);
    BatchOf(rows, cursor);
    TakeAfter(log, n, Smaller(5000, |log| - n));
  }

  lemma DeliveringBatch(log: seq<Event>, rows: seq<Event>, delivered: seq<Event>, cursor: int)
    requires Delivering(log, rows, delivered, cursor) && Batch(rows, cursor) != []
    ensures var es := Batch(rows, cursor); Delivering(log, rows, delivered + es, es[|es| - 1].number)
  {
    BatchIsSlice(log, rows, delivered, cursor);
    var es := Batch(rows, cursor);
    DeliveringUpTo(log, rows, delivered, cursor, |delivered| + |es|);
    hide Delivering, Batch;
    assert es[|es| - 1] == (delivered + es)[|delivered + es| - 1];
  }

  lemma DeliveringCommit(log: seq<Event>, rows: seq<Event>, delivered: seq<Event>, cursor: int, e: Event)
    requires Delivering(log, rows, delivered, cursor)
    requires e.number > 0 && e.number > cursor && (log != [] ==> e.number > log[|log| - 1].number)
    ensures Delivering(log + [e], rows + [e], delivered, cursor)
  {
    forall d | d in log ensures d.number < e.number { InOrder(log, d); }
    assert forall i | 0 <= i < |rows| :: rows[i] in log;
  }

  lemma DeliveringCollect(log: seq<Event>, rows: seq<Event>, delivered: seq<Event>, cursor: int, boundary: int, cutoff: int)
    requires Delivering(log, rows, delivered, cursor) && boundary <= cursor
    ensures Delivering(log, Left(rows, boundary, cutoff), delivered, cursor)
  {}

  /** The dispatcher and its outbox table, for pumps that do not overlap. */
  class OutboxDispatcher {
    var rows: seq<Event>
    var watermark: int
    var publishEnabled: bool
    /** Everything ever committed, and the results of the pumps that returned, in order. */
    ghost var log: seq<Event>
    ghost var delivered: seq<Event>

    ghost predicate Valid()
      reads this
    {
      Delivering(log, rows, delivered, watermark) && watermark >= 0
    }

    constructor ()
      ensures Valid() && log == [] && delivered == [] && watermark == 0 && publishEnabled
    {
      rows, watermark, publishEnabled, log, delivered := [], 0, true, [], [];
    }

    /** A trigger stores an event. */
    method Commit(e: Event)
      requires Valid() && e.number > watermark && (log != [] ==> e.number > log[|log| - 1].number)
      modifies this
      ensures Valid() && log == old(log) + [e] && delivered == old(delivered) && watermark == old(watermark)
    {
      DeliveringCommit(log, rows, delivered, watermark, e);
      hide Delivering;
      rows := rows + [e];
      log := log + [e];
    }

    /** pump; with a fault nothing is returned and the cursor stays. */
    method Pump(fault: bool) returns (ok: bool, events: seq<Event>)
      requires Valid()
      modifies `watermark, `delivered
      ensures Valid() && delivered == old(delivered) + events
      ensures ok <==> !(fault && publishEnabled && Batch(rows, old(watermark)) != [])
      ensures events == if ok && publishEnabled then Batch(rows, old(watermark)) else []
      ensures watermark == if events == [] then old(watermark) else events[|events| - 1].number
    {
      hide Delivering, Batch;
      ok, events := true, [];
      if publishEnabled {
        var fetched := Batch(rows, watermark);
        if fetched != [] {
          if fault {
            return false, [];
          }
          DeliveringBatch(log, rows, delivered, watermark);
          assert fetched[|fetched| - 1].number > watermark;
          watermark := fetched[|fetched| - 1].number;
          delivered := delivered + fetched;
          events := fetched;
        }
      }
    }

    /** gc */
    method Collect(claimed: int, cutoff: int) returns (removed: nat)
      requires Valid()
      modifies `rows
      ensures Valid() && removed == |old(rows)| - |rows|
      ensures forall e :: e in rows <==> e in old(rows) && !(e.number <= claimed && e.number <= watermark && e.commitTs < cutoff)
    {
      var boundary := Boundary(claimed, watermark);
      if boundary <= 0 {
        return 0;
      }
      DeliveringCollect(log, rows, delivered, watermark, boundary, cutoff);
      hide Delivering, Left;
      var left := Left(rows, boundary, cutoff);
      removed := |rows| - |left|;
      rows := left;
    }
  }
}
