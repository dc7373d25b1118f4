/**
 * Migration runs that crash, fail and are started again, on the path where every step is its own
 * atomic batch with a journal row and runs are kept apart by a lease. The schema is any type:
 * steps are known only by their effect and their observable postcondition.
 */
module Migrations {
  import opened Text

  // ---------------------------------------------------------------- plans

  /** None is an effect the database rejects, such as creating a table twice. */
  datatype Step<!S> = Step(id: string, effect: S -> Option<S>, holds: S -> bool)

  datatype Plan<!S> = Plan(id: string, fromHash: string, toHash: string, steps: seq<Step<S>>)

  /** A step that the journal named beforehand and whose postcondition holds is left out. */
  predicate Skipped<S>(plan: Plan<S>, named: set<string>, i: nat, s: S)
    requires i < |plan.steps|
  {
    plan.steps[i].id in named && plan.steps[i].holds(s)
  }

  /** The schema after the first `k` steps, once each and in order, but for those that are left out. */
  function Course<S>(plan: Plan<S>, named: set<string>, s: S, k: nat): (r: Option<S>)
    requires k <= |plan.steps|
    ensures k > 0 && r.Some? ==> Course(plan, named, s, k - 1).Some?
  {
    if k == 0 then Some(s)
    else
      match Course(plan, named, s, k - 1)
      case None => None
      case Some(t) => if Skipped(plan, named, k - 1, t) then Some(t) else plan.steps[k - 1].effect(t)
  }

  /** The schema after the first `k` steps, none left out. */
  function Prefix<S>(plan: Plan<S>, s: S, k: nat): Option<S>
    requires k <= |plan.steps|
  {
    Course(plan, {}, s, k)
  }

  predicate Distinct<S>(plan: Plan<S>) {
    forall i, j | 0 <= i < j < |plan.steps| :: plan.steps[i].id != plan.steps[j].id
  }

  predicate Runnable<S>(plan: Plan<S>, named: set<string>, s: S) {
    forall k | 0 <= k <= |plan.steps| :: Course(plan, named, s, k).Some?
  }

  /** A postcondition holds after its step and no later step undoes it. */
  predicate Lasting<S>(plan: Plan<S>, named: set<string>, s: S)
    requires Runnable(plan, named, s)
  {
    forall i, k | 0 <= i < k <= |plan.steps| :: plan.steps[i].holds(Course(plan, named, s, k).value)
  }

  // ---------------------------------------------------------------- the database

  datatype Lease = Lease(holder: string, acquiredAt: int)

  /** The journal names applied steps by plan and step. */
  datatype Db<S> = Db(schema: S, journal: set<(string, string)>, hash: Option<string>, lease: Option<Lease>)

  /** appliedStepIds */
  function AppliedIds<S>(db: Db<S>, planId: string): set<string> {
    set key | key in db.journal && key.0 == planId :: key.1
  }

  function Names<S>(plan: Plan<S>, k: nat): set<(string, string)>
    requires k <= |plan.steps|
  {
    set i | 0 <= i < k :: (plan.id, plan.steps[i].id)
  }

  function Ids<S>(plan: Plan<S>, k: nat): set<string>
    requires k <= |plan.steps|
  {
    set i | 0 <= i < k :: plan.steps[i].id
  }

  /** The steps as a run takes them, from what the journal names at the start, are accepted. */
  predicate Startable<S>(plan: Plan<S>, start: Db<S>) {
    Runnable(plan, AppliedIds(start, plan.id), start.schema)
  }

  /** A database this plan can start on, whatever its journal names already. */
  predicate Ready<S>(plan: Plan<S>, start: Db<S>) {
    && plan.steps != [] && Distinct(plan) && plan.fromHash != plan.toHash
    && Startable(plan, start) && Lasting(plan, AppliedIds(start, plan.id), start.schema)
    && (start.hash == None || start.hash == Some(plan.fromHash))
  }

  function SchemaAt<S>(plan: Plan<S>, start: Db<S>, k: nat): S
    requires Startable(plan, start) && k <= |plan.steps|
  {
    Course(plan, AppliedIds(start, plan.id), start.schema, k).value
  }

  predicate SkippedAt<S>(plan: Plan<S>, start: Db<S>, i: nat)
    requires Startable(plan, start) && i < |plan.steps|
  {
    Skipped(plan, AppliedIds(start, plan.id), i, SchemaAt(plan, start, i))
  }

  /** How many of the steps from `m` to `i` are left out. */
  function Skips<S>(plan: Plan<S>, start: Db<S>, m: nat, i: nat): nat
    requires Startable(plan, start) && m <= i <= |plan.steps|
  {
    if i == m then 0 else Skips(plan, start, m, i - 1) + (if SkippedAt(plan, start, i - 1) then 1 else 0)
  }

  /** The start with exactly the first `k` steps taken and journaled; the new hash only after all. */
  ghost predicate AtPrefix<S>(plan: Plan<S>, start: Db<S>, db: Db<S>, k: nat)
    requires Startable(plan, start)
  {
    && k <= |plan.steps|
    && db.schema == SchemaAt(plan, start, k)
    && db.journal == start.journal + Names(plan, k)
    && (db.hash == start.hash || (k == |plan.steps| && db.hash == Some(plan.toHash)))
  }

  /** All steps taken, and the new hash recorded. */
  ghost predicate Migrated<S>(plan: Plan<S>, start: Db<S>, db: Db<S>)
    requires Startable(plan, start)
  {
    AtPrefix(plan, start, db, |plan.steps|) && db.hash == Some(plan.toHash)
  }

  // ---------------------------------------------------------------- runs, one statement a step

  datatype Result = Noop | Done(resumed: bool, applied: nat) | Refused | Failed | Dangling

  /** Where a run stands. */
  datatype Where =
    | Checking | Acquiring | Judging | TakingOver | Listing
    | Stepping(i: nat) | Batching(i: nat) | Verifying(i: nat) | Recording
    | Releasing(result: Result) | Ended(result: Result)

  datatype Runner = Runner(at: Where, done: set<string>, applied: nat, resumed: bool)

  const STALE_AFTER := 600_000

  /** The next statement of a run: at `now`, by the run that calls itself `holder`. */
  function Next<S>(plan: Plan<S>, db: Db<S>, r: Runner, holder: string, now: int): (Db<S>, Runner) {
    match r.at
    case Checking =>
      if db.hash == Some(plan.toHash) || plan.steps == [] then (db, r.(at := Ended(Noop)))
      else if db.hash != None && db.hash != Some(plan.fromHash) then (db, r.(at := Ended(Refused)))
      else (db, r.(at := Acquiring))
    case Acquiring =>
      if db.lease.None? then (db.(lease := Some(Lease(holder, now))), r.(at := Listing))
      else (db, r.(at := Judging))
    case Judging =>
      if db.lease.Some? && now - db.lease.value.acquiredAt > STALE_AFTER then (db, r.(at := TakingOver))
      else (db, r.(at := Ended(Refused)))
    case TakingOver =>
      (if db.lease.Some? then db.(lease := Some(Lease(holder, now))) else db, r.(at := Listing))
    case Listing => (db, Runner(Stepping(0), AppliedIds(db, plan.id), 0, false))
    case Stepping(i) =>
      if i >= |plan.steps| then (db, r.(at := Recording))
      else if plan.steps[i].id in r.done && plan.steps[i].holds(db.schema)
      then (db, r.(at := Stepping(i + 1), resumed := true))
      else (db, r.(at := Batching(i)))
    case Batching(i) =>
      if i >= |plan.steps| || plan.steps[i].effect(db.schema).None? then (db, r.(at := Releasing(Failed)))
      else
        (db.(schema := plan.steps[i].effect(db.schema).value, journal := db.journal + {(plan.id, plan.steps[i].id)}),
         r.(at := Verifying(i)))
    case Verifying(i) =>
      if i < |plan.steps| && plan.steps[i].holds(db.schema)
      then (db, r.(at := Stepping(i + 1), applied := r.applied + 1))
      else (db, r.(at := Releasing(Failed)))
    case Recording =>
      (db.(hash := Some(plan.toHash)), r.(at := Releasing(Done(r.resumed, r.applied))))
    case Releasing(result) =>
      (if db.lease.Some? && db.lease.value.holder == holder then db.(lease := None) else db, r.(at := Ended(result)))
    case Ended(_) => (db, r)
  }

  // ---------------------------------------------------------------- schedules

  datatype World<S> = World(db: Db<S>, runs: map<string, Runner>)

  /** A run starts, executes a statement, is thrown out by a fault, or dies. */
  datatype Move = Start(holder: string) | Advance(holder: string, now: int) | Throw(holder: string) | Die(holder: string)

  predicate InSection(r: Runner) {
    match r.at
    case Listing => true
    case Stepping(_) => true
    case Batching(_) => true
    case Verifying(_) => true
    case Recording => true
    case Releasing(_) => true
    case _ => false
  }

  /** Holders are distinct. */
  predicate Possible<S>(w: World<S>, m: Move) {
    match m
    case Start(h) => h !in w.runs
    case Advance(h, _) => h in w.runs
    case Throw(h) => h in w.runs && InSection(w.runs[h]) && !w.runs[h].at.Releasing?
    case Die(h) => h in w.runs
  }

  /**
   * A lease is taken over only while its row is there and its holder no longer runs: the update
   * itself checks neither.
   */
  predicate Legal<S>(w: World<S>, m: Move) {
    Possible(w, m) && (m.Advance? && w.runs[m.holder].at.TakingOver? ==> Abandoned(w, m.holder))
  }

  predicate Abandoned<S>(w: World<S>, h: string) {
    w.db.lease.Some? && forall g | g in w.runs && g != h :: !InSection(w.runs[g])
  }

  function Apply<S>(plan: Plan<S>, w: World<S>, m: Move): World<S>
    requires m.Start? || m.holder in w.runs
  {
    match m
    case Start(h) => w.(runs := w.runs[h := Runner(Checking, {}, 0, false)])
    case Advance(h, now) =>
      var (db, r) := Next(plan, w.db, w.runs[h], h, now);
      World(db, w.runs[h := r])
    case Throw(h) => w.(runs := w.runs[h := w.runs[h].(at := Releasing(Failed))])
    case Die(h) => w.(runs := w.runs[h := w.runs[h].(at := Ended(Failed))])
  }

  predicate LegalRun<S>(plan: Plan<S>, w: World<S>, ms: seq<Move>)
    decreases |ms|
  {
    ms == [] || (Legal(w, ms[0]) && LegalRun(plan, Apply(plan, w, ms[0]), ms[1..]))
  }

  function Run<S>(plan: Plan<S>, w: World<S>, ms: seq<Move>): World<S>
    requires LegalRun(plan, w, ms)
    decreases |ms|
  {
    if ms == [] then w else Run(plan, Apply(plan, w, ms[0]), ms[1..])
  }

  // ---------------------------------------------------------------- what every schedule keeps

  predicate Holds(db: Option<Lease>, h: string) {
    db.Some? && db.value.holder == h
  }

  /** Every run in the section holds the lease, so there is at most one. */
  predicate Locked<S>(w: World<S>) {
    forall h | h in w.runs && InSection(w.runs[h]) :: Holds(w.db.lease, h)
  }

  predicate Successful(at: Where) {
    (at.Releasing? || at.Ended?) && (at.result.Done? || at.result.Noop?)
  }

  /** A run in the section that found `m` steps taken when it looked, where `k` are taken now. */
  predicate OnTrack<S>(plan: Plan<S>, start: Db<S>, r: Runner, m: nat, k: nat)
    requires Startable(plan, start)
  {
    var n := |plan.steps|;
    match r.at
    case Stepping(i) => Looked(plan, start, r, m, k) && i <= n && Counted(plan, start, r, i, m) && k == (if i <= m then m else i)
    case Batching(i) => Looked(plan, start, r, m, k) && i < n && Counted(plan, start, r, i, m) && m <= i == k && !SkippedAt(plan, start, i)
    case Verifying(i) =>
      Looked(plan, start, r, m, k) && i < n && Counted(plan, start, r, i, m) && m <= i && k == i + 1 && !SkippedAt(plan, start, i)
    case Recording => Looked(plan, start, r, m, k) && Counted(plan, start, r, n, m) && k == n
    case Releasing(Done(resumed, applied)) => m <= n && Tallied(plan, start, resumed, applied, n, m)
    case _ => true
  }

  predicate Looked<S>(plan: Plan<S>, start: Db<S>, r: Runner, m: nat, k: nat) {
    m <= k <= |plan.steps| && r.done == AppliedIds(start, plan.id) + Ids(plan, m)
  }

  predicate Counted<S>(plan: Plan<S>, start: Db<S>, r: Runner, i: nat, m: nat)
    requires Startable(plan, start) && i <= |plan.steps| && m <= |plan.steps|
  {
    Tallied(plan, start, r.resumed, r.applied, i, m)
  }

  /** What a run reports in front of step `i`: whether it left steps out, and how many it applied. */
  predicate Tallied<S>(plan: Plan<S>, start: Db<S>, resumed: bool, applied: nat, i: nat, m: nat)
    requires Startable(plan, start) && i <= |plan.steps| && m <= |plan.steps|
  {
    if i <= m then resumed == (i > 0) && applied == 0
    else resumed == (m > 0 || Skips(plan, start, m, i) > 0) && applied == i - m - Skips(plan, start, m, i)
  }

  ghost predicate Inv<S>(plan: Plan<S>, start: Db<S>, w: World<S>, m: nat, k: nat)
    requires Startable(plan, start)
  {
    && AtPrefix(plan, start, w.db, k)
    && Locked(w)
    && (forall h | h in w.runs && InSection(w.runs[h]) :: OnTrack(plan, start, w.runs[h], m, k))
    && (forall h | h in w.runs && Successful(w.runs[h].at) :: w.db.hash == Some(plan.toHash))
  }

  lemma AppliedAtPrefix<S>(plan: Plan<S>, start: Db<S>, db: Db<S>, k: nat)
    requires Startable(plan, start) && AtPrefix(plan, start, db, k)
    ensures AppliedIds(db, plan.id) == AppliedIds(start, plan.id) + Ids(plan, k)
  {
    assert db.journal == start.journal + Names(plan, k);
    hide AtPrefix, Startable;
    forall id | id in AppliedIds(db, plan.id) ensures id in AppliedIds(start, plan.id) + Ids(plan, k) {
      assert (plan.id, id) in db.journal;
      assert (plan.id, id) in start.journal ==> id in AppliedIds(start, plan.id);
    }
    forall id | id in AppliedIds(start, plan.id) + Ids(plan, k) ensures id in AppliedIds(db, plan.id) {
      if id in AppliedIds(start, plan.id) {
        assert (plan.id, id) in start.journal;
      } else {
        var i :| 0 <= i < k && plan.steps[i].id == id;
        assert (plan.id, plan.steps[i].id) in Names(plan, k);
      }
      assert (plan.id, id) in db.journal;
    }
  }

  lemma NotYet<S>(plan: Plan<S>, i: nat, m: nat)
    requires Distinct(plan) && i < |plan.steps| && m <= |plan.steps|
    ensures plan.steps[i].id in Ids(plan, m) <==> i < m
  {}

  lemma NextName<S>(plan: Plan<S>, k: nat)
    requires k < |plan.steps|
    ensures Names(plan, k + 1) == Names(plan, k) + {(plan.id, plan.steps[k].id)}
  {}

  lemma NextSchema<S>(plan: Plan<S>, start: Db<S>, k: nat)
    requires Startable(plan, start) && k < |plan.steps|
    ensures if SkippedAt(plan, start, k) then SchemaAt(plan, start, k + 1) == SchemaAt(plan, start, k)
            else plan.steps[k].effect(SchemaAt(plan, start, k)) == Some(SchemaAt(plan, start, k + 1))
  {
    assert Course(plan, AppliedIds(start, plan.id), start.schema, k).Some?;
    assert Course(plan, AppliedIds(start, plan.id), start.schema, k + 1).Some?;
  }

  /** A step is applied and journaled. */
  lemma OneMore<S>(plan: Plan<S>, start: Db<S>, db: Db<S>, k: nat)
    requires Startable(plan, start) && AtPrefix(plan, start, db, k) && k < |plan.steps| && db.hash == start.hash
    requires !SkippedAt(plan, start, k)
    ensures plan.steps[k].effect(db.schema).Some?
    ensures AtPrefix(plan, start, db.(schema := plan.steps[k].effect(db.schema).value,
                                      journal := db.journal + {(plan.id, plan.steps[k].id)}), k + 1)
  {
    NextSchema(plan, start, k);
    hide Names, SchemaAt, Startable;
    NextName(plan, k);
  }

  /** A step is left out: nothing changes, and it is journaled already. */
  lemma OneSkipped<S>(plan: Plan<S>, start: Db<S>, db: Db<S>, k: nat)
    requires Startable(plan, start) && AtPrefix(plan, start, db, k) && k < |plan.steps| && SkippedAt(plan, start, k)
    requires plan.fromHash != plan.toHash && (start.hash == None || start.hash == Some(plan.fromHash))
    ensures AtPrefix(plan, start, db, k + 1)
  {
    NextSchema(plan, start, k);
    assert plan.steps[k].id in AppliedIds(start, plan.id);
    assert (plan.id, plan.steps[k].id) in start.journal;
    hide Names, SchemaAt, Startable;
    NextName(plan, k);
  }

  lemma HoldsAt<S>(plan: Plan<S>, start: Db<S>, db: Db<S>, i: nat, k: nat)
    requires Ready(plan, start) && AtPrefix(plan, start, db, k) && i < k
    ensures plan.steps[i].holds(db.schema)
  {}

  lemma ListingStep<S>(plan: Plan<S>, start: Db<S>, db: Db<S>, r: Runner, h: string, now: int, k: nat)
    requires Ready(plan, start) && AtPrefix(plan, start, db, k) && r.at.Listing?
    ensures Next(plan, db, r, h, now).0 == db && OnTrack(plan, start, Next(plan, db, r, h, now).1, k, k)
  {
    hide Next, Ready, Ids, AppliedIds, Startable, AtPrefix, SkippedAt;
    ReadyDistinct(plan, start);
    PrefixBound(plan, start, db, k);
    AppliedAtPrefix(plan, start, db, k);
    Lists(plan, db, r, h, now);
  }

  lemma Lists<S>(plan: Plan<S>, db: Db<S>, r: Runner, h: string, now: int)
    requires r.at.Listing?
    ensures Next(plan, db, r, h, now) == (db, Runner(Stepping(0), AppliedIds(db, plan.id), 0, false))
  {}

  lemma PrefixBound<S>(plan: Plan<S>, start: Db<S>, db: Db<S>, k: nat)
    requires Startable(plan, start) && AtPrefix(plan, start, db, k)
    ensures k <= |plan.steps|
  {}

  lemma SkippedMeans<S>(plan: Plan<S>, start: Db<S>, db: Db<S>, i: nat)
    requires Startable(plan, start) && AtPrefix(plan, start, db, i) && i < |plan.steps|
    ensures SkippedAt(plan, start, i) <==> plan.steps[i].id in AppliedIds(start, plan.id) && plan.steps[i].holds(db.schema)
  {
    hide Startable, AppliedIds, SchemaAt, Names;
  }

  /** Which steps a run leaves out: those found taken, and those that the start's journal makes it leave out. */
  lemma SkipsIff<S>(plan: Plan<S>, start: Db<S>, db: Db<S>, i: nat, m: nat, k: nat)
    requires Ready(plan, start) && AtPrefix(plan, start, db, k)
    requires i < |plan.steps| && m <= k && k == (if i <= m then m else i)
    ensures plan.steps[i].id in AppliedIds(start, plan.id) + Ids(plan, m) && plan.steps[i].holds(db.schema)
       <==> i < m || SkippedAt(plan, start, i)
  {
    hide *;
    ReadyDistinct(plan, start);
    PrefixBound(plan, start, db, k);
    NotYet(plan, i, m);
    if i < m { HoldsAt(plan, start, db, i, k); } else { SkippedMeans(plan, start, db, i); }
  }

  /** One more step found taken, left out or applied. */
  lemma TallyNext<S>(plan: Plan<S>, start: Db<S>, resumed: bool, applied: nat, i: nat, m: nat)
    requires Startable(plan, start) && i < |plan.steps| && m <= |plan.steps| && Tallied(plan, start, resumed, applied, i, m)
    ensures i < m || SkippedAt(plan, start, i) ==> Tallied(plan, start, true, applied, i + 1, m)
    ensures i >= m && !SkippedAt(plan, start, i) ==> Tallied(plan, start, resumed, applied + 1, i + 1, m)
  {
    hide Startable, SkippedAt;
    if i >= m {
      assert Skips(plan, start, m, m) == 0;
      assert Skips(plan, start, m, i + 1) == Skips(plan, start, m, i) + (if SkippedAt(plan, start, i) then 1 else 0);
    }
  }

  lemma AllTaken<S>(plan: Plan<S>, db: Db<S>, r: Runner, h: string, now: int)
    requires r.at.Stepping? && r.at.i >= |plan.steps|
    ensures Next(plan, db, r, h, now) == (db, r.(at := Recording))
  {}

  lemma LeavesOut<S>(plan: Plan<S>, db: Db<S>, r: Runner, h: string, now: int)
    requires r.at.Stepping? && r.at.i < |plan.steps|
    requires plan.steps[r.at.i].id in r.done && plan.steps[r.at.i].holds(db.schema)
    ensures Next(plan, db, r, h, now) == (db, r.(at := Stepping(r.at.i + 1), resumed := true))
  {}

  lemma Takes<S>(plan: Plan<S>, db: Db<S>, r: Runner, h: string, now: int)
    requires r.at.Stepping? && r.at.i < |plan.steps|
    requires !(plan.steps[r.at.i].id in r.done && plan.steps[r.at.i].holds(db.schema))
    ensures Next(plan, db, r, h, now) == (db, r.(at := Batching(r.at.i)))
  {}

  lemma Verifies<S>(plan: Plan<S>, db: Db<S>, r: Runner, h: string, now: int)
    requires r.at.Verifying? && r.at.i < |plan.steps| && plan.steps[r.at.i].holds(db.schema)
    ensures Next(plan, db, r, h, now) == (db, r.(at := Stepping(r.at.i + 1), applied := r.applied + 1))
  {}

  lemma SteppingStep<S>(plan: Plan<S>, start: Db<S>, db: Db<S>, r: Runner, h: string, now: int, m: nat, k: nat)
    returns (k': nat)
    requires Ready(plan, start) && AtPrefix(plan, start, db, k) && r.at.Stepping? && OnTrack(plan, start, r, m, k)
    ensures Next(plan, db, r, h, now).0 == db && AtPrefix(plan, start, db, k')
    ensures OnTrack(plan, start, Next(plan, db, r, h, now).1, m, k')
  {
    hide Next, Ready, AtPrefix, Ids, Distinct, Startable, SkippedAt, Tallied, AppliedIds;
    ReadyDistinct(plan, start);
    var i := r.at.i;
    k' := k;
    if i >= |plan.steps| {
      AllTaken(plan, db, r, h, now);
    } else {
      SkipsIff(plan, start, db, i, m, k);
      TallyNext(plan, start, r.resumed, r.applied, i, m);
      if i < m || SkippedAt(plan, start, i) {
        LeavesOut(plan, db, r, h, now);
        if i >= m {
          OneSkipped(plan, start, db, k);
          k' := k + 1;
        }
      } else {
        Takes(plan, db, r, h, now);
      }
    }
  }

  lemma ReadyDistinct<S>(plan: Plan<S>, start: Db<S>)
    requires Ready(plan, start)
    ensures |plan.steps| > 0 && Distinct(plan) && Startable(plan, start)
    ensures plan.fromHash != plan.toHash && (start.hash == None || start.hash == Some(plan.fromHash))
  {}

  lemma BatchingStep<S>(plan: Plan<S>, start: Db<S>, db: Db<S>, r: Runner, h: string, now: int, m: nat, k: nat)
    requires Startable(plan, start) && AtPrefix(plan, start, db, k) && r.at.Batching? && OnTrack(plan, start, r, m, k)
    ensures AtPrefix(plan, start, Next(plan, db, r, h, now).0, k + 1)
    ensures OnTrack(plan, start, Next(plan, db, r, h, now).1, m, k + 1)
  {
    assert db.hash == start.hash;
    OneMore(plan, start, db, k);
    hide AtPrefix, Ids, Startable, SkippedAt, AppliedIds;
  }

  lemma VerifyingStep<S>(plan: Plan<S>, start: Db<S>, db: Db<S>, r: Runner, h: string, now: int, m: nat, k: nat)
    requires Ready(plan, start) && AtPrefix(plan, start, db, k) && r.at.Verifying? && OnTrack(plan, start, r, m, k)
    ensures Next(plan, db, r, h, now).0 == db && OnTrack(plan, start, Next(plan, db, r, h, now).1, m, k)
  {
    hide Next, Ready, AtPrefix, Startable, SkippedAt, AppliedIds, Tallied, Ids;
    ReadyDistinct(plan, start);
    HoldsAt(plan, start, db, r.at.i, k);
    TallyNext(plan, start, r.resumed, r.applied, r.at.i, m);
    Verifies(plan, db, r, h, now);
  }

  /** One statement of the run that holds the lease. */
  lemma SectionStep<S>(plan: Plan<S>, start: Db<S>, db: Db<S>, r: Runner, h: string, now: int, m: nat, k: nat)
    returns (m': nat, k': nat)
    requires Ready(plan, start) && AtPrefix(plan, start, db, k) && InSection(r) && OnTrack(plan, start, r, m, k)
    requires Successful(r.at) ==> db.hash == Some(plan.toHash)
    ensures var (db', r') := Next(plan, db, r, h, now);
            && AtPrefix(plan, start, db', k')
            && (InSection(r') ==> OnTrack(plan, start, r', m', k'))
            && (Successful(r'.at) ==> db'.hash == Some(plan.toHash))
  {
    hide Ready, OnTrack, AtPrefix, Startable, AppliedIds;
    ReadyDistinct(plan, start);
    m', k' := if r.at.Listing? then k else m, if r.at.Batching? then k + 1 else k;
    match r.at
    case Listing => ListingStep(plan, start, db, r, h, now, k);
    case Stepping(_) => k' := SteppingStep(plan, start, db, r, h, now, m, k);
    case Batching(_) => BatchingStep(plan, start, db, r, h, now, m, k);
    case Verifying(_) => VerifyingStep(plan, start, db, r, h, now, m, k);
    case _ => EndingStep(plan, start, db, r, h, now, m, k);
  }

  lemma EndingStep<S>(plan: Plan<S>, start: Db<S>, db: Db<S>, r: Runner, h: string, now: int, m: nat, k: nat)
    requires Startable(plan, start) && AtPrefix(plan, start, db, k)
    requires (r.at.Recording? || r.at.Releasing?) && OnTrack(plan, start, r, m, k)
    requires Successful(r.at) ==> db.hash == Some(plan.toHash)
    ensures var (db', r') := Next(plan, db, r, h, now);
            && AtPrefix(plan, start, db', k)
            && (InSection(r') ==> OnTrack(plan, start, r', m, k))
            && (Successful(r'.at) ==> db'.hash == Some(plan.toHash))
  {
    hide Startable, SkippedAt, AppliedIds, SchemaAt;
  }

  lemma NextLease<S>(plan: Plan<S>, db: Db<S>, r: Runner, h: string, now: int)
    ensures var (db', r') := Next(plan, db, r, h, now);
            && (InSection(r') ==> Holds(db'.lease, h) || (InSection(r) && db'.lease == db.lease) || (r.at.TakingOver? && db.lease.None?))
            && (db'.lease != db.lease ==> r.at.TakingOver? || db.lease.None? || Holds(db.lease, h))
            && (db.hash == Some(plan.toHash) ==> db'.hash == Some(plan.toHash))
  {}

  /** Statements outside the section change nothing but the lease. */
  lemma OutsideStep<S>(plan: Plan<S>, start: Db<S>, db: Db<S>, r: Runner, h: string, now: int, m: nat, k: nat)
    requires Startable(plan, start) && !InSection(r) && plan.steps != []
    ensures var (db', r') := Next(plan, db, r, h, now);
            && db'.(lease := db.lease) == db
            && (InSection(r') ==> OnTrack(plan, start, r', m, k))
            && (Successful(r'.at) ==> Successful(r.at) || db.hash == Some(plan.toHash))
  {}

  lemma AdvanceKeeps<S>(plan: Plan<S>, start: Db<S>, w: World<S>, h: string, now: int, m: nat, k: nat)
    returns (m': nat, k': nat)
    requires Ready(plan, start) && Inv(plan, start, w, m, k) && Legal(w, Advance(h, now))
    ensures Inv(plan, start, Apply(plan, w, Advance(h, now)), m', k')
  {
    hide Next, Ready, SchemaAt, Names, OnTrack, Startable, AtPrefix;
    ReadyDistinct(plan, start);
    var r := w.runs[h];
    var (db', r') := Next(plan, w.db, r, h, now);
    NextLease(plan, w.db, r, h, now);
    if InSection(r) {
      m', k' := SectionStep(plan, start, w.db, r, h, now, m, k);
    } else {
      m', k' := m, k;
      OutsideStep(plan, start, w.db, r, h, now, m, k);
      LeaseAside(plan, start, w.db, k, db'.lease);
    }
    var w' := Apply(plan, w, Advance(h, now));
    forall g | g in w'.runs && InSection(w'.runs[g]) ensures Holds(w'.db.lease, g) && OnTrack(plan, start, w'.runs[g], m', k') {}
  }

  lemma MoveKeeps<S>(plan: Plan<S>, start: Db<S>, w: World<S>, move: Move, m: nat, k: nat) returns (m': nat, k': nat)
    requires Ready(plan, start) && Inv(plan, start, w, m, k) && Legal(w, move)
    ensures Inv(plan, start, Apply(plan, w, move), m', k')
  {
    if move.Advance? {
      m', k' := AdvanceKeeps(plan, start, w, move.holder, move.now, m, k);
    } else {
      m', k' := m, k;
      ReadyDistinct(plan, start);
      OtherMoveKeeps(plan, start, w, move, m, k);
    }
  }

  lemma OtherMoveKeeps<S>(plan: Plan<S>, start: Db<S>, w: World<S>, move: Move, m: nat, k: nat)
    requires Startable(plan, start) && Inv(plan, start, w, m, k) && Legal(w, move) && !move.Advance?
    ensures Inv(plan, start, Apply(plan, w, move), m, k)
  {
    hide AtPrefix, Startable, Looked, Tallied, SkippedAt;
    var w' := Apply(plan, w, move);
    assert w'.db == w.db;
    forall h | h in w'.runs && InSection(w'.runs[h]) ensures Holds(w'.db.lease, h) && OnTrack(plan, start, w'.runs[h], m, k) {
      if h != move.holder { assert w'.runs[h] == w.runs[h]; }
    }
  }

  lemma {:induction false} RunKeeps<S>(plan: Plan<S>, start: Db<S>, w: World<S>, ms: seq<Move>, m: nat, k: nat)
    returns (m': nat, k': nat)
    requires Ready(plan, start) && Inv(plan, start, w, m, k) && LegalRun(plan, w, ms)
    ensures Inv(plan, start, Run(plan, w, ms), m', k')
    decreases |ms|
  {
    hide Inv, Ready, Apply, Startable;
    if ms == [] {
      m', k' := m, k;
    } else {
      m', k' := MoveKeeps(plan, start, w, ms[0], m, k);
      m', k' := RunKeeps(plan, start, Apply(plan, w, ms[0]), ms[1..], m', k');
    }
  }

  /** A prefix does not depend on the lease. */
  lemma LeaseAside<S>(plan: Plan<S>, start: Db<S>, db: Db<S>, k: nat, lease: Option<Lease>)
    requires Startable(plan, start) && AtPrefix(plan, start, db, k)
    ensures AtPrefix(plan, start, db.(lease := lease), k)
  {}

  lemma PrefixZero<S>(plan: Plan<S>, start: Db<S>)
    requires Startable(plan, start)
    ensures AtPrefix(plan, start, start, 0)
  {
    assert start.journal + Names(plan, 0) == start.journal;
  }

  /**
   * After any schedule of runs, faults and deaths the database is the start with a prefix of the
   * steps taken once each in order, where a step that the start's journal names and whose
   * postcondition holds is left out, and the journal names that prefix besides what it named. Once
   * a run has returned, all steps have been taken and the new hash is recorded.
   */
  lemma EverySchedule<S>(plan: Plan<S>, start: Db<S>, ms: seq<Move>) returns (k: nat)
    requires Ready(plan, start) && LegalRun(plan, World(start, map[]), ms)
    ensures AtPrefix(plan, start, Run(plan, World(start, map[]), ms).db, k)
    ensures var w := Run(plan, World(start, map[]), ms);
            forall h | h in w.runs && Successful(w.runs[h].at) :: Migrated(plan, start, w.db)
  {
    var w := World(start, map[]);
    PrefixZero(plan, start);
    var m;
    m, k := RunKeeps(plan, start, w, ms, 0, 0);
  }

  /** And every run started after that finds nothing to do. */
  lemma FurtherRunIsNoop<S>(plan: Plan<S>, start: Db<S>, ms: seq<Move>, done: string, h: string, now: int)
    requires Ready(plan, start) && LegalRun(plan, World(start, map[]), ms)
    requires var w := Run(plan, World(start, map[]), ms); done in w.runs && Successful(w.runs[done].at) && h !in w.runs
    ensures var w := Run(plan, World(start, map[]), ms);
            var w' := Apply(plan, Apply(plan, w, Start(h)), Advance(h, now));
            w'.db == w.db && w'.runs[h].at == Ended(Noop)
  {
    var k := EverySchedule(plan, start, ms);
  }

  /** A take-over keeps the lock exactly when the lease row is still there and nobody else is at work. */
  lemma TakeOverKeepsLockIff<S>(plan: Plan<S>, w: World<S>, h: string, now: int)
    requires Locked(w) && h in w.runs && w.runs[h].at.TakingOver?
    ensures Locked(Apply(plan, w, Advance(h, now))) <==> Abandoned(w, h)
  {
    var w' := Apply(plan, w, Advance(h, now));
    assert w'.runs[h].at.Listing?;
    if Locked(w') {
      assert Holds(w'.db.lease, h);
      forall g | g in w.runs && g != h ensures !InSection(w.runs[g]) {
        assert w'.runs[g] == w.runs[g];
      }
    }
  }
}
