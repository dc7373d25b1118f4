/**
 * What a journal that already names steps of the plan does to a migration, and what a take-over does
 * to a run that is only slow.
 */
module MigrationReplays {
  import opened Text
  import opened Migrations

  // ---------------------------------------------------------------- plans as one transaction takes them

  /** The plan by itself: distinct steps, accepted one after the other, whose postconditions last. */
  predicate Sound<S>(plan: Plan<S>, start: Db<S>) {
    && plan.steps != [] && Distinct(plan) && plan.fromHash != plan.toHash
    && Runnable(plan, {}, start.schema) && Lasting(plan, {}, start.schema)
    && (start.hash == None || start.hash == Some(plan.fromHash))
  }

  /** What one transaction commits. */
  ghost predicate Committed<S>(plan: Plan<S>, start: Db<S>, db: Db<S>) {
    && Prefix(plan, start.schema, |plan.steps|) == Some(db.schema)
    && db.journal == start.journal + Names(plan, |plan.steps|)
    && db.hash == Some(plan.toHash)
  }

  /** A step that the start's journal names and whose postcondition holds before its turn. */
  predicate LeftOut<S>(plan: Plan<S>, start: Db<S>, i: nat)
    requires Runnable(plan, {}, start.schema) && i < |plan.steps|
  {
    Skipped(plan, AppliedIds(start, plan.id), i, Prefix(plan, start.schema, i).value)
  }

  /** The steps that will be left out change nothing. */
  predicate Harmless<S(==)>(plan: Plan<S>, start: Db<S>)
    requires Runnable(plan, {}, start.schema)
  {
    forall i | 0 <= i < |plan.steps| && LeftOut(plan, start, i) ::
      Prefix(plan, start.schema, i + 1) == Prefix(plan, start.schema, i)
  }

  lemma {:induction false} HarmlessCourse<S>(plan: Plan<S>, start: Db<S>, k: nat)
    requires Runnable(plan, {}, start.schema) && Harmless(plan, start) && k <= |plan.steps|
    ensures Course(plan, AppliedIds(start, plan.id), start.schema, k) == Prefix(plan, start.schema, k)
  {
    if k > 0 {
      HarmlessCourse(plan, start, k - 1);
      assert Prefix(plan, start.schema, k - 1).Some?;
      assert LeftOut(plan, start, k - 1) ==> Prefix(plan, start.schema, k) == Prefix(plan, start.schema, k - 1);
      hide AppliedIds, Runnable;
    }
  }

  lemma HarmlessReady<S>(plan: Plan<S>, start: Db<S>)
    requires Sound(plan, start) && Harmless(plan, start)
    ensures Ready(plan, start)
    ensures forall k | 0 <= k <= |plan.steps| :: Prefix(plan, start.schema, k) == Some(SchemaAt(plan, start, k))
  {
    forall k | 0 <= k <= |plan.steps|
      ensures Course(plan, AppliedIds(start, plan.id), start.schema, k) == Prefix(plan, start.schema, k)
    {
      HarmlessCourse(plan, start, k);
    }
    hide Course, AppliedIds, Distinct;
  }

  // ---------------------------------------------------------------- steps that change things of their own

  /**
   * Each step changes a part of the schema that no other step changes, and its postcondition looks
   * at that part only, as with changes that each concern one table, column, constraint or index.
   */
  ghost predicate Separate<S(!new), V>(plan: Plan<S>, part: (nat, S) -> V) {
    && (forall i, s | 0 <= i < |plan.steps| && plan.steps[i].effect(s).Some? ::
          Touches(plan, part, i, s, plan.steps[i].effect(s).value))
    && (forall i, s, t | 0 <= i < |plan.steps| && part(i, s) == part(i, t) ::
          plan.steps[i].holds(s) == plan.steps[i].holds(t))
  }

  ghost predicate Touches<S, V>(plan: Plan<S>, part: (nat, S) -> V, i: nat, s: S, t: S) {
    && (forall j | 0 <= j < |plan.steps| && j != i :: part(j, t) == part(j, s))
    && (part(i, t) == part(i, s) ==> t == s)
  }

  lemma NextTouches<S(!new), V>(plan: Plan<S>, part: (nat, S) -> V, s: S, k: nat)
    requires Separate(plan, part) && k < |plan.steps| && Prefix(plan, s, k + 1).Some?
    ensures Prefix(plan, s, k).Some? && Touches(plan, part, k, Prefix(plan, s, k).value, Prefix(plan, s, k + 1).value)
  {
    var t := Prefix(plan, s, k).value;
    assert Prefix(plan, s, k + 1) == plan.steps[k].effect(t);
  }

  lemma {:induction false} PartBefore<S(!new), V>(plan: Plan<S>, part: (nat, S) -> V, s: S, i: nat, k: nat)
    requires Separate(plan, part) && k <= i < |plan.steps| && Prefix(plan, s, k).Some?
    ensures part(i, Prefix(plan, s, k).value) == part(i, s)
  {
    if k == 0 {
      assert Prefix(plan, s, 0) == Some(s);
    } else {
      hide Separate, Course, Prefix;
      NextTouches(plan, part, s, k - 1);
      PartBefore(plan, part, s, i, k - 1);
    }
  }

  lemma {:induction false} PartAfter<S(!new), V>(plan: Plan<S>, part: (nat, S) -> V, s: S, i: nat, k: nat)
    requires Separate(plan, part) && i < k <= |plan.steps| && Prefix(plan, s, k).Some?
    ensures Prefix(plan, s, i + 1).Some? && part(i, Prefix(plan, s, k).value) == part(i, Prefix(plan, s, i + 1).value)
  {
    hide Separate, Course, Prefix;
    if k > i + 1 {
      NextTouches(plan, part, s, k - 1);
      PartAfter(plan, part, s, i, k - 1);
    }
  }

  /** The part of a step that is left out stays as it was, and every run that has looked leaves the step out. */
  ghost predicate Untaken<S, V>(plan: Plan<S>, start: Db<S>, part: (nat, S) -> V, i: nat, w: World<S>)
    requires i < |plan.steps|
  {
    && part(i, w.db.schema) == part(i, start.schema)
    && plan.steps[i].id in AppliedIds(w.db, plan.id)
    && forall h | h in w.runs :: LeavesAlone(plan, i, w.runs[h])
  }

  predicate LeavesAlone<S>(plan: Plan<S>, i: nat, r: Runner)
    requires i < |plan.steps|
  {
    && r.at != Batching(i)
    && (r.at.Stepping? || r.at.Batching? || r.at.Verifying? ==> plan.steps[i].id in r.done)
  }

  lemma NextUntaken<S(!new), V>(plan: Plan<S>, start: Db<S>, part: (nat, S) -> V, i: nat, db: Db<S>, r: Runner, h: string, now: int)
    requires Separate(plan, part) && i < |plan.steps| && plan.steps[i].holds(start.schema)
    requires part(i, db.schema) == part(i, start.schema) && plan.steps[i].id in AppliedIds(db, plan.id) && LeavesAlone(plan, i, r)
    ensures var (db', r') := Next(plan, db, r, h, now);
            part(i, db'.schema) == part(i, start.schema) && plan.steps[i].id in AppliedIds(db', plan.id) && LeavesAlone(plan, i, r')
  {
    assert plan.steps[i].holds(db.schema);
    assert (plan.id, plan.steps[i].id) in db.journal;
    var (db', r') := Next(plan, db, r, h, now);
    if r.at.Batching? && r.at.i < |plan.steps| && plan.steps[r.at.i].effect(db.schema).Some? {
      assert Touches(plan, part, r.at.i, db.schema, db'.schema);
    }
    assert (plan.id, plan.steps[i].id) in db'.journal;
  }

  lemma MoveUntaken<S(!new), V>(plan: Plan<S>, start: Db<S>, part: (nat, S) -> V, i: nat, w: World<S>, m: Move)
    requires Separate(plan, part) && i < |plan.steps| && plan.steps[i].holds(start.schema)
    requires Untaken(plan, start, part, i, w) && Possible(w, m)
    ensures Untaken(plan, start, part, i, Apply(plan, w, m))
  {
    hide Separate, Next, AppliedIds;
    if m.Advance? {
      NextUntaken(plan, start, part, i, w.db, w.runs[m.holder], m.holder, m.now);
    }
  }

  lemma {:induction false} RunUntaken<S(!new), V>(plan: Plan<S>, start: Db<S>, part: (nat, S) -> V, i: nat, w: World<S>, ms: seq<Move>)
    requires Separate(plan, part) && i < |plan.steps| && plan.steps[i].holds(start.schema)
    requires Untaken(plan, start, part, i, w) && LegalRun(plan, w, ms)
    ensures Untaken(plan, start, part, i, Run(plan, w, ms))
    decreases |ms|
  {
    hide Separate, Untaken, Apply;
    if ms != [] {
      MoveUntaken(plan, start, part, i, w, ms[0]);
      RunUntaken(plan, start, part, i, Apply(plan, w, ms[0]), ms[1..]);
    }
  }

  /** After a step has been left out that would have changed something, no schedule ever reaches the target. */
  lemma NeverMadeUp<S(!new), V>(plan: Plan<S>, start: Db<S>, part: (nat, S) -> V, i: nat, ms: seq<Move>)
    requires Separate(plan, part) && Runnable(plan, {}, start.schema) && LegalRun(plan, World(start, map[]), ms)
    requires i < |plan.steps| && LeftOut(plan, start, i)
    requires Prefix(plan, start.schema, i + 1) != Prefix(plan, start.schema, i)
    ensures Prefix(plan, start.schema, |plan.steps|) != Some(Run(plan, World(start, map[]), ms).db.schema)
  {
    var s, n := start.schema, |plan.steps|;
    assert Prefix(plan, s, i).Some? && Prefix(plan, s, i + 1).Some? && Prefix(plan, s, n).Some?;
    PartBefore(plan, part, s, i, i);
    PartAfter(plan, part, s, i, n);
    NextTouches(plan, part, s, i);
    hide AppliedIds, Runnable, Run, LegalRun;
    RunUntaken(plan, start, part, i, World(start, map[]), ms);
  }

  /**
   * A run that returns leaves what one transaction commits exactly when every step that the start's
   * journal names, and whose postcondition holds before its turn, changes nothing there.
   */
  lemma ReturnedIffHarmless<S(!new), V>(plan: Plan<S>, start: Db<S>, part: (nat, S) -> V, ms: seq<Move>, h: string)
    requires Sound(plan, start) && Separate(plan, part) && LegalRun(plan, World(start, map[]), ms)
    requires h in Run(plan, World(start, map[]), ms).runs && Successful(Run(plan, World(start, map[]), ms).runs[h].at)
    ensures Committed(plan, start, Run(plan, World(start, map[]), ms).db) <==> Harmless(plan, start)
  {
    SoundRuns(plan, start);
    hide *;
    if Harmless(plan, start) {
      HarmlessReturned(plan, start, ms, h);
    } else {
      var i := HarmfulStep(plan, start);
      NeverMadeUp(plan, start, part, i, ms);
      NotCommitted(plan, start, Run(plan, World(start, map[]), ms).db);
    }
  }

  lemma SoundRuns<S>(plan: Plan<S>, start: Db<S>)
    requires Sound(plan, start)
    ensures Runnable(plan, {}, start.schema)
  {
    hide Runnable, Lasting;
  }

  lemma HarmfulStep<S>(plan: Plan<S>, start: Db<S>) returns (i: nat)
    requires Runnable(plan, {}, start.schema) && !Harmless(plan, start)
    ensures i < |plan.steps| && LeftOut(plan, start, i) && Prefix(plan, start.schema, i + 1) != Prefix(plan, start.schema, i)
  {
    hide LeftOut, Prefix, Runnable;
    i :| 0 <= i < |plan.steps| && LeftOut(plan, start, i)
         && Prefix(plan, start.schema, i + 1) != Prefix(plan, start.schema, i);
  }

  lemma NotCommitted<S>(plan: Plan<S>, start: Db<S>, db: Db<S>)
    requires Prefix(plan, start.schema, |plan.steps|) != Some(db.schema)
    ensures !Committed(plan, start, db)
  {
    hide Prefix, Names;
  }

  /** One direction, for steps of any kind. */
  lemma HarmlessReturned<S>(plan: Plan<S>, start: Db<S>, ms: seq<Move>, h: string)
    requires Sound(plan, start) && Harmless(plan, start) && LegalRun(plan, World(start, map[]), ms)
    requires h in Run(plan, World(start, map[]), ms).runs && Successful(Run(plan, World(start, map[]), ms).runs[h].at)
    ensures Committed(plan, start, Run(plan, World(start, map[]), ms).db)
  {
    HarmlessReady(plan, start);
    var k := EverySchedule(plan, start, ms);
    hide Sound, Harmless, Ready, LegalRun, Run;
  }

  // ---------------------------------------------------------------- a migration taken back and made again

  /** A run with no other, for so many statements. */
  function Solo<S>(plan: Plan<S>, db: Db<S>, r: Runner, n: nat): (Db<S>, Runner)
    decreases n
  {
    if n == 0 then (db, r)
    else Solo(plan, Next(plan, db, r, "run", 0).0, Next(plan, db, r, "run", 0).1, n - 1)
  }

  /** Such a run is one of the schedules. */
  lemma {:induction false} SoloIsASchedule<S>(plan: Plan<S>, w: World<S>, n: nat) returns (ms: seq<Move>)
    requires "run" in w.runs && (w.db.lease.Some? ==> w.db.lease.value.acquiredAt == 0) && !w.runs["run"].at.TakingOver?
    ensures LegalRun(plan, w, ms) && Run(plan, w, ms).db == Solo(plan, w.db, w.runs["run"], n).0
    ensures "run" in Run(plan, w, ms).runs && Run(plan, w, ms).runs["run"] == Solo(plan, w.db, w.runs["run"], n).1
    decreases n
  {
    if n == 0 {
      ms := [];
    } else {
      var next := Apply(plan, w, Advance("run", 0));
      var rest := SoloIsASchedule(plan, next, n - 1);
      ms := [Advance("run", 0)] + rest;
      assert ms[1..] == rest;
    }
  }

  const FRESH := Runner(Checking, {}, 0, false)

  predicate Always(n: nat) {
    true
  }

  function Drop(n: nat): Option<nat> {
    if n == 0 then Some(1) else None
  }

  function AddBack(n: nat): Option<nat> {
    if n == 1 then Some(0) else None
  }

  /** A step with an empty postcondition, such as dropping an index. */
  function Forth(): Plan<nat> {
    Plan("forth", "A", "B", [Step("drop", Drop, Always)])
  }

  function Back(): Plan<nat> {
    Plan("back", "B", "A", [Step("add", AddBack, Always)])
  }

  /** A journal that does not name the step of a one-step plan: the run applies it. */
  lemma OneStepApplied(plan: Plan<nat>, db: Db<nat>, s: nat)
    requires |plan.steps| == 1 && plan.fromHash != plan.toHash && db.hash == Some(plan.fromHash) && db.lease == None
    requires plan.steps[0].id !in AppliedIds(db, plan.id) && plan.steps[0].effect(db.schema) == Some(s) && plan.steps[0].holds(s)
    ensures Solo(plan, db, FRESH, 9)
         == (Db(s, db.journal + {(plan.id, plan.steps[0].id)}, Some(plan.toHash), None),
             Runner(Ended(Done(false, 1)), AppliedIds(db, plan.id), 1, false))
  {
    var done := AppliedIds(db, plan.id);
    var held := db.(lease := Some(Lease("run", 0)));
    var taken := held.(schema := s, journal := db.journal + {(plan.id, plan.steps[0].id)});
    assert AppliedIds(held, plan.id) == done;
    SoloStep(plan, db, FRESH, 8, db, Runner(Acquiring, {}, 0, false));
    SoloStep(plan, db, Runner(Acquiring, {}, 0, false), 7, held, Runner(Listing, {}, 0, false));
    SoloStep(plan, held, Runner(Listing, {}, 0, false), 6, held, Runner(Stepping(0), done, 0, false));
    SoloStep(plan, held, Runner(Stepping(0), done, 0, false), 5, held, Runner(Batching(0), done, 0, false));
    SoloStep(plan, held, Runner(Batching(0), done, 0, false), 4, taken, Runner(Verifying(0), done, 0, false));
    SoloStep(plan, taken, Runner(Verifying(0), done, 0, false), 3, taken, Runner(Stepping(1), done, 1, false));
    SoloStep(plan, taken, Runner(Stepping(1), done, 1, false), 2, taken, Runner(Recording, done, 1, false));
    var hashed := taken.(hash := Some(plan.toHash));
    SoloStep(plan, taken, Runner(Recording, done, 1, false), 1, hashed, Runner(Releasing(Done(false, 1)), done, 1, false));
    SoloStep(plan, hashed, Runner(Releasing(Done(false, 1)), done, 1, false), 0,
             hashed.(lease := None), Runner(Ended(Done(false, 1)), done, 1, false));
  }

  lemma SoloStep(plan: Plan<nat>, db: Db<nat>, r: Runner, n: nat, db': Db<nat>, r': Runner)
    requires Next(plan, db, r, "run", 0) == (db', r')
    ensures Solo(plan, db, r, n + 1) == Solo(plan, db', r', n)
    ensures Solo(plan, db', r', 0) == (db', r')
  {
    hide Next;
  }

  /** A journal that names it: the run leaves it out, if its postcondition holds. */
  lemma OneStepLeftOut(plan: Plan<nat>, db: Db<nat>)
    requires |plan.steps| == 1 && plan.fromHash != plan.toHash && db.hash == Some(plan.fromHash) && db.lease == None
    requires plan.steps[0].id in AppliedIds(db, plan.id) && plan.steps[0].holds(db.schema)
    ensures Solo(plan, db, FRESH, 7)
         == (db.(hash := Some(plan.toHash)), Runner(Ended(Done(true, 0)), AppliedIds(db, plan.id), 0, true))
  {
    var done := AppliedIds(db, plan.id);
    var held := db.(lease := Some(Lease("run", 0)));
    assert AppliedIds(held, plan.id) == done;
    SoloStep(plan, db, FRESH, 6, db, Runner(Acquiring, {}, 0, false));
    SoloStep(plan, db, Runner(Acquiring, {}, 0, false), 5, held, Runner(Listing, {}, 0, false));
    SoloStep(plan, held, Runner(Listing, {}, 0, false), 4, held, Runner(Stepping(0), done, 0, false));
    SoloStep(plan, held, Runner(Stepping(0), done, 0, false), 3, held, Runner(Stepping(1), done, 0, true));
    SoloStep(plan, held, Runner(Stepping(1), done, 0, true), 2, held, Runner(Recording, done, 0, true));
    var hashed := held.(hash := Some(plan.toHash));
    SoloStep(plan, held, Runner(Recording, done, 0, true), 1, hashed, Runner(Releasing(Done(true, 0)), done, 0, true));
    SoloStep(plan, hashed, Runner(Releasing(Done(true, 0)), done, 0, true), 0,
             hashed.(lease := None), Runner(Ended(Done(true, 0)), done, 0, true));
  }

  /**
   * From A to B, back to A, and to B again: the third run finds its step in the journal of the
   * first, leaves it out, and records B's hash on A's schema.
   */
  lemma RepeatedMigrationLeftOut()
    ensures var start := Db(0, {}, Some("A"), None);
            var first := Solo(Forth(), start, FRESH, 9);
            var second := Solo(Back(), first.0, FRESH, 9);
            var third := Solo(Forth(), second.0, FRESH, 7);
            && first.1.at == Ended(Done(false, 1)) && first.0.schema == 1 && first.0.hash == Some("B")
            && second.1.at == Ended(Done(false, 1)) && second.0.schema == 0 && second.0.hash == Some("A")
            && third.1.at == Ended(Done(true, 0)) && third.0.schema == 0 && third.0.hash == Some("B")
            && Prefix(Forth(), second.0.schema, 1) == Some(1)
  {
    var start: Db<nat> := Db(0, {}, Some("A"), None);
    assert AppliedIds(start, "forth") == {};
    OneStepApplied(Forth(), start, 1);
    var first := Solo(Forth(), start, FRESH, 9).0;
    assert AppliedIds(first, "back") == {};
    OneStepApplied(Back(), first, 0);
    var second := Solo(Back(), first, FRESH, 9).0;
    assert ("forth", "drop") in second.journal;
    OneStepLeftOut(Forth(), second);
    hide Solo;
  }

  function ToOne(n: nat): Option<nat> {
    Some(1)
  }

  function ToFive(n: nat): Option<nat> {
    Some(5)
  }

  function PaintTwice(): Plan<nat> {
    Plan("paint", "A", "B", [Step("one", ToOne, Always), Step("five", ToFive, Always)])
  }

  /** Steps that change the same thing can cover for one that is left out: there the condition is not exact. */
  lemma HarmPaintedOver()
    ensures var plan, start := PaintTwice(), Db(0, {("paint", "one")}, Some("A"), None);
            && Sound(plan, start) && !Harmless(plan, start)
            && Course(plan, AppliedIds(start, plan.id), 0, 2) == Prefix(plan, 0, 2)
  {
    var plan := PaintTwice();
    var start: Db<nat> := Db(0, {("paint", "one")}, Some("A"), None);
    assert ("paint", "one") in start.journal && "one" in AppliedIds(start, "paint");
    assert "five" !in AppliedIds(start, "paint");
    assert Course(plan, {}, 0, 0) == Some(0) && Course(plan, {}, 0, 1) == Some(1) && Course(plan, {}, 0, 2) == Some(5);
    assert LeftOut(plan, start, 0) && Prefix(plan, 0, 1) != Prefix(plan, 0, 0);
    assert Course(plan, AppliedIds(start, "paint"), 0, 1) == Some(0);
  }

  // ---------------------------------------------------------------- a take-over of a lease whose holder is only slow

  /** A schedule in which nothing guards the take-over. */
  ghost predicate Reaches<S>(plan: Plan<S>, w: World<S>, ms: seq<Move>, w': World<S>)
    decreases |ms|
  {
    if ms == [] then w == w' else Possible(w, ms[0]) && Reaches(plan, Apply(plan, w, ms[0]), ms[1..], w')
  }

  lemma OneMoveMore<S>(plan: Plan<S>, w: World<S>, m: Move, ms: seq<Move>, w': World<S>)
    requires Possible(w, m) && Reaches(plan, Apply(plan, w, m), ms, w')
    ensures Reaches(plan, w, [m] + ms, w')
  {
    assert ([m] + ms)[1..] == ms;
  }

  /** One step that counts up, and is done when the count is not zero. */
  function Counting(): Plan<nat> {
    Plan("plan", "old", "new", [Step("step", CountUp, IsCounted)])
  }

  function CountUp(n: nat): Option<nat> {
    Some(n + 1)
  }

  predicate IsCounted(n: nat) {
    n > 0
  }

  const UNTOUCHED: Db<nat> := Db(0, {}, None, None)

  lemma CountingIsReady()
    ensures Ready(Counting(), UNTOUCHED) && Prefix(Counting(), 0, 0) == Some(0) && Prefix(Counting(), 0, 1) == Some(1)
  {
    var plan := Counting();
    assert AppliedIds(UNTOUCHED, "plan") == {};
    assert Course(plan, {}, 0, 0) == Some(0) && Course(plan, {}, 0, 1) == Some(1);
  }

  function Alone(db: Db<nat>, a: Where): World<nat> {
    World(db, map["a" := Runner(a, {}, 0, false)])
  }

  function Both(db: Db<nat>, a: Where, b: Where): World<nat> {
    World(db, map["a" := Runner(a, {}, 0, false), "b" := Runner(b, {}, 0, false)])
  }

  lemma AloneMoves(db: Db<nat>, a: Where, now: int, db': Db<nat>, a': Where, ms: seq<Move>, w: World<nat>)
    requires Next(Counting(), db, Runner(a, {}, 0, false), "a", now) == (db', Runner(a', {}, 0, false))
    requires Reaches(Counting(), Alone(db', a'), ms, w)
    ensures Reaches(Counting(), Alone(db, a), [Advance("a", now)] + ms, w)
  {
    assert Alone(db, a).runs["a" := Runner(a', {}, 0, false)] == Alone(db', a').runs;
    assert Apply(Counting(), Alone(db, a), Advance("a", now)) == Alone(db', a');
    hide Next, Counting, Reaches;
    OneMoveMore(Counting(), Alone(db, a), Advance("a", now), ms, w);
  }

  lemma SecondMoves(db: Db<nat>, a: Where, b: Where, now: int, db': Db<nat>, b': Where, ms: seq<Move>, w: World<nat>)
    requires Next(Counting(), db, Runner(b, {}, 0, false), "b", now) == (db', Runner(b', {}, 0, false))
    requires Reaches(Counting(), Both(db', a, b'), ms, w)
    ensures Reaches(Counting(), Both(db, a, b), [Advance("b", now)] + ms, w)
  {
    assert Both(db, a, b).runs["b" := Runner(b', {}, 0, false)] == Both(db', a, b').runs;
    assert Apply(Counting(), Both(db, a, b), Advance("b", now)) == Both(db', a, b');
    hide Next, Counting, Reaches;
    OneMoveMore(Counting(), Both(db, a, b), Advance("b", now), ms, w);
  }

  lemma SecondStarts(db: Db<nat>, a: Where, ms: seq<Move>, w: World<nat>)
    requires Reaches(Counting(), Both(db, a, Checking), ms, w)
    ensures Reaches(Counting(), Alone(db, a), [Start("b")] + ms, w)
  {
    assert Alone(db, a).runs["b" := Runner(Checking, {}, 0, false)] == Both(db, a, Checking).runs;
    assert Apply(Counting(), Alone(db, a), Start("b")) == Both(db, a, Checking);
    hide Counting, Reaches;
    OneMoveMore(Counting(), Alone(db, a), Start("b"), ms, w);
  }

  lemma FirstRunStalls(ms: seq<Move>, w: World<nat>) returns (all: seq<Move>)
    requires Reaches(Counting(), Alone(UNTOUCHED.(lease := Some(Lease("a", 0))), Batching(0)), ms, w)
    ensures Reaches(Counting(), World(UNTOUCHED, map[]), all, w)
  {
    var held := UNTOUCHED.(lease := Some(Lease("a", 0)));
    assert AppliedIds(held, "plan") == {};
    hide Reaches;
    AloneMoves(held, Stepping(0), 0, held, Batching(0), ms, w);
    all := [Advance("a", 0)] + ms;
    AloneMoves(held, Listing, 0, held, Stepping(0), all, w);
    all := [Advance("a", 0)] + all;
    AloneMoves(UNTOUCHED, Acquiring, 0, held, Listing, all, w);
    all := [Advance("a", 0)] + all;
    AloneMoves(UNTOUCHED, Checking, 0, UNTOUCHED, Acquiring, all, w);
    all := [Advance("a", 0)] + all;
    assert Apply(Counting(), World(UNTOUCHED, map[]), Start("a")) == Alone(UNTOUCHED, Checking);
    OneMoveMore(Counting(), World(UNTOUCHED, map[]), Start("a"), all, w);
    all := [Start("a")] + all;
  }

  lemma SecondRunTakesOver(ms: seq<Move>, w: World<nat>) returns (all: seq<Move>)
    requires Reaches(Counting(), Both(UNTOUCHED.(lease := Some(Lease("b", 700_000))), Batching(0), Batching(0)), ms, w)
    ensures Reaches(Counting(), Alone(UNTOUCHED.(lease := Some(Lease("a", 0))), Batching(0)), all, w)
  {
    var first, second := UNTOUCHED.(lease := Some(Lease("a", 0))), UNTOUCHED.(lease := Some(Lease("b", 700_000)));
    assert AppliedIds(second, "plan") == {};
    hide Reaches;
    SecondMoves(second, Batching(0), Stepping(0), 700_000, second, Batching(0), ms, w);
    all := [Advance("b", 700_000)] + ms;
    SecondMoves(second, Batching(0), Listing, 700_000, second, Stepping(0), all, w);
    all := [Advance("b", 700_000)] + all;
    SecondMoves(first, Batching(0), TakingOver, 700_000, second, Listing, all, w);
    all := [Advance("b", 700_000)] + all;
    SecondMoves(first, Batching(0), Judging, 700_000, first, TakingOver, all, w);
    all := [Advance("b", 700_000)] + all;
    SecondMoves(first, Batching(0), Acquiring, 700_000, first, Judging, all, w);
    all := [Advance("b", 700_000)] + all;
    SecondMoves(first, Batching(0), Checking, 700_000, first, Acquiring, all, w);
    all := [Advance("b", 700_000)] + all;
    SecondStarts(first, Batching(0), all, w);
    all := [Start("b")] + all;
  }

  /**
   * A holder that is slow rather than dead: after ten minutes a second run takes the lease over, both
   * apply the step, and the schema is that of no prefix.
   */
  lemma SlowHolderAppliesTwice() returns (ms: seq<Move>, w: World<nat>)
    ensures Ready(Counting(), UNTOUCHED) && Reaches(Counting(), World(UNTOUCHED, map[]), ms, w)
    ensures forall k | 0 <= k <= |Counting().steps| :: Prefix(Counting(), UNTOUCHED.schema, k) != Some(w.db.schema)
  {
    CountingIsReady();
    var both := Both(UNTOUCHED.(lease := Some(Lease("b", 700_000))), Batching(0), Batching(0));
    var b, a := Advance("b", 700_000), Advance("a", 700_000);
    var once := Apply(Counting(), both, b);
    assert once.db.schema == 1 && once.runs["a"] == both.runs["a"];
    w := Apply(Counting(), once, a);
    assert w.db.schema == 2;
    OneMoveMore(Counting(), once, a, [], w);
    OneMoveMore(Counting(), both, b, [a] + [], w);
    hide Reaches;
    ms := SecondRunTakesOver([b] + ([a] + []), w);
    ms := FirstRunStalls(ms, w);
  }
}
