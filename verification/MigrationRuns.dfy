/**
 * One call of applyMigration from beginning to end, on each of its two paths, looping over the steps.
 * Nothing is assumed of the plan or of the database.
 */
module MigrationRuns {
  import opened Text
  import opened Migrations
  import opened MigrationReplays

  /** The answer when there is nothing to do, or the database is not where the plan starts. */
  function Checked<S>(plan: Plan<S>, db: Db<S>): Option<Result> {
    if db.hash == Some(plan.toHash) || plan.steps == [] then Some(Noop)
    else if db.hash != None && db.hash != Some(plan.fromHash) then Some(Refused)
    else None
  }

  predicate NothingToDo<S>(plan: Plan<S>, db: Db<S>) {
    plan.steps == [] || db.hash == Some(plan.toHash)
  }

  /** A recorded hash that is neither where the plan starts nor where it ends. */
  predicate Drifted<S>(plan: Plan<S>, db: Db<S>) {
    plan.steps != [] && db.hash.Some? && db.hash.value != plan.fromHash && db.hash.value != plan.toHash
  }

  lemma CheckedIs<S>(plan: Plan<S>, db: Db<S>)
    ensures Checked(plan, db) == if NothingToDo(plan, db) then Some(Noop) else if Drifted(plan, db) then Some(Refused) else None
  {}

  // ---------------------------------------------------------------- one transaction

  function Taken<S>(plan: Plan<S>, start: Db<S>, i: nat): Db<S>
    requires i <= |plan.steps| && Prefix(plan, start.schema, i).Some?
  {
    start.(schema := Prefix(plan, start.schema, i).value, journal := start.journal + Names(plan, i))
  }

  lemma TakenZero<S>(plan: Plan<S>, start: Db<S>)
    ensures Prefix(plan, start.schema, 0).Some? && Taken(plan, start, 0) == start
  {
    assert start.journal + Names(plan, 0) == start.journal;
  }

  lemma TakenNext<S>(plan: Plan<S>, start: Db<S>, i: nat)
    requires i < |plan.steps| && Prefix(plan, start.schema, i).Some?
    ensures var before := Taken(plan, start, i);
            && Prefix(plan, start.schema, i + 1) == plan.steps[i].effect(before.schema)
            && (Prefix(plan, start.schema, i + 1).Some? ==>
                  Taken(plan, start, i + 1) == before.(schema := plan.steps[i].effect(before.schema).value,
                                                       journal := before.journal + {(plan.id, plan.steps[i].id)}))
  {
    NextName(plan, i);
    hide Names;
  }

  lemma {:induction false} RejectedStays<S>(plan: Plan<S>, s: S, i: nat, k: nat)
    requires i <= k <= |plan.steps| && Prefix(plan, s, i).None?
    ensures Prefix(plan, s, k).None?
    decreases k
  {
    hide Course;
    if i < k { RejectedStays(plan, s, i, k - 1); }
  }

  /**
   * All steps, their journal rows and the hash in one transaction; trouble at a step, or at the hash
   * after the last one, and a step the database rejects roll everything back. After a rebuild the
   * references are checked when the transaction has been committed.
   */
  method ApplyTransactional<S>(plan: Plan<S>, start: Db<S>, trouble: nat, rebuilds: bool, dangling: S -> bool)
    returns (db: Db<S>, result: Result)
    ensures Checked(plan, start).Some? ==> db == start && Checked(plan, start) == Some(result)
    ensures NothingToDo(plan, start) ==> result == Noop
    ensures Drifted(plan, start) ==> result == Refused
    ensures var commits := trouble > |plan.steps| && Prefix(plan, start.schema, |plan.steps|).Some?;
            Checked(plan, start).None? ==>
              (if commits then Committed(plan, start, db) && db.lease == start.lease
                               && result == if rebuilds && dangling(db.schema) then Dangling else Done(false, |plan.steps|)
               else db == start && result == Failed)
  {
    CheckedIs(plan, start);
    hide Checked;
    if Checked(plan, start).Some? {
      return start, Checked(plan, start).value;
    }
    db := start;
    TakenZero(plan, start);
    for i := 0 to |plan.steps|
      invariant Prefix(plan, start.schema, i).Some? && db == Taken(plan, start, i)
      invariant i <= trouble
    {
      TakenNext(plan, start, i);
      hide *;
      if plan.steps[i].effect(db.schema).None? {
        RejectedStays(plan, start.schema, i + 1, |plan.steps|);
        return start, Failed;
      }
      db := db.(schema := plan.steps[i].effect(db.schema).value, journal := db.journal + {(plan.id, plan.steps[i].id)});
      if i == trouble {
        return start, Failed;
      }
    }
    if trouble == |plan.steps| {
      return start, Failed;
    }
    db := db.(hash := Some(plan.toHash));
    result := if rebuilds && dangling(db.schema) then Dangling else Done(false, |plan.steps|);
  }

  /** A run on a migrated database finds nothing to do, even if the run before it reported an error. */
  lemma MigratedIsNoop<S>(plan: Plan<S>, start: Db<S>, db: Db<S>, r: Runner, h: string, now: int)
    requires Committed(plan, start, db) && r.at.Checking?
    ensures Next(plan, db, r, h, now) == (db, r.(at := Ended(Noop))) && Checked(plan, db) == Some(Noop)
  {}

  // ---------------------------------------------------------------- lease and journal

  /** Where the loop over the steps ends; `ok` is false when something stopped it. */
  datatype Progress<S> = Progress(db: Db<S>, ok: bool, resumed: bool, applied: nat)

  /** The loop over the steps from step `i` on: steps that `done` names and that hold are left out. */
  function StepsFrom<S>(plan: Plan<S>, done: set<string>, trouble: nat, i: nat, p: Progress<S>): Progress<S>
    requires i <= |plan.steps|
    decreases |plan.steps| - i
  {
    if i == |plan.steps| then p
    else
      var step := plan.steps[i];
      if step.id in done && step.holds(p.db.schema) then StepsFrom(plan, done, trouble, i + 1, p.(resumed := true))
      else if i == trouble || step.effect(p.db.schema).None? then p.(ok := false)
      else
        var db := p.db.(schema := step.effect(p.db.schema).value, journal := p.db.journal + {(plan.id, step.id)});
        if step.holds(db.schema) then StepsFrom(plan, done, trouble, i + 1, p.(db := db, applied := p.applied + 1))
        else p.(db := db, ok := false)
  }

  method ApplySteps<S>(plan: Plan<S>, found: Db<S>, done: set<string>, trouble: nat)
    returns (db: Db<S>, ok: bool, resumed: bool, applied: nat)
    ensures Progress(db, ok, resumed, applied) == StepsFrom(plan, done, trouble, 0, Progress(found, true, false, 0))
  {
    db, ok, resumed, applied := found, true, false, 0;
    for i := 0 to |plan.steps|
      invariant StepsFrom(plan, done, trouble, i, Progress(db, true, resumed, applied))
             == StepsFrom(plan, done, trouble, 0, Progress(found, true, false, 0))
      invariant ok
    {
      if plan.steps[i].id in done && plan.steps[i].holds(db.schema) {
        resumed := true;
      } else {
        if i == trouble || plan.steps[i].effect(db.schema).None? {
          return db, false, resumed, applied;
        }
        db := db.(schema := plan.steps[i].effect(db.schema).value, journal := db.journal + {(plan.id, plan.steps[i].id)});
        if !plan.steps[i].holds(db.schema) {
          return db, false, resumed, applied;
        }
        applied := applied + 1;
      }
    }
  }

  /** Nobody holds the lease, or whoever holds it has had it for too long. */
  predicate LeaseFree<S>(db: Db<S>, now: int) {
    db.lease.None? || now - db.lease.value.acquiredAt > STALE_AFTER
  }

  /** The call on the lease and journal path. */
  function Journaled<S>(plan: Plan<S>, found: Db<S>, holder: string, now: int, trouble: nat, dies: bool): (Db<S>, Result) {
    if Checked(plan, found).Some? then (found, Checked(plan, found).value)
    else if !LeaseFree(found, now) then (found, Refused)
    else
      var p := StepsFrom(plan, AppliedIds(found, plan.id), trouble, 0,
                         Progress(found.(lease := Some(Lease(holder, now))), true, false, 0));
      if p.ok && trouble != |plan.steps| then
        (p.db.(hash := Some(plan.toHash), lease := None), Done(p.resumed, p.applied))
      else (if dies then p.db else p.db.(lease := None), Failed)
  }

  // ---------------------------------------------------------------- any plan, any database

  /** The step is left out when the run comes to it. */
  predicate LeftOut<S>(plan: Plan<S>, named: set<string>, s: S, i: nat)
    requires i < |plan.steps|
  {
    var at := Course(plan, named, s, i);
    at.Some? && plan.steps[i].id in named && plan.steps[i].holds(at.value)
  }

  /** The step is left out, or the database accepts it and its postcondition holds right after it. */
  predicate TookEffect<S>(plan: Plan<S>, named: set<string>, s: S, trouble: nat, i: nat)
    requires i < |plan.steps|
  {
    && Course(plan, named, s, i + 1).Some?
    && (LeftOut(plan, named, s, i) || (i != trouble && plan.steps[i].holds(Course(plan, named, s, i + 1).value)))
  }

  predicate AllTookEffect<S>(plan: Plan<S>, named: set<string>, s: S, trouble: nat, n: nat)
    requires n <= |plan.steps|
  {
    forall i | 0 <= i < n :: TookEffect(plan, named, s, trouble, i)
  }

  /** The journal rows of the first steps but for those left out. */
  function Rows<S>(plan: Plan<S>, named: set<string>, s: S, n: nat): set<(string, string)>
    requires n <= |plan.steps|
  {
    if n == 0 then {}
    else Rows(plan, named, s, n - 1) + (if LeftOut(plan, named, s, n - 1) then {} else {(plan.id, plan.steps[n - 1].id)})
  }

  function Taking<S>(plan: Plan<S>, named: set<string>, s: S, n: nat): nat
    requires n <= |plan.steps|
  {
    if n == 0 then 0 else Taking(plan, named, s, n - 1) + (if LeftOut(plan, named, s, n - 1) then 0 else 1)
  }

  predicate SomeLeftOut<S>(plan: Plan<S>, named: set<string>, s: S, n: nat)
    requires n <= |plan.steps|
  {
    exists i :: 0 <= i < n && LeftOut(plan, named, s, i)
  }

  /** `n` steps are behind: the schema they lead to, their journal rows, and nothing else. */
  ghost predicate Behind<S>(plan: Plan<S>, named: set<string>, found: Db<S>, db: Db<S>, n: nat) {
    && n <= |plan.steps|
    && Course(plan, named, found.schema, n) == Some(db.schema)
    && db.journal == found.journal + Rows(plan, named, found.schema, n)
  }

  /** Why the loop stops: the step cannot be applied, or the one before it did not take effect. */
  predicate StopsAt<S>(plan: Plan<S>, named: set<string>, s: S, trouble: nat, n: nat)
    requires n <= |plan.steps|
  {
    || (n < |plan.steps| && !LeftOut(plan, named, s, n) && (n == trouble || Course(plan, named, s, n + 1).None?))
    || (n > 0 && !TookEffect(plan, named, s, trouble, n - 1))
  }

  /** How far the loop is while nothing has stopped it. */
  ghost predicate Going<S>(plan: Plan<S>, named: set<string>, found: Db<S>, trouble: nat, p: Progress<S>, i: nat) {
    && Behind(plan, named, found, p.db, i) && p.ok && p.db.hash == found.hash
    && AllTookEffect(plan, named, found.schema, trouble, i)
    && p.applied == Taking(plan, named, found.schema, i)
    && p.resumed == SomeLeftOut(plan, named, found.schema, i)
  }

  lemma CourseNext<S>(plan: Plan<S>, named: set<string>, s: S, i: nat)
    requires i < |plan.steps| && Course(plan, named, s, i).Some?
    ensures Course(plan, named, s, i + 1)
         == if LeftOut(plan, named, s, i) then Course(plan, named, s, i) else plan.steps[i].effect(Course(plan, named, s, i).value)
    ensures LeftOut(plan, named, s, i)
       <==> plan.steps[i].id in named && plan.steps[i].holds(Course(plan, named, s, i).value)
  {}

  lemma TalliesNext<S>(plan: Plan<S>, named: set<string>, s: S, i: nat)
    requires i < |plan.steps|
    ensures Rows(plan, named, s, i + 1)
         == Rows(plan, named, s, i) + (if LeftOut(plan, named, s, i) then {} else {(plan.id, plan.steps[i].id)})
    ensures Taking(plan, named, s, i + 1) == Taking(plan, named, s, i) + (if LeftOut(plan, named, s, i) then 0 else 1)
    ensures SomeLeftOut(plan, named, s, i + 1) <==> SomeLeftOut(plan, named, s, i) || LeftOut(plan, named, s, i)
  {
    hide LeftOut;
    if LeftOut(plan, named, s, i) { assert SomeLeftOut(plan, named, s, i + 1); }
  }

  lemma EffectsNext<S>(plan: Plan<S>, named: set<string>, s: S, trouble: nat, i: nat)
    requires i < |plan.steps|
    ensures AllTookEffect(plan, named, s, trouble, i + 1)
       <==> AllTookEffect(plan, named, s, trouble, i) && TookEffect(plan, named, s, trouble, i)
  {
    hide TookEffect;
  }

  lemma {:induction false} EffectsFail<S>(plan: Plan<S>, named: set<string>, s: S, trouble: nat, i: nat)
    requires i < |plan.steps| && !TookEffect(plan, named, s, trouble, i)
    ensures !AllTookEffect(plan, named, s, trouble, |plan.steps|)
  {
    hide TookEffect;
  }

  lemma GoingLeftOut<S>(plan: Plan<S>, named: set<string>, found: Db<S>, trouble: nat, p: Progress<S>, i: nat)
    requires Going(plan, named, found, trouble, p, i) && i < |plan.steps| && LeftOut(plan, named, found.schema, i)
    ensures Going(plan, named, found, trouble, p.(resumed := true), i + 1)
  {
    var s := found.schema;
    CourseNext(plan, named, s, i);
    TalliesNext(plan, named, s, i);
    EffectsNext(plan, named, s, trouble, i);
    assert TookEffect(plan, named, s, trouble, i);
    hide LeftOut, Course, Rows, Taking, SomeLeftOut, AllTookEffect, TookEffect;
  }

  lemma AppliedBehind<S>(plan: Plan<S>, named: set<string>, found: Db<S>, before: Db<S>, db: Db<S>, i: nat)
    requires i < |plan.steps| && Behind(plan, named, found, before, i) && !LeftOut(plan, named, found.schema, i)
    requires plan.steps[i].effect(before.schema).Some?
    requires db == before.(schema := plan.steps[i].effect(before.schema).value, journal := before.journal + {(plan.id, plan.steps[i].id)})
    ensures Behind(plan, named, found, db, i + 1)
  {
    CourseNext(plan, named, found.schema, i);
    TalliesNext(plan, named, found.schema, i);
    hide LeftOut, Course, Rows;
  }

  lemma GoingApplied<S>(plan: Plan<S>, named: set<string>, found: Db<S>, trouble: nat, p: Progress<S>, db: Db<S>, i: nat)
    requires Going(plan, named, found, trouble, p, i) && i < |plan.steps| && i != trouble && !LeftOut(plan, named, found.schema, i)
    requires Behind(plan, named, found, db, i + 1) && plan.steps[i].holds(db.schema) && db.hash == found.hash
    ensures Going(plan, named, found, trouble, p.(db := db, applied := p.applied + 1), i + 1)
  {
    var s := found.schema;
    TalliesNext(plan, named, s, i);
    EffectsNext(plan, named, s, trouble, i);
    assert TookEffect(plan, named, s, trouble, i);
    hide LeftOut, Course, Rows, Taking, SomeLeftOut, AllTookEffect, TookEffect;
  }

  /** How the loop ends, with `n` steps behind. */
  ghost predicate Ends<S>(plan: Plan<S>, named: set<string>, found: Db<S>, trouble: nat, q: Progress<S>, n: nat) {
    && Behind(plan, named, found, q.db, n) && q.db.hash == found.hash
    && (q.ok <==> AllTookEffect(plan, named, found.schema, trouble, |plan.steps|))
    && (if q.ok then Going(plan, named, found, trouble, q, n) && n == |plan.steps|
        else StopsAt(plan, named, found.schema, trouble, n) && (n > 0 ==> AllTookEffect(plan, named, found.schema, trouble, n - 1)))
  }

  lemma EndsGoing<S>(plan: Plan<S>, named: set<string>, found: Db<S>, trouble: nat, p: Progress<S>)
    requires Going(plan, named, found, trouble, p, |plan.steps|)
    ensures Ends(plan, named, found, trouble, p, |plan.steps|)
  {
    hide Behind, AllTookEffect;
  }

  /** Stopped in front of a step. */
  lemma EndsBefore<S>(plan: Plan<S>, named: set<string>, found: Db<S>, trouble: nat, p: Progress<S>, i: nat)
    requires Going(plan, named, found, trouble, p, i) && i < |plan.steps| && !LeftOut(plan, named, found.schema, i)
    requires i == trouble || plan.steps[i].effect(p.db.schema).None?
    ensures Ends(plan, named, found, trouble, p.(ok := false), i)
  {
    var s := found.schema;
    CourseNext(plan, named, s, i);
    assert !TookEffect(plan, named, s, trouble, i);
    EffectsFail(plan, named, s, trouble, i);
    if i > 0 { EffectsNext(plan, named, s, trouble, i - 1); }
    hide LeftOut, Course, Rows, Taking, SomeLeftOut, AllTookEffect, TookEffect;
  }

  /** Stopped after a step whose postcondition does not hold. */
  lemma EndsAfter<S>(plan: Plan<S>, named: set<string>, found: Db<S>, trouble: nat, p: Progress<S>, db: Db<S>, i: nat)
    requires Going(plan, named, found, trouble, p, i) && i < |plan.steps| && i != trouble && !LeftOut(plan, named, found.schema, i)
    requires Behind(plan, named, found, db, i + 1) && !plan.steps[i].holds(db.schema) && db.hash == found.hash
    ensures Ends(plan, named, found, trouble, p.(db := db, ok := false), i + 1)
  {
    assert !TookEffect(plan, named, found.schema, trouble, i);
    EffectsFail(plan, named, found.schema, trouble, i);
    hide LeftOut, Course, Rows, Taking, SomeLeftOut, AllTookEffect, TookEffect;
  }

  lemma StepUnverified<S>(plan: Plan<S>, done: set<string>, trouble: nat, i: nat, p: Progress<S>, db: Db<S>)
    requires i < |plan.steps| && i != trouble && !(plan.steps[i].id in done && plan.steps[i].holds(p.db.schema))
    requires plan.steps[i].effect(p.db.schema).Some?
    requires db == p.db.(schema := plan.steps[i].effect(p.db.schema).value, journal := p.db.journal + {(plan.id, plan.steps[i].id)})
    requires !plan.steps[i].holds(db.schema)
    ensures StepsFrom(plan, done, trouble, i, p) == p.(db := db, ok := false)
  {}

  lemma StepRejected<S>(plan: Plan<S>, done: set<string>, trouble: nat, i: nat, p: Progress<S>)
    requires i < |plan.steps| && !(plan.steps[i].id in done && plan.steps[i].holds(p.db.schema))
    requires i == trouble || plan.steps[i].effect(p.db.schema).None?
    ensures StepsFrom(plan, done, trouble, i, p) == p.(ok := false)
  {}

  lemma GoingAt<S>(plan: Plan<S>, named: set<string>, found: Db<S>, trouble: nat, p: Progress<S>, i: nat)
    requires Going(plan, named, found, trouble, p, i) && i < |plan.steps|
    ensures LeftOut(plan, named, found.schema, i) <==> plan.steps[i].id in named && plan.steps[i].holds(p.db.schema)
    ensures Behind(plan, named, found, p.db, i) && p.db.hash == found.hash
  {
    CourseNext(plan, named, found.schema, i);
  }

  lemma {:induction false} StepsEndSomewhere<S>(plan: Plan<S>, named: set<string>, found: Db<S>, trouble: nat, p: Progress<S>, i: nat)
    returns (n: nat)
    requires i <= |plan.steps| && Going(plan, named, found, trouble, p, i)
    ensures Ends(plan, named, found, trouble, StepsFrom(plan, named, trouble, i, p), n)
    ensures StepsFrom(plan, named, trouble, i, p).db.lease == p.db.lease
    decreases |plan.steps| - i
  {
    hide *;
    if i == |plan.steps| {
      StepsEnd(plan, named, trouble, p);
      EndsGoing(plan, named, found, trouble, p);
      return i;
    }
    GoingAt(plan, named, found, trouble, p, i);
    if plan.steps[i].id in named && plan.steps[i].holds(p.db.schema) {
      GoingLeftOut(plan, named, found, trouble, p, i);
      StepLeftOut(plan, named, trouble, i, p);
      n := StepsEndSomewhere(plan, named, found, trouble, p.(resumed := true), i + 1);
    } else if i == trouble || plan.steps[i].effect(p.db.schema).None? {
      EndsBefore(plan, named, found, trouble, p, i);
      StepRejected(plan, named, trouble, i, p);
      n := i;
    } else {
      var db := p.db.(schema := plan.steps[i].effect(p.db.schema).value, journal := p.db.journal + {(plan.id, plan.steps[i].id)});
      AppliedBehind(plan, named, found, p.db, db, i);
      if plan.steps[i].holds(db.schema) {
        GoingApplied(plan, named, found, trouble, p, db, i);
        StepApplied(plan, named, trouble, i, p, db);
        n := StepsEndSomewhere(plan, named, found, trouble, p.(db := db, applied := p.applied + 1), i + 1);
      } else {
        EndsAfter(plan, named, found, trouble, p, db, i);
        StepUnverified(plan, named, trouble, i, p, db);
        n := i + 1;
      }
    }
  }

  /**
   * What a call that got the lease leaves behind. It has `n` steps behind it: the schema is the one
   * they lead to, and the journal has gained exactly their rows. It is done exactly when every step
   * was left out or accepted with its postcondition holding right after it, and no trouble struck;
   * only then is the new hash recorded. Otherwise the recorded hash is as it was found.
   */
  ghost predicate Ran<S>(plan: Plan<S>, found: Db<S>, holder: string, now: int, trouble: nat, dies: bool,
                         db: Db<S>, result: Result, n: nat) {
    var named, s, all := AppliedIds(found, plan.id), found.schema, |plan.steps|;
    && Behind(plan, named, found, db, n)
    && (result.Done? || result.Failed?)
    && (result.Done? <==> trouble != all && AllTookEffect(plan, named, s, trouble, all))
    && (result.Done? ==> n == all && db.hash == Some(plan.toHash) && db.lease == None
                         && result == Done(SomeLeftOut(plan, named, s, all), Taking(plan, named, s, all)))
    && (result.Failed? ==> && db.hash == found.hash
                           && db.lease == (if dies then Some(Lease(holder, now)) else None)
                           && (StopsAt(plan, named, s, trouble, n) || trouble == n == all))
  }

  lemma StartsGoing<S>(plan: Plan<S>, found: Db<S>, trouble: nat, lease: Option<Lease>)
    ensures Going(plan, AppliedIds(found, plan.id), found, trouble, Progress(found.(lease := lease), true, false, 0), 0)
  {
    hide AppliedIds;
  }

  lemma JournaledRan<S>(plan: Plan<S>, found: Db<S>, holder: string, now: int, trouble: nat, dies: bool) returns (n: nat)
    requires Checked(plan, found).None? && LeaseFree(found, now)
    ensures Ran(plan, found, holder, now, trouble, dies, Journaled(plan, found, holder, now, trouble, dies).0,
                Journaled(plan, found, holder, now, trouble, dies).1, n)
  {
    var named, start := AppliedIds(found, plan.id), Progress(found.(lease := Some(Lease(holder, now))), true, false, 0);
    StartsGoing(plan, found, trouble, Some(Lease(holder, now)));
    n := StepsEndSomewhere(plan, named, found, trouble, start, 0);
    var q := StepsFrom(plan, named, trouble, 0, start);
    hide StepsFrom, AppliedIds, AllTookEffect, StopsAt, Course, Rows, SomeLeftOut, Taking, LeaseFree;
  }

  /**
   * Lease, steps with journal rows, hash, release. Trouble strikes when the run comes to apply that
   * step, or to record the hash after the last one, and leaves the lease only if the run dies.
   */
  method ApplyJournaled<S>(plan: Plan<S>, found: Db<S>, holder: string, now: int, trouble: nat, dies: bool)
    returns (db: Db<S>, result: Result)
    ensures (db, result) == Journaled(plan, found, holder, now, trouble, dies)
    ensures NothingToDo(plan, found) ==> db == found && result == Noop
    ensures Drifted(plan, found) ==> db == found && result == Refused
    ensures !NothingToDo(plan, found) && !Drifted(plan, found) ==>
              if found.lease.Some? && now - found.lease.value.acquiredAt <= 600_000 then db == found && result == Refused
              else exists n: nat :: Ran(plan, found, holder, now, trouble, dies, db, result, n)
  {
    hide StepsFrom, AppliedIds, Ran;
    ghost var n: nat := 0;
    if Checked(plan, found).None? && LeaseFree(found, now) {
      n := JournaledRan(plan, found, holder, now, trouble, dies);
    }
    db := found;
    if Checked(plan, db).Some? {
      return db, Checked(plan, db).value;
    }
    if db.lease.Some? && now - db.lease.value.acquiredAt <= STALE_AFTER {
      return db, Refused;
    }
    var done := AppliedIds(db, plan.id);
    db := db.(lease := Some(Lease(holder, now)));
    var ok, resumed, applied;
    db, ok, resumed, applied := ApplySteps(plan, db, done, trouble);
    if ok && trouble != |plan.steps| {
      db := db.(hash := Some(plan.toHash), lease := None);
      result := Done(resumed, applied);
    } else {
      db := if dies then db else db.(lease := None);
      result := Failed;
    }
    assert Ran(plan, found, holder, now, trouble, dies, db, result, n);
  }

  /** Trouble strikes from step `i` on at a step that is not left out. */
  predicate Strikes<S>(plan: Plan<S>, start: Db<S>, trouble: nat, i: nat, m: nat)
    requires Startable(plan, start)
  {
    i <= trouble < |plan.steps| && m <= trouble && !SkippedAt(plan, start, trouble)
  }

  lemma NoStrike<S>(plan: Plan<S>, start: Db<S>, trouble: nat, i: nat, m: nat)
    requires Startable(plan, start) && i == |plan.steps|
    ensures !Strikes(plan, start, trouble, i, m)
  {}

  lemma StrikesNext<S>(plan: Plan<S>, start: Db<S>, trouble: nat, i: nat, m: nat)
    requires Startable(plan, start) && i < |plan.steps|
    ensures Strikes(plan, start, trouble, i, m)
       <==> Strikes(plan, start, trouble, i + 1, m) || (trouble == i && m <= i && !SkippedAt(plan, start, i))
  {
    hide Startable, SkippedAt;
  }

  lemma StepsEnd<S>(plan: Plan<S>, done: set<string>, trouble: nat, p: Progress<S>)
    ensures StepsFrom(plan, done, trouble, |plan.steps|, p) == p
  {}

  lemma StepLeftOut<S>(plan: Plan<S>, done: set<string>, trouble: nat, i: nat, p: Progress<S>)
    requires i < |plan.steps| && plan.steps[i].id in done && plan.steps[i].holds(p.db.schema)
    ensures StepsFrom(plan, done, trouble, i, p) == StepsFrom(plan, done, trouble, i + 1, p.(resumed := true))
  {}

  lemma StepStops<S>(plan: Plan<S>, done: set<string>, i: nat, p: Progress<S>)
    requires i < |plan.steps| && !(plan.steps[i].id in done && plan.steps[i].holds(p.db.schema))
    ensures StepsFrom(plan, done, i, i, p) == p.(ok := false)
  {}

  lemma StepApplied<S>(plan: Plan<S>, done: set<string>, trouble: nat, i: nat, p: Progress<S>, db: Db<S>)
    requires i < |plan.steps| && i != trouble && !(plan.steps[i].id in done && plan.steps[i].holds(p.db.schema))
    requires plan.steps[i].effect(p.db.schema).Some?
    requires db == p.db.(schema := plan.steps[i].effect(p.db.schema).value, journal := p.db.journal + {(plan.id, plan.steps[i].id)})
    requires plan.steps[i].holds(db.schema)
    ensures StepsFrom(plan, done, trouble, i, p) == StepsFrom(plan, done, trouble, i + 1, p.(db := db, applied := p.applied + 1))
  {}

  /** The loop from step `i` on a database where `k` steps are taken, of which `m` were found taken. */
  lemma {:induction false} StepsKeep<S>(plan: Plan<S>, start: Db<S>, done: set<string>, trouble: nat, i: nat,
                                        p: Progress<S>, m: nat, k: nat)
    returns (k': nat)
    requires Ready(plan, start) && AtPrefix(plan, start, p.db, k) && p.db.hash == start.hash && p.ok
    requires i <= |plan.steps| && m <= |plan.steps| && k == (if i <= m then m else i)
    requires done == AppliedIds(start, plan.id) + Ids(plan, m) && Tallied(plan, start, p.resumed, p.applied, i, m)
    ensures var q := StepsFrom(plan, done, trouble, i, p);
            && AtPrefix(plan, start, q.db, k') && k <= k' && q.db.hash == start.hash && q.db.lease == p.db.lease
            && (q.ok <==> !Strikes(plan, start, trouble, i, m))
            && (q.ok ==> k' == |plan.steps| && Tallied(plan, start, q.resumed, q.applied, |plan.steps|, m))
    decreases |plan.steps| - i
  {
    hide *;
    ReadyDistinct(plan, start);
    k' := k;
    if i == |plan.steps| {
      StepsEnd(plan, done, trouble, p);
      NoStrike(plan, start, trouble, i, m);
      return;
    }
    SkipsIff(plan, start, p.db, i, m, k);
    TallyNext(plan, start, p.resumed, p.applied, i, m);
    StrikesNext(plan, start, trouble, i, m);
    if i < m || SkippedAt(plan, start, i) {
      if i >= m { OneSkipped(plan, start, p.db, k); }
      StepLeftOut(plan, done, trouble, i, p);
      k' := StepsKeep(plan, start, done, trouble, i + 1, p.(resumed := true), m, if i >= m then k + 1 else k);
    } else if i == trouble {
      StepStops(plan, done, i, p);
    } else {
      OneMore(plan, start, p.db, k);
      var db := p.db.(schema := plan.steps[i].effect(p.db.schema).value, journal := p.db.journal + {(plan.id, plan.steps[i].id)});
      HoldsAt(plan, start, db, i, k + 1);
      StepApplied(plan, done, trouble, i, p, db);
      k' := StepsKeep(plan, start, done, trouble, i + 1, p.(db := db, applied := p.applied + 1), m, k + 1);
    }
  }

  /**
   * From whatever prefix earlier runs left: a run never goes back to a shorter one; it returns exactly
   * when the lease is free and no trouble strikes a step it applies, or the hash; and then it has
   * taken all steps and reports how many it applied, and whether it left any out.
   */
  lemma JournaledRun<S>(plan: Plan<S>, start: Db<S>, found: Db<S>, holder: string, now: int, trouble: nat, dies: bool, m: nat)
    returns (k: nat)
    requires Ready(plan, start) && AtPrefix(plan, start, found, m) && found.hash == start.hash
    ensures var (db, result) := Journaled(plan, found, holder, now, trouble, dies);
            && AtPrefix(plan, start, db, k) && m <= k
            && (result.Done? <==> LeaseFree(found, now) && trouble != |plan.steps| && !Strikes(plan, start, trouble, 0, m))
            && (result.Done? ==> Migrated(plan, start, db) && Tallied(plan, start, result.resumed, result.applied, |plan.steps|, m))
            && (result.Refused? ==> db == found)
            && (!result.Refused? && !(result.Failed? && dies) ==> db.lease == None)
  {
    ReadyDistinct(plan, start);
    PrefixBound(plan, start, found, m);
    k := m;
    if LeaseFree(found, now) {
      var leased := found.(lease := Some(Lease(holder, now)));
      LeaseAside(plan, start, found, m, Some(Lease(holder, now)));
      AppliedAtPrefix(plan, start, found, m);
      assert Tallied(plan, start, false, 0, 0, m);
      k := StepsKeep(plan, start, AppliedIds(found, plan.id), trouble, 0, Progress(leased, true, false, 0), m, m);
      var p := StepsFrom(plan, AppliedIds(found, plan.id), trouble, 0, Progress(leased, true, false, 0));
      LeaseAside(plan, start, p.db, k, None);
      if p.ok { HashRecorded(plan, start, p.db); }
    }
    hide Ready, AtPrefix, Startable, StepsFrom, Tallied, AppliedIds, Strikes;
  }

  /** The hash recorded, and the lease released. */
  lemma HashRecorded<S>(plan: Plan<S>, start: Db<S>, db: Db<S>)
    requires Startable(plan, start) && AtPrefix(plan, start, db, |plan.steps|)
    ensures Migrated(plan, start, db.(hash := Some(plan.toHash), lease := None))
    ensures AtPrefix(plan, start, db.(hash := Some(plan.toHash), lease := None), |plan.steps|)
  {
    hide SchemaAt, Startable;
  }

  // ---------------------------------------------------------------- the call as a run of statements

  /** A run's next statements, with no other run in between. */
  function Onward<S>(plan: Plan<S>, db: Db<S>, r: Runner, h: string, now: int, n: nat): (Db<S>, Runner)
    decreases n
  {
    if n == 0 then (db, r)
    else Onward(plan, Next(plan, db, r, h, now).0, Next(plan, db, r, h, now).1, h, now, n - 1)
  }

  /** The run comes from one point to the other. */
  ghost predicate Leads<S>(plan: Plan<S>, h: string, now: int, from: (Db<S>, Runner), to: (Db<S>, Runner)) {
    exists n: nat :: Onward(plan, from.0, from.1, h, now, n) == to
  }

  lemma LeadsHere<S>(plan: Plan<S>, h: string, now: int, at: (Db<S>, Runner))
    ensures Leads(plan, h, now, at, at)
  {
    assert Onward(plan, at.0, at.1, h, now, 0) == at;
  }

  lemma LeadsNext<S>(plan: Plan<S>, h: string, now: int, db: Db<S>, r: Runner, next: (Db<S>, Runner), to: (Db<S>, Runner))
    requires Next(plan, db, r, h, now) == next && Leads(plan, h, now, next, to)
    ensures Leads(plan, h, now, (db, r), to)
  {
    var n: nat :| Onward(plan, next.0, next.1, h, now, n) == to;
    OnwardOne(plan, db, r, h, now, n);
  }

  lemma OnwardOne<S>(plan: Plan<S>, db: Db<S>, r: Runner, h: string, now: int, n: nat)
    ensures Onward(plan, db, r, h, now, n + 1)
         == Onward(plan, Next(plan, db, r, h, now).0, Next(plan, db, r, h, now).1, h, now, n)
  {
    hide Next;
  }

  /** Releasing after a failure, with whatever the run has counted. */
  predicate GivesUp(r: Runner) {
    r.at == Releasing(Failed)
  }

  lemma StepSkipped<S>(plan: Plan<S>, db: Db<S>, r: Runner, h: string, now: int, i: nat)
    requires r.at == Stepping(i) && i < |plan.steps| && plan.steps[i].id in r.done && plan.steps[i].holds(db.schema)
    ensures Next(plan, db, r, h, now) == (db, r.(at := Stepping(i + 1), resumed := true))
  {}

  lemma StepTaken<S>(plan: Plan<S>, db: Db<S>, r: Runner, h: string, now: int, i: nat)
    requires r.at == Stepping(i) && i < |plan.steps| && !(plan.steps[i].id in r.done && plan.steps[i].holds(db.schema))
    ensures Next(plan, db, r, h, now) == (db, r.(at := Batching(i)))
    ensures plan.steps[i].effect(db.schema).None? ==>
              Next(plan, db, r.(at := Batching(i)), h, now) == (db, r.(at := Releasing(Failed)))
    ensures plan.steps[i].effect(db.schema).Some? ==>
              Next(plan, db, r.(at := Batching(i)), h, now)
              == (db.(schema := plan.steps[i].effect(db.schema).value, journal := db.journal + {(plan.id, plan.steps[i].id)}),
                  r.(at := Verifying(i)))
  {}

  lemma StepVerified<S>(plan: Plan<S>, db: Db<S>, r: Runner, h: string, now: int, i: nat)
    requires r.at == Verifying(i) && i < |plan.steps|
    ensures Next(plan, db, r, h, now)
         == (db, if plan.steps[i].holds(db.schema) then r.(at := Stepping(i + 1), applied := r.applied + 1)
                 else r.(at := Releasing(Failed)))
  {}

  lemma AllStepped<S>(plan: Plan<S>, db: Db<S>, r: Runner, h: string, now: int)
    requires r.at == Stepping(|plan.steps|)
    ensures Next(plan, db, r, h, now) == (db, r.(at := Recording))
  {}

  /** From the loop on, a run comes to where the loop of the call ends. */
  lemma {:induction false} LoopLeads<S>(plan: Plan<S>, db: Db<S>, r: Runner, h: string, now: int, i: nat) returns (r': Runner)
    requires i <= |plan.steps| && r.at == Stepping(i)
    ensures var q := StepsFrom(plan, r.done, |plan.steps| + 1, i, Progress(db, true, r.resumed, r.applied));
            && Leads(plan, h, now, (db, r), (q.db, r'))
            && (if q.ok then r' == Runner(Recording, r.done, q.applied, q.resumed) else GivesUp(r'))
            && q.db.lease == db.lease
    decreases |plan.steps| - i
  {
    var never, p := |plan.steps| + 1, Progress(db, true, r.resumed, r.applied);
    hide *;
    if i == |plan.steps| {
      r' := r.(at := Recording);
      AllStepped(plan, db, r, h, now);
      StepsEnd(plan, r.done, never, p);
      LeadsHere(plan, h, now, (db, r'));
      LeadsNext(plan, h, now, db, r, (db, r'), (db, r'));
    } else if plan.steps[i].id in r.done && plan.steps[i].holds(db.schema) {
      var next := r.(at := Stepping(i + 1), resumed := true);
      StepSkipped(plan, db, r, h, now, i);
      StepLeftOut(plan, r.done, never, i, p);
      r' := LoopLeads(plan, db, next, h, now, i + 1);
      LeadsNext(plan, h, now, db, r, (db, next), (StepsFrom(plan, r.done, never, i, p).db, r'));
    } else {
      r' := TakenLeads(plan, db, r, h, now, i);
    }
  }

  lemma {:induction false} TakenLeads<S>(plan: Plan<S>, db: Db<S>, r: Runner, h: string, now: int, i: nat) returns (r': Runner)
    requires i < |plan.steps| && r.at == Stepping(i) && !(plan.steps[i].id in r.done && plan.steps[i].holds(db.schema))
    ensures var q := StepsFrom(plan, r.done, |plan.steps| + 1, i, Progress(db, true, r.resumed, r.applied));
            && Leads(plan, h, now, (db, r), (q.db, r'))
            && (if q.ok then r' == Runner(Recording, r.done, q.applied, q.resumed) else GivesUp(r'))
            && q.db.lease == db.lease
    decreases |plan.steps| - i, 0
  {
    var never, p := |plan.steps| + 1, Progress(db, true, r.resumed, r.applied);
    var q := StepsFrom(plan, r.done, never, i, p);
    hide StepsFrom, Next, Leads;
    var batching := r.(at := Batching(i));
    StepTaken(plan, db, r, h, now, i);
    if plan.steps[i].effect(db.schema).None? {
      r' := r.(at := Releasing(Failed));
      StepRejected(plan, r.done, never, i, p);
      LeadsHere(plan, h, now, (db, r'));
      LeadsNext(plan, h, now, db, batching, (db, r'), (db, r'));
    } else {
      var after := db.(schema := plan.steps[i].effect(db.schema).value, journal := db.journal + {(plan.id, plan.steps[i].id)});
      var verifying := r.(at := Verifying(i));
      StepVerified(plan, after, verifying, h, now, i);
      if plan.steps[i].holds(after.schema) {
        var next := r.(at := Stepping(i + 1), applied := r.applied + 1);
        StepApplied(plan, r.done, never, i, p, after);
        r' := LoopLeads(plan, after, next, h, now, i + 1);
        LeadsNext(plan, h, now, after, verifying, (after, next), (q.db, r'));
      } else {
        r' := r.(at := Releasing(Failed));
        StepUnverified(plan, r.done, never, i, p, after);
        LeadsHere(plan, h, now, (after, r'));
        LeadsNext(plan, h, now, after, verifying, (after, r'), (q.db, r'));
      }
      LeadsNext(plan, h, now, db, batching, (after, verifying), (q.db, r'));
    }
    LeadsNext(plan, h, now, db, r, (db, batching), (q.db, r'));
  }

  lemma Ending<S>(plan: Plan<S>, db: Db<S>, r: Runner, h: string, now: int)
    requires db.lease.Some? && db.lease.value.holder == h
    ensures r.at.Recording? ==>
              Next(plan, db, r, h, now) == (db.(hash := Some(plan.toHash)), r.(at := Releasing(Done(r.resumed, r.applied))))
    ensures r.at.Releasing? ==> Next(plan, db, r, h, now) == (db.(lease := None), r.(at := Ended(r.at.result)))
  {}

  /** The run that has listed the journal, to its end. */
  lemma SectionLeads<S>(plan: Plan<S>, found: Db<S>, h: string, now: int) returns (r': Runner)
    requires Checked(plan, found).None? && LeaseFree(found, now)
    ensures var leased := found.(lease := Some(Lease(h, now)));
            && Leads(plan, h, now, (leased, Runner(Stepping(0), AppliedIds(found, plan.id), 0, false)),
                     (Journaled(plan, found, h, now, |plan.steps| + 1, false).0, r'))
            && r'.at == Ended(Journaled(plan, found, h, now, |plan.steps| + 1, false).1)
  {
    var leased, done := found.(lease := Some(Lease(h, now))), AppliedIds(found, plan.id);
    var r := Runner(Stepping(0), done, 0, false);
    var q := StepsFrom(plan, done, |plan.steps| + 1, 0, Progress(leased, true, false, 0));
    var end := Journaled(plan, found, h, now, |plan.steps| + 1, false);
    assert end == if q.ok then (q.db.(hash := Some(plan.toHash), lease := None), Done(q.resumed, q.applied))
                  else (q.db.(lease := None), Failed);
    hide *;
    var loop := LoopLeads(plan, leased, r, h, now, 0);
    Ending(plan, q.db, loop, h, now);
    if q.ok {
      var recorded, releasing := q.db.(hash := Some(plan.toHash)), loop.(at := Releasing(Done(q.resumed, q.applied)));
      Ending(plan, recorded, releasing, h, now);
      r' := releasing.(at := Ended(Done(q.resumed, q.applied)));
      LeadsHere(plan, h, now, (end.0, r'));
      LeadsNext(plan, h, now, recorded, releasing, (end.0, r'), (end.0, r'));
      LeadsNext(plan, h, now, q.db, loop, (recorded, releasing), (end.0, r'));
    } else {
      GivenUp(loop);
      r' := loop.(at := Ended(Failed));
      LeadsHere(plan, h, now, (end.0, r'));
      LeadsNext(plan, h, now, q.db, loop, (end.0, r'), (end.0, r'));
    }
    LeadsOn(plan, h, now, (leased, r), (q.db, loop), (end.0, r'));
  }

  lemma GivenUp(r: Runner)
    requires GivesUp(r)
    ensures r.at == Releasing(Failed)
  {}

  lemma LeadsOn<S>(plan: Plan<S>, h: string, now: int, a: (Db<S>, Runner), b: (Db<S>, Runner), c: (Db<S>, Runner))
    requires Leads(plan, h, now, a, b) && Leads(plan, h, now, b, c)
    ensures Leads(plan, h, now, a, c)
  {
    var m: nat :| Onward(plan, a.0, a.1, h, now, m) == b;
    var n: nat :| Onward(plan, b.0, b.1, h, now, n) == c;
    OnwardSum(plan, a.0, a.1, h, now, m, n);
  }

  lemma {:induction false} OnwardSum<S>(plan: Plan<S>, db: Db<S>, r: Runner, h: string, now: int, m: nat, n: nat)
    ensures Onward(plan, db, r, h, now, m + n)
         == Onward(plan, Onward(plan, db, r, h, now, m).0, Onward(plan, db, r, h, now, m).1, h, now, n)
    decreases m
  {
    if m > 0 {
      OnwardSum(plan, Next(plan, db, r, h, now).0, Next(plan, db, r, h, now).1, h, now, m - 1, n);
      OnwardOne(plan, db, r, h, now, m - 1);
      OnwardOne(plan, db, r, h, now, m + n - 1);
      hide Next, Onward;
    }
  }

  lemma Beginning<S>(plan: Plan<S>, db: Db<S>, h: string, now: int)
    ensures var r := Runner(Checking, {}, 0, false);
            Next(plan, db, r, h, now)
            == (db, r.(at := if Checked(plan, db).Some? then Where.Ended(Checked(plan, db).value) else Acquiring))
    ensures var r := Runner(Acquiring, {}, 0, false);
            Next(plan, db, r, h, now)
            == if db.lease.None? then (db.(lease := Some(Lease(h, now))), r.(at := Listing)) else (db, r.(at := Judging))
    ensures db.lease.Some? ==>
              var r := Runner(Judging, {}, 0, false);
              Next(plan, db, r, h, now) == (db, r.(at := if LeaseFree(db, now) then TakingOver else Where.Ended(Refused)))
    ensures db.lease.Some? ==>
              var r := Runner(TakingOver, {}, 0, false);
              Next(plan, db, r, h, now) == (db.(lease := Some(Lease(h, now))), r.(at := Listing))
    ensures var r := Runner(Listing, {}, 0, false);
            Next(plan, db, r, h, now) == (db, Runner(Stepping(0), AppliedIds(db, plan.id), 0, false))
  {}

  lemma SameIds<S>(db: Db<S>, lease: Option<Lease>, id: string)
    ensures AppliedIds(db.(lease := lease), id) == AppliedIds(db, id)
  {}

  /**
   * For every plan and database: the statements of a run that meets no other, one after the other,
   * give what the whole call gives, and the same answer.
   */
  lemma RunAloneIsCall<S>(plan: Plan<S>, found: Db<S>, h: string, now: int) returns (r': Runner)
    ensures Leads(plan, h, now, (found, Runner(Checking, {}, 0, false)), (Journaled(plan, found, h, now, |plan.steps| + 1, false).0, r'))
    ensures r'.at == Ended(Journaled(plan, found, h, now, |plan.steps| + 1, false).1)
  {
    var leased, done := found.(lease := Some(Lease(h, now))), AppliedIds(found, plan.id);
    var end := Journaled(plan, found, h, now, |plan.steps| + 1, false).0;
    var checking, acquiring := Runner(Checking, {}, 0, false), Runner(Acquiring, {}, 0, false);
    var judging, taking := Runner(Judging, {}, 0, false), Runner(TakingOver, {}, 0, false);
    var listing := Runner(Listing, {}, 0, false);
    Answered(plan, found, h, now);
    SameIds(found, Some(Lease(h, now)), plan.id);
    Beginning(plan, found, h, now);
    Beginning(plan, leased, h, now);
    FreeWithoutLease(found, now);
    hide *;
    if Checked(plan, found).Some? {
      r' := checking.(at := Ended(Checked(plan, found).value));
      LeadsHere(plan, h, now, (found, r'));
      LeadsNext(plan, h, now, found, checking, (found, r'), (found, r'));
      return;
    }
    if !LeaseFree(found, now) {
      r' := judging.(at := Ended(Refused));
      LeadsHere(plan, h, now, (found, r'));
      LeadsNext(plan, h, now, found, judging, (found, r'), (found, r'));
      LeadsNext(plan, h, now, found, acquiring, (found, judging), (found, r'));
    } else {
      r' := SectionLeads(plan, found, h, now);
      LeadsNext(plan, h, now, leased, listing, (leased, Runner(Stepping(0), done, 0, false)), (end, r'));
      if found.lease.None? {
        LeadsNext(plan, h, now, found, acquiring, (leased, listing), (end, r'));
      } else {
        LeadsNext(plan, h, now, found, taking, (leased, listing), (end, r'));
        LeadsNext(plan, h, now, found, judging, (found, taking), (end, r'));
        LeadsNext(plan, h, now, found, acquiring, (found, judging), (end, r'));
      }
    }
    LeadsNext(plan, h, now, found, checking, (found, acquiring), (end, r'));
  }

  lemma FreeWithoutLease<S>(db: Db<S>, now: int)
    ensures db.lease.None? ==> LeaseFree(db, now)
  {}

  lemma Answered<S>(plan: Plan<S>, found: Db<S>, h: string, now: int)
    ensures var end := Journaled(plan, found, h, now, |plan.steps| + 1, false);
            && (Checked(plan, found).Some? ==> end == (found, Checked(plan, found).value))
            && (Checked(plan, found).None? && !LeaseFree(found, now) ==> end == (found, Refused))
  {
    hide StepsFrom, AppliedIds;
  }
}
