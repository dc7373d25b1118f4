/**
 * What a sign-out reaches on the serializable transaction model: the sessions of its scope, every
 * token that descends from one of theirs, and how long it lasts.
 */
module SignOuts {
  import opened Text
  import opened Sessions
  import opened SessionLineage
  import opened SerialSessions

  // ---------------------------------------------------------------- one sign-out

  /** The session has ended, and every token of it is revoked and otherwise as it was. */
  predicate SignedOff(db: Db, after: Db, id: string, now: int)
    requires id in db.sessions
  {
    && id in after.sessions && after.sessions[id] == db.sessions[id].(notAfter := Some(now))
    && forall h | h in db.tokens && db.tokens[h].session == id :: h in after.tokens && after.tokens[h] == db.tokens[h].(revoked := true)
  }

  predicate SignedOn(db: Db, after: Db, id: string)
    requires id in db.sessions
  {
    && id in after.sessions && after.sessions[id] == db.sessions[id]
    && forall h | h in db.tokens && db.tokens[h].session == id :: h in after.tokens && after.tokens[h] == db.tokens[h]
  }

  /**
   * Globally all sessions of the user end, locally only the current one, and with `others` all but
   * the current one. Everybody else's stay, and no row comes or goes.
   */
  lemma ScopeReached(db: Db, user: string, current: Option<string>, scope: Scope, now: int, id: string)
    requires id in db.sessions
    ensures var after := SessionsRevoked(db, user, current, scope, now);
            var theirs, here := db.sessions[id].user == user, current == Some(id);
            && (theirs && scope == Global ==> SignedOff(db, after, id, now))
            && (theirs && scope == Local && here ==> SignedOff(db, after, id, now))
            && (theirs && scope == Local && !here ==> SignedOn(db, after, id))
            && (theirs && scope == Others && !here ==> SignedOff(db, after, id, now))
            && (theirs && scope == Others && here ==> SignedOn(db, after, id))
            && (!theirs ==> SignedOn(db, after, id))
            && after.tokens.Keys == db.tokens.Keys && after.sessions.Keys == db.sessions.Keys && after.replay == db.replay
  {}

  /** A session is active from sign-in on, and once it is ended only up to that moment. */
  lemma ActiveUntilEnded(c: Config, db: Db, user: string, id: string, family: string, child: string, now: int, ended: int, later: int)
    ensures var after := SignedIn(c, db, user, id, family, child, now);
            && SessionActive(after, id, later)
            && (SessionActive(EndSession(after, id, ended), id, later) <==> later < ended)
  {}

  /** A world in which the rotations are whole and the rows belong together. */
  predicate Sound(c: Config, w: World) {
    Lineage(c, w.s) && RotationsWhole(w)
  }

  lemma {:induction false} SoundForever(c: Config, w: World, acts: seq<Act>)
    requires Sound(c, w) && AllowedRun(c, w, acts)
    ensures Sound(c, DoAll(c, w, acts))
  {
    var ms := AtomicRunInterleaves(c, w, acts);
    RunKeepsLineage(c, w.s, ms);
    WholeForever(c, w, acts);
  }

  lemma {:induction false} WholeForever(c: Config, w: World, acts: seq<Act>)
    requires RotationsWhole(w) && AllowedRun(c, w, acts)
    ensures RotationsWhole(DoAll(c, w, acts)) && w.clock <= DoAll(c, w, acts).clock
    decreases |acts|
  {
    hide Do, RotationsWhole;
    if acts != [] {
      RotationsStayWhole(c, w, acts[0]);
      WholeForever(c, Do(c, w, acts[0]), acts[1..]);
    }
  }

  lemma EmptySound(c: Config, clock: int)
    ensures Sound(c, World(EMPTY, clock))
  {}

  /** The world after a sign-out whose statements met no other call. */
  function After(w: World, user: string, current: Option<string>, scope: Scope, now: int): World {
    World(w.s.(db := SessionsRevoked(w.s.db, user, current, scope, now)), now)
  }

  lemma SignOutSound(c: Config, w: World, user: string, current: Option<string>, scope: Scope, now: int)
    requires Sound(c, w) && w.clock <= now
    ensures Sound(c, After(w, user, current, scope, now))
  {
    var w' := After(w, user, current, scope, now);
    SignOutExtends(w.s.db, user, current, scope, now);
    SameTokensKeep(w.s.db, w'.s.db);
    ReplaysStayTrue(c, w.s.db, w'.s.db);
    hide Extends, SessionsRevoked, ReplaysTrue, Inherited, OneOwner, Owned, CallTrue;
    forall id | id in w'.s.calls ensures CallTrue(c, w'.s.db, w'.s.calls[id]) && Untransacted(w'.s.calls[id], now) {
      assert Untransacted(w.s.calls[id], w.clock);
      CallStaysTrue(c, w.s.db, w'.s.db, w.s.calls[id]);
    }
  }

  lemma SignOutExtends(db: Db, user: string, current: Option<string>, scope: Scope, now: int)
    ensures var after := SessionsRevoked(db, user, current, scope, now);
            Extends(db, after) && after.tokens.Keys == db.tokens.Keys && after.replay == db.replay
  {}

  // ---------------------------------------------------------------- descendants

  /** `h` is the root, or a token whose parents lead to it in `n` steps. */
  predicate Descends(ts: map<string, Token>, h: string, root: string, n: nat)
    decreases n
  {
    h in ts && if n == 0 then h == root else ts[h].parent.Some? && Descends(ts, ts[h].parent.value, root, n - 1)
  }

  lemma {:induction false} DescendantsOwner(ts: map<string, Token>, h: string, root: string, n: nat)
    requires Inherited(ts) && Descends(ts, h, root, n)
    ensures root in ts && h in ts && SameOwner(ts[h], ts[root])
    decreases n
  {
    if n > 0 { DescendantsOwner(ts, ts[h].parent.value, root, n - 1); }
  }

  lemma FamilySignedOut(c: Config, w: World, user: string, current: Option<string>, scope: Scope, now: int, root: string)
    requires OneOwner(w.s.db.tokens) && root in w.s.db.tokens
    requires w.s.db.tokens[root].session in LogoutTargets(w.s.db, user, current, scope)
    ensures Dead(After(w, user, current, scope, now).s.db, w.s.db.tokens[root].family, now)
    ensures root in FamilyTokens(After(w, user, current, scope, now).s.db, w.s.db.tokens[root].family)
  {
    hide LogoutTargets;
  }

  /**
   * After a sign-out that met no other call, in every run that follows: no token that descends from
   * a token of an ended session is active, however long after it is inserted or presented, and its
   * session is not active either.
   */
  lemma SignedOutForever(c: Config, past: seq<Act>, start: int, user: string, current: Option<string>, scope: Scope,
                         now: int, acts: seq<Act>, root: string, h: string, n: nat, later: int)
    requires AllowedRun(c, World(EMPTY, start), past)
    requires var w := DoAll(c, World(EMPTY, start), past);
             && w.clock <= now && root in w.s.db.tokens
             && w.s.db.tokens[root].session in LogoutTargets(w.s.db, user, current, scope)
             && AllowedRun(c, After(w, user, current, scope, now), acts)
             && Descends(DoAll(c, After(w, user, current, scope, now), acts).s.db.tokens, h, root, n)
             && later >= DoAll(c, After(w, user, current, scope, now), acts).clock
    ensures var end := DoAll(c, After(DoAll(c, World(EMPTY, start), past), user, current, scope, now), acts).s.db;
            && !end.tokens[h].Active() && !SessionActive(end, end.tokens[h].session, later)
            && end.tokens[h].session == DoAll(c, World(EMPTY, start), past).s.db.tokens[root].session
  {
    hide LogoutTargets, After, AllowedRun, DoAll, Descends;
    var w := DoAll(c, World(EMPTY, start), past);
    var out := After(w, user, current, scope, now);
    EmptySound(c, start);
    SoundForever(c, World(EMPTY, start), past);
    SignOutSound(c, w, user, current, scope, now);
    FamilySignedOut(c, w, user, current, scope, now, root);
    var family := w.s.db.tokens[root].family;
    assert out.clock == now by { Clock(w, user, current, scope, now); }
    DeadForever(c, out, acts, family);
    SoundForever(c, out, acts);
    var end := DoAll(c, out, acts);
    DescendantsOwner(end.s.db.tokens, h, root, n);
    SameSession(c, w, user, current, scope, now, acts, root);
  }

  lemma Clock(w: World, user: string, current: Option<string>, scope: Scope, now: int)
    ensures After(w, user, current, scope, now).clock == now
  {}

  // ---------------------------------------------------------------- rows keep their owner

  lemma {:induction false} RunExtends(c: Config, s: State, ms: seq<Move>)
    requires Lineage(c, s) && LegalRun(c, s, ms)
    ensures Extends(s.db, Run(c, s, ms).db)
    decreases |ms|
  {
    if ms != [] {
      hide Lineage, Legal, Apply, Extends;
      ApplyKeepsLineage(c, s, ms[0]);
      RunExtends(c, Apply(c, s, ms[0]), ms[1..]);
      ExtendsTransitive(s.db, Apply(c, s, ms[0]).db, Run(c, s, ms).db);
    }
  }

  lemma ExtendsTransitive(a: Db, b: Db, d: Db)
    requires Extends(a, b) && Extends(b, d)
    ensures Extends(a, d)
  {}

  lemma SameSession(c: Config, w: World, user: string, current: Option<string>, scope: Scope, now: int, acts: seq<Act>, root: string)
    requires Sound(c, w) && w.clock <= now && root in w.s.db.tokens
    requires AllowedRun(c, After(w, user, current, scope, now), acts)
    ensures var end := DoAll(c, After(w, user, current, scope, now), acts).s.db;
            root in end.tokens && SameOwner(end.tokens[root], w.s.db.tokens[root])
  {
    var out := After(w, user, current, scope, now);
    SignOutSound(c, w, user, current, scope, now);
    SignOutExtends(w.s.db, user, current, scope, now);
    var ms := AtomicRunInterleaves(c, out, acts);
    RunExtends(c, out.s, ms);
    hide Lineage, Run, LegalRun, DoAll, AllowedRun, SessionsRevoked;
  }

  // ---------------------------------------------------------------- sign-ins under way

  predicate NoneActiveIn(db: Db, id: string) {
    forall h | h in db.tokens :: db.tokens[h].session == id ==> !db.tokens[h].Active()
  }

  /** No sign-in has stored this session and not yet its token. */
  predicate NoneSigningIn(calls: map<nat, Call>, id: string) {
    forall i | i in calls :: calls[i].NewToken? ==> calls[i].session != id
  }

  predicate Out(w: World, id: string) {
    id in w.s.db.sessions && NoneActiveIn(w.s.db, id) && NoneSigningIn(w.s.calls, id)
  }

  lemma OutKeptByRotation(c: Config, db: Db, id: string, presented: string, at: int, later: int, child: string, access: string)
    requires id in db.sessions && NoneActiveIn(db, id) && UnseenToken(c, db, child)
    ensures var after := Rotated(c, db, presented, at, later, child, access).0;
            id in after.sessions && NoneActiveIn(after, id)
  {
    hide FamilySessions;
  }

  lemma OutKeptByStatement(c: Config, w: World, m: Move, id: string)
    requires Out(w, id) && RotationsWhole(w) && Allowed(c, w, Statement(m))
    ensures Out(Do(c, w, Statement(m)), id)
  {
    if m.Advance? { assert Untransacted(w.s.calls[m.id], w.clock); }
    hide RotationsWhole, LogoutTargets;
  }

  lemma OutKept(c: Config, w: World, a: Act, id: string)
    requires Out(w, id) && RotationsWhole(w) && Allowed(c, w, a)
    ensures Out(Do(c, w, a), id)
  {
    match a
    case Rotate(_, presented, at, later, child, access) =>
      OutKeptByRotation(c, w.s.db, id, presented, at, later, child, access);
      hide Rotated, RotationsWhole, NoneActiveIn;
    case Statement(m) =>
      OutKeptByStatement(c, w, m, id);
      hide Step, RotationsWhole, Out;
  }

  lemma {:induction false} OutForever(c: Config, w: World, acts: seq<Act>, id: string)
    requires Out(w, id) && RotationsWhole(w) && AllowedRun(c, w, acts)
    ensures NoneActiveIn(DoAll(c, w, acts).s.db, id)
    decreases |acts|
  {
    if acts != [] {
      hide Do, Out, RotationsWhole;
      OutKept(c, w, acts[0], id);
      RotationsStayWhole(c, w, acts[0]);
      OutForever(c, Do(c, w, acts[0]), acts[1..], id);
    }
  }

  /** A sign-in under way still stores an active token for its session, whatever was signed out since. */
  lemma SignInRevives(c: Config, w: World, i: nat, env: Env)
    requires i in w.s.calls && w.s.calls[i].NewToken? && w.clock <= env.now
    requires UnseenToken(c, w.s.db, env.child) && UnseenFamily(w.s.db, env.family)
    ensures AllowedRun(c, w, [Statement(Advance(i, env))])
    ensures !NoneActiveIn(DoAll(c, w, [Statement(Advance(i, env))]).s.db, w.s.calls[i].session)
  {
    var acts := [Statement(Advance(i, env))];
    assert acts[1..] == [];
    var after := Do(c, w, acts[0]);
    assert DoAll(c, w, acts) == after;
    var h := c.Hash(env.child);
    assert h in after.s.db.tokens && after.s.db.tokens[h].session == w.s.calls[i].session && after.s.db.tokens[h].Active();
  }

  lemma SignedOffSession(w: World, user: string, current: Option<string>, scope: Scope, now: int, id: string)
    requires id in LogoutTargets(w.s.db, user, current, scope)
    ensures var out := After(w, user, current, scope, now);
            id in out.s.db.sessions && NoneActiveIn(out.s.db, id) && out.s.calls == w.s.calls && out.clock == now
  {}

  /** A session that was signed out never has an active token again exactly when no sign-in was between its two statements for it. */
  lemma SignedOutStaysOutIff(c: Config, w: World, user: string, current: Option<string>, scope: Scope, now: int, id: string,
                             child: string, family: string)
    requires Sound(c, w) && w.clock <= now && id in LogoutTargets(w.s.db, user, current, scope)
    requires var out := After(w, user, current, scope, now);
             UnseenToken(c, out.s.db, child) && UnseenFamily(out.s.db, family)
    ensures var out := After(w, user, current, scope, now);
            NoneSigningIn(w.s.calls, id)
            <==> (forall acts | AllowedRun(c, out, acts) :: NoneActiveIn(DoAll(c, out, acts).s.db, id))
  {
    var out := After(w, user, current, scope, now);
    SignedOffSession(w, user, current, scope, now, id);
    SignOutSound(c, w, user, current, scope, now);
    hide AllowedRun, DoAll, After, Lineage, RotationsWhole, NoneActiveIn;
    if NoneSigningIn(w.s.calls, id) {
      forall acts | AllowedRun(c, out, acts) ensures NoneActiveIn(DoAll(c, out, acts).s.db, id) {
        OutForever(c, out, acts, id);
      }
    } else {
      var i :| i in w.s.calls && w.s.calls[i].NewToken? && w.s.calls[i].session == id;
      SignInRevives(c, out, i, Env(now, child, "", "", family, ""));
    }
  }

  // ---------------------------------------------------------------- used tokens

  /** Every used token has its child cached. */
  predicate UsedCached(db: Db) {
    forall h | h in db.tokens && db.tokens[h].used :: h in db.replay
  }

  lemma UsedCachedKept(c: Config, w: World, a: Act)
    requires UsedCached(w.s.db) && RotationsWhole(w) && Allowed(c, w, a)
    ensures UsedCached(Do(c, w, a).s.db)
  {
    if a.Statement? && a.m.Advance? { assert Untransacted(w.s.calls[a.m.id], w.clock); }
    hide RotationsWhole, LogoutTargets, FamilySessions;
  }

  lemma {:induction false} UsedCachedForever(c: Config, w: World, acts: seq<Act>)
    requires UsedCached(w.s.db) && RotationsWhole(w) && AllowedRun(c, w, acts)
    ensures UsedCached(DoAll(c, w, acts).s.db)
    decreases |acts|
  {
    if acts != [] {
      hide Do, UsedCached, RotationsWhole;
      UsedCachedKept(c, w, acts[0]);
      RotationsStayWhole(c, w, acts[0]);
      UsedCachedForever(c, Do(c, w, acts[0]), acts[1..]);
    }
  }

  /** In every run with atomic rotations a used token has exactly one child: the one cached for it. */
  lemma UsedHasOneChild(c: Config, acts: seq<Act>, start: int, hash: string)
    requires AllowedRun(c, World(EMPTY, start), acts)
    requires var db := DoAll(c, World(EMPTY, start), acts).s.db; hash in db.tokens && db.tokens[hash].used
    ensures var db := DoAll(c, World(EMPTY, start), acts).s.db;
            hash in db.replay && Children(db, hash) == {c.Hash(db.replay[hash].child)}
  {
    UsedCachedForever(c, World(EMPTY, start), acts);
    var ms := AtomicRunInterleaves(c, World(EMPTY, start), acts);
    EveryCachedChild(c, ms, hash);
    hide AllowedRun, DoAll, LegalRun, Run;
  }
}
