/**
 * Rotation on the serializable transaction model, where each rotation is one atomic step and the
 * calls that take no transaction still go statement by statement: exact replay inside the grace
 * window, death of the family after it, and the sense in which an atomic call is one of the
 * interleavings of Sessions.
 */
module SerialSessions {
  import opened Text
  import opened Sessions

  // ---------------------------------------------------------------- calls as functions of the rows

  function AllEnded(sessions: map<string, Session>, ids: set<string>, now: int): map<string, Session> {
    map id | id in sessions :: if id in ids then sessions[id].(notAfter := Some(now)) else sessions[id]
  }

  /** revokeFamily */
  function FamilyRevoked(db: Db, family: string, now: int): Db {
    RevokeFamilyTokens(db, family).(sessions := AllEnded(db.sessions, FamilySessions(db, family), now))
  }

  /** The sessions ended and their tokens revoked. */
  function Revoked(db: Db, ids: set<string>, now: int): Db {
    Db(map h | h in db.tokens :: if db.tokens[h].session in ids then db.tokens[h].(revoked := true) else db.tokens[h],
       AllEnded(db.sessions, ids, now), db.replay)
  }

  /** revokeSessions */
  function SessionsRevoked(db: Db, user: string, current: Option<string>, scope: Scope, now: int): Db {
    Revoked(db, LogoutTargets(db, user, current, scope), now)
  }

  /** The targets that the scope does not skip. */
  function Within(ids: set<string>, current: Option<string>, scope: Scope): set<string> {
    set id | id in ids && InScope(scope, id, current)
  }

  lemma TargetsWithin(db: Db, user: string, current: Option<string>, scope: Scope)
    ensures Within(LogoutTargets(db, user, current, Global), current, scope) == LogoutTargets(db, user, current, scope)
  {}

  lemma WithinOneMore(targets: set<string>, todo: set<string>, id: string, current: Option<string>, scope: Scope)
    requires id in todo && todo <= targets
    ensures InScope(scope, id, current) ==>
              Within(targets - (todo - {id}), current, scope) == Within(targets - todo, current, scope) + {id}
    ensures !InScope(scope, id, current) ==>
              Within(targets - (todo - {id}), current, scope) == Within(targets - todo, current, scope)
  {}

  lemma RevokedNone(db: Db, targets: set<string>, current: Option<string>, scope: Scope, now: int)
    ensures Revoked(db, Within(targets - targets, current, scope), now) == db
  {
    assert Revoked(db, {}, now).tokens == db.tokens && Revoked(db, {}, now).sessions == db.sessions;
    assert Within(targets - targets, current, scope) == {};
  }

  lemma RevokedOneMore(db: Db, ids: set<string>, id: string, now: int)
    ensures var ended := EndSession(Revoked(db, ids, now), id, now);
            Db(RevokeSessionTokens(ended, id).tokens, ended.sessions, ended.replay) == Revoked(db, ids + {id}, now)
    ensures EndSession(Revoked(db, ids, now), id, now).replay == Revoked(db, ids, now).replay
  {
    var before, after := Revoked(db, ids, now), Revoked(db, ids + {id}, now);
    assert EndSession(before, id, now).sessions == after.sessions;
    assert RevokeSessionTokens(before, id).tokens == after.tokens;
  }

  /** A cached child that has not expired. */
  predicate Replayable(db: Db, hash: string, now: int) {
    hash in db.replay && db.replay[hash].expiresAt > now
  }

  /** The effect of a rotation that wins. */
  function Renewed(c: Config, db: Db, hash: string, at: int, child: string, access: string): Db
    requires hash in db.tokens
  {
    var row := db.tokens[hash];
    var swapped := InsertToken(MarkUsed(db, hash), c.Hash(child), Child(row, hash));
    Refreshed(swapped, row.session, at).(replay := db.replay[hash := Cached(child, access, at + c.graceMs)])
  }

  /** rotateRefresh: `at` is the clock after the row is read, `later` the clock when a family is revoked. */
  function Rotated(c: Config, db: Db, presented: string, at: int, later: int, child: string, access: string): (Db, Outcome) {
    var hash := c.Hash(presented);
    if hash !in db.tokens then (db, NotFound)
    else
      var row := db.tokens[hash];
      if row.Active() then (Renewed(c, db, hash, at, child, access), Issued(access, child, row.session))
      else if Replayable(db, hash, at) then
        (db, Issued(db.replay[hash].access, db.replay[hash].child, row.session))
      else (FamilyRevoked(db, row.family, later), Reused)
  }

  /** issueSession */
  function SignedIn(c: Config, db: Db, user: string, id: string, family: string, child: string, now: int): Db {
    InsertToken(db.(sessions := db.sessions[id := Session(user, now, None)]),
                c.Hash(child), Token(id, user, None, family, false, false))
  }

  /** sessionActive */
  predicate SessionActive(db: Db, id: string, now: int) {
    id in db.sessions && (db.sessions[id].notAfter.None? || db.sessions[id].notAfter.value > now)
  }

  // ---------------------------------------------------------------- the database object

  /** Where an injected fault strikes a rotation. */
  datatype Fault = Nowhere | AfterSwap | AfterInsert | AfterCommit

  /** The rows, changed in place. */
  class Database {
    const config: Config
    var tokens: map<string, Token>
    var sessions: map<string, Session>
    var replay: map<string, Cached>

    constructor (config: Config)
      ensures this.config == config && Rows() == EMPTY.db
    {
      this.config := config;
      tokens, sessions, replay := map[], map[], map[];
    }

    function Rows(): Db
      reads this
    {
      Db(tokens, sessions, replay)
    }

    /** Ends the sessions one at a time. */
    method EndAll(ids: set<string>, now: int)
      modifies `sessions
      ensures sessions == AllEnded(old(sessions), ids, now)
    {
      var todo := ids;
      while todo != {}
        invariant todo <= ids
        invariant sessions == AllEnded(old(sessions), ids - todo, now)
        decreases |todo|
      {
        var id :| id in todo;
        if id in sessions {
          sessions := sessions[id := sessions[id].(notAfter := Some(now))];
        }
        todo := todo - {id};
      }
      assert ids - todo == ids;
    }

    method RevokeFamily(family: string, now: int)
      modifies this
      ensures Rows() == FamilyRevoked(old(Rows()), family, now)
    {
      tokens := RevokeFamilyTokens(Rows(), family).tokens;
      var ids := FamilySessions(Rows(), family);
      assert ids == old(FamilySessions(Rows(), family)) by {
        RevokingKeepsSessions(old(Rows()), family);
      }
      EndAll(ids, now);
    }

    method RevokeSessions(user: string, current: Option<string>, scope: Scope, now: int)
      modifies this
      ensures Rows() == SessionsRevoked(old(Rows()), user, current, scope, now)
    {
      hide LogoutTargets, Within, Revoked, EndSession, RevokeSessionTokens, InScope;
      var targets := LogoutTargets(Rows(), user, current, Global);
      var todo := targets;
      ghost var before := Rows();
      RevokedNone(before, targets, current, scope, now);
      while todo != {}
        invariant todo <= targets
        invariant Rows() == Revoked(before, Within(targets - todo, current, scope), now)
        decreases |todo|
      {
        var id :| id in todo;
        WithinOneMore(targets, todo, id, current, scope);
        if InScope(scope, id, current) {
          RevokedOneMore(before, Within(targets - todo, current, scope), id, now);
          var ended := EndSession(Rows(), id, now);
          sessions, tokens := ended.sessions, RevokeSessionTokens(ended, id).tokens;
        }
        todo := todo - {id};
      }
      assert targets - todo == targets;
      TargetsWithin(before, user, current, scope);
    }

    method IssueSession(user: string, id: string, family: string, child: string, now: int)
      requires id !in sessions
      modifies this
      ensures Rows() == SignedIn(config, old(Rows()), user, id, family, child, now)
      ensures sessions == old(sessions)[id := Session(user, now, None)] && replay == old(replay)
      ensures tokens == old(tokens)[config.Hash(child) := Token(id, user, None, family, false, false)]
    {
      sessions := sessions[id := Session(user, now, None)];
      tokens := tokens[config.Hash(child) := Token(id, user, None, family, false, false)];
    }

    /**
     * rotateRefresh inside one transaction. A fault before the commit rolls everything back; one
     * after it loses only the answer. `done` says whether an answer was given.
     */
    method RotateRefresh(presented: string, at: int, later: int, child: string, access: string, fault: Fault)
      returns (done: bool, outcome: Outcome)
      modifies this
      ensures var (db, answer) := Rotated(config, old(Rows()), presented, at, later, child, access);
              var renews := config.Hash(presented) in old(tokens) && old(tokens)[config.Hash(presented)].Active();
              if renews && (fault.AfterSwap? || fault.AfterInsert?) then !done && Rows() == old(Rows())
              else Rows() == db && done == !fault.AfterCommit? && (done ==> outcome == answer)
      ensures var hash := config.Hash(presented);
              var renews := hash in old(tokens) && old(tokens)[hash].Active();
              renews && !fault.AfterSwap? && !fault.AfterInsert? ==>
                var row := old(tokens)[hash];
                && tokens == old(tokens)[hash := row.(used := true)]
                                        [config.Hash(child) := Token(row.session, row.user, Some(hash), row.family, false, false)]
                && replay == old(replay)[hash := Cached(child, access, at + config.graceMs)]
                && sessions == (if row.session in old(sessions)
                                then old(sessions)[row.session := old(sessions)[row.session].(refreshedAt := at)]
                                else old(sessions))
                && (done ==> outcome == Issued(access, child, row.session))
    {
      var before := Rows();
      var hash := config.Hash(presented);
      outcome := NotFound;
      if hash in tokens {
        var row := tokens[hash];
        if row.revoked || row.used {
          if hash in replay && replay[hash].expiresAt > at {
            outcome := Issued(replay[hash].access, replay[hash].child, row.session);
          } else {
            RevokeFamily(row.family, later);
            outcome := Reused;
          }
        } else {
          tokens := tokens[hash := row.(used := true)];
          if fault.AfterSwap? {
            tokens, sessions, replay := before.tokens, before.sessions, before.replay;
            return false, NotFound;
          }
          tokens := tokens[config.Hash(child) := Child(row, hash)];
          if fault.AfterInsert? {
            tokens, sessions, replay := before.tokens, before.sessions, before.replay;
            return false, NotFound;
          }
          if row.session in sessions {
            sessions := sessions[row.session := sessions[row.session].(refreshedAt := at)];
          }
          replay := replay[hash := Cached(child, access, at + config.graceMs)];
          outcome := Issued(access, child, row.session);
        }
      }
      done := !fault.AfterCommit?;
    }
  }

  lemma RevokingKeepsSessions(db: Db, family: string)
    ensures FamilySessions(RevokeFamilyTokens(db, family), family) == FamilySessions(db, family)
  {
    var after := RevokeFamilyTokens(db, family);
    forall id | id in FamilySessions(db, family) ensures id in FamilySessions(after, family) {
      var h :| h in db.tokens && db.tokens[h].family == family && db.tokens[h].session == id;
      assert after.tokens[h].family == family && after.tokens[h].session == id;
    }
  }

  // ---------------------------------------------------------------- runs with a clock

  /** The rows and the calls under way, at a time. */
  datatype World = World(s: State, clock: int)

  /** A whole rotation, or one statement of a sign-out or sign-in. */
  datatype Act =
    | Rotate(id: nat, presented: string, at: int, later: int, child: string, access: string)
    | Statement(m: Move)

  function Do(c: Config, w: World, a: Act): World
    requires Allowed(c, w, a)
  {
    match a
    case Rotate(id, presented, at, later, child, access) =>
      var (db, outcome) := Rotated(c, w.s.db, presented, at, later, child, access);
      World(State(db, w.s.calls[id := Ended(outcome)]), later)
    case Statement(m) => World(Apply(c, w.s, m), if m.Advance? then m.env.now else w.clock)
  }

  /** Only sign-outs and sign-ins begin; the clock does not go back. */
  predicate Allowed(c: Config, w: World, a: Act) {
    match a
    case Rotate(id, _, at, later, child, _) => id !in w.s.calls && w.clock <= at <= later && UnseenToken(c, w.s.db, child)
    case Statement(Begin(id, call)) => id !in w.s.calls && (call.ListUser? || call.NewSession?)
    case Statement(Advance(id, env)) => Legal(c, w.s, Advance(id, env)) && w.clock <= env.now
  }

  predicate AllowedRun(c: Config, w: World, acts: seq<Act>)
    decreases |acts|
  {
    acts == [] || (Allowed(c, w, acts[0]) && AllowedRun(c, Do(c, w, acts[0]), acts[1..]))
  }

  function DoAll(c: Config, w: World, acts: seq<Act>): World
    requires AllowedRun(c, w, acts)
    decreases |acts|
  {
    if acts == [] then w else DoAll(c, Do(c, w, acts[0]), acts[1..])
  }

  /** Where a call without a transaction can stand; it has read the clock before. */
  predicate Untransacted(call: Call, clock: int) {
    match call
    case ListUser(_, _, _) => true
    case LogOut(_, at) => at <= clock
    case RevokeOne(_, _, at) => at <= clock
    case NewSession(_) => true
    case NewToken(_, _) => true
    case Ended(_) => true
    case _ => false
  }

  /** Every call under way is a sign-out or sign-in, or has ended. */
  predicate RotationsWhole(w: World) {
    forall id | id in w.s.calls :: Untransacted(w.s.calls[id], w.clock)
  }

  lemma RotationsStayWhole(c: Config, w: World, a: Act)
    requires RotationsWhole(w) && Allowed(c, w, a)
    ensures RotationsWhole(Do(c, w, a)) && w.clock <= Do(c, w, a).clock
  {
    var next := Do(c, w, a);
    forall id | id in next.s.calls ensures Untransacted(next.s.calls[id], next.clock) {
      if id in w.s.calls { assert Untransacted(w.s.calls[id], w.clock); }
    }
  }

  // ---------------------------------------------------------------- replay

  /** A used token and the child cached for it. */
  predicate Spent(db: Db, hash: string, session: string, cached: Cached) {
    hash in db.tokens && db.tokens[hash].used && db.tokens[hash].session == session
    && hash in db.replay && db.replay[hash] == cached
  }

  lemma SpentKept(c: Config, w: World, a: Act, hash: string, session: string, cached: Cached)
    requires Spent(w.s.db, hash, session, cached) && RotationsWhole(w) && Allowed(c, w, a)
    ensures Spent(Do(c, w, a).s.db, hash, session, cached)
  {
    if a.Statement? && a.m.Advance? { assert Untransacted(w.s.calls[a.m.id], w.clock); }
  }

  lemma {:induction false} SpentForever(c: Config, w: World, acts: seq<Act>, hash: string, session: string, cached: Cached)
    requires Spent(w.s.db, hash, session, cached) && RotationsWhole(w) && AllowedRun(c, w, acts)
    ensures Spent(DoAll(c, w, acts).s.db, hash, session, cached)
    decreases |acts|
  {
    hide Spent, Do, RotationsWhole;
    if acts != [] {
      SpentKept(c, w, acts[0], hash, session, cached);
      RotationsStayWhole(c, w, acts[0]);
      SpentForever(c, Do(c, w, acts[0]), acts[1..], hash, session, cached);
    }
  }

  /**
   * Once a token has been rotated, then whatever rotations and statements of other calls run in
   * between, presenting it again inside its grace window answers with the child and access token of
   * that first rotation and changes no row; from the end of the window on it is refused.
   */
  lemma ReplayIsExact(c: Config, w: World, first: Act, acts: seq<Act>, again: Act)
    requires first.Rotate? && again.Rotate? && again.presented == first.presented
    requires RotationsWhole(w) && AllowedRun(c, w, [first] + acts)
    requires c.Hash(first.presented) in w.s.db.tokens && w.s.db.tokens[c.Hash(first.presented)].Active()
    ensures var end := DoAll(c, w, [first] + acts).s.db;
            var (after, outcome) := Rotated(c, end, again.presented, again.at, again.later, again.child, again.access);
            if again.at < first.at + c.graceMs
            then after == end && outcome == Issued(first.access, first.child, w.s.db.tokens[c.Hash(first.presented)].session)
            else outcome == Reused
  {
    var hash := c.Hash(first.presented);
    var cached := Cached(first.child, first.access, first.at + c.graceMs);
    assert ([first] + acts)[1..] == acts;
    RotationsStayWhole(c, w, first);
    SpentForever(c, Do(c, w, first), acts, hash, w.s.db.tokens[hash].session, cached);
  }

  // ---------------------------------------------------------------- dead families

  function FamilyTokens(db: Db, family: string): set<string> {
    set h | h in db.tokens && db.tokens[h].family == family
  }

  /** Every token of the family is revoked and every session of it has ended. */
  predicate Dead(db: Db, family: string, clock: int) {
    forall h | h in db.tokens && db.tokens[h].family == family ::
      db.tokens[h].revoked && (db.tokens[h].session in db.sessions ==> Closed(db.sessions[db.tokens[h].session], clock))
  }

  predicate Closed(s: Session, clock: int) {
    s.notAfter.Some? && s.notAfter.value <= clock
  }

  /** A used or revoked token presented after its window is refused, and its family dies. */
  lemma LateReuseKills(c: Config, db: Db, presented: string, at: int, later: int, child: string, access: string)
    requires c.Hash(presented) in db.tokens && !db.tokens[c.Hash(presented)].Active()
    requires !Replayable(db, c.Hash(presented), at)
    ensures var family := db.tokens[c.Hash(presented)].family;
            var (after, outcome) := Rotated(c, db, presented, at, later, child, access);
            && outcome == Reused
            && Dead(after, family, later)
            && FamilyTokens(after, family) == FamilyTokens(db, family)
  {
    var family := db.tokens[c.Hash(presented)].family;
    forall h | h in db.tokens && db.tokens[h].family == family ensures db.tokens[h].session in FamilySessions(db, family) {}
  }

  /** Revoking a family leaves the tokens of others, and the sessions it has no token of, as they are. */
  lemma RevocationIsLocal(db: Db, family: string, now: int)
    ensures var after := FamilyRevoked(db, family, now);
            && after.tokens.Keys == db.tokens.Keys && after.sessions.Keys == db.sessions.Keys && after.replay == db.replay
            && (forall h | h in db.tokens ::
                  after.tokens[h] == if db.tokens[h].family == family then db.tokens[h].(revoked := true) else db.tokens[h])
            && (forall id | id in db.sessions :: after.sessions[id] ==
                  if exists h :: h in db.tokens && db.tokens[h].family == family && db.tokens[h].session == id
                  then db.sessions[id].(notAfter := Some(now)) else db.sessions[id])
  {
    forall id | id in db.sessions
      ensures id in FamilySessions(db, family) <==> exists h :: h in db.tokens && db.tokens[h].family == family && db.tokens[h].session == id
    {}
  }

  lemma DeadLater(db: Db, family: string, clock: int, later: int)
    requires Dead(db, family, clock) && clock <= later
    ensures Dead(db, family, later)
  {}

  lemma DeadKeptByRenewal(c: Config, db: Db, clock: int, hash: string, at: int, child: string, access: string, family: string)
    requires Dead(db, family, clock) && hash in db.tokens && db.tokens[hash].Active()
    requires c.Hash(child) !in db.tokens
    ensures Dead(Renewed(c, db, hash, at, child, access), family, clock)
    ensures FamilyTokens(Renewed(c, db, hash, at, child, access), family) == FamilyTokens(db, family)
  {}

  /** Revoking tokens and ending sessions at or after the clock. */
  lemma DeadKeptByRevocation(db: Db, db': Db, clock: int, later: int, family: string)
    requires Dead(db, family, clock) && clock <= later && OnlyRevokes(db.tokens, db'.tokens)
    requires db'.sessions.Keys == db.sessions.Keys
    requires forall id | id in db.sessions :: db'.sessions[id] == db.sessions[id] || Closed(db'.sessions[id], later)
    ensures Dead(db', family, later)
    ensures FamilyTokens(db', family) == FamilyTokens(db, family)
  {}

  /** A new session and a new token belong to nothing that is there. */
  lemma DeadKeptByNewSession(db: Db, clock: int, family: string, id: string, session: Session)
    requires Dead(db, family, clock) && UnseenSession(db, id)
    ensures Dead(db.(sessions := db.sessions[id := session]), family, clock)
    ensures FamilyTokens(db.(sessions := db.sessions[id := session]), family) == FamilyTokens(db, family)
  {}

  lemma DeadKeptByNewToken(db: Db, clock: int, family: string, hash: string, t: Token)
    requires Dead(db, family, clock) && FamilyTokens(db, family) != {} && hash !in db.tokens && UnseenFamily(db, t.family)
    ensures Dead(InsertToken(db, hash, t), family, clock)
    ensures FamilyTokens(InsertToken(db, hash, t), family) == FamilyTokens(db, family)
  {
    var h :| h in FamilyTokens(db, family);
    assert db.tokens[h].family != t.family;
  }

  lemma DeadKeptByRotation(c: Config, db: Db, clock: int, a: Act, family: string)
    requires Dead(db, family, clock) && a.Rotate? && clock <= a.at <= a.later && UnseenToken(c, db, a.child)
    ensures var after := Rotated(c, db, a.presented, a.at, a.later, a.child, a.access).0;
            Dead(after, family, a.later) && FamilyTokens(after, family) == FamilyTokens(db, family)
  {
    var hash := c.Hash(a.presented);
    if hash in db.tokens && db.tokens[hash].Active() {
      DeadKeptByRenewal(c, db, clock, hash, a.at, a.child, a.access, family);
      DeadLater(Renewed(c, db, hash, a.at, a.child, a.access), family, clock, a.later);
    } else {
      DeadKeptByRevocation(db, Rotated(c, db, a.presented, a.at, a.later, a.child, a.access).0, clock, a.later, family);
    }
  }

  lemma DeadKeptByStatement(c: Config, w: World, id: nat, env: Env, family: string)
    requires Dead(w.s.db, family, w.clock) && FamilyTokens(w.s.db, family) != {} && RotationsWhole(w)
    requires Allowed(c, w, Statement(Advance(id, env)))
    ensures var after := Step(c, w.s.db, w.s.calls[id], env).0;
            Dead(after, family, env.now) && FamilyTokens(after, family) == FamilyTokens(w.s.db, family)
  {
    var db, call, after := w.s.db, w.s.calls[id], Step(c, w.s.db, w.s.calls[id], env).0;
    assert Untransacted(call, w.clock);
    if call.NewSession? {
      DeadKeptByNewSession(db, w.clock, family, env.id, Session(call.user, env.now, None));
      DeadLater(after, family, w.clock, env.now);
    } else if call.NewToken? {
      DeadKeptByNewToken(db, w.clock, family, c.Hash(env.child), Token(call.session, call.user, None, env.family, false, false));
      DeadLater(after, family, w.clock, env.now);
    } else {
      DeadKeptByRevocation(db, after, w.clock, env.now, family);
    }
  }

  lemma DeadKept(c: Config, w: World, a: Act, family: string)
    requires Dead(w.s.db, family, w.clock) && FamilyTokens(w.s.db, family) != {} && RotationsWhole(w) && Allowed(c, w, a)
    ensures Dead(Do(c, w, a).s.db, family, Do(c, w, a).clock)
    ensures FamilyTokens(Do(c, w, a).s.db, family) == FamilyTokens(w.s.db, family)
  {
    hide Dead, RotationsWhole, Rotated;
    match a
    case Rotate(_, _, _, _, _, _) => DeadKeptByRotation(c, w.s.db, w.clock, a, family);
    case Statement(Begin(_, _)) =>
    case Statement(Advance(id, env)) => DeadKeptByStatement(c, w, id, env, family);
  }

  /** A dead family gains no row, no active token and no active session, in any run. */
  lemma {:induction false} DeadForever(c: Config, w: World, acts: seq<Act>, family: string)
    requires Dead(w.s.db, family, w.clock) && FamilyTokens(w.s.db, family) != {} && RotationsWhole(w) && AllowedRun(c, w, acts)
    ensures Dead(DoAll(c, w, acts).s.db, family, DoAll(c, w, acts).clock)
    ensures FamilyTokens(DoAll(c, w, acts).s.db, family) == FamilyTokens(w.s.db, family)
    decreases |acts|
  {
    hide Do, Dead, RotationsWhole;
    if acts != [] {
      DeadKept(c, w, acts[0], family);
      RotationsStayWhole(c, w, acts[0]);
      DeadForever(c, Do(c, w, acts[0]), acts[1..], family);
    }
  }

  /**
   * From the moment a token is presented late, whatever rotations and statements of other calls
   * follow: its family gains no token, has no active one, and its sessions are not active at the end
   * of the run or after it.
   */
  lemma FamilyStaysDead(c: Config, w: World, late: Act, acts: seq<Act>, now: int)
    requires late.Rotate? && RotationsWhole(w) && AllowedRun(c, w, [late] + acts)
    requires c.Hash(late.presented) in w.s.db.tokens && !w.s.db.tokens[c.Hash(late.presented)].Active()
    requires !Replayable(w.s.db, c.Hash(late.presented), late.at)
    requires now >= DoAll(c, w, [late] + acts).clock
    ensures var family := w.s.db.tokens[c.Hash(late.presented)].family;
            var end := DoAll(c, w, [late] + acts).s.db;
            && FamilyTokens(end, family) == FamilyTokens(w.s.db, family)
            && (forall h | h in FamilyTokens(end, family) ::
                  !end.tokens[h].Active() && !SessionActive(end, end.tokens[h].session, now))
  {
    var family := w.s.db.tokens[c.Hash(late.presented)].family;
    assert ([late] + acts)[1..] == acts;
    assert c.Hash(late.presented) in FamilyTokens(w.s.db, family);
    LateReuseKills(c, w.s.db, late.presented, late.at, late.later, late.child, late.access);
    RotationsStayWhole(c, w, late);
    DeadForever(c, Do(c, w, late), acts, family);
  }

  // ---------------------------------------------------------------- atomic calls are interleavings

  /** Steps of one call with no other call in between. */
  function Alone(c: Config, db: Db, call: Call, envs: seq<Env>): (Db, Call)
    decreases |envs|
  {
    if envs == [] then (db, call)
    else Alone(c, Step(c, db, call, envs[0]).0, Step(c, db, call, envs[0]).1, envs[1..])
  }

  predicate FreshAlone(c: Config, db: Db, call: Call, envs: seq<Env>)
    decreases |envs|
  {
    envs == [] ||
    (Fresh(c, db, call, envs[0])
     && FreshAlone(c, Step(c, db, call, envs[0]).0, Step(c, db, call, envs[0]).1, envs[1..]))
  }

  predicate RunsAlone(c: Config, db: Db, call: Call, envs: seq<Env>, db': Db, call': Call) {
    FreshAlone(c, db, call, envs) && Alone(c, db, call, envs) == (db', call')
  }

  lemma OneStep(c: Config, db: Db, call: Call, env: Env, envs: seq<Env>, db': Db, call': Call)
    requires Fresh(c, db, call, env)
    requires RunsAlone(c, Step(c, db, call, env).0, Step(c, db, call, env).1, envs, db', call')
    ensures RunsAlone(c, db, call, [env] + envs, db', call')
  {
    assert ([env] + envs)[1..] == envs;
  }

  function At(now: int): Env {
    Env(now, "", "", "", "", "")
  }

  lemma {:induction false} EndSessionsAlone(c: Config, db: Db, ids: set<string>, now: int) returns (envs: seq<Env>)
    ensures RunsAlone(c, db, EndSessions(ids, now), envs, db.(sessions := AllEnded(db.sessions, ids, now)), Ended(Reused))
    decreases |ids|
  {
    if ids == {} {
      assert AllEnded(db.sessions, ids, now) == db.sessions;
      envs := [At(now)];
    } else {
      var id :| id in ids;
      var rest := EndSessionsAlone(c, EndSession(db, id, now), ids - {id}, now);
      assert AllEnded(EndSession(db, id, now).sessions, ids - {id}, now) == AllEnded(db.sessions, ids, now);
      envs := [At(now).(pick := id)] + rest;
      OneStep(c, db, EndSessions(ids, now), At(now).(pick := id), rest,
              db.(sessions := AllEnded(db.sessions, ids, now)), Ended(Reused));
    }
  }

  lemma RevokeAlone(c: Config, db: Db, hash: string, row: Token, at: int, later: int) returns (envs: seq<Env>)
    requires !Replayable(db, hash, at)
    ensures RunsAlone(c, db, Replay(hash, row, at), envs, FamilyRevoked(db, row.family, later), Ended(Reused))
  {
    var revoked, end := RevokeFamilyTokens(db, row.family), FamilyRevoked(db, row.family, later);
    RevokingKeepsSessions(db, row.family);
    envs := EndSessionsAlone(c, revoked, FamilySessions(db, row.family), later);
    OneStep(c, revoked, ListSessions(row.family, later), At(later), envs, end, Ended(Reused));
    envs := [At(later)] + envs;
    OneStep(c, db, RevokeTokens(row.family, later), At(later), envs, end, Ended(Reused));
    envs := [At(later)] + envs;
    OneStep(c, db, Replay(hash, row, at), At(later), envs, end, Ended(Reused));
    envs := [At(later)] + envs;
  }

  lemma RenewAlone(c: Config, db: Db, hash: string, at: int, child: string, access: string) returns (envs: seq<Env>)
    requires hash in db.tokens && db.tokens[hash].Active() && UnseenToken(c, db, child)
    ensures RunsAlone(c, db, Swap(hash, db.tokens[hash], at), envs, Renewed(c, db, hash, at, child, access),
                      Ended(Issued(access, child, db.tokens[hash].session)))
  {
    hide RunsAlone;
    var row, e := db.tokens[hash], At(at).(child := child, access := access);
    var end, answer := Renewed(c, db, hash, at, child, access), Ended(Issued(access, child, row.session));
    var swapped := MarkUsed(db, hash);
    var inserted := InsertToken(swapped, c.Hash(child), Child(row, hash));
    NoStep(c, end, answer);
    OneStep(c, Refreshed(inserted, row.session, at), Cache(hash, row, at, child), e, [], end, answer);
    OneStep(c, inserted, Touch(hash, row, at, child), e, [e] + [], end, answer);
    OneStep(c, swapped, Insert(hash, row, at), e, [e] + ([e] + []), end, answer);
    OneStep(c, db, Swap(hash, row, at), e, [e] + ([e] + ([e] + [])), end, answer);
    envs := [e] + ([e] + ([e] + ([e] + [])));
  }

  lemma NoStep(c: Config, db: Db, call: Call)
    ensures RunsAlone(c, db, call, [], db, call)
  {}

  lemma RotateAlone(c: Config, db: Db, presented: string, at: int, later: int, child: string, access: string)
    returns (envs: seq<Env>)
    requires UnseenToken(c, db, child)
    ensures var (db', outcome) := Rotated(c, db, presented, at, later, child, access);
            RunsAlone(c, db, Read(c.Hash(presented)), envs, db', Ended(outcome))
  {
    hide RunsAlone;
    var hash := c.Hash(presented);
    var (db', outcome) := Rotated(c, db, presented, at, later, child, access);
    NoStep(c, db', Ended(outcome));
    if hash !in db.tokens {
      envs := [];
    } else {
      var row := db.tokens[hash];
      if row.Active() {
        envs := RenewAlone(c, db, hash, at, child, access);
      } else if Replayable(db, hash, at) {
        OneStep(c, db, Replay(hash, row, at), At(at), [], db', Ended(outcome));
        envs := [At(at)] + [];
      } else {
        envs := RevokeAlone(c, db, hash, row, at, later);
      }
    }
    OneStep(c, db, Read(hash), At(at), envs, db', Ended(outcome));
    envs := [At(at)] + envs;
  }

  lemma {:induction false} LogOutAlone(c: Config, db: Db, ids: set<string>, now: int) returns (envs: seq<Env>)
    ensures RunsAlone(c, db, LogOut(ids, now), envs, Revoked(db, ids, now), Ended(LoggedOut))
    decreases |ids|
  {
    hide RunsAlone, Revoked, EndSession, RevokeSessionTokens;
    NoStep(c, db, Ended(LoggedOut));
    if ids == {} {
      RevokedEmpty(db, now);
      OneStep(c, db, LogOut(ids, now), At(now), [], db, Ended(LoggedOut));
      envs := [At(now)] + [];
    } else {
      var id :| id in ids;
      var e, end := At(now).(pick := id), Revoked(db, ids, now);
      var ended := EndSession(db, id, now);
      var next := RevokeSessionTokens(ended, id);
      var rest := LogOutAlone(c, next, ids - {id}, now);
      RevokedFirst(db, ids, id, now);
      OneStep(c, ended, RevokeOne(id, ids - {id}, now), e, rest, end, Ended(LoggedOut));
      OneStep(c, db, LogOut(ids, now), e, [e] + rest, end, Ended(LoggedOut));
      envs := [e] + ([e] + rest);
    }
  }

  lemma RevokedEmpty(db: Db, now: int)
    ensures Revoked(db, {}, now) == db
  {
    assert Revoked(db, {}, now).tokens == db.tokens && Revoked(db, {}, now).sessions == db.sessions;
  }

  lemma RevokedFirst(db: Db, ids: set<string>, id: string, now: int)
    requires id in ids
    ensures Revoked(RevokeSessionTokens(EndSession(db, id, now), id), ids - {id}, now) == Revoked(db, ids, now)
  {
    var before, after := Revoked(RevokeSessionTokens(EndSession(db, id, now), id), ids - {id}, now), Revoked(db, ids, now);
    assert before.tokens == after.tokens;
    assert before.sessions == after.sessions;
  }

  /** A sign-in whose statements meet no other call. */
  lemma SignInAlone(c: Config, db: Db, user: string, id: string, family: string, child: string, now: int) returns (envs: seq<Env>)
    requires UnseenToken(c, db, child) && UnseenSession(db, id) && UnseenFamily(db, family)
    ensures RunsAlone(c, db, NewSession(user), envs, SignedIn(c, db, user, id, family, child, now), Ended(Issued("", child, id)))
  {
    var e, end, answer := Env(now, child, "", id, family, ""), SignedIn(c, db, user, id, family, child, now), Ended(Issued("", child, id));
    var half := db.(sessions := db.sessions[id := Session(user, now, None)]);
    NoStep(c, end, answer);
    OneStep(c, half, NewToken(user, id), e, [], end, answer);
    OneStep(c, db, NewSession(user), e, [e] + [], end, answer);
    envs := [e] + ([e] + []);
  }

  /** A sign-out whose statements meet no other call. */
  lemma SignOutAlone(c: Config, db: Db, user: string, current: Option<string>, scope: Scope, now: int) returns (envs: seq<Env>)
    ensures RunsAlone(c, db, ListUser(user, current, scope), envs, SessionsRevoked(db, user, current, scope, now), Ended(LoggedOut))
  {
    hide RunsAlone;
    envs := LogOutAlone(c, db, LogoutTargets(db, user, current, scope), now);
    OneStep(c, db, ListUser(user, current, scope), At(now), envs, SessionsRevoked(db, user, current, scope, now), Ended(LoggedOut));
    envs := [At(now)] + envs;
  }

  function Advances(id: nat, envs: seq<Env>): seq<Move>
    decreases |envs|
  {
    if envs == [] then [] else [Advance(id, envs[0])] + Advances(id, envs[1..])
  }

  /** Steps of one call alone are an interleaving with whatever calls are suspended. */
  lemma {:induction false} AdvancesRun(c: Config, s: State, id: nat, envs: seq<Env>, db': Db, call': Call)
    requires id in s.calls && RunsAlone(c, s.db, s.calls[id], envs, db', call')
    ensures LegalRun(c, s, Advances(id, envs))
    ensures Run(c, s, Advances(id, envs)) == State(db', s.calls[id := call'])
    decreases |envs|
  {
    hide Step, Fresh;
    if envs == [] {
      assert s.calls[id := call'] == s.calls;
    } else {
      var next := Apply(c, s, Advance(id, envs[0]));
      AdvancesRun(c, next, id, envs[1..], db', call');
      assert Advances(id, envs)[1..] == Advances(id, envs[1..]);
      assert next.calls[id := call'] == s.calls[id := call'];
    }
  }

  lemma {:induction false} RunConcat(c: Config, s: State, ms: seq<Move>, ns: seq<Move>)
    requires LegalRun(c, s, ms) && LegalRun(c, Run(c, s, ms), ns)
    ensures LegalRun(c, s, ms + ns) && Run(c, s, ms + ns) == Run(c, Run(c, s, ms), ns)
    decreases |ms|
  {
    hide Apply, Legal;
    if ms == [] {
      assert ms + ns == ns;
    } else {
      RunConcat(c, Apply(c, s, ms[0]), ms[1..], ns);
      TailOfConcat(ms, ns);
    }
  }

  /** Every run with atomic rotations is one of the interleavings of statements. */
  lemma {:induction false} AtomicRunInterleaves(c: Config, w: World, acts: seq<Act>) returns (ms: seq<Move>)
    requires AllowedRun(c, w, acts)
    ensures LegalRun(c, w.s, ms) && Run(c, w.s, ms) == DoAll(c, w, acts).s
    decreases |acts|
  {
    hide Step, Fresh, RunsAlone, Rotated;
    if acts == [] {
      ms := [];
    } else {
      var next := Do(c, w, acts[0]);
      var first := ActInterleaves(c, w, acts[0]);
      var rest := AtomicRunInterleaves(c, next, acts[1..]);
      RunConcat(c, w.s, first, rest);
      ms := first + rest;
    }
  }

  lemma ActInterleaves(c: Config, w: World, a: Act) returns (ms: seq<Move>)
    requires Allowed(c, w, a)
    ensures LegalRun(c, w.s, ms) && Run(c, w.s, ms) == Do(c, w, a).s
  {
    hide Step, Fresh, RunsAlone, Rotated;
    match a
    case Statement(m) =>
      ms := [m];
      OneMove(c, w.s, m);
    case Rotate(id, presented, at, later, child, access) =>
      var call := Read(c.Hash(presented));
      var (db', outcome) := Rotated(c, w.s.db, presented, at, later, child, access);
      var envs := RotateAlone(c, w.s.db, presented, at, later, child, access);
      var begun := w.s.(calls := w.s.calls[id := call]);
      AdvancesRun(c, begun, id, envs, db', Ended(outcome));
      ms := [Begin(id, call)] + Advances(id, envs);
      assert ms[1..] == Advances(id, envs);
      assert begun.calls[id := Ended(outcome)] == w.s.calls[id := Ended(outcome)];
  }

  /** So in every run with atomic rotations a token has at most one child and a family at most one active token. */
  lemma EveryAtomicRun(c: Config, acts: seq<Act>, clock: int, parent: string, family: string)
    requires AllowedRun(c, World(EMPTY, clock), acts)
    ensures var db := DoAll(c, World(EMPTY, clock), acts).s.db;
            && |Children(db, parent)| <= 1
            && forall g, h | g in FamilyTokens(db, family) && h in FamilyTokens(db, family)
                             && db.tokens[g].Active() && db.tokens[h].Active() :: g == h
  {
    var ms := AtomicRunInterleaves(c, World(EMPTY, clock), acts);
    EveryInterleaving(c, ms, parent, family);
    RunKeeps(c, EMPTY, ms);
  }
}
