/**
 * Whose a token is. However the statements of calls interleave, a child has the session and the
 * user of its parent, a family never spreads over two of either, and every token that a call
 * answers with is stored under the session of the answer.
 */
module SessionLineage {
  import opened Text
  import opened Sessions

  // ---------------------------------------------------------------- the invariant

  predicate SameOwner(s: Token, t: Token) {
    s.session == t.session && s.user == t.user && s.family == t.family
  }

  predicate Inherited(ts: map<string, Token>) {
    forall h | h in ts && ts[h].parent.Some? :: ts[h].parent.value in ts && SameOwner(ts[h], ts[ts[h].parent.value])
  }

  predicate OneOwner(ts: map<string, Token>) {
    forall g, h | g in ts && h in ts && ts[g].family == ts[h].family :: SameOwner(ts[g], ts[h])
  }

  /** The session of a token is stored, and is its user's. */
  predicate Owned(db: Db) {
    forall h | h in db.tokens :: OfUser(db, db.tokens[h].session, db.tokens[h].user)
  }

  predicate OfUser(db: Db, id: string, user: string) {
    id in db.sessions && db.sessions[id].user == user
  }

  /** The token is stored and belongs to the session. */
  predicate Stored(c: Config, db: Db, token: string, session: string) {
    c.Hash(token) in db.tokens && db.tokens[c.Hash(token)].session == session
  }

  predicate ChildOf(c: Config, db: Db, token: string, parent: string) {
    c.Hash(token) in db.tokens && db.tokens[c.Hash(token)].parent == Some(parent)
  }

  predicate RowTrue(db: Db, hash: string, row: Token) {
    hash in db.tokens && SameOwner(row, db.tokens[hash])
  }

  /** What a call has read or written is so. */
  predicate CallTrue(c: Config, db: Db, call: Call) {
    match call
    case Swap(hash, row, _) => RowTrue(db, hash, row)
    case Insert(hash, row, _) => RowTrue(db, hash, row)
    case Touch(hash, row, _, child) => RowTrue(db, hash, row) && Stored(c, db, child, row.session) && ChildOf(c, db, child, hash)
    case Cache(hash, row, _, child) => RowTrue(db, hash, row) && Stored(c, db, child, row.session) && ChildOf(c, db, child, hash)
    case Replay(hash, row, _) => RowTrue(db, hash, row)
    case NewToken(user, session) => OfUser(db, session, user)
    case Ended(Issued(_, refresh, session)) => Stored(c, db, refresh, session)
    case _ => true
  }

  predicate CallsTrue(c: Config, db: Db, calls: map<nat, Call>) {
    forall id | id in calls :: CallTrue(c, db, calls[id])
  }

  predicate CachedTrue(c: Config, db: Db, hash: string, cached: Cached) {
    hash in db.tokens && Stored(c, db, cached.child, db.tokens[hash].session) && ChildOf(c, db, cached.child, hash)
  }

  /** A cached child is a child of the token it is cached for. */
  predicate ReplaysTrue(c: Config, db: Db) {
    forall h | h in db.replay :: CachedTrue(c, db, h, db.replay[h])
  }

  predicate Lineage(c: Config, s: State) {
    Inherited(s.db.tokens) && OneOwner(s.db.tokens) && Owned(s.db) && CallsTrue(c, s.db, s.calls) && ReplaysTrue(c, s.db)
  }

  // ---------------------------------------------------------------- what no statement changes

  predicate SameRow(s: Token, t: Token) {
    SameOwner(s, t) && s.parent == t.parent
  }

  /** No row goes, and none changes hands. */
  predicate Extends(db: Db, db': Db) {
    && (forall h | h in db.tokens :: h in db'.tokens && SameRow(db.tokens[h], db'.tokens[h]))
    && (forall id | id in db.sessions :: id in db'.sessions && db'.sessions[id].user == db.sessions[id].user)
  }

  lemma CallStaysTrue(c: Config, db: Db, db': Db, call: Call)
    requires Extends(db, db') && CallTrue(c, db, call)
    ensures CallTrue(c, db', call)
  {}

  lemma ReplaysStayTrue(c: Config, db: Db, db': Db)
    requires Extends(db, db') && ReplaysTrue(c, db) && db'.replay == db.replay
    ensures ReplaysTrue(c, db')
  {
    forall h | h in db'.replay ensures CachedTrue(c, db', h, db'.replay[h]) {
      assert CachedTrue(c, db, h, db.replay[h]);
    }
  }

  /** The same tokens as before, up to their flags. */
  lemma SameTokensKeep(db: Db, db': Db)
    requires Inherited(db.tokens) && OneOwner(db.tokens) && Owned(db) && Extends(db, db') && db'.tokens.Keys == db.tokens.Keys
    ensures Inherited(db'.tokens) && OneOwner(db'.tokens) && Owned(db')
  {}

  lemma CallsStayTrue(c: Config, db: Db, db': Db, calls: map<nat, Call>, id: nat, call': Call)
    requires Extends(db, db') && CallsTrue(c, db, calls) && CallTrue(c, db', call')
    ensures CallsTrue(c, db', calls[id := call'])
  {
    var calls' := calls[id := call'];
    hide CallTrue, Extends;
    forall i | i in calls' ensures CallTrue(c, db', calls'[i]) {
      if i != id { CallStaysTrue(c, db, db', calls[i]); }
    }
  }

  // ---------------------------------------------------------------- statements

  /** A row for a hash not seen before, of a family that is already the owner's or that is new. */
  lemma AddedToken(db: Db, hash: string, t: Token)
    requires Inherited(db.tokens) && OneOwner(db.tokens) && Owned(db)
    requires hash !in db.tokens && OfUser(db, t.session, t.user)
    requires if t.parent.Some? then t.parent.value in db.tokens && SameOwner(t, db.tokens[t.parent.value]) else UnseenFamily(db, t.family)
    ensures var db' := InsertToken(db, hash, t);
            Extends(db, db') && Inherited(db'.tokens) && OneOwner(db'.tokens) && Owned(db')
  {}

  lemma InsertLineage(c: Config, s: State, id: nat, env: Env)
    requires Lineage(c, s) && id in s.calls && s.calls[id].Insert? && UnseenToken(c, s.db, env.child)
    ensures Lineage(c, Apply(c, s, Advance(id, env))) && Extends(s.db, Apply(c, s, Advance(id, env)).db)
  {
    var call := s.calls[id];
    var (db', call') := Step(c, s.db, call, env);
    assert CallTrue(c, s.db, call);
    AddedToken(s.db, c.Hash(env.child), db'.tokens[c.Hash(env.child)]);
    assert CallTrue(c, db', call');
    CallsStayTrue(c, s.db, db', s.calls, id, call');
    ReplaysStayTrue(c, s.db, db');
  }

  lemma NewTokenLineage(c: Config, s: State, id: nat, env: Env)
    requires Lineage(c, s) && id in s.calls && s.calls[id].NewToken?
    requires UnseenToken(c, s.db, env.child) && UnseenFamily(s.db, env.family)
    ensures Lineage(c, Apply(c, s, Advance(id, env))) && Extends(s.db, Apply(c, s, Advance(id, env)).db)
  {
    var call := s.calls[id];
    var (db', call') := Step(c, s.db, call, env);
    assert CallTrue(c, s.db, call);
    AddedToken(s.db, c.Hash(env.child), db'.tokens[c.Hash(env.child)]);
    assert CallTrue(c, db', call');
    CallsStayTrue(c, s.db, db', s.calls, id, call');
    ReplaysStayTrue(c, s.db, db');
  }

  lemma CacheLineage(c: Config, s: State, id: nat, env: Env)
    requires Lineage(c, s) && id in s.calls && s.calls[id].Cache?
    ensures Lineage(c, Apply(c, s, Advance(id, env))) && Extends(s.db, Apply(c, s, Advance(id, env)).db)
  {
    var call := s.calls[id];
    var (db', call') := Step(c, s.db, call, env);
    assert CallTrue(c, s.db, call);
    assert Extends(s.db, db');
    CallsStayTrue(c, s.db, db', s.calls, id, call');
    forall h | h in db'.replay ensures CachedTrue(c, db', h, db'.replay[h]) {
      if h != call.hash { assert CachedTrue(c, s.db, h, s.db.replay[h]); }
    }
  }

  predicate Quiet(call: Call) {
    !call.Insert? && !call.NewToken? && !call.Cache?
  }

  /** What a statement gives when it leaves the rows whose they were. */
  predicate Harmless(c: Config, db: Db, next: (Db, Call)) {
    Extends(db, next.0) && next.0.tokens.Keys == db.tokens.Keys && next.0.replay == db.replay && CallTrue(c, next.0, next.1)
  }

  lemma RotateStep(c: Config, db: Db, call: Call, env: Env)
    requires CallTrue(c, db, call)
    requires call.Read? || call.Swap? || call.Touch?
    ensures Harmless(c, db, StepRotate(c, db, call, env))
  {}

  lemma ReplayStep(c: Config, db: Db, call: Call, env: Env)
    requires CallTrue(c, db, call) && ReplaysTrue(c, db) && call.Replay?
    ensures Harmless(c, db, StepRotate(c, db, call, env))
  {
    if call.hash in db.replay {
      assert CachedTrue(c, db, call.hash, db.replay[call.hash]);
    }
  }

  lemma RevokeStep(c: Config, db: Db, call: Call, env: Env)
    requires CallTrue(c, db, call)
    requires call.RevokeTokens? || call.ListSessions? || call.EndSessions? || call.Ended?
    ensures Harmless(c, db, StepRotate(c, db, call, env))
  {}

  lemma UntransactedStep(c: Config, db: Db, call: Call, env: Env)
    requires CallTrue(c, db, call) && Fresh(c, db, call, env)
    requires call.ListUser? || call.LogOut? || call.RevokeOne? || call.NewSession?
    ensures Harmless(c, db, Step(c, db, call, env))
  {
    hide StepRotate;
  }

  lemma QuietStep(c: Config, db: Db, call: Call, env: Env)
    requires CallTrue(c, db, call) && ReplaysTrue(c, db) && Quiet(call) && Fresh(c, db, call, env)
    ensures Harmless(c, db, Step(c, db, call, env))
  {
    hide Harmless, StepRotate, CallTrue, ReplaysTrue, Fresh;
    if call.Read? || call.Swap? || call.Touch? {
      RotateStep(c, db, call, env);
    } else if call.Replay? {
      ReplayStep(c, db, call, env);
    } else if call.ListUser? || call.LogOut? || call.RevokeOne? || call.NewSession? {
      UntransactedStep(c, db, call, env);
    } else {
      RevokeStep(c, db, call, env);
    }
  }

  lemma QuietLineage(c: Config, s: State, id: nat, env: Env)
    requires Lineage(c, s) && id in s.calls && Quiet(s.calls[id]) && Fresh(c, s.db, s.calls[id], env)
    ensures Lineage(c, Apply(c, s, Advance(id, env))) && Extends(s.db, Apply(c, s, Advance(id, env)).db)
  {
    var (db', call') := Step(c, s.db, s.calls[id], env);
    QuietStep(c, s.db, s.calls[id], env);
    hide Step, CallTrue, Extends, CallsTrue, ReplaysTrue, Inherited, OneOwner, Owned, Fresh;
    SameTokensKeep(s.db, db');
    CallsStayTrue(c, s.db, db', s.calls, id, call');
    ReplaysStayTrue(c, s.db, db');
  }

  lemma ApplyKeepsLineage(c: Config, s: State, m: Move)
    requires Lineage(c, s) && Legal(c, s, m)
    ensures Lineage(c, Apply(c, s, m)) && Extends(s.db, Apply(c, s, m).db)
  {
    match m
    case Begin(id, call) =>
      CallsStayTrue(c, s.db, s.db, s.calls, id, call);
    case Advance(id, env) =>
      hide Lineage, Apply, Step;
      var call := s.calls[id];
      if call.Insert? {
        InsertLineage(c, s, id, env);
      } else if call.NewToken? {
        NewTokenLineage(c, s, id, env);
      } else if call.Cache? {
        CacheLineage(c, s, id, env);
      } else {
        QuietLineage(c, s, id, env);
      }
  }

  lemma {:induction false} RunKeepsLineage(c: Config, s: State, ms: seq<Move>)
    requires Lineage(c, s) && LegalRun(c, s, ms)
    ensures Lineage(c, Run(c, s, ms))
    decreases |ms|
  {
    hide Lineage, Legal, Apply;
    if ms != [] {
      ApplyKeepsLineage(c, s, ms[0]);
      RunKeepsLineage(c, Apply(c, s, ms[0]), ms[1..]);
    }
  }

  /**
   * However the statements of all calls interleave, and wherever calls crash: the tokens of a family
   * have one session and one user, a child has the session, user and family of its parent, and the
   * session of a token is stored and belongs to its user.
   */
  lemma EveryLineage(c: Config, ms: seq<Move>, g: string, h: string)
    requires LegalRun(c, EMPTY, ms)
    requires g in Run(c, EMPTY, ms).db.tokens && h in Run(c, EMPTY, ms).db.tokens
    ensures var db := Run(c, EMPTY, ms).db;
            var s, t := db.tokens[g], db.tokens[h];
            && (s.family == t.family ==> s.session == t.session && s.user == t.user)
            && (t.parent == Some(g) ==> t.session == s.session && t.user == s.user && t.family == s.family)
            && t.session in db.sessions && db.sessions[t.session].user == t.user
  {
    RunKeepsLineage(c, EMPTY, ms);
    var db := Run(c, EMPTY, ms).db;
    assert OfUser(db, db.tokens[h].session, db.tokens[h].user);
    hide Run, LegalRun, CallsTrue, ReplaysTrue;
  }

  /** The token of every answer ever given is stored, under the session of the answer. */
  lemma EveryAnswer(c: Config, ms: seq<Move>, id: nat)
    requires LegalRun(c, EMPTY, ms)
    requires id in Run(c, EMPTY, ms).calls && Run(c, EMPTY, ms).calls[id].Ended? && Run(c, EMPTY, ms).calls[id].outcome.Issued?
    ensures var s := Run(c, EMPTY, ms);
            var answer := s.calls[id].outcome;
            c.Hash(answer.refresh) in s.db.tokens && s.db.tokens[c.Hash(answer.refresh)].session == answer.session
  {
    RunKeepsLineage(c, EMPTY, ms);
    var s := Run(c, EMPTY, ms);
    assert CallTrue(c, s.db, s.calls[id]);
    hide Run, LegalRun, ReplaysTrue, Inherited, OneOwner, Owned;
  }

  /** A child cached for a token is its only child. */
  lemma EveryCachedChild(c: Config, ms: seq<Move>, hash: string)
    requires LegalRun(c, EMPTY, ms) && hash in Run(c, EMPTY, ms).db.replay
    ensures var db := Run(c, EMPTY, ms).db;
            Children(db, hash) == {c.Hash(db.replay[hash].child)}
  {
    RunKeepsLineage(c, EMPTY, ms);
    RunKeeps(c, EMPTY, ms);
    var db := Run(c, EMPTY, ms).db;
    assert CachedTrue(c, db, hash, db.replay[hash]);
    hide Run, LegalRun, CallsTrue, ReplaysTrue, Owned;
  }
}
