/**
 * Refresh-token rotation. The statements of each call are the steps of a state machine. On the
 * autocommit transaction model the steps of different calls interleave freely; a call that
 * crashes is one that takes no further step. What every interleaving keeps is proved here.
 */
module Sessions {
  import opened Text

  // ---------------------------------------------------------------- rows

  datatype Token = Token(
    session: string, user: string, parent: Option<string>, family: string, revoked: bool, used: bool)
  {
    predicate Active() {
      !revoked && !used
    }
  }

  datatype Session = Session(user: string, refreshedAt: int, notAfter: Option<int>)

  datatype Cached = Cached(child: string, access: string, expiresAt: int)

  /** Refresh tokens and cached children by token hash, sessions by id. Times are milliseconds. */
  datatype Db = Db(tokens: map<string, Token>, sessions: map<string, Session>, replay: map<string, Cached>)

  datatype Config = Config(Hash: string -> string, graceMs: int)

  datatype Outcome = Issued(access: string, refresh: string, session: string) | NotFound | Reused | LoggedOut

  datatype Scope = Local | Global | Others

  // ---------------------------------------------------------------- statements

  function MarkUsed(db: Db, hash: string): Db
    requires hash in db.tokens
  {
    db.(tokens := db.tokens[hash := db.tokens[hash].(used := true)])
  }

  function InsertToken(db: Db, hash: string, t: Token): Db {
    db.(tokens := db.tokens[hash := t])
  }

  function RevokeFamilyTokens(db: Db, family: string): Db {
    db.(tokens := map h | h in db.tokens ::
          if db.tokens[h].family == family then db.tokens[h].(revoked := true) else db.tokens[h])
  }

  function RevokeSessionTokens(db: Db, session: string): Db {
    db.(tokens := map h | h in db.tokens ::
          if db.tokens[h].session == session then db.tokens[h].(revoked := true) else db.tokens[h])
  }

  function FamilySessions(db: Db, family: string): set<string> {
    set h | h in db.tokens && db.tokens[h].family == family :: db.tokens[h].session
  }

  function Refreshed(db: Db, id: string, now: int): Db {
    if id in db.sessions then db.(sessions := db.sessions[id := db.sessions[id].(refreshedAt := now)]) else db
  }

  function EndSession(db: Db, id: string, now: int): Db {
    if id in db.sessions then db.(sessions := db.sessions[id := db.sessions[id].(notAfter := Some(now))]) else db
  }

  predicate InScope(scope: Scope, id: string, current: Option<string>) {
    match scope
    case Local => current == Some(id)
    case Global => true
    case Others => current != Some(id)
  }

  function LogoutTargets(db: Db, user: string, current: Option<string>, scope: Scope): set<string> {
    set id | id in db.sessions && db.sessions[id].user == user && InScope(scope, id, current)
  }

  // ---------------------------------------------------------------- calls, one statement a step

  /** Where a call stands: the statement it executes next, with what it has read so far. */
  datatype Call =
    | Read(hash: string)
    | Swap(hash: string, row: Token, at: int)
    | Insert(hash: string, row: Token, at: int)
    | Touch(hash: string, row: Token, at: int, child: string)
    | Cache(hash: string, row: Token, at: int, child: string)
    | Replay(hash: string, row: Token, at: int)
    | RevokeTokens(family: string, at: int)
    | ListSessions(family: string, at: int)
    | EndSessions(ids: set<string>, at: int)
    | ListUser(user: string, current: Option<string>, scope: Scope)
    | LogOut(ids: set<string>, at: int)
    | RevokeOne(id: string, ids: set<string>, at: int)
    | NewSession(user: string)
    | NewToken(user: string, session: string)
    | Ended(outcome: Outcome)

  /** The world at a step: the clock, random values, and which row a loop takes next. */
  datatype Env = Env(now: int, child: string, access: string, id: string, family: string, pick: string)

  function Child(row: Token, parent: string): Token {
    Token(row.session, row.user, Some(parent), row.family, false, false)
  }

  /** The next statement of rotateRefresh and of the revocation it may run into. */
  function StepRotate(c: Config, db: Db, call: Call, env: Env): (Db, Call) {
    match call
    case Read(hash) =>
      if hash !in db.tokens then (db, Ended(NotFound))
      else if db.tokens[hash].Active() then (db, Swap(hash, db.tokens[hash], env.now))
      else (db, Replay(hash, db.tokens[hash], env.now))
    case Swap(hash, row, at) =>
      if hash in db.tokens && db.tokens[hash].Active() then (MarkUsed(db, hash), Insert(hash, row, at))
      else (db, Replay(hash, row, at))
    case Insert(hash, row, at) =>
      (InsertToken(db, c.Hash(env.child), Child(row, hash)), Touch(hash, row, at, env.child))
    case Touch(hash, row, at, child) =>
      (Refreshed(db, row.session, at), Cache(hash, row, at, child))
    case Cache(hash, row, at, child) =>
      (db.(replay := db.replay[hash := Cached(child, env.access, at + c.graceMs)]),
       Ended(Issued(env.access, child, row.session)))
    case Replay(hash, row, at) =>
      if hash in db.replay && db.replay[hash].expiresAt > at
      then (db, Ended(Issued(db.replay[hash].access, db.replay[hash].child, row.session)))
      else (db, RevokeTokens(row.family, env.now))
    case RevokeTokens(family, at) => (RevokeFamilyTokens(db, family), ListSessions(family, at))
    case ListSessions(family, at) => (db, EndSessions(FamilySessions(db, family), at))
    case EndSessions(ids, at) =>
      if ids == {} then (db, Ended(Reused))
      else if env.pick !in ids then (db, call)
      else (EndSession(db, env.pick, at), EndSessions(ids - {env.pick}, at))
    case _ => (db, call)
  }

  function Step(c: Config, db: Db, call: Call, env: Env): (Db, Call) {
    match call
    case ListUser(user, current, scope) => (db, LogOut(LogoutTargets(db, user, current, scope), env.now))
    case LogOut(ids, at) =>
      if ids == {} then (db, Ended(LoggedOut))
      else if env.pick !in ids then (db, call)
      else (EndSession(db, env.pick, at), RevokeOne(env.pick, ids - {env.pick}, at))
    case RevokeOne(id, ids, at) => (RevokeSessionTokens(db, id), LogOut(ids, at))
    case NewSession(user) =>
      (db.(sessions := db.sessions[env.id := Session(user, env.now, None)]), NewToken(user, env.id))
    case NewToken(user, session) =>
      (InsertToken(db, c.Hash(env.child), Token(session, user, None, env.family, false, false)),
       Ended(Issued(env.access, env.child, session)))
    case _ => StepRotate(c, db, call, env)
  }

  // ---------------------------------------------------------------- interleavings

  datatype State = State(db: Db, calls: map<nat, Call>)

  datatype Move = Begin(id: nat, call: Call) | Advance(id: nat, env: Env)

  predicate Initial(call: Call) {
    call.Read? || call.ListUser? || call.NewSession?
  }

  predicate UnseenToken(c: Config, db: Db, child: string) {
    c.Hash(child) !in db.tokens
  }

  predicate UnseenFamily(db: Db, family: string) {
    forall h | h in db.tokens :: db.tokens[h].family != family
  }

  predicate UnseenSession(db: Db, id: string) {
    id !in db.sessions && forall h | h in db.tokens :: db.tokens[h].session != id
  }

  /** Random tokens and identifiers have not been seen before when they are first stored. */
  predicate Fresh(c: Config, db: Db, call: Call, env: Env) {
    match call
    case Insert(_, _, _) => UnseenToken(c, db, env.child)
    case NewSession(_) => UnseenSession(db, env.id)
    case NewToken(_, _) => UnseenToken(c, db, env.child) && UnseenFamily(db, env.family)
    case _ => true
  }

  predicate Legal(c: Config, s: State, m: Move) {
    match m
    case Begin(id, call) => id !in s.calls && Initial(call)
    case Advance(id, env) => id in s.calls && Fresh(c, s.db, s.calls[id], env)
  }

  function Apply(c: Config, s: State, m: Move): State
    requires Legal(c, s, m)
  {
    match m
    case Begin(id, call) => s.(calls := s.calls[id := call])
    case Advance(id, env) =>
      var (db, call) := Step(c, s.db, s.calls[id], env);
      State(db, s.calls[id := call])
  }

  predicate LegalRun(c: Config, s: State, ms: seq<Move>)
    decreases |ms|
  {
    ms == [] || (Legal(c, s, ms[0]) && LegalRun(c, Apply(c, s, ms[0]), ms[1..]))
  }

  function Run(c: Config, s: State, ms: seq<Move>): State
    requires LegalRun(c, s, ms)
    decreases |ms|
  {
    if ms == [] then s else Run(c, Apply(c, s, ms[0]), ms[1..])
  }

  const EMPTY := State(Db(map[], map[], map[]), map[])

  // ---------------------------------------------------------------- what every interleaving keeps

  function Children(db: Db, parent: string): set<string> {
    set h | h in db.tokens && db.tokens[h].parent == Some(parent)
  }

  /** A right to the family's next token: an active token, or a call that has swapped one. */
  datatype Claim = OfToken(hash: string) | OfCall(id: nat)

  function Claims(s: State, family: string): set<Claim> {
    (set h | h in s.db.tokens && s.db.tokens[h].family == family && s.db.tokens[h].Active() :: OfToken(h))
    + (set id | id in s.calls && s.calls[id].Insert? && s.calls[id].row.family == family :: OfCall(id))
  }

  predicate Parented(ts: map<string, Token>) {
    forall h | h in ts && ts[h].parent.Some? :: ts[h].parent.value in ts && ts[ts[h].parent.value].used
  }

  predicate OnlyChildren(ts: map<string, Token>) {
    forall g, h | g in ts && h in ts && ts[g].parent.Some? && ts[g].parent == ts[h].parent :: g == h
  }

  predicate RowKnown(ts: map<string, Token>, hash: string, row: Token) {
    hash in ts && row.family == ts[hash].family && row.session == ts[hash].session
  }

  predicate CallKnown(ts: map<string, Token>, call: Call) {
    match call
    case Swap(hash, row, _) => RowKnown(ts, hash, row)
    case Insert(hash, row, _) =>
      RowKnown(ts, hash, row) && ts[hash].used && forall h | h in ts :: ts[h].parent != Some(hash)
    case _ => true
  }

  predicate CallsKnown(ts: map<string, Token>, calls: map<nat, Call>) {
    forall id | id in calls :: CallKnown(ts, calls[id])
  }

  predicate OneActive(ts: map<string, Token>) {
    forall g, h | g in ts && h in ts && ts[g].family == ts[h].family && ts[g].Active() && ts[h].Active() :: g == h
  }

  predicate OneWinner(calls: map<nat, Call>) {
    forall i, j | i in calls && j in calls && calls[i].Insert? && calls[j].Insert?
                  && calls[i].row.family == calls[j].row.family :: i == j
  }

  predicate NotBoth(ts: map<string, Token>, calls: map<nat, Call>) {
    forall i, h | i in calls && h in ts && calls[i].Insert? && ts[h].Active() :: calls[i].row.family != ts[h].family
  }

  predicate Inv(s: State) {
    && Parented(s.db.tokens) && OnlyChildren(s.db.tokens)
    && CallsKnown(s.db.tokens, s.calls)
    && OneActive(s.db.tokens) && OneWinner(s.calls) && NotBoth(s.db.tokens, s.calls)
  }

  /** A call that is neither about to swap nor to insert changes no more than revocations do. */
  predicate OnlyRevokes(ts: map<string, Token>, ts': map<string, Token>) {
    && ts'.Keys == ts.Keys
    && forall h | h in ts :: (ts'[h] == ts[h] || ts'[h] == ts[h].(revoked := true))
  }

  lemma RevokedTokensKeep(ts: map<string, Token>, ts': map<string, Token>, calls: map<nat, Call>)
    requires Parented(ts) && OnlyChildren(ts) && OneActive(ts) && NotBoth(ts, calls) && OnlyRevokes(ts, ts')
    ensures Parented(ts') && OnlyChildren(ts') && OneActive(ts') && NotBoth(ts', calls)
  {}

  lemma RevokedCallKnown(ts: map<string, Token>, ts': map<string, Token>, call: Call)
    requires CallKnown(ts, call) && OnlyRevokes(ts, ts')
    ensures CallKnown(ts', call)
  {}

  lemma RevokeKeeps(s: State, id: nat, db': Db, call': Call)
    requires Inv(s) && id in s.calls && !call'.Insert?
    requires OnlyRevokes(s.db.tokens, db'.tokens)
    requires CallKnown(db'.tokens, call')
    ensures Inv(State(db', s.calls[id := call']))
  {
    hide Parented, OnlyChildren, OneActive, CallKnown, OnlyRevokes;
    var calls' := s.calls[id := call'];
    forall i | i in calls' ensures CallKnown(db'.tokens, calls'[i]) {
      if i != id { RevokedCallKnown(s.db.tokens, db'.tokens, s.calls[i]); }
    }
    RevokedTokensKeep(s.db.tokens, db'.tokens, s.calls);
  }

  lemma SwapKeeps(s: State, id: nat)
    requires Inv(s) && id in s.calls && s.calls[id].Swap?
    requires s.calls[id].hash in s.db.tokens && s.db.tokens[s.calls[id].hash].Active()
    ensures Inv(State(MarkUsed(s.db, s.calls[id].hash), s.calls[id := Insert(s.calls[id].hash, s.calls[id].row, s.calls[id].at)]))
  {
    var call := s.calls[id];
    var ts := s.db.tokens;
    var ts', calls' := MarkUsed(s.db, call.hash).tokens, s.calls[id := Insert(call.hash, call.row, call.at)];
    assert CallKnown(ts, call);
    forall i | i in calls' ensures CallKnown(ts', calls'[i]) {
      if i != id { assert CallKnown(ts, s.calls[i]); }
    }
  }

  lemma InsertKeeps(c: Config, s: State, id: nat, child: string)
    requires Inv(s) && id in s.calls && s.calls[id].Insert? && c.Hash(child) !in s.db.tokens
    ensures Inv(State(InsertToken(s.db, c.Hash(child), Child(s.calls[id].row, s.calls[id].hash)),
                      s.calls[id := Touch(s.calls[id].hash, s.calls[id].row, s.calls[id].at, child)]))
  {
    var call := s.calls[id];
    var ts := s.db.tokens;
    var ts' := ts[c.Hash(child) := Child(call.row, call.hash)];
    var calls' := s.calls[id := Touch(call.hash, call.row, call.at, child)];
    assert CallKnown(ts, call);
    forall i | i in calls' ensures CallKnown(ts', calls'[i]) {
      if i != id { assert CallKnown(ts, s.calls[i]); }
    }
  }

  lemma NewTokenKeeps(s: State, id: nat, hash: string, t: Token, call': Call)
    requires Inv(s) && id in s.calls && hash !in s.db.tokens && t.parent.None? && call'.Ended?
    requires forall h | h in s.db.tokens :: s.db.tokens[h].family != t.family
    ensures Inv(State(InsertToken(s.db, hash, t), s.calls[id := call']))
  {
    var ts' := s.db.tokens[hash := t];
    var calls' := s.calls[id := call'];
    forall i | i in calls' ensures CallKnown(ts', calls'[i]) {
      if i != id { assert CallKnown(s.db.tokens, s.calls[i]); }
    }
  }

  lemma ApplyKeeps(c: Config, s: State, m: Move)
    requires Inv(s) && Legal(c, s, m)
    ensures Inv(Apply(c, s, m))
  {
    hide Inv;
    match m
    case Begin(id, call) => BeginKeeps(s, id, call);
    case Advance(id, env) =>
      var call := s.calls[id];
      var (db', call') := Step(c, s.db, call, env);
      if call.Swap? && call'.Insert? {
        SwapKeeps(s, id);
      } else if call.Insert? {
        InsertKeeps(c, s, id, env.child);
      } else if call.NewToken? {
        NewTokenKeeps(s, id, c.Hash(env.child), Token(call.session, call.user, None, env.family, false, false), call');
      } else {
        RevokeKeeps(s, id, db', call');
      }
  }

  lemma BeginKeeps(s: State, id: nat, call: Call)
    requires Inv(s) && id !in s.calls && Initial(call)
    ensures Inv(s.(calls := s.calls[id := call]))
  {
    var calls' := s.calls[id := call];
    forall i | i in calls' ensures CallKnown(s.db.tokens, calls'[i]) {
      if i != id { assert CallKnown(s.db.tokens, s.calls[i]); }
    }
  }

  lemma {:induction false} RunKeeps(c: Config, s: State, ms: seq<Move>)
    requires Inv(s) && LegalRun(c, s, ms)
    ensures Inv(Run(c, s, ms))
    decreases |ms|
  {
    hide Inv, Legal, Apply;
    if ms != [] {
      ApplyKeeps(c, s, ms[0]);
      RunKeeps(c, Apply(c, s, ms[0]), ms[1..]);
    }
  }

  lemma AtMostOneElement<T>(s: set<T>)
    requires forall x, y | x in s && y in s :: x == y
    ensures |s| <= 1
  {
    if s != {} {
      var x :| x in s;
      assert s == {x};
    }
  }

  lemma OneChild(s: State, parent: string)
    requires Inv(s)
    ensures |Children(s.db, parent)| <= 1
  {
    AtMostOneElement(Children(s.db, parent));
  }

  lemma OneClaim(s: State, family: string)
    requires Inv(s)
    ensures |Claims(s, family)| <= 1
  {
    AtMostOneElement(Claims(s, family));
  }

  /**
   * However the statements of rotations, revocations, logouts and sign-ins interleave, and wherever
   * calls crash: a token has at most one child row, and a family at most one claim to its next token.
   */
  lemma EveryInterleaving(c: Config, ms: seq<Move>, parent: string, family: string)
    requires LegalRun(c, EMPTY, ms)
    ensures |Children(Run(c, EMPTY, ms).db, parent)| <= 1
    ensures |Claims(Run(c, EMPTY, ms), family)| <= 1
  {
    RunKeeps(c, EMPTY, ms);
    OneChild(Run(c, EMPTY, ms), parent);
    OneClaim(Run(c, EMPTY, ms), family);
  }

  // ---------------------------------------------------------------- when a family is really dead

  predicate NoneActive(db: Db, family: string) {
    forall h | h in db.tokens :: db.tokens[h].family == family ==> !db.tokens[h].Active()
  }

  /** No active token and no swapped call: nothing from which the family could go on. */
  predicate Unclaimed(s: State, family: string) {
    && NoneActive(s.db, family)
    && (forall id | id in s.calls && s.calls[id].Insert? :: s.calls[id].row.family != family)
  }

  predicate Known(db: Db, family: string) {
    exists h :: h in db.tokens && db.tokens[h].family == family
  }

  lemma UnclaimedByRevocation(s: State, id: nat, db': Db, call': Call, family: string)
    requires Unclaimed(s, family) && Known(s.db, family) && !call'.Insert? && OnlyRevokes(s.db.tokens, db'.tokens)
    ensures Unclaimed(State(db', s.calls[id := call']), family) && Known(db', family)
  {
    var h :| h in s.db.tokens && s.db.tokens[h].family == family;
    assert db'.tokens[h].family == family;
  }

  /** A row or a call of another family is stored. */
  lemma UnclaimedByOthers(s: State, id: nat, hash: string, t: Token, call': Call, family: string)
    requires Unclaimed(s, family) && Known(s.db, family) && t.family != family
    requires hash in s.db.tokens ==> s.db.tokens[hash].family != family
    requires call'.Insert? ==> call'.row.family != family
    ensures Unclaimed(State(InsertToken(s.db, hash, t), s.calls[id := call']), family)
    ensures Known(InsertToken(s.db, hash, t), family)
  {
    var h :| h in s.db.tokens && s.db.tokens[h].family == family;
    assert InsertToken(s.db, hash, t).tokens[h].family == family;
  }

  lemma StaysUnclaimed(c: Config, s: State, m: Move, family: string)
    requires CallsKnown(s.db.tokens, s.calls) && Legal(c, s, m) && Unclaimed(s, family) && Known(s.db, family)
    ensures Unclaimed(Apply(c, s, m), family) && Known(Apply(c, s, m).db, family)
  {
    if m.Advance? {
      var id, env, call := m.id, m.env, s.calls[m.id];
      var (db', call') := Step(c, s.db, call, env);
      assert CallKnown(s.db.tokens, call);
      hide Unclaimed;
      if call.Swap? && call'.Insert? {
        assert s.db.tokens[call.hash].family != family by { SwappedElsewhere(s, call.hash, family); }
        UnclaimedByOthers(s, id, call.hash, s.db.tokens[call.hash].(used := true), call', family);
      } else if call.Insert? {
        InsertsElsewhere(s, id, family);
        UnclaimedByOthers(s, id, c.Hash(env.child), Child(call.row, call.hash), call', family);
      } else if call.NewToken? {
        UnclaimedByOthers(s, id, c.Hash(env.child), Token(call.session, call.user, None, env.family, false, false), call', family);
      } else {
        UnclaimedByRevocation(s, id, db', call', family);
      }
    }
  }

  lemma SwappedElsewhere(s: State, hash: string, family: string)
    requires Unclaimed(s, family) && hash in s.db.tokens && s.db.tokens[hash].Active()
    ensures s.db.tokens[hash].family != family
  {}

  lemma InsertsElsewhere(s: State, id: nat, family: string)
    requires Unclaimed(s, family) && id in s.calls && s.calls[id].Insert?
    ensures s.calls[id].row.family != family
  {}

  lemma CallsAreKnown(s: State)
    requires Inv(s)
    ensures CallsKnown(s.db.tokens, s.calls)
  {}

  lemma {:induction false} UnclaimedForever(c: Config, s: State, ms: seq<Move>, family: string)
    requires Inv(s) && LegalRun(c, s, ms) && Unclaimed(s, family) && Known(s.db, family)
    ensures Unclaimed(Run(c, s, ms), family)
    decreases |ms|
  {
    hide Inv, Legal, Apply, Unclaimed, Known;
    if ms != [] {
      ApplyKeeps(c, s, ms[0]);
      CallsAreKnown(s);
      StaysUnclaimed(c, s, ms[0], family);
      UnclaimedForever(c, Apply(c, s, ms[0]), ms[1..], family);
    }
  }

  /** A call that has swapped still inserts an active child, whatever was revoked since. */
  lemma SwappedCallRevives(c: Config, s: State, id: nat, env: Env)
    requires id in s.calls && s.calls[id].Insert? && UnseenToken(c, s.db, env.child)
    ensures Legal(c, s, Advance(id, env))
    ensures var after, h := Apply(c, s, Advance(id, env)).db, c.Hash(env.child);
            && h in after.tokens && after.tokens[h].Active() && after.tokens[h].family == s.calls[id].row.family
            && !NoneActive(after, s.calls[id].row.family)
  {
    var after, h := Apply(c, s, Advance(id, env)).db, c.Hash(env.child);
    assert h in after.tokens && after.tokens[h].family == s.calls[id].row.family && after.tokens[h].Active();
  }

  /** Statement by statement, a revoked family never has an active token again exactly when no call has swapped and not yet inserted. */
  lemma RevokedFamilyStaysDeadIff(c: Config, s: State, family: string, child: string)
    requires Inv(s) && Known(s.db, family) && UnseenToken(c, s.db, child)
    requires forall h | h in s.db.tokens && s.db.tokens[h].family == family :: s.db.tokens[h].revoked
    ensures (forall id | id in s.calls && s.calls[id].Insert? :: s.calls[id].row.family != family)
       <==> (forall ms | LegalRun(c, s, ms) :: NoneActive(Run(c, s, ms).db, family))
  {
    hide LegalRun, Run, Inv, Legal, Apply;
    if forall id | id in s.calls && s.calls[id].Insert? :: s.calls[id].row.family != family {
      forall ms | LegalRun(c, s, ms) ensures NoneActive(Run(c, s, ms).db, family) {
        UnclaimedForever(c, s, ms, family);
      }
    } else {
      var id :| id in s.calls && s.calls[id].Insert? && s.calls[id].row.family == family;
      var m := Advance(id, Env(0, child, "", "", "", ""));
      SwappedCallRevives(c, s, id, m.env);
      OneMove(c, s, m);
    }
  }

  lemma OneMove(c: Config, s: State, m: Move)
    requires Legal(c, s, m)
    ensures LegalRun(c, s, [m]) && Run(c, s, [m]) == Apply(c, s, m)
  {
    assert [m][1..] == [];
  }
}
