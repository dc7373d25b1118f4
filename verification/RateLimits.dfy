/**
 * The token-bucket rate limiter, over the reals. What it lets through in any window of time, and
 * when its bucket identifiers keep actions apart.
 */
module RateLimits {

  datatype Rule = Rule(capacity: real, refillPerSecond: real)

  datatype Bucket = Bucket(tokens: real, updatedMs: real)

  type Rules = r: map<string, Rule> | forall a | a in r :: r[a].capacity >= 0.0 && r[a].refillPerSecond >= 0.0
    witness map[]

  function Id(action: string, key: string): string {
    action + [':'] + key
  }

  function Min(x: real, y: real): real {
    if x <= y then x else y
  }

  // ---------------------------------------------------------------- one take

  /** What a rule refills in some milliseconds. */
  function Gain(rule: Rule, ms: real): real {
    ms / 1000.0 * rule.refillPerSecond
  }

  lemma GainAdds(rule: Rule, x: real, y: real)
    ensures Gain(rule, x) + Gain(rule, y) == Gain(rule, x + y)
  {}

  lemma GainPositive(rule: Rule, x: real)
    requires rule.refillPerSecond >= 0.0 && x >= 0.0
    ensures Gain(rule, x) >= 0.0
  {}

  /** The tokens a bucket holds at a time; a bucket that is not there yet is full. */
  function Level(rule: Rule, buckets: map<string, Bucket>, id: string, now: real): real {
    if id in buckets then Min(rule.capacity, buckets[id].tokens + Gain(rule, now - buckets[id].updatedMs))
    else rule.capacity
  }

  predicate Allows(rules: Rules, buckets: map<string, Bucket>, action: string, key: string, now: real) {
    action in rules ==> Level(rules[action], buckets, Id(action, key), now) >= 1.0
  }

  function After(rules: Rules, buckets: map<string, Bucket>, action: string, key: string, now: real): map<string, Bucket> {
    if action !in rules then buckets
    else
      var level := Level(rules[action], buckets, Id(action, key), now);
      buckets[Id(action, key) := Bucket(if level >= 1.0 then level - 1.0 else level, now)]
  }

  class RateLimiter {
    const rules: Rules
    var buckets: map<string, Bucket>

    constructor (rules: Rules)
      ensures this.rules == rules && buckets == map[]
    {
      this.rules := rules;
      buckets := map[];
    }

    method Take(action: string, key: string, nowMs: real) returns (allowed: bool)
      modifies this
      ensures allowed == Allows(rules, old(buckets), action, key, nowMs)
      ensures buckets == After(rules, old(buckets), action, key, nowMs)
      ensures action !in rules ==> allowed && buckets == old(buckets)
    {
      if action !in rules {
        return true;
      }
      var rule := rules[action];
      var id := Id(action, key);
      var b := if id in buckets then buckets[id] else Bucket(rule.capacity, nowMs);
      var refill := (nowMs - b.updatedMs) / 1000.0 * rule.refillPerSecond;
      b := Bucket(Min(rule.capacity, b.tokens + refill), nowMs);
      if b.tokens < 1.0 {
        buckets := buckets[id := b];
        return false;
      }
      b := b.(tokens := b.tokens - 1.0);
      buckets := buckets[id := b];
      return true;
    }
  }

  // ---------------------------------------------------------------- identifiers

  /** One action continues another after a colon. */
  predicate Extends(a: string, b: string) {
    a + [':'] <= b
  }

  predicate Apart(rules: Rules) {
    forall a, b | a in rules && b in rules :: !Extends(a, b)
  }

  lemma SplitId(a: string, k: string, b: string, l: string)
    requires Id(a, k) == Id(b, l) && |a| <= |b|
    ensures (a == b && k == l) || Extends(a, b)
  {
    var s := Id(a, k);
    assert s[..|a|] == a && s[|a|] == ':' && s[|a| + 1..] == k;
    assert s[..|b|] == b && s[|b| + 1..] == l;
    if |a| < |b| {
      assert b[|a|] == s[|a|] && b[..|a|] == s[..|a|];
      assert a + [':'] == b[..|a| + 1];
    }
  }

  /** Two actions share a bucket for some keys exactly when one continues the other after a colon. */
  lemma SharedBucketIff(a: string, b: string)
    requires a != b
    ensures (exists k, l :: Id(a, k) == Id(b, l)) <==> Extends(a, b) || Extends(b, a)
  {
    if k, l :| Id(a, k) == Id(b, l) {
      if |a| <= |b| { SplitId(a, k, b, l); } else { SplitId(b, l, a, k); }
    }
    if Extends(a, b) { Collides(a, b); }
    if Extends(b, a) { Collides(b, a); }
  }

  lemma Collides(a: string, b: string)
    requires Extends(a, b)
    ensures Id(a, b[|a| + 1..] + [':']) == Id(b, "")
  {
    assert b == a + [':'] + b[|a| + 1..];
  }

  lemma OwnBucket(rules: Rules, a: string, k: string, b: string, l: string)
    requires Apart(rules) && a in rules && b in rules && Id(a, k) == Id(b, l)
    ensures a == b && k == l
  {
    if |a| <= |b| { SplitId(a, k, b, l); } else { SplitId(b, l, a, k); }
  }

  // ---------------------------------------------------------------- runs

  datatype Request = Request(action: string, key: string, now: real)

  predicate InTime(from: real, ts: seq<Request>)
    decreases |ts|
  {
    ts == [] || (from <= ts[0].now && InTime(ts[0].now, ts[1..]))
  }

  /** How many requests of one action and key are let through at times up to and including `until`. */
  function Passed(rules: Rules, buckets: map<string, Bucket>, ts: seq<Request>, action: string, key: string, from: real, until: real): nat
    decreases |ts|
  {
    if ts == [] then 0
    else
      var t := ts[0];
      (if t.action == action && t.key == key && from <= t.now <= until && Allows(rules, buckets, action, key, t.now) then 1 else 0)
      + Passed(rules, After(rules, buckets, t.action, t.key, t.now), ts[1..], action, key, from, until)
  }

  /** Stored tokens of every limited key stay between nothing and the capacity, and no bucket is from the future. */
  ghost predicate Sound(rules: Rules, buckets: map<string, Bucket>, clock: real) {
    && (forall id | id in buckets :: buckets[id].updatedMs <= clock)
    && (forall a, k | a in rules && Id(a, k) in buckets :: 0.0 <= buckets[Id(a, k)].tokens <= rules[a].capacity)
  }

  lemma TakeKeepsSound(rules: Rules, buckets: map<string, Bucket>, clock: real, t: Request)
    requires Apart(rules) && Sound(rules, buckets, clock) && clock <= t.now
    ensures Sound(rules, After(rules, buckets, t.action, t.key, t.now), t.now)
  {
    if t.action in rules {
      var id := Id(t.action, t.key);
      if id in buckets { GainPositive(rules[t.action], t.now - buckets[id].updatedMs); }
      hide Gain;
      var after := After(rules, buckets, t.action, t.key, t.now);
      forall a, k | a in rules && Id(a, k) in after ensures 0.0 <= after[Id(a, k)].tokens <= rules[a].capacity {
        if Id(a, k) == id { OwnBucket(rules, a, k, t.action, t.key); }
      }
    }
  }

  /** In every run with a clock that does not go back, stored tokens stay between 0 and the capacity. */
  lemma {:induction false} TokensStayInRange(rules: Rules, buckets: map<string, Bucket>, clock: real, ts: seq<Request>)
    requires Apart(rules) && Sound(rules, buckets, clock) && InTime(clock, ts)
    ensures Sound(rules, AfterAll(rules, buckets, ts), if ts == [] then clock else ts[|ts| - 1].now)
    decreases |ts|
  {
    hide Sound, After, Apart;
    if ts != [] {
      TakeKeepsSound(rules, buckets, clock, ts[0]);
      TokensStayInRange(rules, After(rules, buckets, ts[0].action, ts[0].key, ts[0].now), ts[0].now, ts[1..]);
    }
  }

  function AfterAll(rules: Rules, buckets: map<string, Bucket>, ts: seq<Request>): map<string, Bucket>
    decreases |ts|
  {
    if ts == [] then buckets else AfterAll(rules, After(rules, buckets, ts[0].action, ts[0].key, ts[0].now), ts[1..])
  }

  // ---------------------------------------------------------------- windows

  lemma {:induction false} NonePassLater(rules: Rules, buckets: map<string, Bucket>, ts: seq<Request>, a: string, k: string,
                                         from: real, until: real)
    requires ts != [] ==> InTime(ts[0].now, ts) && ts[0].now > until
    ensures Passed(rules, buckets, ts, a, k, from, until) == 0
    decreases |ts|
  {
    hide After, Allows;
    if ts != [] {
      NonePassLater(rules, After(rules, buckets, ts[0].action, ts[0].key, ts[0].now), ts[1..], a, k, from, until);
    }
  }

  lemma OtherBucket(rules: Rules, buckets: map<string, Bucket>, a: string, k: string, t: Request)
    requires Apart(rules) && a in rules && (t.action != a || t.key != k)
    ensures Id(a, k) in buckets <==> Id(a, k) in After(rules, buckets, t.action, t.key, t.now)
    ensures Id(a, k) in buckets ==> After(rules, buckets, t.action, t.key, t.now)[Id(a, k)] == buckets[Id(a, k)]
  {
    hide Allows, Level;
    if t.action in rules && Id(t.action, t.key) == Id(a, k) {
      OwnBucket(rules, a, k, t.action, t.key);
    }
  }

  /** A take spends at most what the bucket held and gained. */
  lemma TakeSpends(rules: Rules, buckets: map<string, Bucket>, a: string, k: string, now: real)
    requires a in rules
    ensures var after := After(rules, buckets, a, k, now);
            var level := Level(rules[a], buckets, Id(a, k), now);
            && Id(a, k) in after && after[Id(a, k)].updatedMs == now
            && after[Id(a, k)].tokens == level - (if Allows(rules, buckets, a, k, now) then 1.0 else 0.0)
            && level <= rules[a].capacity
            && (Id(a, k) in buckets ==> level <= buckets[Id(a, k)].tokens + Gain(rules[a], now - buckets[Id(a, k)].updatedMs))
  {}

  /** From a stored bucket on, no more pass than it holds and will gain. */
  lemma {:induction false} PassedFromBucket(rules: Rules, buckets: map<string, Bucket>, clock: real, ts: seq<Request>,
                                            a: string, k: string, from: real, until: real)
    requires Apart(rules) && Sound(rules, buckets, clock) && InTime(clock, ts) && a in rules
    requires Id(a, k) in buckets && until >= buckets[Id(a, k)].updatedMs
    ensures Passed(rules, buckets, ts, a, k, from, until) as real
         <= buckets[Id(a, k)].tokens + Gain(rules[a], until - buckets[Id(a, k)].updatedMs)
    decreases |ts|
  {
    hide After, Allows, Level, Gain;
    var b, rule := buckets[Id(a, k)], rules[a];
    GainPositive(rule, until - b.updatedMs);
    if ts != [] {
      var t := ts[0];
      var after := After(rules, buckets, t.action, t.key, t.now);
      TakeKeepsSound(rules, buckets, clock, t);
      hide Apart, Sound;
      if t.action != a || t.key != k {
        OtherBucket(rules, buckets, a, k, t);
        PassedFromBucket(rules, after, t.now, ts[1..], a, k, from, until);
      } else if t.now > until {
        NonePassLater(rules, buckets, ts, a, k, from, until);
        assert b.tokens >= 0.0 by { StoredInRange(rules, buckets, clock, a, k); }
      } else {
        TakeSpends(rules, buckets, a, k, t.now);
        PassedFromBucket(rules, after, t.now, ts[1..], a, k, from, until);
        GainAdds(rule, t.now - b.updatedMs, until - t.now);
      }
    } else {
      assert b.tokens >= 0.0 by { StoredInRange(rules, buckets, clock, a, k); }
    }
  }

  lemma StoredInRange(rules: Rules, buckets: map<string, Bucket>, clock: real, a: string, k: string)
    requires Sound(rules, buckets, clock) && a in rules && Id(a, k) in buckets
    ensures 0.0 <= buckets[Id(a, k)].tokens <= rules[a].capacity
  {}

  /**
   * Whatever the mix of keys and actions, the requests let through for one limited key in a window
   * never exceed the capacity and what the window refills.
   */
  lemma {:induction false} WindowBound(rules: Rules, buckets: map<string, Bucket>, clock: real, ts: seq<Request>,
                                       a: string, k: string, from: real, until: real)
    requires Apart(rules) && Sound(rules, buckets, clock) && InTime(clock, ts) && a in rules && from <= until
    ensures Passed(rules, buckets, ts, a, k, from, until) as real <= rules[a].capacity + Gain(rules[a], until - from)
    decreases |ts|
  {
    hide After, Allows, Level, Gain;
    GainPositive(rules[a], until - from);
    if ts != [] {
      var t := ts[0];
      var after := After(rules, buckets, t.action, t.key, t.now);
      TakeKeepsSound(rules, buckets, clock, t);
      hide Apart, Sound;
      if t.action != a || t.key != k || t.now < from {
        WindowBound(rules, after, t.now, ts[1..], a, k, from, until);
      } else if t.now > until {
        NonePassLater(rules, buckets, ts, a, k, from, until);
      } else {
        TakeSpends(rules, buckets, a, k, t.now);
        PassedFromBucket(rules, after, t.now, ts[1..], a, k, from, until);
        GainAdds(rules[a], t.now - from, until - t.now);
        GainPositive(rules[a], t.now - from);
      }
    }
  }

  // ---------------------------------------------------------------- configurations

  const DEFAULT_RATE_LIMITS: Rules := map[
    "token:password" := Rule(30.0, 30.0 / 300.0),
    "signup" := Rule(30.0, 30.0 / 3600.0),
    "recover" := Rule(5.0, 5.0 / 3600.0),
    "verify" := Rule(30.0, 30.0 / 300.0)]

  lemma ExtendsAtColon(a: string, b: string)
    ensures Extends(a, b) ==> |a| < |b| && b[|a|] == ':'
  {
    assert Extends(a, b) ==> b[|a|] == (a + [':'])[|a|];
  }

  lemma DefaultsAreApart()
    ensures Apart(DEFAULT_RATE_LIMITS)
  {
    forall a, b | a in DEFAULT_RATE_LIMITS && b in DEFAULT_RATE_LIMITS ensures !Extends(a, b) {
      ExtendsAtColon(a, b);
      assert |a| >= 6;
    }
  }

  function SlowAndFast(a: string, b: string): Rules {
    map[a := Rule(1.0, 0.0), b := Rule(2.0, 1.0)]
  }

  /** The shared bucket after the first request of each action. */
  lemma SharedBucketRefills(a: string, b: string, k: string)
    requires a != b && Id(a, k) == Id(b, "")
    ensures var rules := SlowAndFast(a, b);
            var once := After(rules, map[], a, k, 0.0);
            Allows(rules, map[], a, k, 0.0) && Allows(rules, After(rules, once, b, "", 2000.0), a, k, 2000.0)
  {
    hide Id;
    var rules, id := SlowAndFast(a, b), Id(a, k);
    var once := After(rules, map[], a, k, 0.0);
    assert once[id] == Bucket(0.0, 0.0);
    assert After(rules, once, b, "", 2000.0)[id] == Bucket(1.0, 2000.0);
  }

  lemma OnePasses(rules: Rules, buckets: map<string, Bucket>, t: Request, a: string, k: string)
    requires t == Request(a, k, 2000.0) && Allows(rules, buckets, a, k, 2000.0)
    ensures InTime(2000.0, [t]) && Passed(rules, buckets, [t], a, k, 0.0, 2000.0) == 1
  {
    assert [t][1..] == [];
  }

  lemma StillOnePasses(rules: Rules, buckets: map<string, Bucket>, t: Request, u: Request, a: string, k: string)
    requires t.now == 2000.0 && t.action != a && u == Request(a, k, 2000.0)
    requires Allows(rules, After(rules, buckets, t.action, t.key, t.now), a, k, 2000.0)
    ensures InTime(0.0, [t, u]) && Passed(rules, buckets, [t, u], a, k, 0.0, 2000.0) == 1
  {
    hide Allows, After;
    OnePasses(rules, After(rules, buckets, t.action, t.key, t.now), u, a, k);
    assert [t, u][1..] == [u];
  }

  /**
   * Where one action continues another after a colon the bound is lost: with these rules the first
   * action never refills, but a request of the second refills the bucket they share.
   */
  lemma SharedBucketBreaksBound(a: string, b: string)
    requires Extends(a, b)
    ensures var k := b[|a| + 1..] + [':'];
            var ts := [Request(a, k, 0.0), Request(b, "", 2000.0), Request(a, k, 2000.0)];
            && InTime(0.0, ts)
            && Passed(SlowAndFast(a, b), map[], ts, a, k, 0.0, 2000.0) == 2
    ensures SlowAndFast(a, b)[a].capacity + Gain(SlowAndFast(a, b)[a], 2000.0 - 0.0) == 1.0
  {
    ExtendsAtColon(a, b);
    Collides(a, b);
    var rules, k := SlowAndFast(a, b), b[|a| + 1..] + [':'];
    SharedBucketRefills(a, b, k);
    assert rules[a] == Rule(1.0, 0.0);
    hide Allows, After, Extends, SlowAndFast, Id;
    var ts := [Request(a, k, 0.0), Request(b, "", 2000.0), Request(a, k, 2000.0)];
    StillOnePasses(rules, After(rules, map[], a, k, 0.0), ts[1], ts[2], a, k);
    assert ts[1..] == [ts[1], ts[2]];
  }

  function SmallAndLarge(a: string, b: string): Rules {
    map[a := Rule(1.0, 0.0), b := Rule(3.0, 0.0)]
  }

  /** And one request of the second action leaves more tokens than the first action's bucket can hold. */
  lemma SharedBucketLeavesRange(a: string, b: string)
    requires Extends(a, b)
    ensures var rules, id := SmallAndLarge(a, b), Id(a, b[|a| + 1..] + [':']);
            var after := After(rules, map[], b, "", 0.0);
            && Sound(rules, map[], 0.0) && !Sound(rules, after, 0.0)
            && id in after && after[id].tokens == 2.0 && rules[a].capacity == 1.0
  {
    ExtendsAtColon(a, b);
    Collides(a, b);
    var rules, id := SmallAndLarge(a, b), Id(a, b[|a| + 1..] + [':']);
    assert After(rules, map[], b, "", 0.0)[id] == Bucket(2.0, 0.0);
    hide Extends;
  }
}
