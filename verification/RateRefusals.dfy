/**
 * When the rate limiter refuses: exactly when the requests it has let through since some moment have
 * used up the capacity and all that has been refilled since.
 */
module RateRefusals {
  import opened RateLimits

  predicate AllBy(ts: seq<Request>, now: real) {
    forall i | 0 <= i < |ts| :: ts[i].now <= now
  }

  /** The tokens there are for an action and key after a run. */
  function LevelAfter(rules: Rules, buckets: map<string, Bucket>, ts: seq<Request>, a: string, k: string, now: real): real
    requires a in rules
  {
    Level(rules[a], AfterAll(rules, buckets, ts), Id(a, k), now)
  }

  function Passes(rules: Rules, buckets: map<string, Bucket>, a: string, k: string, now: real): nat {
    if Allows(rules, buckets, a, k, now) then 1 else 0
  }

  lemma NextRequest(rules: Rules, buckets: map<string, Bucket>, ts: seq<Request>, a: string, k: string, now: real, from: real)
    requires ts != [] && a in rules && AllBy(ts, now)
    ensures var t, rest := ts[0], ts[1..];
            var after := After(rules, buckets, t.action, t.key, t.now);
            var own := t.action == a && t.key == k && from <= t.now;
            && AllBy(rest, now) && t.now <= now
            && LevelAfter(rules, buckets, ts, a, k, now) == LevelAfter(rules, after, rest, a, k, now)
            && Passed(rules, buckets, ts, a, k, from, now)
               == (if own then Passes(rules, buckets, a, k, t.now) else 0) + Passed(rules, after, rest, a, k, from, now)
  {
    hide After, Allows, Level;
  }

  /** Requests from a time on are all counted from any earlier one. */
  lemma {:induction false} CountedAlike(rules: Rules, buckets: map<string, Bucket>, ts: seq<Request>, a: string, k: string,
                                        early: real, late: real, now: real)
    requires early <= late && InTime(late, ts)
    ensures Passed(rules, buckets, ts, a, k, early, now) == Passed(rules, buckets, ts, a, k, late, now)
    decreases |ts|
  {
    hide After, Allows;
    if ts != [] {
      LaterInTime(late, ts[0].now, ts[1..]);
      CountedAlike(rules, After(rules, buckets, ts[0].action, ts[0].key, ts[0].now), ts[1..], a, k, early, late, now);
    }
  }

  lemma LaterInTime(early: real, late: real, ts: seq<Request>)
    requires early <= late && InTime(late, ts)
    ensures InTime(early, ts)
  {}

  // ---------------------------------------------------------------- no more than the refill

  /** From a stored bucket on: what passes and what is left are at most what it held and gained. */
  lemma {:induction false} SpentFromBucket(rules: Rules, buckets: map<string, Bucket>, clock: real, ts: seq<Request>,
                                           a: string, k: string, from: real, now: real)
    requires Apart(rules) && InTime(clock, ts) && AllBy(ts, now) && a in rules && Id(a, k) in buckets
    ensures Passed(rules, buckets, ts, a, k, from, now) as real + LevelAfter(rules, buckets, ts, a, k, now)
         <= buckets[Id(a, k)].tokens + Gain(rules[a], now - buckets[Id(a, k)].updatedMs)
    decreases |ts|
  {
    var b, rule := buckets[Id(a, k)], rules[a];
    if ts == [] {
      hide Gain;
      assert LevelAfter(rules, buckets, ts, a, k, now) <= b.tokens + Gain(rule, now - b.updatedMs);
    } else {
      hide After, Allows, Level, Gain, Apart, AllBy, Passed, LevelAfter, AfterAll;
      var t := ts[0];
      NextRequest(rules, buckets, ts, a, k, now, from);
      if t.action != a || t.key != k {
        OtherBucket(rules, buckets, a, k, t);
      } else {
        TakeSpends(rules, buckets, a, k, t.now);
        GainAdds(rule, t.now - b.updatedMs, now - t.now);
        assert (t.now - b.updatedMs) + (now - t.now) == now - b.updatedMs;
      }
      SpentFromBucket(rules, After(rules, buckets, t.action, t.key, t.now), t.now, ts[1..], a, k, from, now);
    }
  }

  lemma {:induction false} SpentSince(rules: Rules, buckets: map<string, Bucket>, clock: real, ts: seq<Request>,
                                      a: string, k: string, since: real, now: real)
    requires Apart(rules) && InTime(clock, ts) && AllBy(ts, now) && a in rules && since <= now
    ensures Passed(rules, buckets, ts, a, k, since, now) as real + LevelAfter(rules, buckets, ts, a, k, now)
         <= rules[a].capacity + Gain(rules[a], now - since)
    decreases |ts|
  {
    var rule := rules[a];
    GainPositive(rule, now - since);
    if ts == [] {
      hide Gain;
      assert LevelAfter(rules, buckets, ts, a, k, now) <= rule.capacity;
    } else {
      hide After, Allows, Level, Gain, Apart, AllBy, Passed, LevelAfter, AfterAll;
      var t := ts[0];
      var after := After(rules, buckets, t.action, t.key, t.now);
      NextRequest(rules, buckets, ts, a, k, now, since);
      if t.action == a && t.key == k && since <= t.now {
        TakeSpends(rules, buckets, a, k, t.now);
        SpentFromBucket(rules, after, t.now, ts[1..], a, k, since, now);
        GainAdds(rule, t.now - since, now - t.now);
        GainPositive(rule, t.now - since);
        assert (t.now - since) + (now - t.now) == now - since;
      } else {
        SpentSince(rules, after, t.now, ts[1..], a, k, since, now);
      }
    }
  }

  // ---------------------------------------------------------------- no less than the refill

  /** At least so many tokens are left after what has passed since a moment when there were `tokens`. */
  predicate LeftSince(rules: Rules, buckets: map<string, Bucket>, ts: seq<Request>, a: string, k: string, now: real,
                      since: real, tokens: real)
    requires a in rules
  {
    since <= now
    && LevelAfter(rules, buckets, ts, a, k, now)
       >= tokens + Gain(rules[a], now - since) - Passed(rules, buckets, ts, a, k, since, now) as real
  }

  lemma TakeLeaves(rules: Rules, buckets: map<string, Bucket>, a: string, k: string, now: real)
    requires a in rules
    ensures var after := After(rules, buckets, a, k, now);
            var level := after[Id(a, k)].tokens + Passes(rules, buckets, a, k, now) as real;
            && Id(a, k) in after && after[Id(a, k)].updatedMs == now
            && (level == rules[a].capacity
                || (Id(a, k) in buckets && level == buckets[Id(a, k)].tokens + Gain(rules[a], now - buckets[Id(a, k)].updatedMs)))
  {
    hide Gain;
  }

  lemma NothingTaken(rules: Rules, buckets: map<string, Bucket>, a: string, k: string, now: real)
    requires a in rules && (Id(a, k) in buckets ==> buckets[Id(a, k)].updatedMs <= now)
    ensures LeftSince(rules, buckets, [], a, k, now, now, rules[a].capacity)
         || (Id(a, k) in buckets && LeftSince(rules, buckets, [], a, k, now, buckets[Id(a, k)].updatedMs, buckets[Id(a, k)].tokens))
  {
    assert Gain(rules[a], now - now) == 0.0;
    hide Gain;
  }

  /** The same moment serves for a run with one more request at the front. */
  lemma OneEarlier(rules: Rules, buckets: map<string, Bucket>, ts: seq<Request>, a: string, k: string, now: real, since: real, tokens: real)
    requires a in rules && ts != [] && AllBy(ts, now)
    requires LeftSince(rules, After(rules, buckets, ts[0].action, ts[0].key, ts[0].now), ts[1..], a, k, now, since, tokens)
    ensures LeftSince(rules, buckets, ts, a, k, now, since, tokens)
  {
    NextRequest(rules, buckets, ts, a, k, now, since);
    hide After, LevelAfter, Passed, Gain, Allows;
  }

  /** The take at the front, counted from an earlier moment of its bucket or from its own time. */
  lemma OneTaken(rules: Rules, buckets: map<string, Bucket>, ts: seq<Request>, a: string, k: string, now: real, since: real, tokens: real, left: real)
    requires a in rules && ts != [] && AllBy(ts, now) && InTime(ts[0].now, ts[1..])
    requires ts[0].action == a && ts[0].key == k && since <= ts[0].now
    requires left == tokens + Gain(rules[a], ts[0].now - since) - Passes(rules, buckets, a, k, ts[0].now) as real
    requires LeftSince(rules, After(rules, buckets, a, k, ts[0].now), ts[1..], a, k, now, ts[0].now, left)
    ensures LeftSince(rules, buckets, ts, a, k, now, since, tokens)
  {
    var t := ts[0];
    NextRequest(rules, buckets, ts, a, k, now, since);
    CountedAlike(rules, After(rules, buckets, a, k, t.now), ts[1..], a, k, since, t.now, now);
    GainAdds(rules[a], t.now - since, now - t.now);
    assert (t.now - since) + (now - t.now) == now - since;
    hide After, LevelAfter, Passed, Gain, Allows, Passes, InTime, AllBy;
  }

  lemma NoGain(rule: Rule)
    ensures Gain(rule, 0.0) == 0.0
  {}

  /** There was a moment with a full bucket, or the run started with one, from which on nothing was lost. */
  lemma {:induction false} NothingLost(rules: Rules, buckets: map<string, Bucket>, clock: real, ts: seq<Request>, a: string, k: string, now: real)
    returns (since: real)
    requires Apart(rules) && InTime(clock, ts) && AllBy(ts, now) && clock <= now && a in rules
    requires Id(a, k) in buckets ==> buckets[Id(a, k)].updatedMs <= clock
    ensures LeftSince(rules, buckets, ts, a, k, now, since, rules[a].capacity)
         || (Id(a, k) in buckets && since == buckets[Id(a, k)].updatedMs
             && LeftSince(rules, buckets, ts, a, k, now, since, buckets[Id(a, k)].tokens))
    decreases |ts|
  {
    var id, capacity := Id(a, k), rules[a].capacity;
    if ts == [] {
      hide *;
      NothingTaken(rules, buckets, a, k, now);
      since := if LeftSince(rules, buckets, [], a, k, now, now, capacity) then now else buckets[id].updatedMs;
      return;
    }
    var t, rest := ts[0], ts[1..];
    var after := After(rules, buckets, t.action, t.key, t.now);
    NextRequest(rules, buckets, ts, a, k, now, clock);
    if t.action != a || t.key != k {
      OtherBucket(rules, buckets, a, k, t);
      hide After, LevelAfter, LeftSince, Passed, Gain, Allows, Apart, AllBy, AfterAll;
      since := NothingLost(rules, after, t.now, rest, a, k, now);
      if LeftSince(rules, after, rest, a, k, now, since, capacity) {
        OneEarlier(rules, buckets, ts, a, k, now, since, capacity);
      } else {
        OneEarlier(rules, buckets, ts, a, k, now, since, buckets[id].tokens);
      }
    } else {
      TakeLeaves(rules, buckets, a, k, t.now);
      hide After, LevelAfter, LeftSince, Passed, Gain, Allows, Apart, AllBy, AfterAll, Passes;
      since := NothingLost(rules, after, t.now, rest, a, k, now);
      if LeftSince(rules, after, rest, a, k, now, since, capacity) {
        OneEarlier(rules, buckets, ts, a, k, now, since, capacity);
      } else {
        var pass := Passes(rules, buckets, a, k, t.now) as real;
        if after[id].tokens + pass == capacity {
          NoGain(rules[a]);
          assert t.now - t.now == 0.0;
          OneTaken(rules, buckets, ts, a, k, now, t.now, capacity, after[id].tokens);
          since := t.now;
        } else {
          since := buckets[id].updatedMs;
          OneTaken(rules, buckets, ts, a, k, now, since, buckets[id].tokens, after[id].tokens);
        }
      }
    }
  }

  /** Capacity and refill since a moment cover one more request besides those let through since then. */
  predicate Covered(rules: Rules, ts: seq<Request>, a: string, k: string, since: real, now: real)
    requires a in rules
  {
    Passed(rules, map[], ts, a, k, since, now) as real + 1.0 <= rules[a].capacity + Gain(rules[a], now - since)
  }

  /**
   * From an empty store, whatever the mix of keys and actions before it: a request of a limited
   * action is let through exactly when, since every moment up to now, the capacity and the refill
   * cover it together with the requests let through since then.
   */
  lemma LetThroughIff(rules: Rules, clock: real, ts: seq<Request>, a: string, k: string, now: real)
    requires Apart(rules) && InTime(clock, ts) && AllBy(ts, now) && clock <= now && a in rules
    ensures Allows(rules, AfterAll(rules, map[], ts), a, k, now)
       <==> forall since: real | since <= now :: Covered(rules, ts, a, k, since, now)
  {
    var level := LevelAfter(rules, map[], ts, a, k, now);
    assert Allows(rules, AfterAll(rules, map[], ts), a, k, now) <==> level >= 1.0;
    hide LevelAfter, Allows, Gain, Passed, AfterAll;
    if level >= 1.0 {
      forall since: real | since <= now ensures Covered(rules, ts, a, k, since, now) {
        SpentSince(rules, map[], clock, ts, a, k, since, now);
      }
    } else {
      var since := NothingLost(rules, map[], clock, ts, a, k, now);
      assert LeftSince(rules, map[], ts, a, k, now, since, rules[a].capacity);
      assert !Covered(rules, ts, a, k, since, now);
    }
  }

  /** An action without a rule always passes, and leaves every bucket as it is. */
  lemma UnlimitedPasses(rules: Rules, buckets: map<string, Bucket>, a: string, k: string, now: real)
    requires a !in rules
    ensures Allows(rules, buckets, a, k, now) && After(rules, buckets, a, k, now) == buckets
  {}
}
