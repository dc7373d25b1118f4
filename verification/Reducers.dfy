/**
 * The delta-debugging reducers. `evaluate` is the run of a candidate: it gives the signature of
 * the failure it shows, the empty string if it shows none.
 */
module Reducers {
  import opened Text

  // ---------------------------------------------------------------- picking items in order

  predicate Rising(idx: seq<nat>) {
    forall i, j | 0 <= i < j < |idx| :: idx[i] < idx[j]
  }

  /** The kept items are the items at rising places of the original. */
  predicate Picks<X(==)>(items: seq<X>, idx: seq<nat>, kept: seq<X>) {
    |idx| == |kept| && Rising(idx) && forall i | 0 <= i < |idx| :: idx[i] < |items| && kept[i] == items[idx[i]]
  }

  /** withoutStep */
  function Without<X>(s: seq<X>, i: nat): (r: seq<X>)
    requires i < |s|
    ensures |r| == |s| - 1
  {
    s[..i] + s[i + 1..]
  }

  lemma PicksAll<X>(items: seq<X>) returns (idx: seq<nat>)
    ensures Picks(items, idx, items)
  {
    idx := seq(|items|, i requires 0 <= i < |items| => i);
  }

  lemma PicksWithout<X>(items: seq<X>, idx: seq<nat>, kept: seq<X>, i: nat)
    requires Picks(items, idx, kept) && i < |kept|
    ensures Picks(items, Without(idx, i), Without(kept, i))
  {}

  // ---------------------------------------------------------------- dropping items one at a time

  /** No single item can go, unless so few are left that none is tried. */
  ghost predicate OneMinimal<X>(kept: seq<X>, least: nat, keeps: seq<X> -> bool) {
    |kept| <= least || forall i | 0 <= i < |kept| :: !keeps(Without(kept, i))
  }

  /** Drops items from last to first, again and again, while the signature is kept. */
  method DropOneByOne<X>(items: seq<X>, least: nat, keeps: seq<X> -> bool) returns (kept: seq<X>, ghost idx: seq<nat>)
    requires keeps(items)
    ensures keeps(kept) && Picks(items, idx, kept)
    ensures OneMinimal(kept, least, keeps)
  {
    kept := items;
    idx := PicksAll(items);
    var changed := true;
    while changed
      invariant keeps(kept) && Picks(items, idx, kept)
      invariant !changed ==> OneMinimal(kept, least, keeps)
      decreases |kept|, changed
    {
      changed := false;
      ghost var before := kept;
      var i := |kept|;
      while i > 0 && |kept| > least
        invariant 0 <= i <= |kept| && keeps(kept) && Picks(items, idx, kept)
        invariant changed ==> |kept| < |before|
        invariant !changed ==> kept == before && forall j | i <= j < |kept| :: !keeps(Without(kept, j))
        decreases i
      {
        i := i - 1;
        var candidate := Without(kept, i);
        if keeps(candidate) {
          PicksWithout(items, idx, kept, i);
          idx := Without(idx, i);
          kept := candidate;
          changed := true;
        }
      }
    }
  }

  // ---------------------------------------------------------------- scenarios

  datatype Setup<R> = Seed(table: string, rows: seq<R>) | Other(action: string)

  datatype Scenario<T, R> = Scenario(operations: seq<T>, setup: seq<Setup<R>>)

  /** trimSeedRows at one setup step. */
  function Trimmed<T, R>(s: Scenario<T, R>, i: nat, keep: nat): Scenario<T, R>
    requires i < |s.setup| && s.setup[i].Seed? && keep <= |s.setup[i].rows|
  {
    s.(setup := s.setup[i := s.setup[i].(rows := s.setup[i].rows[..keep])])
  }

  /** A seed list is cut to the shortest prefix that keeps the signature; any other step stays. */
  ghost predicate ShortestAt<T, R>(s: Scenario<T, R>, s': Scenario<T, R>, i: nat, target: string, evaluate: Scenario<T, R> -> string)
    requires i < |s.setup|
  {
    if s.setup[i].Seed? then
      exists keep :: 0 <= keep <= |s.setup[i].rows| && s' == Trimmed(s, i, keep)
        && forall less | 0 <= less < keep :: evaluate(Trimmed(s, i, less)) != target
    else s' == s
  }

  method ShrinkSeed<T, R>(s: Scenario<T, R>, i: nat, target: string, evaluate: Scenario<T, R> -> string) returns (s': Scenario<T, R>)
    requires i < |s.setup| && evaluate(s) == target
    ensures evaluate(s') == target && ShortestAt(s, s', i, target, evaluate)
  {
    s' := s;
    if s.setup[i].Seed? {
      var rows := s.setup[i].rows;
      for keep := 0 to |rows|
        invariant forall less | 0 <= less < keep :: evaluate(Trimmed(s, i, less)) != target
      {
        var candidate := Trimmed(s, i, keep);
        if evaluate(candidate) == target {
          return candidate;
        }
      }
      assert rows[..|rows|] == rows;
      assert s == Trimmed(s, i, |rows|);
    }
  }

  /** Each setup step in turn, from the scenario that the step before it left. */
  ghost predicate Shrunk<T, R>(stages: seq<Scenario<T, R>>, target: string, evaluate: Scenario<T, R> -> string) {
    forall i | 0 <= i < |stages| - 1 :: i < |stages[i].setup| && ShortestAt(stages[i], stages[i + 1], i, target, evaluate)
  }

  /** A setup step as it was, or with fewer seed rows. */
  predicate PrefixOf<R(==)>(a: Setup<R>, b: Setup<R>) {
    a == b || (a.Seed? && b.Seed? && a.table == b.table && a.rows <= b.rows)
  }

  method ShrinkSeeds<T, R>(s: Scenario<T, R>, target: string, evaluate: Scenario<T, R> -> string)
    returns (s': Scenario<T, R>, ghost stages: seq<Scenario<T, R>>)
    requires evaluate(s) == target
    ensures evaluate(s') == target && s'.operations == s.operations
    ensures |stages| == |s.setup| + 1 && stages[0] == s && stages[|s.setup|] == s' && Shrunk(stages, target, evaluate)
    ensures |s'.setup| == |s.setup| && forall i | 0 <= i < |s.setup| :: PrefixOf(s'.setup[i], s.setup[i])
  {
    s', stages := s, [s];
    for i := 0 to |s.setup|
      invariant evaluate(s') == target && s'.operations == s.operations && |s'.setup| == |s.setup|
      invariant |stages| == i + 1 && stages[0] == s && stages[i] == s' && Shrunk(stages, target, evaluate)
      invariant forall j | 0 <= j < |s.setup| :: if j < i then PrefixOf(s'.setup[j], s.setup[j]) else s'.setup[j] == s.setup[j]
    {
      var next := ShrinkSeed(s', i, target, evaluate);
      stages := stages + [next];
      s' := next;
    }
  }

  /** The result is made of the original's steps in order, seed rows perhaps cut. */
  ghost predicate MadeFrom<T, R>(original: Scenario<T, R>, s: Scenario<T, R>) {
    && (exists idx :: Picks(original.operations, idx, s.operations))
    && (exists idx :: PicksPrefixes(original.setup, idx, s.setup))
  }

  /** The kept setup steps are those at rising places of the original, seed rows perhaps cut. */
  predicate PicksPrefixes<R(==)>(steps: seq<Setup<R>>, idx: seq<nat>, kept: seq<Setup<R>>) {
    |idx| == |kept| && Rising(idx) && forall i | 0 <= i < |idx| :: idx[i] < |steps| && PrefixOf(kept[i], steps[idx[i]])
  }

  /**
   * reduceScenario; None is the refusal of a scenario that shows no failure. The three phases end
   * in `first`, `second` and the result.
   */
  method ReduceScenario<T, R>(scenario: Scenario<T, R>, evaluate: Scenario<T, R> -> string)
    returns (reduced: Option<Scenario<T, R>>, ghost first: Scenario<T, R>, ghost second: Scenario<T, R>, ghost stages: seq<Scenario<T, R>>)
    ensures reduced.None? <==> evaluate(scenario) == ""
    ensures reduced.Some? ==>
              && evaluate(reduced.value) == evaluate(scenario)
              && MadeFrom(scenario, reduced.value)
    ensures reduced.Some? ==>
              && first.setup == scenario.setup
              && OneMinimal(first.operations, 1, KeepsWithOperations(scenario, evaluate))
              && second.operations == first.operations
              && OneMinimal(second.setup, 0, KeepsWithSetup(first, evaluate(scenario), evaluate))
    ensures reduced.Some? ==>
              && |stages| == |second.setup| + 1 && stages[0] == second && stages[|second.setup|] == reduced.value
              && Shrunk(stages, evaluate(scenario), evaluate)
  {
    var target := evaluate(scenario);
    first, second, stages := scenario, scenario, [];
    if target == "" {
      return None, first, second, stages;
    }
    var operations, opIdx := DropOneByOne(scenario.operations, 1, KeepsWithOperations(scenario, evaluate));
    var current := scenario.(operations := operations);
    first := current;
    var setup, idx := DropOneByOne(current.setup, 0, KeepsWithSetup(current, target, evaluate));
    current := current.(setup := setup);
    second := current;
    current, stages := ShrinkSeeds(current, target, evaluate);
    assert Picks(scenario.operations, opIdx, current.operations);
    assert PicksPrefixes(scenario.setup, idx, current.setup);
    reduced := Some(current);
  }

  function KeepsWithOperations<T, R>(s: Scenario<T, R>, evaluate: Scenario<T, R> -> string): seq<T> -> bool {
    operations => evaluate(s.(operations := operations)) == evaluate(s)
  }

  function KeepsWithSetup<T, R>(s: Scenario<T, R>, target: string, evaluate: Scenario<T, R> -> string): seq<Setup<R>> -> bool {
    setup => evaluate(s.(setup := setup)) == target
  }

  // ---------------------------------------------------------------- divergences

  /** The steps other than one, by value. */
  function Except(s: seq<string>, x: string): (r: seq<string>)
    ensures |r| <= |s| && (x in s <==> |r| < |s|)
    ensures forall y :: y in r <==> y in s && y != x
    ensures x !in s ==> r == s
  {
    if s == [] then []
    else
      var last := |s| - 1;
      assert forall y :: y in s <==> y == s[last] || y in s[..last];
      var rest := Except(s[..last], x);
      if s[last] == x then rest else rest + [s[last]]
  }

  predicate AllBelow(idx: seq<nat>, n: nat) {
    forall i | 0 <= i < |idx| :: idx[i] < n
  }

  lemma {:induction false} PicksExcept(items: seq<string>, idx: seq<nat>, kept: seq<string>, x: string) returns (idx': seq<nat>)
    requires Picks(items, idx, kept)
    ensures Picks(items, idx', Except(kept, x))
    ensures forall n: nat | AllBelow(idx, n) :: AllBelow(idx', n)
    decreases |kept|
  {
    if kept == [] {
      idx' := [];
    } else {
      var last := |kept| - 1;
      PicksInit(items, idx, kept);
      idx' := PicksExcept(items, idx[..last], kept[..last], x);
      if kept[last] != x {
        PicksLast(items, idx', Except(kept[..last], x), idx[last], kept[last]);
        idx' := idx' + [idx[last]];
      }
      forall n: nat | AllBelow(idx, n) ensures AllBelow(idx', n) {
        assert AllBelow(idx[..last], n) && idx[last] < n;
      }
    }
  }

  lemma PicksInit(items: seq<string>, idx: seq<nat>, kept: seq<string>)
    requires Picks(items, idx, kept) && kept != []
    ensures Picks(items, idx[..|kept| - 1], kept[..|kept| - 1])
    ensures AllBelow(idx[..|kept| - 1], idx[|kept| - 1])
  {}

  lemma PicksLast(items: seq<string>, idx: seq<nat>, kept: seq<string>, n: nat, x: string)
    requires Picks(items, idx, kept) && n < |items| && items[n] == x && AllBelow(idx, n)
    ensures Picks(items, idx + [n], kept + [x])
  {}

  /**
   * reduceDivergence: the result shows the same divergence, is made of the original steps in
   * order, and is one-minimal: removing every occurrence of any one step, if any step is left,
   * loses the signature.
   */
  method ReduceDivergence(steps: seq<string>, evaluate: seq<string> -> string) returns (kept: Option<seq<string>>, ghost idx: seq<nat>)
    ensures kept.None? <==> evaluate(steps) == ""
    ensures kept.Some? ==> evaluate(kept.value) == evaluate(steps) && Picks(steps, idx, kept.value)
    ensures kept.Some? ==> forall x | x in kept.value :: Except(kept.value, x) == [] || evaluate(Except(kept.value, x)) != evaluate(steps)
  {
    hide Picks, Except;
    var target := evaluate(steps);
    idx := PicksAll(steps);
    if target == "" {
      return None, idx;
    }
    var keep := steps;
    var changed := true;
    while changed
      invariant evaluate(keep) == target && Picks(steps, idx, keep)
      invariant !changed ==> forall x | x in keep :: Except(keep, x) == [] || evaluate(Except(keep, x)) != target
      decreases |keep|, changed
    {
      changed := false;
      var pass := keep;
      var i := |pass|;
      while i > 0
        invariant 0 <= i <= |pass| && |keep| <= |pass| && evaluate(keep) == target && Picks(steps, idx, keep)
        invariant changed ==> |keep| < |pass|
        invariant !changed ==> keep == pass
        invariant !changed ==> forall j | i <= j < |pass| :: Except(keep, pass[j]) == [] || evaluate(Except(keep, pass[j])) != target
        decreases i
      {
        i := i - 1;
        var candidate := Except(keep, pass[i]);
        if candidate != [] && evaluate(candidate) == target {
          idx := PicksExcept(steps, idx, keep, pass[i]);
          keep := candidate;
          changed := true;
        }
      }
    }
    kept := Some(keep);
  }
}
