/**
 * The run-after dependency closure of `TestService.getCompleteTestsArray` and
 * `_fillMapWithTestDependencies`: the seed tests go into a map keyed by id, then
 * each seed's chain of first RUN_AFTER_TEST targets is followed, fetching from the
 * tests table only ids that are not yet keys of the map. The map's values come
 * out in ascending id order, which is how `Object.values` lists integer keys.
 */
module Closure {
  import opened Wrappers
  import opened TestModel

  /** The map being filled, and the ids fetched from the tests table so far, in fetch order. */
  datatype Resolution = Resolution(tests: map<TestId, Test>, fetched: seq<TestId>)

  /** The map built by `tests.reduce((acc, test) => ({ ...acc, [test.id]: test }), {})`: a later duplicate id wins. */
  function SeedMap(seeds: seq<Test>): (m: map<TestId, Test>)
    ensures SeedMapFacts(seeds, m)
  {
    if |seeds| == 0 then map[]
    else
      var m' := SeedMap(seeds[..|seeds| - 1]);
      SeedMapStep(seeds, m');
      m'[seeds[|seeds| - 1].id := seeds[|seeds| - 1]]
  }

  /**
   * What the reduce builds: the keys are the seeds' ids, each value is a seed filed under
   * its own id, and a seed with no later seed of the same id is the value under its id.
   */
  ghost predicate SeedMapFacts(seeds: seq<Test>, m: map<TestId, Test>) {
    && (forall k :: k in m <==> exists i :: 0 <= i < |seeds| && seeds[i].id == k)
    && (forall k :: k in m ==> exists i :: 0 <= i < |seeds| && seeds[i] == m[k] && seeds[i].id == k)
    && (forall i :: 0 <= i < |seeds| && (forall j :: i < j < |seeds| ==> seeds[j].id != seeds[i].id) ==>
          seeds[i].id in m && m[seeds[i].id] == seeds[i])
  }

  /** Spreading one more seed over the map keeps the facts. */
  lemma SeedMapStep(seeds: seq<Test>, m': map<TestId, Test>)
    requires |seeds| > 0 && SeedMapFacts(seeds[..|seeds| - 1], m')
    ensures SeedMapFacts(seeds, m'[seeds[|seeds| - 1].id := seeds[|seeds| - 1]])
  {
    var init, last := seeds[..|seeds| - 1], seeds[|seeds| - 1];
    var m := m'[last.id := last];
    assert seeds == init + [last];
    SeedMapStepKeys(seeds, init, last, m', m);
    SeedMapStepValues(seeds, init, last, m', m);
    SeedMapStepLast(seeds, init, last, m', m);
  }

  lemma SeedMapStepKeys(seeds: seq<Test>, init: seq<Test>, last: Test, m': map<TestId, Test>, m: map<TestId, Test>)
    requires seeds == init + [last] && m == m'[last.id := last]
    requires forall k :: k in m' <==> exists i :: 0 <= i < |init| && init[i].id == k
    ensures forall k :: k in m <==> exists i :: 0 <= i < |seeds| && seeds[i].id == k
  {
    forall k | (exists i :: 0 <= i < |seeds| && seeds[i].id == k)
      ensures k in m
    {
      var i :| 0 <= i < |seeds| && seeds[i].id == k;
      if i < |init| {
        assert init[i].id == k;
      }
    }
    forall k | k in m'
      ensures exists i :: 0 <= i < |seeds| && seeds[i].id == k
    {
      var i :| 0 <= i < |init| && init[i].id == k;
      assert seeds[i].id == k;
    }
    assert seeds[|init|].id == last.id;
  }

  lemma SeedMapStepValues(seeds: seq<Test>, init: seq<Test>, last: Test, m': map<TestId, Test>, m: map<TestId, Test>)
    requires seeds == init + [last] && m == m'[last.id := last]
    requires forall k :: k in m' ==> exists i :: 0 <= i < |init| && init[i] == m'[k] && init[i].id == k
    ensures forall k :: k in m ==> exists i :: 0 <= i < |seeds| && seeds[i] == m[k] && seeds[i].id == k
  {
    forall k | k in m
      ensures exists i :: 0 <= i < |seeds| && seeds[i] == m[k] && seeds[i].id == k
    {
      if k == last.id {
        assert seeds[|init|] == m[k];
      } else {
        var i :| 0 <= i < |init| && init[i] == m'[k] && init[i].id == k;
        assert seeds[i] == m[k];
      }
    }
  }

  lemma SeedMapStepLast(seeds: seq<Test>, init: seq<Test>, last: Test, m': map<TestId, Test>, m: map<TestId, Test>)
    requires seeds == init + [last] && m == m'[last.id := last]
    requires forall i :: 0 <= i < |init| && (forall j :: i < j < |init| ==> init[j].id != init[i].id) ==>
               init[i].id in m' && m'[init[i].id] == init[i]
    ensures forall i :: 0 <= i < |seeds| && (forall j :: i < j < |seeds| ==> seeds[j].id != seeds[i].id) ==>
              seeds[i].id in m && m[seeds[i].id] == seeds[i]
  {
    forall i | 0 <= i < |seeds| && (forall j :: i < j < |seeds| ==> seeds[j].id != seeds[i].id)
      ensures seeds[i].id in m && m[seeds[i].id] == seeds[i]
    {
      if i < |init| {
        assert seeds[i] == init[i];
        assert seeds[|init|] == last && last.id != init[i].id;
        forall j | i < j < |init|
          ensures init[j].id != init[i].id
        {
          assert seeds[j] == init[j];
        }
        assert m'[init[i].id] == init[i];
      } else {
        assert seeds[i] == last;
      }
    }
  }

  /** The dependency of `t` is absent or already a key of `m`. */
  predicate DepIn(t: Test, m: map<TestId, Test>) {
    Dependency(t).Some? ==> Dependency(t).value in m
  }

  lemma FewerUnfetched(store: Store, m: map<TestId, Test>, id: TestId)
    requires id in store && id !in m
    ensures |store.Keys - m[id := store[id]].Keys| < |store.Keys - m.Keys|
  {
    assert store.Keys - m[id := store[id]].Keys == (store.Keys - m.Keys) - {id};
  }

  /**
   * One call of `_fillMapWithTestDependencies(testsMap, t)`: follow the first
   * RUN_AFTER_TEST target of `t` if it is truthy and not yet a key; fetch it, file it,
   * and continue from the fetched row. A target the table cannot resolve is
   * `Err(target)`: the source files `undefined` under it and then fails reading
   * `undefined.events`.
   */
  function Fill(store: Store, r: Resolution, t: Test): Result<Resolution, TestId>
    decreases |store.Keys - r.tests.Keys|
  {
    match Dependency(t)
    case None => Ok(r)
    case Some(id) =>
      if id in r.tests then Ok(r)
      else if id !in store then Err(id)
      else
        FewerUnfetched(store, r.tests, id);
        Fill(store, Resolution(r.tests[id := store[id]], r.fetched + [id]), store[id])
  }

  /** The `for (const test of tests)` loop: fill from every seed in order, stopping at the first failure. */
  function FillAll(store: Store, r: Resolution, seeds: seq<Test>): Result<Resolution, TestId>
    decreases |seeds|
  {
    if |seeds| == 0 then Ok(r)
    else match Fill(store, r, seeds[0])
      case Err(id) => Err(id)
      case Ok(r1) => FillAll(store, r1, seeds[1..])
  }

  /** The map `getCompleteTestsArray` builds before listing its values. */
  function Complete(store: Store, seeds: seq<Test>): Result<Resolution, TestId> {
    FillAll(store, Resolution(SeedMap(seeds), []), seeds)
  }

  /** A set of naturals holding `x` has a least element, found by descending from `x`. */
  lemma {:induction false} HasLeast(s: set<nat>, x: nat)
    requires x in s
    ensures exists k :: k in s && forall j :: j in s ==> k <= j
    decreases x
  {
    if y :| y in s && y < x {
      HasLeast(s, y);
    } else {
      assert forall j :: j in s ==> x <= j;
    }
  }

  function Least(s: set<nat>): (k: nat)
    requires s != {}
    ensures k in s && forall j :: j in s ==> k <= j
  {
    var x :| x in s;
    HasLeast(s, x);
    var k :| k in s && forall j :: j in s ==> k <= j;
    k
  }

  /** The integer keys of an object in the order `Object.values` visits them: ascending. */
  function AscendingKeys(s: set<nat>): (ks: seq<nat>)
    ensures |ks| == |s|
    ensures forall i :: 0 <= i < |ks| ==> ks[i] in s
    ensures forall k :: k in s ==> k in ks
    ensures forall i, j :: 0 <= i < j < |ks| ==> ks[i] < ks[j]
    decreases |s|
  {
    if s == {} then []
    else
      var k := Least(s);
      var rest := AscendingKeys(s - {k});
      AscendingCons(s, k, rest);
      [k] + rest
  }

  /** The least element followed by the rest in ascending order lists the set in ascending order. */
  lemma AscendingCons(s: set<nat>, k: nat, rest: seq<nat>)
    requires k in s && forall j :: j in s ==> k <= j
    requires |rest| == |s - {k}|
    requires forall i :: 0 <= i < |rest| ==> rest[i] in s - {k}
    requires forall j :: j in s - {k} ==> j in rest
    requires forall i, j :: 0 <= i < j < |rest| ==> rest[i] < rest[j]
    ensures |[k] + rest| == |s|
    ensures forall i :: 0 <= i < |[k] + rest| ==> ([k] + rest)[i] in s
    ensures forall j :: j in s ==> j in [k] + rest
    ensures forall i, j :: 0 <= i < j < |[k] + rest| ==> ([k] + rest)[i] < ([k] + rest)[j]
  {
    var ks := [k] + rest;
    assert |s - {k}| == |s| - 1;
    assert forall i :: 1 <= i < |ks| ==> ks[i] == rest[i - 1];
    assert forall j :: j in s ==> j == k || j in s - {k};
  }

  /** `Object.values(testsMap)`. */
  function ValuesByKey(m: map<TestId, Test>): seq<Test> {
    var ks := AscendingKeys(m.Keys);
    seq(|ks|, i requires 0 <= i < |ks| => m[ks[i]])
  }

  /** What `getCompleteTestsArray(tests)` resolves to, or the id whose row was missing. */
  function CompleteTestsArray(store: Store, seeds: seq<Test>): Result<seq<Test>, TestId> {
    match Complete(store, seeds)
    case Err(id) => Err(id)
    case Ok(r) => Ok(ValuesByKey(r.tests))
  }

  /** The plain object `testsMap` that `_fillMapWithTestDependencies` fills in place, with the log of its fetches. */
  class TestsMap {
    var tests: map<TestId, Test>
    var fetched: seq<TestId>

    constructor (seeds: map<TestId, Test>)
      ensures tests == seeds && fetched == []
    {
      tests := seeds;
      fetched := [];
    }

    function State(): Resolution
      reads this
    {
      Resolution(tests, fetched)
    }
  }

  /**
   * `_fillMapWithTestDependencies(testsMap, test)`. Returns the id of a missing row
   * (where the source throws), or None; the target is fetched once, where the source
   * asks the table for it twice.
   */
  method FillMapWithTestDependencies(store: Store, testsMap: TestsMap, test: Test) returns (missing: Option<TestId>)
    modifies testsMap
    decreases |store.Keys - testsMap.tests.Keys|
    ensures Fill(store, old(testsMap.State()), test).Ok? ==>
              missing.None? && testsMap.State() == Fill(store, old(testsMap.State()), test).value
    ensures Fill(store, old(testsMap.State()), test).Err? ==>
              missing == Some(Fill(store, old(testsMap.State()), test).error)
  {
    var runAfterTestAction := FindRunAfter(test.events);
    if runAfterTestAction.Some? {
      var runAfterTestId := test.events[runAfterTestAction.value].target;
      if runAfterTestId.Some? && runAfterTestId.value != 0 {
        var id := runAfterTestId.value;
        if id !in testsMap.tests {
          if id !in store {
            return Some(id);
          }
          FewerUnfetched(store, testsMap.tests, id);
          testsMap.tests := testsMap.tests[id := store[id]];
          testsMap.fetched := testsMap.fetched + [id];
          missing := FillMapWithTestDependencies(store, testsMap, store[id]);
          return;
        }
      }
    }
    missing := None;
  }

  /** `getCompleteTestsArray(tests)`: the seeds and everything they must run after, ascending by id. */
  method GetCompleteTestsArray(store: Store, tests: seq<Test>) returns (r: Result<seq<Test>, TestId>)
    ensures r == CompleteTestsArray(store, tests)
  {
    var testsMap := new TestsMap(SeedMap(tests));
    for i := 0 to |tests|
      invariant Complete(store, tests) == FillAll(store, testsMap.State(), tests[i..])
    {
      ghost var before := testsMap.State();
      assert tests[i..][0] == tests[i] && tests[i..][1..] == tests[i + 1..];
      var missing := FillMapWithTestDependencies(store, testsMap, tests[i]);
      if missing.Some? {
        return Err(missing.value);
      }
      assert FillAll(store, before, tests[i..]) == FillAll(store, testsMap.State(), tests[i + 1..]);
    }
    r := Ok(ValuesByKey(testsMap.tests));
  }

  // ---------------------------------------------------------------------------
  // What the closure is: the reference definition by paths, and the lemmas.

  /** Following first-RUN_AFTER_TEST targets from `t`, looking each one up in the table, reaches `k` in `n + 1` steps. */
  ghost predicate ReachesIn(store: Store, t: Test, k: TestId, n: nat)
    decreases n
  {
    match Dependency(t)
    case None => false
    case Some(d) => if n == 0 then d == k else d in store && ReachesIn(store, store[d], k, n - 1)
  }

  ghost predicate Reaches(store: Store, t: Test, k: TestId) {
    exists n: nat :: ReachesIn(store, t, k, n)
  }

  ghost predicate ReachableFrom(store: Store, seeds: seq<Test>, k: TestId) {
    exists i :: 0 <= i < |seeds| && Reaches(store, seeds[i], k)
  }

  /** The seeds name the same dependencies as their rows in the table (true of fetched rows, expanded or not). */
  ghost predicate Consistent(store: Store, seeds: seq<Test>) {
    forall i :: 0 <= i < |seeds| ==> seeds[i].id in store && Dependency(store[seeds[i].id]) == Dependency(seeds[i])
  }

  ghost predicate Distinct(s: seq<TestId>) {
    forall i, j :: 0 <= i < j < |s| ==> s[i] != s[j]
  }

  /** Every fetched id was fetched once and is a key. */
  ghost predicate Tracked(r: Resolution) {
    Distinct(r.fetched) && forall i :: 0 <= i < |r.fetched| ==> r.fetched[i] in r.tests
  }

  /**
   * `r'` only adds to `r`: old keys keep their values, each new key is a fetched
   * table row, and the fetch log is extended by ids that were not keys before.
   */
  ghost predicate Grows(store: Store, r: Resolution, r': Resolution) {
    && r.tests.Keys <= r'.tests.Keys
    && (forall k :: k in r.tests ==> r'.tests[k] == r.tests[k])
    && (forall k :: k in r'.tests && k !in r.tests ==> k in store && r'.tests[k] == store[k] && k in r'.fetched)
    && |r.fetched| <= |r'.fetched| && r'.fetched[..|r.fetched|] == r.fetched
    && (forall i :: |r.fetched| <= i < |r'.fetched| ==> r'.fetched[i] !in r.tests)
  }

  /** Every row `r'` added to `r` has its own dependency among the keys of `r'`. */
  ghost predicate AddedClosed(store: Store, r: Resolution, r': Resolution) {
    forall k :: k in r'.tests && k !in r.tests && k in store ==> DepIn(store[k], r'.tests)
  }

  lemma GrowsTransitive(store: Store, r0: Resolution, r1: Resolution, r2: Resolution)
    requires Grows(store, r0, r1) && Grows(store, r1, r2)
    ensures Grows(store, r0, r2)
  {
    assert r2.fetched[..|r0.fetched|] == r2.fetched[..|r1.fetched|][..|r0.fetched|];
    forall i | |r0.fetched| <= i < |r2.fetched|
      ensures r2.fetched[i] !in r0.tests
    {
      if i < |r1.fetched| {
        assert r2.fetched[i] == r2.fetched[..|r1.fetched|][i] == r1.fetched[i];
      }
    }
    forall k | k in r2.tests && k !in r0.tests
      ensures k in r2.fetched
    {
      if k in r1.tests {
        var i :| 0 <= i < |r1.fetched| && r1.fetched[i] == k;
        assert r2.fetched[..|r1.fetched|][i] == k;
      }
    }
  }

  /** Fetching `d` and filing it is one step of growth. */
  lemma GrowsByFetch(store: Store, r: Resolution, d: TestId)
    requires d in store && d !in r.tests
    ensures Grows(store, r, Resolution(r.tests[d := store[d]], r.fetched + [d]))
    ensures Tracked(r) ==> Tracked(Resolution(r.tests[d := store[d]], r.fetched + [d]))
  {
    var r1 := Resolution(r.tests[d := store[d]], r.fetched + [d]);
    assert r1.fetched[..|r.fetched|] == r.fetched;
    assert r1.fetched[|r.fetched|] == d;
  }

  /** What one fill adds: table rows reachable from `t`, each fetched once, and `t`'s own dependency is then a key. */
  lemma {:induction false} FillGrows(store: Store, r: Resolution, t: Test)
    requires Fill(store, r, t).Ok?
    ensures Grows(store, r, Fill(store, r, t).value)
    ensures AddedClosed(store, r, Fill(store, r, t).value)
    ensures Tracked(r) ==> Tracked(Fill(store, r, t).value)
    ensures DepIn(t, Fill(store, r, t).value.tests)
    ensures forall k :: k in Fill(store, r, t).value.tests && k !in r.tests ==> Reaches(store, t, k)
    decreases |store.Keys - r.tests.Keys|
  {
    match Dependency(t)
    case None =>
    case Some(d) =>
      if d !in r.tests {
        FewerUnfetched(store, r.tests, d);
        var r1 := Resolution(r.tests[d := store[d]], r.fetched + [d]);
        assert Fill(store, r, t) == Fill(store, r1, store[d]);
        FillGrows(store, r1, store[d]);
        FillStep(store, r, t, d, Fill(store, r1, store[d]).value);
      }
  }

  /** All that `FillGrows` states about the fill of `t` from `r` ending in `r'`. */
  ghost predicate FillFacts(store: Store, r: Resolution, t: Test, r': Resolution) {
    && Grows(store, r, r')
    && AddedClosed(store, r, r')
    && (Tracked(r) ==> Tracked(r'))
    && DepIn(t, r'.tests)
    && (forall k :: k in r'.tests && k !in r.tests ==> Reaches(store, t, k))
  }

  /** The facts for fetching `t`'s dependency `d` and filling on from it give the facts for `t`. */
  lemma FillStep(store: Store, r: Resolution, t: Test, d: TestId, r': Resolution)
    requires Dependency(t) == Some(d) && d !in r.tests && d in store
    requires FillFacts(store, Resolution(r.tests[d := store[d]], r.fetched + [d]), store[d], r')
    ensures FillFacts(store, r, t, r')
  {
    var r1 := Resolution(r.tests[d := store[d]], r.fetched + [d]);
    GrowsByFetch(store, r, d);
    GrowsTransitive(store, r, r1, r');
    ReachesThrough(store, t, d, r.tests, r1.tests, r'.tests);
  }

  /** Ids reached from `t`'s dependency `d` are reached from `t`. */
  lemma ReachesThrough(store: Store, t: Test, d: TestId, m: map<TestId, Test>, m1: map<TestId, Test>, m': map<TestId, Test>)
    requires Dependency(t) == Some(d) && d in store
    requires m1.Keys == m.Keys + {d}
    requires forall k :: k in m' && k !in m1 ==> Reaches(store, store[d], k)
    ensures forall k :: k in m' && k !in m ==> Reaches(store, t, k)
  {
    forall k | k in m' && k !in m
      ensures Reaches(store, t, k)
    {
      if k == d {
        assert ReachesIn(store, t, k, 0);
      } else {
        var n: nat :| ReachesIn(store, store[d], k, n);
        assert ReachesIn(store, t, k, n + 1);
      }
    }
  }

  /** A fill fails only on a reachable id that is not in the table. */
  lemma {:induction false} FillMissing(store: Store, r: Resolution, t: Test)
    requires Fill(store, r, t).Err?
    ensures Fill(store, r, t).error !in store && Reaches(store, t, Fill(store, r, t).error)
    decreases |store.Keys - r.tests.Keys|
  {
    var e := Fill(store, r, t).error;
    var d := Dependency(t).value;
    if d in store {
      FewerUnfetched(store, r.tests, d);
      var r1 := Resolution(r.tests[d := store[d]], r.fetched + [d]);
      assert Fill(store, r, t) == Fill(store, r1, store[d]);
      FillMissing(store, r1, store[d]);
      var n: nat :| ReachesIn(store, store[d], e, n);
      assert ReachesIn(store, t, e, n + 1);
    } else {
      assert ReachesIn(store, t, d, 0);
    }
  }

  lemma {:induction false} FillAllGrows(store: Store, r: Resolution, seeds: seq<Test>)
    requires FillAll(store, r, seeds).Ok?
    ensures Grows(store, r, FillAll(store, r, seeds).value)
    ensures AddedClosed(store, r, FillAll(store, r, seeds).value)
    ensures Tracked(r) ==> Tracked(FillAll(store, r, seeds).value)
    ensures forall i :: 0 <= i < |seeds| ==> DepIn(seeds[i], FillAll(store, r, seeds).value.tests)
    ensures forall k :: k in FillAll(store, r, seeds).value.tests && k !in r.tests ==> ReachableFrom(store, seeds, k)
    decreases |seeds|
  {
    if |seeds| > 0 {
      FillGrows(store, r, seeds[0]);
      var r1 := Fill(store, r, seeds[0]).value;
      FillAllGrows(store, r1, seeds[1..]);
      var r' := FillAll(store, r1, seeds[1..]).value;
      GrowsTransitive(store, r, r1, r');
      forall k | k in r'.tests && k !in r.tests && k in store
        ensures DepIn(store[k], r'.tests)
      {
        if k in r1.tests { assert DepIn(store[k], r1.tests); }
      }
      forall i | 0 <= i < |seeds|
        ensures DepIn(seeds[i], r'.tests)
      {
        if i > 0 { assert seeds[1..][i - 1] == seeds[i]; }
      }
      forall k | k in r'.tests && k !in r.tests
        ensures ReachableFrom(store, seeds, k)
      {
        if k in r1.tests {
          assert Reaches(store, seeds[0], k);
        } else {
          var i :| 0 <= i < |seeds[1..]| && Reaches(store, seeds[1..][i], k);
          assert seeds[1..][i] == seeds[i + 1];
        }
      }
    } else {
      assert r.fetched[..|r.fetched|] == r.fetched;
    }
  }

  lemma {:induction false} FillAllMissing(store: Store, r: Resolution, seeds: seq<Test>)
    requires FillAll(store, r, seeds).Err?
    ensures FillAll(store, r, seeds).error !in store
    ensures ReachableFrom(store, seeds, FillAll(store, r, seeds).error)
    decreases |seeds|
  {
    var e := FillAll(store, r, seeds).error;
    if Fill(store, r, seeds[0]).Err? {
      FillMissing(store, r, seeds[0]);
    } else {
      FillAllMissing(store, Fill(store, r, seeds[0]).value, seeds[1..]);
      var i :| 0 <= i < |seeds[1..]| && Reaches(store, seeds[1..][i], e);
      assert seeds[1..][i] == seeds[i + 1];
    }
  }

  /** Following dependencies inside a map that holds every dependency of its table rows never leaves it. */
  lemma {:induction false} ReachesStaysIn(store: Store, m: map<TestId, Test>, t: Test, k: TestId, n: nat)
    requires forall d :: d in m && d in store ==> DepIn(store[d], m)
    requires DepIn(t, m)
    requires ReachesIn(store, t, k, n)
    ensures k in m
    decreases n
  {
    var d := Dependency(t).value;
    if n > 0 {
      ReachesStaysIn(store, m, store[d], k, n - 1);
    }
  }

  /** Facts about a successful resolution, read off the fill lemmas. */
  lemma CompleteFacts(store: Store, seeds: seq<Test>)
    requires Complete(store, seeds).Ok?
    ensures var r := Complete(store, seeds).value;
      && Grows(store, Resolution(SeedMap(seeds), []), r)
      && AddedClosed(store, Resolution(SeedMap(seeds), []), r)
      && Tracked(r)
      && (forall i :: 0 <= i < |seeds| ==> DepIn(seeds[i], r.tests))
      && (forall k :: k in r.tests && k !in SeedMap(seeds) ==> ReachableFrom(store, seeds, k))
  {
    FillAllGrows(store, Resolution(SeedMap(seeds), []), seeds);
  }

  /**
   * When every lookup succeeds, the closure's ids are exactly the seed ids and the ids
   * reachable from a seed by following first RUN_AFTER_TEST targets.
   */
  lemma ClosureIsReachableSet(store: Store, seeds: seq<Test>)
    requires Consistent(store, seeds)
    requires Complete(store, seeds).Ok?
    ensures forall k :: k in Complete(store, seeds).value.tests <==>
              (exists i :: 0 <= i < |seeds| && seeds[i].id == k) || ReachableFrom(store, seeds, k)
  {
    var m0 := SeedMap(seeds);
    var m := Complete(store, seeds).value.tests;
    CompleteFacts(store, seeds);
    forall d | d in m && d in store
      ensures DepIn(store[d], m)
    {
      if d in m0 {
        var i :| 0 <= i < |seeds| && seeds[i].id == d;
        assert Dependency(store[d]) == Dependency(seeds[i]);
      }
    }
    forall k | ReachableFrom(store, seeds, k)
      ensures k in m
    {
      var i :| 0 <= i < |seeds| && Reaches(store, seeds[i], k);
      var n: nat :| ReachesIn(store, seeds[i], k, n);
      ReachesStaysIn(store, m, seeds[i], k, n);
    }
  }

  /** Every id is fetched at most once: the fetch log has no repeats, holds no seed id, and covers every added id. */
  lemma FetchedOnce(store: Store, seeds: seq<Test>)
    requires Complete(store, seeds).Ok?
    ensures var r := Complete(store, seeds).value;
      && Distinct(r.fetched)
      && (forall i :: 0 <= i < |r.fetched| ==> r.fetched[i] in r.tests && r.fetched[i] !in SeedMap(seeds))
      && (forall k :: k in r.tests && k !in SeedMap(seeds) ==> k in r.fetched)
  {
    CompleteFacts(store, seeds);
  }

  /** Resolution fails exactly when some reachable id has no row; the id it reports is such an id. */
  lemma MissingIffUnresolvable(store: Store, seeds: seq<Test>)
    requires Consistent(store, seeds)
    ensures Complete(store, seeds).Err? <==> exists k :: ReachableFrom(store, seeds, k) && k !in store
    ensures Complete(store, seeds).Err? ==>
              Complete(store, seeds).error !in store && ReachableFrom(store, seeds, Complete(store, seeds).error)
  {
    if Complete(store, seeds).Err? {
      FillAllMissing(store, Resolution(SeedMap(seeds), []), seeds);
    } else {
      var m0 := SeedMap(seeds);
      var m := Complete(store, seeds).value.tests;
      ClosureIsReachableSet(store, seeds);
      CompleteFacts(store, seeds);
      forall k | ReachableFrom(store, seeds, k)
        ensures k in store
      {
        assert k in m;
        if k in m0 {
          var i :| 0 <= i < |seeds| && seeds[i].id == k;
        }
      }
    }
  }

  /** Every value of the closure map is filed under its own id and has its dependency in the map. */
  lemma ClosureValues(store: Store, seeds: seq<Test>)
    requires WellFormedStore(store)
    requires Complete(store, seeds).Ok?
    ensures var m := Complete(store, seeds).value.tests;
      forall k :: k in m ==> m[k].id == k && DepIn(m[k], m)
  {
    var m0 := SeedMap(seeds);
    CompleteFacts(store, seeds);
    var m := Complete(store, seeds).value.tests;
    forall k | k in m
      ensures m[k].id == k && DepIn(m[k], m)
    {
      if k in m0 {
        var i :| 0 <= i < |seeds| && seeds[i] == m0[k] && seeds[i].id == k;
        assert m[k] == seeds[i];
      } else {
        assert m[k] == store[k];
      }
    }
  }

  /** `Object.values` lists each key's value once, in ascending key order. */
  lemma ValuesByKeyOrder(m: map<TestId, Test>)
    requires forall k :: k in m ==> m[k].id == k
    ensures var vs := ValuesByKey(m);
      && |vs| == |m.Keys|
      && (forall i :: 0 <= i < |vs| ==> vs[i].id in m && m[vs[i].id] == vs[i])
      && (forall k :: k in m ==> exists i :: 0 <= i < |vs| && vs[i].id == k)
      && (forall i, j :: 0 <= i < j < |vs| ==> vs[i].id < vs[j].id)
  {
    var ks := AscendingKeys(m.Keys);
    var vs := ValuesByKey(m);
    assert |vs| == |ks| == |m.Keys|;
    assert forall i :: 0 <= i < |vs| ==> vs[i] == m[ks[i]];
    ValuesIds(m, ks, vs);
    forall k | k in m
      ensures exists i :: 0 <= i < |vs| && vs[i].id == k
    {
      assert k in m.Keys;
      var i :| 0 <= i < |ks| && ks[i] == k;
      assert vs[i].id == k;
    }
  }

  lemma ValuesIds(m: map<TestId, Test>, ks: seq<nat>, vs: seq<Test>)
    requires forall k :: k in m ==> m[k].id == k
    requires |vs| == |ks|
    requires forall i :: 0 <= i < |ks| ==> ks[i] in m && vs[i] == m[ks[i]]
    requires forall i, j :: 0 <= i < j < |ks| ==> ks[i] < ks[j]
    ensures forall i :: 0 <= i < |vs| ==> vs[i].id == ks[i] && vs[i].id in m && m[vs[i].id] == vs[i]
    ensures forall i, j :: 0 <= i < j < |vs| ==> vs[i].id < vs[j].id
  {
    forall i | 0 <= i < |vs|
      ensures vs[i].id == ks[i]
    {
      assert m[ks[i]].id == ks[i];
    }
  }

  /** The resolved array lists each test once, ascending by id (duplicate seeds collapse). */
  lemma ResolvedArrayAscending(store: Store, seeds: seq<Test>)
    requires WellFormedStore(store)
    requires CompleteTestsArray(store, seeds).Ok?
    ensures var out := CompleteTestsArray(store, seeds).value;
      var m := Complete(store, seeds).value.tests;
      && |out| == |m.Keys|
      && (forall i :: 0 <= i < |out| ==> out[i].id in m && m[out[i].id] == out[i])
      && (forall k :: k in m ==> exists i :: 0 <= i < |out| && out[i].id == k)
      && (forall i, j :: 0 <= i < j < |out| ==> out[i].id < out[j].id)
  {
    ClosureValues(store, seeds);
    ValuesByKeyOrder(Complete(store, seeds).value.tests);
  }

  /** Seeding with the values of a map keyed by the values' own ids gives the map back. */
  lemma SeedMapOfValues(m: map<TestId, Test>)
    requires forall k :: k in m ==> m[k].id == k
    ensures SeedMap(ValuesByKey(m)) == m
  {
    ValuesByKeyOrder(m);
    SeedMapOfListing(m, ValuesByKey(m));
  }

  lemma SeedMapOfListing(m: map<TestId, Test>, vs: seq<Test>)
    requires forall i :: 0 <= i < |vs| ==> vs[i].id in m && m[vs[i].id] == vs[i]
    requires forall k :: k in m ==> exists i :: 0 <= i < |vs| && vs[i].id == k
    ensures SeedMap(vs) == m
  {
    ListingFactsDetermine(m, vs, SeedMap(vs));
  }

  /** Any map with the seed-map facts of a listing of `m` is `m`. */
  lemma ListingFactsDetermine(m: map<TestId, Test>, vs: seq<Test>, m': map<TestId, Test>)
    requires forall i :: 0 <= i < |vs| ==> vs[i].id in m && m[vs[i].id] == vs[i]
    requires forall k :: k in m ==> exists i :: 0 <= i < |vs| && vs[i].id == k
    requires forall k :: k in m' <==> exists i :: 0 <= i < |vs| && vs[i].id == k
    requires forall k :: k in m' ==> exists i :: 0 <= i < |vs| && vs[i] == m'[k] && vs[i].id == k
    ensures m' == m
  {
    assert m'.Keys == m.Keys by {
      forall k | k in m'
        ensures k in m
      {
        var i :| 0 <= i < |vs| && vs[i].id == k;
      }
    }
    forall k | k in m'
      ensures m'[k] == m[k]
    {
      var i :| 0 <= i < |vs| && vs[i] == m'[k] && vs[i].id == k;
    }
  }

  /** Filling from tests whose dependencies are all keys changes nothing and fetches nothing. */
  lemma {:induction false} FillAllNoop(store: Store, r: Resolution, seeds: seq<Test>)
    requires forall i :: 0 <= i < |seeds| ==> DepIn(seeds[i], r.tests)
    ensures FillAll(store, r, seeds) == Ok(r)
    decreases |seeds|
  {
    if |seeds| > 0 {
      assert forall i :: 0 <= i < |seeds[1..]| ==> seeds[1..][i] == seeds[i + 1];
      FillAllNoop(store, r, seeds[1..]);
    }
  }

  /** Resolving the resolved array again fetches nothing and returns the same array. */
  lemma ResolvingTwiceAddsNothing(store: Store, seeds: seq<Test>)
    requires WellFormedStore(store)
    requires CompleteTestsArray(store, seeds).Ok?
    ensures var out := CompleteTestsArray(store, seeds).value;
      Complete(store, out) == Ok(Resolution(Complete(store, seeds).value.tests, []))
      && CompleteTestsArray(store, out) == Ok(out)
  {
    var m := Complete(store, seeds).value.tests;
    var out := CompleteTestsArray(store, seeds).value;
    ClosureValues(store, seeds);
    SeedMapOfValues(m);
    ValuesByKeyOrder(m);
    FillAllNoop(store, Resolution(m, []), out);
  }

  lemma AscendingOneTwo()
    ensures AscendingKeys({1, 2}) == [1, 2]
  {
    assert Least({1, 2}) == 1;
    assert {1, 2} - {1} == {2};
    assert Least({2}) == 2;
    assert {2} - {2} == {};
    assert AscendingKeys({2}) == [2];
  }

  /** A two-test cycle A -> B -> A stops at A: B is fetched once and the walk ends. */
  lemma CycleOfTwoResolves()
    ensures var a := Test(1, 7, 3, "A", [RunAfterTest(Some(2))], None);
      var b := Test(2, 7, 3, "B", [RunAfterTest(Some(1))], None);
      Complete(map[1 := a, 2 := b], [a]) == Ok(Resolution(map[1 := a, 2 := b], [2]))
  {
    var a := Test(1, 7, 3, "A", [RunAfterTest(Some(2))], None);
    var b := Test(2, 7, 3, "B", [RunAfterTest(Some(1))], None);
    var store := map[1 := a, 2 := b];
    assert Dependency(a) == Some(2);
    assert Dependency(b) == Some(1);
    var m1 := map[1 := a];
    assert SeedMap([a]) == m1;
    var r0 := Resolution(m1, []);
    var r1 := Resolution(store, [2]);
    assert Fill(store, r1, b) == Ok(r1);
    assert Resolution(r0.tests[2 := store[2]], r0.fetched + [2]) == r1;
    assert Fill(store, r0, a) == Fill(store, r1, b);
    assert [a][1..] == [];
    assert FillAll(store, r0, [a]) == FillAll(store, r1, []);
  }

  /** The cycle's resolved array lists A then B. */
  lemma CycleOfTwo()
    ensures var a := Test(1, 7, 3, "A", [RunAfterTest(Some(2))], None);
      var b := Test(2, 7, 3, "B", [RunAfterTest(Some(1))], None);
      CompleteTestsArray(map[1 := a, 2 := b], [a]) == Ok([a, b])
  {
    var a := Test(1, 7, 3, "A", [RunAfterTest(Some(2))], None);
    var b := Test(2, 7, 3, "B", [RunAfterTest(Some(1))], None);
    var m := map[1 := a, 2 := b];
    CycleOfTwoResolves();
    assert m.Keys == {1, 2};
    AscendingOneTwo();
    assert ValuesByKey(m) == [a, b];
  }
}
