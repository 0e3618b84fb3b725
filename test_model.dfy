/**
 * The records the test-run orchestration reads: a stored test and its recorded
 * actions. Actions are kept parsed (the tests table holds them as JSON text);
 * only the two kinds the orchestration looks into have a payload here.
 */
module TestModel {
  import opened Wrappers

  /** Row ids of the tests table; the closure's ordering relies on them being array-index keys. */
  type TestId = nat

  datatype Action =
      /** RUN_AFTER_TEST: `payload.meta.value` names the test to run first; None is undefined or null. */
    | RunAfterTest(target: Option<TestId>)
      /** CUSTOM_CODE: `payload.meta.templateId` and `payload.meta.script`. */
    | CustomCode(templateId: Option<nat>, script: string)
      /** Any other recorded action, passed through untouched. */
    | Other(kind: string)

  /** A row of the tests table, as `getTest` returns it. */
  datatype Test = Test(
    id: TestId,
    projectId: int,
    userId: int,
    name: string,
    events: seq<Action>,
    draftJobId: Option<int>)

  /** The tests table, reached by id through `getTest`; an absent id is the undefined row. */
  type Store = map<TestId, Test>

  /** Every row is filed under its own id. */
  ghost predicate WellFormedStore(store: Store) {
    forall id :: id in store ==> store[id].id == id
  }

  /** `actions.find(a => a.type === RUN_AFTER_TEST)`, as an index. */
  function FindRunAfter(actions: seq<Action>): (r: Option<nat>)
    ensures r.Some? ==> r.value < |actions| && actions[r.value].RunAfterTest?
    ensures r.Some? ==> forall j :: 0 <= j < r.value ==> !actions[j].RunAfterTest?
    ensures r.None? <==> forall j :: 0 <= j < |actions| ==> !actions[j].RunAfterTest?
  {
    if |actions| == 0 then None
    else if actions[0].RunAfterTest? then Some(0)
    else match FindRunAfter(actions[1..])
      case None => None
      case Some(k) => Some(k + 1)
  }

  /**
   * The test that `t` must run after: the target of its first RUN_AFTER_TEST action,
   * when that target is truthy. A later RUN_AFTER_TEST action is never looked at.
   */
  function Dependency(t: Test): (d: Option<TestId>)
    ensures d.Some? ==> d.value != 0 && exists k :: 0 <= k < |t.events| && t.events[k] == RunAfterTest(d)
    ensures (forall j :: 0 <= j < |t.events| ==> !t.events[j].RunAfterTest?) ==> d.None?
  {
    match FindRunAfter(t.events)
    case None => None
    case Some(k) =>
      var target := t.events[k].target;
      if target.Some? && target.value != 0 then target else None
  }

  /** Only the first RUN_AFTER_TEST action counts: a falsy first target hides every later one. */
  lemma FirstRunAfterOnly(t: Test, k: nat)
    requires k < |t.events| && t.events[k].RunAfterTest?
    requires forall j :: 0 <= j < k ==> !t.events[j].RunAfterTest?
    ensures Dependency(t).Some? <==> t.events[k].target.Some? && t.events[k].target.value != 0
    ensures Dependency(t).Some? ==> Dependency(t) == t.events[k].target
  {
  }
}
