/**
 * `getFullTest` / `getFullTestArr`: the code of a saved code template is copied
 * into every CUSTOM_CODE action that names one, before a test is handed to the runner.
 */
module Templates {
  import opened Wrappers
  import opened TestModel

  /** The team's code templates by id, as `codeTemplateService.get` finds them; an absent id is a null template. */
  type TemplateStore = map<nat, string>

  /** The template a CUSTOM_CODE action names, when its `templateId` is truthy and the template exists. */
  function TemplateFor(templates: TemplateStore, a: Action): Option<string> {
    if a.CustomCode? && a.templateId.Some? && a.templateId.value != 0 && a.templateId.value in templates
    then Some(templates[a.templateId.value])
    else None
  }

  /** One action after expansion: `payload.meta.script` becomes the template's code. */
  function ExpandAction(templates: TemplateStore, a: Action): Action {
    match TemplateFor(templates, a)
    case None => a
    case Some(code) => a.(script := code)
  }

  /** The action list after expansion, position by position. */
  function ExpandedEvents(templates: TemplateStore, events: seq<Action>): seq<Action> {
    seq(|events|, i requires 0 <= i < |events| => ExpandAction(templates, events[i]))
  }

  /** `getFullTest(testRecord)`: the record with its actions expanded. */
  function FullTest(templates: TemplateStore, t: Test): Test {
    t.(events := ExpandedEvents(templates, t.events))
  }

  /** `getFullTestArr(testRecords)`: every record expanded, in order. */
  function FullTests(templates: TemplateStore, ts: seq<Test>): seq<Test> {
    seq(|ts|, i requires 0 <= i < |ts| => FullTest(templates, ts[i]))
  }

  /**
   * The update loop of `getFullTest` over the parsed action array: each CUSTOM_CODE
   * action with a truthy template id whose template is found gets that template's code.
   * The source starts these updates together and waits for all of them; each touches its
   * own action, so doing them one after another gives the same array.
   */
  method ExpandTemplates(templates: TemplateStore, actions: array<Action>)
    modifies actions
    ensures actions[..] == ExpandedEvents(templates, old(actions[..]))
  {
    for i := 0 to actions.Length
      invariant forall j :: 0 <= j < i ==> actions[j] == ExpandAction(templates, old(actions[j]))
      invariant forall j :: i <= j < actions.Length ==> actions[j] == old(actions[j])
    {
      var action := actions[i];
      if action.CustomCode? {
        if action.templateId.Some? && action.templateId.value != 0 {
          if action.templateId.value in templates {
            actions[i] := action.(script := templates[action.templateId.value]);
          }
        }
      }
    }
  }

  /** `getFullTest(testRecord)`: parse the actions, expand them in place, store them back. */
  method GetFullTest(templates: TemplateStore, testRecord: Test) returns (full: Test)
    ensures full == FullTest(templates, testRecord)
  {
    var actions := new Action[|testRecord.events|](i requires 0 <= i < |testRecord.events| => testRecord.events[i]);
    assert actions[..] == testRecord.events;
    ExpandTemplates(templates, actions);
    full := testRecord.(events := actions[..]);
  }

  /** `getFullTestArr(testRecords)`. */
  method GetFullTestArr(templates: TemplateStore, testRecords: seq<Test>) returns (full: seq<Test>)
    ensures full == FullTests(templates, testRecords)
  {
    full := [];
    for i := 0 to |testRecords|
      invariant full == FullTests(templates, testRecords[..i])
    {
      var t := GetFullTest(templates, testRecords[i]);
      full := full + [t];
    }
    assert testRecords[..|testRecords|] == testRecords;
  }

  /**
   * Expansion keeps the number and order of actions and every record field except the
   * actions; it changes only CUSTOM_CODE actions with a truthy, known template id, and in
   * those only the script, which becomes the template's code.
   */
  lemma ExpansionChangesOnlyScripts(templates: TemplateStore, t: Test)
    ensures var f := FullTest(templates, t);
      && f.id == t.id && f.projectId == t.projectId && f.userId == t.userId
      && f.name == t.name && f.draftJobId == t.draftJobId
      && |f.events| == |t.events|
      && (forall i :: 0 <= i < |t.events| && !t.events[i].CustomCode? ==> f.events[i] == t.events[i])
      && (forall i :: 0 <= i < |t.events| && t.events[i].CustomCode? ==>
            && f.events[i].CustomCode?
            && f.events[i].templateId == t.events[i].templateId
            && (f.events[i].script != t.events[i].script ==>
                  var id := t.events[i].templateId;
                  id.Some? && id.value != 0 && id.value in templates && f.events[i].script == templates[id.value]))
      && (forall i :: 0 <= i < |t.events| && TemplateFor(templates, t.events[i]).Some? ==>
            f.events[i].script == TemplateFor(templates, t.events[i]).value)
  {
  }

  /** Expanding an expanded record changes nothing more. */
  lemma ExpansionIdempotent(templates: TemplateStore, t: Test)
    ensures FullTest(templates, FullTest(templates, t)) == FullTest(templates, t)
  {
    var f := FullTest(templates, t);
    var g := FullTest(templates, f);
    forall i | 0 <= i < |t.events|
      ensures g.events[i] == f.events[i]
    {
      assert TemplateFor(templates, f.events[i]) == TemplateFor(templates, t.events[i]);
    }
  }

  /** The first RUN_AFTER_TEST action is found at the same place in two lists that agree on where such actions are. */
  lemma {:induction false} FindRunAfterAgrees(xs: seq<Action>, ys: seq<Action>)
    requires |xs| == |ys|
    requires forall i :: 0 <= i < |xs| ==> (xs[i].RunAfterTest? <==> ys[i].RunAfterTest?)
    ensures FindRunAfter(xs) == FindRunAfter(ys)
  {
    if |xs| > 0 && !xs[0].RunAfterTest? {
      assert forall i :: 0 <= i < |xs[1..]| ==> xs[1..][i] == xs[i + 1] && ys[1..][i] == ys[i + 1];
      FindRunAfterAgrees(xs[1..], ys[1..]);
    }
  }

  /** Expansion leaves the test's run-after dependency alone. */
  lemma ExpansionKeepsDependency(templates: TemplateStore, t: Test)
    ensures Dependency(FullTest(templates, t)) == Dependency(t)
  {
    var f := FullTest(templates, t);
    FindRunAfterAgrees(f.events, t.events);
    var k := FindRunAfter(t.events);
    if k.Some? {
      assert f.events[k.value] == t.events[k.value];
    }
  }

  /** `getFullTestArr` keeps the number, order and ids of the records, and each one's dependency. */
  lemma FullTestsKeepIds(templates: TemplateStore, ts: seq<Test>)
    ensures |FullTests(templates, ts)| == |ts|
    ensures forall i :: 0 <= i < |ts| ==>
              FullTests(templates, ts)[i].id == ts[i].id && Dependency(FullTests(templates, ts)[i]) == Dependency(ts[i])
  {
    forall i | 0 <= i < |ts|
      ensures Dependency(FullTests(templates, ts)[i]) == Dependency(ts[i])
    {
      ExpansionKeepsDependency(templates, ts[i]);
    }
  }
}
