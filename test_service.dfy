/**
 * `TestService`: the tests table, the short-lived temporary tests, the code templates
 * and the builds handed to the runner, with the three operations that start runs.
 */
module TestServiceModel {
  import opened Wrappers
  import opened TestModel
  import opened Templates
  import opened Closure
  import opened RunRequests

  /** How a run request fails; each is an exception in the source. */
  datatype ServiceError =
      /** A temporary test id that is not stored: its events parse to null and reading their length throws. */
    | EventsMissing
      /** "No name passed for the test". */
    | NoName
      /** A row that `getTest` does not find: reading its events throws. */
    | TestMissing(id: TestId)

  /** The `createAndRunTest` payload; an empty string is an absent or falsy property. */
  datatype CreatePayload = CreatePayload(
    tempTestId: string,
    name: string,
    shouldNotRunTests: bool,
    events: Option<seq<Action>>,
    proxyUrlsMap: Option<ProxyUrlsMap>)

  /** The events `createAndRunTest` stores: the temporary test's when one is named, else the payload's, else none. */
  function CreatedEvents(payload: CreatePayload, tempTests: map<string, seq<Action>>): seq<Action>
    requires |payload.tempTestId| > 0 ==> payload.tempTestId in tempTests
  {
    if |payload.tempTestId| > 0 then tempTests[payload.tempTestId]
    else if payload.events.Some? then payload.events.value else []
  }

  /** The named temporary test, if any, is stored. */
  predicate TempTestFound(payload: CreatePayload, tempTests: map<string, seq<Action>>) {
    |payload.tempTestId| > 0 ==> payload.tempTestId in tempTests
  }

  /** The row `createTest` inserts. */
  function NewRow(payload: CreatePayload, tempTests: map<string, seq<Action>>, projectId: int, userId: int, insertId: TestId): Test
    requires TempTestFound(payload, tempTests)
  {
    Test(insertId, projectId, userId, payload.name, CreatedEvents(payload, tempTests), None)
  }

  /** The part of the service state a run changes: the tests table and the builds submitted so far. */
  datatype Tables = Tables(tests: Store, submissions: seq<Submission>)

  /** What an operation returns, with the state it leaves. */
  datatype Outcome<T> = Outcome(result: Result<T, ServiceError>, tables: Tables)

  /** The draft run of a stored test, then `linkToDraftBuild`; the linked row is returned. */
  function SubmitDraftSpec(t: Tables, templates: TemplateStore, testId: TestId, proxyUrlsMap: Option<ProxyUrlsMap>,
                           projectId: int, userId: int, buildId: int): Outcome<Test>
    requires testId in t.tests
  {
    match DraftRun(t.tests, templates, t.tests[testId], userId, projectId, proxyUrlsMap)
    case Err(id) => Outcome(Err(TestMissing(id)), t)
    case Ok(submission) =>
      var tests := t.tests[testId := t.tests[testId].(draftJobId := Some(buildId))];
      Outcome(Ok(tests[testId]), Tables(tests, t.submissions + [submission]))
  }

  /** `createAndRunTest`, as a function of the state it starts from. */
  function CreateAndRun(t: Tables, tempTests: map<string, seq<Action>>, templates: TemplateStore, payload: CreatePayload,
                        projectId: int, userId: int, insertId: TestId, buildId: int): Outcome<TestId>
  {
    if !TempTestFound(payload, tempTests) then Outcome(Err(EventsMissing), t)
    else if |payload.name| == 0 then Outcome(Err(NoName), t)
    else
      var inserted := t.(tests := t.tests[insertId := NewRow(payload, tempTests, projectId, userId, insertId)]);
      if payload.shouldNotRunTests then Outcome(Ok(insertId), inserted)
      else
        var o := SubmitDraftSpec(inserted, templates, insertId, payload.proxyUrlsMap, projectId, userId, buildId);
        Outcome(if o.result.Ok? then Ok(insertId) else Err(o.result.error), o.tables)
  }

  /** `runDraftTest`, as a function of the state it starts from. */
  function RunDraft(t: Tables, templates: TemplateStore, testId: TestId, proxyUrlsMap: Option<ProxyUrlsMap>,
                    projectId: int, userId: int, buildId: int): Outcome<Test>
  {
    if testId !in t.tests then Outcome(Err(TestMissing(testId)), t)
    else SubmitDraftSpec(t, templates, testId, proxyUrlsMap, projectId, userId, buildId)
  }

  class TestService {
    /** The tests table. */
    var tests: Store
    /** Saved temporary tests by key (their expiry is left to the key-value store). */
    var tempTests: map<string, seq<Action>>
    /** The team's code templates. */
    var templates: TemplateStore
    /** Every call of `testsRunner.runTests`, in order. */
    var submissions: seq<Submission>
    /** Every BUILD_TRIGGERED analytics event, in order. */
    var triggered: seq<BuildTriggeredEvent>

    ghost predicate Valid()
      reads this
    {
      WellFormedStore(tests)
    }

    function State(): Tables
      reads this
    {
      Tables(tests, submissions)
    }

    constructor (tests: Store, tempTests: map<string, seq<Action>>, templates: TemplateStore)
      requires WellFormedStore(tests)
      ensures Valid()
      ensures this.tests == tests && this.tempTests == tempTests && this.templates == templates
      ensures submissions == [] && triggered == []
    {
      this.tests := tests;
      this.tempTests := tempTests;
      this.templates := templates;
      submissions := [];
      triggered := [];
    }

    /** `createTest(testInfo)`: insert a row under a fresh id. */
    method CreateTest(row: Test)
      requires Valid()
      requires row.id !in tests
      modifies this
      ensures Valid()
      ensures tests == old(tests)[row.id := row]
      ensures tempTests == old(tempTests) && templates == old(templates)
      ensures submissions == old(submissions) && triggered == old(triggered)
    {
      tests := tests[row.id := row];
    }

    /** `linkToDraftBuild(buildId, testId)`: the row's `draft_job_id` becomes the build. */
    method LinkToDraftBuild(buildId: int, testId: TestId)
      requires Valid()
      requires testId in tests
      modifies this
      ensures Valid()
      ensures tests == old(tests)[testId := old(tests)[testId].(draftJobId := Some(buildId))]
      ensures tempTests == old(tempTests) && templates == old(templates)
      ensures submissions == old(submissions) && triggered == old(triggered)
    {
      tests := tests[testId := tests[testId].(draftJobId := Some(buildId))];
    }

    /**
     * The draft run shared by `createAndRunTest` and `runDraftTest`: expand the stored test,
     * resolve what it must run after, submit that with only the test's id in `config.testIds`,
     * and link the test to the build.
     */
    method SubmitDraft(testId: TestId, proxyUrlsMap: Option<ProxyUrlsMap>, projectId: int, userId: int, buildId: int)
      returns (r: Result<Test, ServiceError>)
      requires Valid()
      requires testId in tests
      modifies this
      ensures Valid()
      ensures tempTests == old(tempTests) && templates == old(templates) && triggered == old(triggered)
      ensures Outcome(r, State()) == SubmitDraftSpec(old(State()), old(templates), testId, proxyUrlsMap, projectId, userId, buildId)
    {
      var testRecord := tests[testId];
      ghost var run := DraftRun(tests, templates, testRecord, userId, projectId, proxyUrlsMap);
      var full := GetFullTestArr(templates, [testRecord]);
      assert full == [FullTest(templates, testRecord)];
      var complete := GetCompleteTestsArray(tests, full);
      if complete.Err? {
        assert run == Err(complete.error);
        return Err(TestMissing(complete.error));
      }
      var submission := Submission(complete.value, DraftRequest(userId, projectId, proxyUrlsMap, testRecord.id), map[], None);
      assert run == Ok(submission);
      submissions := submissions + [submission];
      LinkToDraftBuild(buildId, testRecord.id);
      r := Ok(tests[testId]);
    }

    /**
     * `createAndRunTest(payload, projectId, userId)`. `insertId` is the id the table
     * assigns to the new row and `buildId` the id the runner gives the draft build.
     */
    method CreateAndRunTest(payload: CreatePayload, projectId: int, userId: int, insertId: TestId, buildId: int)
      returns (r: Result<TestId, ServiceError>)
      requires Valid()
      requires insertId !in tests
      modifies this
      ensures Valid()
      ensures tempTests == old(tempTests) && templates == old(templates) && triggered == old(triggered)
      ensures Outcome(r, State()) ==
                CreateAndRun(old(State()), old(tempTests), old(templates), payload, projectId, userId, insertId, buildId)
    {
      var events := if payload.events.Some? then payload.events.value else [];
      if |payload.tempTestId| > 0 {
        if payload.tempTestId !in tempTests {
          return Err(EventsMissing);
        }
        events := tempTests[payload.tempTestId];
      }
      if |payload.name| == 0 {
        return Err(NoName);
      }
      var row := Test(insertId, projectId, userId, payload.name, events, None);
      assert row == NewRow(payload, tempTests, projectId, userId, insertId);
      CreateTest(row);
      if payload.shouldNotRunTests {
        return Ok(insertId);
      }
      var submitted := SubmitDraft(insertId, payload.proxyUrlsMap, projectId, userId, buildId);
      r := if submitted.Ok? then Ok(insertId) else Err(submitted.error);
    }

    /** `runDraftTest(payload, projectId, userId)`: run a stored test as a draft and return its updated row. */
    method RunDraftTest(testId: TestId, proxyUrlsMap: Option<ProxyUrlsMap>, projectId: int, userId: int, buildId: int)
      returns (r: Result<Test, ServiceError>)
      requires Valid()
      modifies this
      ensures Valid()
      ensures tempTests == old(tempTests) && templates == old(templates) && triggered == old(triggered)
      ensures Outcome(r, State()) == RunDraft(old(State()), old(templates), testId, proxyUrlsMap, projectId, userId, buildId)
    {
      if testId !in tests {
        return Err(TestMissing(testId));
      }
      r := SubmitDraft(testId, proxyUrlsMap, projectId, userId, buildId);
    }

    /**
     * `runTestsInProject`: `data` is what `getTestsInProject` returned for the filters and
     * `project` the project row; `buildId` is the id the runner gives the build. Returns
     * the build id, or None where the source returns undefined for an empty list.
     */
    method RunTestsInProject(args: ProjectRunArgs, data: TestsPage, project: ProjectRecord, buildId: int)
      returns (output: Option<int>)
      requires Valid()
      modifies this
      ensures Valid()
      ensures tests == old(tests) && tempTests == old(tempTests) && templates == old(templates)
      ensures output.None? <==> |data.list| == 0
      ensures |data.list| == 0 ==> submissions == old(submissions) && triggered == old(triggered)
      ensures |data.list| > 0 ==>
                && output == Some(buildId)
                && submissions == old(submissions) + [ProjectRun(old(templates), args, data, project).value]
                && triggered == old(triggered) + [ProjectRunEvent(args, data, project, buildId)]
    {
      if |data.list| == 0 {
        return None;
      }
      var meta := BuildProjectMeta(args.buildMeta);
      var full := GetFullTestArr(templates, data.list);
      var request := BuildRequest(args.userId, args.projectId, "null", args.browsers, false,
        RunConfig(args.proxyUrlsMap, true, Ids(data.list)), Project(meta));
      submissions := submissions + [Submission(full, request, args.customTestsConfig, Baseline(args.overrideBaseLineBuildId, project))];
      triggered := triggered + [BuildTriggeredEvent(args.userId, project.teamId, buildId, Source(args.buildMeta), data.totalCount)];
      output := Some(buildId);
    }
  }

  /**
   * `createAndRunTest` inserts a row exactly when the temporary test (if named) is found and a
   * name is given; it fails before writing anything otherwise. Earlier rows are untouched, the
   * new row carries the temporary test's events when one is named, and it is linked to the
   * draft build exactly when a build was submitted.
   */
  lemma CreateAndRunWrites(t: Tables, tempTests: map<string, seq<Action>>, templates: TemplateStore, payload: CreatePayload,
                           projectId: int, userId: int, insertId: TestId, buildId: int)
    requires insertId !in t.tests
    ensures var o := CreateAndRun(t, tempTests, templates, payload, projectId, userId, insertId, buildId);
      && (insertId in o.tables.tests <==> TempTestFound(payload, tempTests) && |payload.name| > 0)
      && (o.result == Err(EventsMissing) <==> !TempTestFound(payload, tempTests))
      && (o.result == Err(NoName) <==> TempTestFound(payload, tempTests) && |payload.name| == 0)
      && (o.result.Err? && !o.result.error.TestMissing? ==> o.tables == t)
      && (forall id :: id in t.tests ==> id in o.tables.tests && o.tables.tests[id] == t.tests[id])
      && o.tables.tests.Keys <= t.tests.Keys + {insertId}
  {
  }

  /** The row `createAndRunTest` inserts and what it submits. */
  lemma CreateAndRunRow(t: Tables, tempTests: map<string, seq<Action>>, templates: TemplateStore, payload: CreatePayload,
                        projectId: int, userId: int, insertId: TestId, buildId: int)
    requires insertId !in t.tests
    requires TempTestFound(payload, tempTests) && |payload.name| > 0
    ensures var o := CreateAndRun(t, tempTests, templates, payload, projectId, userId, insertId, buildId);
      var row := o.tables.tests[insertId];
      && row.id == insertId && row.name == payload.name && row.projectId == projectId && row.userId == userId
      && (|payload.tempTestId| > 0 ==> row.events == tempTests[payload.tempTestId])
      && (|payload.tempTestId| == 0 ==> row.events == if payload.events.Some? then payload.events.value else [])
      && (row.draftJobId == Some(buildId) <==> o.result.Ok? && !payload.shouldNotRunTests)
      && (row.draftJobId.None? <==> !(o.result.Ok? && !payload.shouldNotRunTests))
      && (o.result.Ok? <==> |o.tables.submissions| == |t.submissions| + 1 || payload.shouldNotRunTests)
      && (o.result.Ok? ==> o.result.value == insertId)
      && (payload.shouldNotRunTests ==> o.tables.submissions == t.submissions)
  {
  }

  /**
   * A submitted draft of a new test asks for that test alone in `config.testIds`, and runs the
   * expanded new test together with every stored test it must run after, ascending by id.
   */
  lemma CreateAndRunSubmits(t: Tables, tempTests: map<string, seq<Action>>, templates: TemplateStore, payload: CreatePayload,
                            projectId: int, userId: int, insertId: TestId, buildId: int)
    requires WellFormedStore(t.tests)
    requires insertId !in t.tests
    requires TempTestFound(payload, tempTests) && |payload.name| > 0 && !payload.shouldNotRunTests
    requires CreateAndRun(t, tempTests, templates, payload, projectId, userId, insertId, buildId).result.Ok?
    ensures var o := CreateAndRun(t, tempTests, templates, payload, projectId, userId, insertId, buildId);
      var row := NewRow(payload, tempTests, projectId, userId, insertId);
      var store := t.tests[insertId := row];
      && o.tables.submissions[..|t.submissions|] == t.submissions
      && |o.tables.submissions| == |t.submissions| + 1
      && var s := o.tables.submissions[|t.submissions|];
      && s.request.config.testIds == [insertId]
      && s.request.isDraftJob
      && FullTest(templates, row) in s.tests
      && (forall i :: 0 <= i < |s.tests| ==>
            s.tests[i] == FullTest(templates, row) ||
            (s.tests[i].id in t.tests && s.tests[i] == t.tests[s.tests[i].id] &&
             ReachableFrom(store, [FullTest(templates, row)], s.tests[i].id)))
      && (forall k :: ReachableFrom(store, [FullTest(templates, row)], k) ==>
            exists i :: 0 <= i < |s.tests| && s.tests[i].id == k)
  {
    var row := NewRow(payload, tempTests, projectId, userId, insertId);
    var store := t.tests[insertId := row];
    CreateAndRunSubmission(t, tempTests, templates, payload, projectId, userId, insertId, buildId);
    DraftRunShape(store, templates, row, userId, projectId, payload.proxyUrlsMap);
    var s := DraftRun(store, templates, row, userId, projectId, payload.proxyUrlsMap).value;
    OthersAreOldRows(t.tests, row, store, FullTest(templates, row), s.tests);
  }

  /** The build a successful create-and-run submits is the draft run of the inserted row. */
  lemma CreateAndRunSubmission(t: Tables, tempTests: map<string, seq<Action>>, templates: TemplateStore, payload: CreatePayload,
                               projectId: int, userId: int, insertId: TestId, buildId: int)
    requires TempTestFound(payload, tempTests) && |payload.name| > 0 && !payload.shouldNotRunTests
    requires CreateAndRun(t, tempTests, templates, payload, projectId, userId, insertId, buildId).result.Ok?
    ensures var row := NewRow(payload, tempTests, projectId, userId, insertId);
      var d := DraftRun(t.tests[insertId := row], templates, row, userId, projectId, payload.proxyUrlsMap);
      && d.Ok?
      && CreateAndRun(t, tempTests, templates, payload, projectId, userId, insertId, buildId).tables.submissions
           == t.submissions + [d.value]
  {
    var row := NewRow(payload, tempTests, projectId, userId, insertId);
    assert t.tests[insertId := row][insertId] == row;
  }

  /** Rows of the table with `row` inserted under a fresh id, other than `row`'s own, are rows of the old table. */
  lemma OthersAreOldRows(old_tests: Store, row: Test, store: Store, seed: Test, tests: seq<Test>)
    requires row.id !in old_tests && store == old_tests[row.id := row]
    requires forall i :: 0 <= i < |tests| ==> tests[i] == seed || (tests[i].id in store && tests[i] == store[tests[i].id])
    requires seed.id == row.id && seed in tests
    requires forall i, j :: 0 <= i < j < |tests| ==> tests[i].id < tests[j].id
    ensures forall i :: 0 <= i < |tests| && tests[i] != seed ==> tests[i].id in old_tests && tests[i] == old_tests[tests[i].id]
  {
    var k :| 0 <= k < |tests| && tests[k] == seed;
    forall i | 0 <= i < |tests| && tests[i] != seed
      ensures tests[i].id in old_tests && tests[i] == old_tests[tests[i].id]
    {
      assert i != k;
      assert tests[i].id != tests[k].id;
    }
  }

  /**
   * `runDraftTest` on a missing id fails and writes nothing; otherwise it fails exactly when a
   * test the draft must run after is missing, and on success it links only the drafted row to
   * the build, returns that row, and submits one build naming only the drafted test.
   */
  lemma RunDraftOutcome(t: Tables, templates: TemplateStore, testId: TestId, proxyUrlsMap: Option<ProxyUrlsMap>,
                        projectId: int, userId: int, buildId: int)
    requires WellFormedStore(t.tests)
    ensures var o := RunDraft(t, templates, testId, proxyUrlsMap, projectId, userId, buildId);
      && (testId !in t.tests ==> o == Outcome(Err(TestMissing(testId)), t))
      && (o.result.Err? ==> o.tables == t && o.result.error.TestMissing?)
      && (testId in t.tests && o.result.Err? ==>
            o.result.error.id !in t.tests && ReachableFrom(t.tests, [FullTest(templates, t.tests[testId])], o.result.error.id))
      && (o.result.Ok? ==>
            && testId in t.tests
            && o.result.value == t.tests[testId].(draftJobId := Some(buildId))
            && o.tables.tests == t.tests[testId := o.result.value]
            && |o.tables.submissions| == |t.submissions| + 1
            && o.tables.submissions[..|t.submissions|] == t.submissions
            && o.tables.submissions[|t.submissions|].request.config.testIds == [testId]
            && FullTest(templates, t.tests[testId]) in o.tables.submissions[|t.submissions|].tests)
  {
    if testId in t.tests {
      var rec := t.tests[testId];
      DraftRunFails(t.tests, templates, rec, userId, projectId, proxyUrlsMap);
      if DraftRun(t.tests, templates, rec, userId, projectId, proxyUrlsMap).Ok? {
        DraftRunShape(t.tests, templates, rec, userId, projectId, proxyUrlsMap);
        var o := RunDraft(t, templates, testId, proxyUrlsMap, projectId, userId, buildId);
        assert o.tables.submissions[..|t.submissions|] == t.submissions;
      }
    }
  }
}
