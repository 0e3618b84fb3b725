/**
 * The build requests `TestService` hands to the tests runner: the project-level run
 * of `runTestsInProject`, the draft run of `createAndRunTest` / `runDraftTest`, and
 * the pagination arithmetic of `getTests`.
 */
module RunRequests {
  import opened Wrappers
  import opened TestModel
  import opened Templates
  import opened Closure

  /** `buildMeta.github`. */
  datatype GithubMeta = GithubMeta(repoName: string, commitId: string)

  /** `buildMeta.vercel`. */
  datatype VercelMeta = VercelMeta(checkId: string, deploymentId: string, teamId: string)

  /** The `buildMeta` argument of `runTestsInProject`; None is an absent property. */
  datatype BuildMetaInput = BuildMetaInput(
    github: Option<GithubMeta>,
    vercel: Option<VercelMeta>,
    disableBaseLineComparisons: Option<bool>)

  datatype TriggerSource = Vercel | Github | ManualSource

  /** A JavaScript string is truthy exactly when it is not empty. */
  predicate Truthy(s: string) {
    |s| > 0
  }

  /** `getSource()`: vercel when `vercel.checkId` is truthy, else github when `github.repoName` is, else manual. */
  function Source(m: BuildMetaInput): (s: TriggerSource)
    ensures s == Vercel <==> m.vercel.Some? && Truthy(m.vercel.value.checkId)
    ensures s == Github <==> !(m.vercel.Some? && Truthy(m.vercel.value.checkId)) && m.github.Some? && Truthy(m.github.value.repoName)
    ensures s == ManualSource <==> !(m.vercel.Some? && Truthy(m.vercel.value.checkId)) && !(m.github.Some? && Truthy(m.github.value.repoName))
  {
    if m.vercel.Some? && Truthy(m.vercel.value.checkId) then Vercel
    else if m.github.Some? && Truthy(m.github.value.repoName) then Github
    else ManualSource
  }

  /** The `meta` object of a project-level build. */
  datatype ProjectMeta = ProjectMeta(
    isProjectLevelBuild: bool,
    disableBaseLineComparisons: bool,
    github: Option<GithubMeta>,
    vercel: Option<VercelMeta>)

  /** The meta built at the top of `runTestsInProject`: `github` and `vercel` are copied only when given. */
  function BuildProjectMeta(m: BuildMetaInput): (meta: ProjectMeta)
    ensures meta.isProjectLevelBuild
    ensures meta.disableBaseLineComparisons <==> m.disableBaseLineComparisons == Some(true)
    ensures meta.github == m.github && meta.vercel == m.vercel
  {
    var meta := ProjectMeta(true, m.disableBaseLineComparisons == Some(true), None, None);
    var meta := if m.github.Some? then meta.(github := m.github) else meta;
    if m.vercel.Some? then meta.(vercel := m.vercel) else meta
  }

  /** `payload.proxyUrlsMap` entries: intercept a URL or a regex, and tunnel it. */
  datatype Intercept = InterceptUrl(url: string) | InterceptRegex(regex: string)
  datatype ProxyRule = ProxyRule(intercept: Intercept, tunnel: string)
  type ProxyUrlsMap = map<string, ProxyRule>

  /** The server's `BrowserEnum`; the CLI has its own browser names. */
  datatype Browser = Chrome | Firefox | Safari

  /** `config` of a build request. */
  datatype RunConfig = RunConfig(proxyUrlsMap: Option<ProxyUrlsMap>, shouldRecordVideo: bool, testIds: seq<TestId>)

  /** `meta` of a build request: the project-level meta, or `{ isDraftJob: true }`. */
  datatype RequestMeta = Project(meta: ProjectMeta) | Draft

  /** The request object; status is always CREATED and the trigger always MANUAL, so they are not fields. */
  datatype BuildRequest = BuildRequest(
    userId: int,
    projectId: int,
    host: string,
    browsers: seq<Browser>,
    isDraftJob: bool,
    config: RunConfig,
    meta: RequestMeta)

  /**
   * One call of `testsRunner.runTests`: the tests, the base request, the caller's
   * `customTestsConfig` that the source deep-merges over the base (kept apart here),
   * and the baseline build id (None where the source passes null or nothing).
   */
  datatype Submission = Submission(
    tests: seq<Test>,
    request: BuildRequest,
    overrides: map<string, string>,
    baseline: Option<int>)

  /** The project row `runTestsInProject` reads. */
  datatype ProjectRecord = ProjectRecord(id: int, teamId: int, baselineJobId: Option<int>)

  /** `overideBaseLineBuildId ? overideBaseLineBuildId : projectRecord.baselineJobId`: an override of 0 or null falls back. */
  function Baseline(overrideId: Option<int>, project: ProjectRecord): (b: Option<int>)
    ensures overrideId.Some? && overrideId.value != 0 ==> b == overrideId
    ensures overrideId.None? || overrideId.value == 0 ==> b == project.baselineJobId
  {
    if overrideId.Some? && overrideId.value != 0 then overrideId else project.baselineJobId
  }

  /** `testsData.list.map((test) => test.id)`. */
  function Ids(ts: seq<Test>): (ids: seq<TestId>)
    ensures |ids| == |ts| && forall i :: 0 <= i < |ts| ==> ids[i] == ts[i].id
  {
    seq(|ts|, i requires 0 <= i < |ts| => ts[i].id)
  }

  /** The analytics event a project-level run reports. */
  datatype BuildTriggeredEvent = BuildTriggeredEvent(userId: int, teamId: int, buildId: int, triggerType: TriggerSource, testCount: nat)

  /** The arguments of `runTestsInProject` that shape the request. */
  datatype ProjectRunArgs = ProjectRunArgs(
    projectId: int,
    userId: int,
    customTestsConfig: map<string, string>,
    buildMeta: BuildMetaInput,
    overrideBaseLineBuildId: Option<int>,
    browsers: seq<Browser>,
    proxyUrlsMap: Option<ProxyUrlsMap>)

  /** `getTests` result: the count before the folder and test-id filters, and the filtered page. */
  datatype TestsPage = TestsPage(totalCount: nat, list: seq<Test>)

  /** The base request of a project-level run, before `customTestsConfig` is merged over it. */
  function ProjectRequest(args: ProjectRunArgs, list: seq<Test>): BuildRequest {
    BuildRequest(args.userId, args.projectId, "null", args.browsers, false,
      RunConfig(args.proxyUrlsMap, true, Ids(list)),
      Project(BuildProjectMeta(args.buildMeta)))
  }

  /** What `runTestsInProject` submits, given the test list it fetched and the project row; None when the list is empty. */
  function ProjectRun(templates: TemplateStore, args: ProjectRunArgs, data: TestsPage, project: ProjectRecord): Option<Submission> {
    if |data.list| == 0 then None
    else Some(Submission(
      FullTests(templates, data.list),
      ProjectRequest(args, data.list),
      args.customTestsConfig,
      Baseline(args.overrideBaseLineBuildId, project)))
  }

  /** The event reported after a project-level run: its trigger source and the unfiltered test count. */
  function ProjectRunEvent(args: ProjectRunArgs, data: TestsPage, project: ProjectRecord, buildId: int): BuildTriggeredEvent {
    BuildTriggeredEvent(args.userId, project.teamId, buildId, Source(args.buildMeta), data.totalCount)
  }

  /**
   * A project-level run submits nothing for an empty list; otherwise it submits every listed
   * test expanded, in the listed order and without their run-after dependencies, asks for
   * exactly the listed ids, marks the build project-level, and picks the baseline by truthiness.
   */
  lemma ProjectRunShape(templates: TemplateStore, args: ProjectRunArgs, data: TestsPage, project: ProjectRecord)
    ensures ProjectRun(templates, args, data, project).None? <==> |data.list| == 0
    ensures ProjectRun(templates, args, data, project).Some? ==>
              var s := ProjectRun(templates, args, data, project).value;
              && s.tests == FullTests(templates, data.list)
              && Ids(s.tests) == s.request.config.testIds == Ids(data.list)
              && !s.request.isDraftJob && s.request.host == "null" && s.request.config.shouldRecordVideo
              && s.request.browsers == args.browsers
              && s.request.meta.Project? && s.request.meta.meta.isProjectLevelBuild
              && s.request.meta.meta.github == args.buildMeta.github
              && s.request.meta.meta.vercel == args.buildMeta.vercel
              && s.overrides == args.customTestsConfig
              && s.baseline == Baseline(args.overrideBaseLineBuildId, project)
  {
    if |data.list| > 0 {
      FullTestsKeepIds(templates, data.list);
    }
  }

  /** The base request of a draft run: one browser, a draft build, and only the seed's id in `config.testIds`. */
  function DraftRequest(userId: int, projectId: int, proxyUrlsMap: Option<ProxyUrlsMap>, seedId: TestId): BuildRequest {
    BuildRequest(userId, projectId, "null", [Chrome], true, RunConfig(proxyUrlsMap, true, [seedId]), Draft)
  }

  /**
   * What `createAndRunTest` and `runDraftTest` submit for a stored test: the closure of the
   * expanded test, or the id of the missing row where the closure throws.
   */
  function DraftRun(store: Store, templates: TemplateStore, testRecord: Test, userId: int, projectId: int,
                    proxyUrlsMap: Option<ProxyUrlsMap>): Result<Submission, TestId> {
    match CompleteTestsArray(store, [FullTest(templates, testRecord)])
    case Err(id) => Err(id)
    case Ok(tests) => Ok(Submission(tests, DraftRequest(userId, projectId, proxyUrlsMap, testRecord.id), map[], None))
  }

  /** The expanded draft test is consistent with its own stored row. */
  lemma DraftSeedConsistent(store: Store, templates: TemplateStore, testRecord: Test)
    requires testRecord.id in store && store[testRecord.id] == testRecord
    ensures Consistent(store, [FullTest(templates, testRecord)])
  {
    ExpansionKeepsDependency(templates, testRecord);
  }

  /** A draft run fails exactly when some test the draft must run after has no row; the id it reports is one. */
  lemma DraftRunFails(store: Store, templates: TemplateStore, testRecord: Test, userId: int, projectId: int,
                      proxyUrlsMap: Option<ProxyUrlsMap>)
    requires testRecord.id in store && store[testRecord.id] == testRecord
    ensures var seeds := [FullTest(templates, testRecord)];
      DraftRun(store, templates, testRecord, userId, projectId, proxyUrlsMap).Err? <==>
        exists k :: ReachableFrom(store, seeds, k) && k !in store
    ensures var r := DraftRun(store, templates, testRecord, userId, projectId, proxyUrlsMap);
      r.Err? ==> r.error !in store && ReachableFrom(store, [FullTest(templates, testRecord)], r.error)
  {
    var seeds := [FullTest(templates, testRecord)];
    DraftSeedConsistent(store, templates, testRecord);
    MissingIffUnresolvable(store, seeds);
  }

  /** The closure map of a single seed files the seed under its id. */
  lemma SingleSeedKept(store: Store, seed: Test)
    requires Complete(store, [seed]).Ok?
    ensures var m := Complete(store, [seed]).value.tests;
      seed.id in m && m[seed.id] == seed
  {
    CompleteFacts(store, [seed]);
    assert SeedMap([seed]) == map[seed.id := seed];
  }

  /** Every entry of the closure map of a single seed other than the seed is a table row the seed reaches. */
  lemma SingleSeedOthers(store: Store, seed: Test, k: TestId)
    requires Consistent(store, [seed])
    requires Complete(store, [seed]).Ok?
    requires k in Complete(store, [seed]).value.tests && k != seed.id
    ensures var m := Complete(store, [seed]).value.tests;
      k in store && m[k] == store[k] && ReachableFrom(store, [seed], k)
  {
    CompleteFacts(store, [seed]);
    ClosureIsReachableSet(store, [seed]);
    assert SeedMap([seed]) == map[seed.id := seed];
  }

  /** The closure of a single seed holds the seed and exactly the table rows the seed reaches, ascending by id. */
  lemma SingleSeedClosure(store: Store, seed: Test)
    requires WellFormedStore(store)
    requires Consistent(store, [seed])
    requires CompleteTestsArray(store, [seed]).Ok?
    ensures var tests := CompleteTestsArray(store, [seed]).value;
      && seed in tests
      && (forall i :: 0 <= i < |tests| ==>
            tests[i] == seed || (tests[i].id in store && tests[i] == store[tests[i].id] && ReachableFrom(store, [seed], tests[i].id)))
      && (forall k :: ReachableFrom(store, [seed], k) ==> exists i :: 0 <= i < |tests| && tests[i].id == k)
      && (forall i, j :: 0 <= i < j < |tests| ==> tests[i].id < tests[j].id)
  {
    var m := Complete(store, [seed]).value.tests;
    ResolvedArrayAscending(store, [seed]);
    ClosureIsReachableSet(store, [seed]);
    SingleSeedKept(store, seed);
    forall k | k in m && k != seed.id
      ensures k in store && m[k] == store[k] && ReachableFrom(store, [seed], k)
    {
      SingleSeedOthers(store, seed, k);
    }
    OneSeedListing(store, seed, m, CompleteTestsArray(store, [seed]).value);
  }

  /** A listing of a map that holds the seed and otherwise rows the seed reaches. */
  lemma OneSeedListing(store: Store, seed: Test, m: map<TestId, Test>, out: seq<Test>)
    requires seed.id in m && m[seed.id] == seed
    requires forall k :: k in m && k != seed.id ==> k in store && m[k] == store[k] && ReachableFrom(store, [seed], k)
    requires forall i :: 0 <= i < |out| ==> out[i].id in m && m[out[i].id] == out[i]
    requires forall k :: k in m ==> exists i :: 0 <= i < |out| && out[i].id == k
    ensures seed in out
    ensures forall i :: 0 <= i < |out| ==>
              out[i] == seed || (out[i].id in store && out[i] == store[out[i].id] && ReachableFrom(store, [seed], out[i].id))
  {
    var i :| 0 <= i < |out| && out[i].id == seed.id;
    assert out[i] == seed;
  }

  /**
   * A successful draft run submits the expanded draft test and every test it must run after,
   * once each, ascending by id, while `config.testIds` names only the draft test.
   */
  lemma DraftRunShape(store: Store, templates: TemplateStore, testRecord: Test, userId: int, projectId: int,
                      proxyUrlsMap: Option<ProxyUrlsMap>)
    requires WellFormedStore(store)
    requires testRecord.id in store && store[testRecord.id] == testRecord
    requires DraftRun(store, templates, testRecord, userId, projectId, proxyUrlsMap).Ok?
    ensures var s := DraftRun(store, templates, testRecord, userId, projectId, proxyUrlsMap).value;
      && s.request.config.testIds == [testRecord.id]
      && s.request.isDraftJob && s.request.meta == Draft && s.request.browsers == [Chrome]
      && s.baseline.None?
      && FullTest(templates, testRecord) in s.tests
      && (forall i :: 0 <= i < |s.tests| ==>
            s.tests[i] == FullTest(templates, testRecord) ||
            (s.tests[i].id in store && s.tests[i] == store[s.tests[i].id] &&
             ReachableFrom(store, [FullTest(templates, testRecord)], s.tests[i].id)))
      && (forall k :: ReachableFrom(store, [FullTest(templates, testRecord)], k) ==>
            exists i :: 0 <= i < |s.tests| && s.tests[i].id == k)
      && (forall i, j :: 0 <= i < j < |s.tests| ==> s.tests[i].id < s.tests[j].id)
  {
    DraftSeedConsistent(store, templates, testRecord);
    SingleSeedClosure(store, FullTest(templates, testRecord));
  }

  /** `PER_PAGE_LIMIT`. */
  const PerPage: nat := 15

  /** `Math.ceil(count / PER_PAGE_LIMIT)`. */
  function TotalPages(count: nat): (pages: nat)
    ensures pages * PerPage >= count
    ensures pages > 0 ==> (pages - 1) * PerPage < count
  {
    (count + PerPage - 1) / PerPage
  }

  /** `LIMIT ? OFFSET ?` when `filter.page` is neither null, undefined nor -1; page 0 is paginated too. */
  function PageWindow(page: Option<int>): (w: Option<(nat, int)>)
    ensures w.None? <==> page.None? || page.value == -1
    ensures w.Some? ==> w.value.0 == PerPage && w.value.1 == page.value * PerPage
  {
    if page.None? || page.value == -1 then None else Some((PerPage, page.value * PerPage))
  }

  /** Row `r` of `count` rows is shown on exactly one page, page `r / 15`, and that page is one of the `TotalPages(count)`. */
  lemma PagesCoverRows(count: nat, r: nat)
    requires r < count
    ensures var p := r / PerPage;
      && p < TotalPages(count)
      && PageWindow(Some(p)).value.1 <= r < PageWindow(Some(p)).value.1 + PerPage
      && forall q: nat :: q != p ==> !(PageWindow(Some(q)).value.1 <= r < PageWindow(Some(q)).value.1 + PerPage)
  {
    var p := r / PerPage;
    forall q: nat | q != p
      ensures !(q * PerPage <= r < q * PerPage + PerPage)
    {
      if q < p {
        assert (q + 1) * PerPage <= p * PerPage;
      } else {
        assert (p + 1) * PerPage <= q * PerPage;
      }
    }
  }
}
