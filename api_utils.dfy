/**
 * The CLI's `runTests` helper: the run request it posts (the project it names, the
 * `CRUSHER_` context variables, the defaults it fills in) and the poll that waits
 * for the build to reach a final status.
 */
module ApiUtils {
  import opened Wrappers
  import opened JsStrings

  /** The prefix that marks a context variable. */
  const ContextPrefix: string := "CRUSHER_"

  /**
   * `getContextEnvVariables()`: the variables whose name starts with `CRUSHER_`, renamed
   * to the rest of their name (`key.substr(8)`), with their values; every other variable is
   * dropped. The environment is a parameter where the source reads `process.env`.
   */
  function ContextEnvVariables(env: map<string, string>): (ctx: map<string, string>)
    ensures forall k :: k in ctx <==> ContextPrefix + k in env
    ensures forall k :: k in ctx ==> ctx[k] == env[ContextPrefix + k]
  {
    assert forall key :: HasPrefix(key, ContextPrefix) ==> ContextPrefix + key[|ContextPrefix|..] == key;
    assert forall k :: (ContextPrefix + k)[|ContextPrefix|..] == k;
    map key | key in env && HasPrefix(key, ContextPrefix) :: key[|ContextPrefix|..] := env[key]
  }

  /** A variable with the prefix is in the context under its stripped name; one without it is under no name. */
  lemma ContextKeepsPrefixedOnly(env: map<string, string>, key: string)
    requires key in env
    ensures HasPrefix(key, ContextPrefix) ==>
              && key[|ContextPrefix|..] in ContextEnvVariables(env)
              && ContextEnvVariables(env)[key[|ContextPrefix|..]] == env[key]
    ensures !HasPrefix(key, ContextPrefix) ==> forall k :: k in ContextEnvVariables(env) ==> ContextPrefix + k != key
  {
    if HasPrefix(key, ContextPrefix) {
      assert ContextPrefix + key[|ContextPrefix|..] == key;
    } else {
      forall k | k in ContextEnvVariables(env)
        ensures ContextPrefix + k != key
      {
        assert (ContextPrefix + k)[..|ContextPrefix|] == ContextPrefix;
      }
    }
  }

  /**
   * `getTestIdsArr(testIds)` and `getTestGroupArr(testGroups)` (the same code): null for an
   * absent or empty string, otherwise its comma-separated pieces.
   */
  function CommaListArg(arg: Option<string>): (r: Option<seq<string>>)
    ensures r.None? <==> arg.None? || |arg.value| == 0
    ensures r.Some? ==> |r.value| == Occurrences(arg.value, ',') + 1
    ensures r.Some? ==> forall i :: 0 <= i < |r.value| ==> ',' !in r.value[i]
    ensures r.Some? ==> Join(r.value, ',') == arg.value
  {
    if arg.None? || |arg.value| == 0 then None
    else
      JoinSplit(arg.value, ',');
      Some(Split(arg.value, ','))
  }

  /** The project a run is posted to: the id passed as a flag, or the one in the project config. */
  datatype ProjectRef = FlagProject(flag: string) | ConfigProject(project: int)

  /** The CLI's own browser names, the string union `"CHROME" | "FIREFOX" | "SAFARI"`; the server has its own enum. */
  datatype Browser = Chrome | Firefox | Safari

  /** A `proxyUrlsMap` entry as the CLI passes it on. */
  datatype ProxyEntry = ProxyEntry(tunnel: string, intercept: string)

  /** The body of the run request (the CI environment fields that the source spreads in first are not modelled). */
  datatype RunRequestBody = RunRequestBody(
    host: Option<string>,
    proxyUrlsMap: map<string, ProxyEntry>,
    browsers: seq<Browser>,
    context: map<string, string>,
    testIds: Option<string>,
    testGroups: Option<string>)

  /** A build as the builds endpoint lists it: its status and its duration in seconds. */
  datatype BuildInfo = BuildInfo(status: string, duration: real)

  /** The statuses that end the poll. */
  predicate IsFinal(status: string) {
    status == "PASSED" || status == "FAILED" || status == "MANUAL_REVIEW_REQUIRED"
  }

  /** `parseInt(duration)` on an ordinary decimal number: the integer part, rounded toward zero. */
  function TruncateTowardZero(x: real): (n: int)
    ensures 0.0 <= x ==> 0 <= n && n as real <= x < n as real + 1.0
    ensures x < 0.0 ==> n <= 0 && n as real - 1.0 < x <= n as real
  {
    if x >= 0.0 then x.Floor else -((-x).Floor)
  }

  /** The report line: "Build passed in Ns" only for PASSED, "Build failed in Ns" for the other final statuses. */
  datatype Report = Report(passed: bool, seconds: int)

  function ReportFor(b: BuildInfo): (r: Report)
    requires IsFinal(b.status)
    ensures r.passed <==> b.status == "PASSED"
    ensures r.seconds == TruncateTowardZero(b.duration)
  {
    Report(b.status == "PASSED", TruncateTowardZero(b.duration))
  }

  /** The first fetch whose status is final, if any. */
  function FirstFinal(fetched: seq<BuildInfo>): (k: Option<nat>)
    ensures k.Some? ==> k.value < |fetched| && IsFinal(fetched[k.value].status)
    ensures k.Some? ==> forall j :: 0 <= j < k.value ==> !IsFinal(fetched[j].status)
    ensures k.None? <==> forall j :: 0 <= j < |fetched| ==> !IsFinal(fetched[j].status)
  {
    if |fetched| == 0 then None
    else if IsFinal(fetched[0].status) then Some(0)
    else match FirstFinal(fetched[1..])
      case None => None
      case Some(k) => Some(k + 1)
  }

  /** Where the poll stands: still waiting, or finished with the report it printed. */
  datatype PollState = Polling | Done(report: Report)

  /**
   * The `setInterval` poll, tick by tick over the build infos the successive fetches
   * return. It stops at the first final status; any other status keeps it polling, with
   * no limit on the number of ticks. Returns the state after the given fetches and how
   * many fetches were made.
   */
  method Poll(fetched: seq<BuildInfo>) returns (state: PollState, fetches: nat)
    ensures state.Done? <==> FirstFinal(fetched).Some?
    ensures state.Done? ==> fetches == FirstFinal(fetched).value + 1 &&
                            state.report == ReportFor(fetched[FirstFinal(fetched).value])
    ensures state.Polling? ==> fetches == |fetched|
  {
    state := Polling;
    fetches := 0;
    while state.Polling? && fetches < |fetched|
      invariant fetches <= |fetched|
      invariant state.Polling? ==> forall j :: 0 <= j < fetches ==> !IsFinal(fetched[j].status)
      invariant state.Done? ==> 0 < fetches && IsFinal(fetched[fetches - 1].status) &&
                                (forall j :: 0 <= j < fetches - 1 ==> !IsFinal(fetched[j].status)) &&
                                state.report == ReportFor(fetched[fetches - 1])
      decreases |fetched| - fetches, if state.Polling? then 1 else 0
    {
      var buildInfo := fetched[fetches];
      fetches := fetches + 1;
      if IsFinal(buildInfo.status) {
        state := Done(Report(buildInfo.status == "PASSED", TruncateTowardZero(buildInfo.duration)));
      }
    }
    if state.Done? {
      FirstFinalIsUnique(fetched, fetches - 1);
    }
  }

  /** A final status with no final status before it is the first final status. */
  lemma FirstFinalIsUnique(fetched: seq<BuildInfo>, k: nat)
    requires k < |fetched| && IsFinal(fetched[k].status)
    requires forall j :: 0 <= j < k ==> !IsFinal(fetched[j].status)
    ensures FirstFinal(fetched) == Some(k)
  {
  }

  /** Fetches after the poll has finished change nothing: once done, extra fetch results are never read. */
  lemma PollIgnoresLaterFetches(fetched: seq<BuildInfo>, later: seq<BuildInfo>)
    requires FirstFinal(fetched).Some?
    ensures FirstFinal(fetched + later) == FirstFinal(fetched)
  {
    var k := FirstFinal(fetched).value;
    assert forall j :: 0 <= j <= k ==> (fetched + later)[j] == fetched[j];
    FirstFinalIsUnique(fetched + later, k);
  }

  /**
   * `runTests(host, proxyUrlsMap, browsers, testIds, testGroups, projectId)`: pick the project,
   * fill in the defaults, post the run, and poll until the build is final. `configProject` is
   * the project in the project config, `env` the environment, `fetched` the successive build
   * infos the poll reads.
   */
  method RunTests(host: Option<string>, proxyUrlsMap: Option<map<string, ProxyEntry>>, browsers: Option<seq<Browser>>,
                  testIds: Option<string>, testGroups: Option<string>, projectIdFlag: Option<string>,
                  configProject: int, env: map<string, string>, fetched: seq<BuildInfo>)
    returns (project: ProjectRef, body: RunRequestBody, state: PollState, fetches: nat)
    ensures projectIdFlag.Some? && |projectIdFlag.value| > 0 ==> project == FlagProject(projectIdFlag.value)
    ensures !(projectIdFlag.Some? && |projectIdFlag.value| > 0) ==> project == ConfigProject(configProject)
    ensures body.host == host && body.testIds == testIds && body.testGroups == testGroups
    ensures body.proxyUrlsMap == (if proxyUrlsMap.Some? then proxyUrlsMap.value else map[])
    ensures body.browsers == (if browsers.Some? then browsers.value else [Chrome])
    ensures body.context == ContextEnvVariables(env)
    ensures state.Done? <==> FirstFinal(fetched).Some?
    ensures state.Done? ==> fetches == FirstFinal(fetched).value + 1 &&
                            state.report == ReportFor(fetched[FirstFinal(fetched).value])
    ensures state.Polling? ==> fetches == |fetched|
  {
    if projectIdFlag.Some? && |projectIdFlag.value| > 0 {
      project := FlagProject(projectIdFlag.value);
    } else {
      project := ConfigProject(configProject);
    }
    var context := ContextEnvVariables(env);
    body := RunRequestBody(
      host,
      if proxyUrlsMap.Some? then proxyUrlsMap.value else map[],
      if browsers.Some? then browsers.value else [Chrome],
      context,
      testIds,
      testGroups);
    state, fetches := Poll(fetched);
  }
}
