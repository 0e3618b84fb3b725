# Crusher test-run orchestration, modelled in Dafny

This project models three pieces of sequential logic from the Crusher test platform.

- **The server's test service** (`TestService` in `service.ts`):
  - the run-after dependency closure: `getCompleteTestsArray` with `_fillMapWithTestDependencies`;
  - code-template expansion: `getFullTest` and `getFullTestArr`;
  - the build requests of `runTestsInProject`, `createAndRunTest` and `runDraftTest`;
  - the pagination arithmetic of `getTests`.
- **The CLI's `runTests` helper** (`apiUtils.ts`):
  - the `CRUSHER_` context variables;
  - the comma-list arguments;
  - the choice of project;
  - the body of the run request;
  - the poll that waits for a final build status.
- **The recorder's step-name helpers** (`helper.tsx`):
  - the bracket scanner `parseStepNameText`;
  - the label shown for a highlight;
  - the selector-list parser;
  - the message shown for a failed step.

## Files

| file | module | contents |
|---|---|---|
| `wrappers.dfy` | `Wrappers` | `Option`, `Result` |
| `js_strings.dfy` | `JsStrings` | `startsWith`, `split` on one character, `join`, and their round trips |
| `test_model.dfy` | `TestModel` | a test row, its parsed actions, its run-after dependency (the first RUN_AFTER_TEST action only) |
| `closure.dfy` | `Closure` | the closure as functions, the `TestsMap` object and the two imperative methods proved equal to them, and the reachability lemmas |
| `templates.dfy` | `Templates` | template expansion: an in-place loop over an action array and its specification |
| `run_requests.dfy` | `RunRequests` | trigger source, meta, baseline, the project and draft submissions, pagination |
| `test_service.dfy` | `TestServiceModel` | the `TestService` class over the tests table and the submitted builds, each operation proved equal to a function of the old state |
| `api_utils.dfy` | `ApiUtils` | context variables, comma lists, the run request, the poll loop |
| `steps_helper.dfy` | `StepsPanelHelper` | the scanner loop, its invariants and round trips, labels, selectors, error messages |

### How the outside world is modelled

- **The tests table** is a `map<TestId, Test>`.
  - `getTest` of an absent id is the undefined row.
  - Reading that row's events throws; the model reports the id as `Err(id)`.
- **The temporary-test store** (Redis) is a map from key to events.
- **Code templates** are a map from template id to code.
- **Ids chosen elsewhere** are parameters: the id the runner gives a build and the id the table gives a new row.
- **The CLI's environment** is a map passed in.
- **The poll's fetches** are a sequence of build infos.
- **A JavaScript string** is `seq<char>`; a falsy string is the empty one.

### Behaviours the model keeps as the code has them

- **Closure:**
  - Only the first RUN_AFTER_TEST action of a test is looked at.
  - A falsy target (absent, null or 0) adds nothing.
  - A target that is already a key is never fetched again, so cycles end.
  - Only the seeds are template-expanded.
    - Dependencies are stored and submitted as the raw rows `getTest` returns (lines 439-443).
    - The walk goes on from the raw row.
- **Result order:** the closure lists its tests by ascending id, which is the order in which `Object.values` lists integer keys.
- **Project-level run:**
  - It expands templates but does not compute the dependency closure; only the draft paths do.
  - The event's `testCount` is `totalCount`, counted before the folder and test-id filters.
- **Draft runs:** both draft paths put only the drafted test's id in `config.testIds`, even though they submit its whole closure.
- **`createAndRunTest`'s events check** (line 86) never rejects an empty event list.
  - A temporary test that is not stored leaves `events` null, and the check then throws a TypeError (`EventsMissing`), not a "not found" error.
- **Step names:** a stray `]` at depth 0 drives the scanner's count negative.
  - If a later `[` brings the count back to 0, everything from the `]` up to and including that `[` is dropped.
    - That `[` opens no group, and the plain text before the `]` is kept.
    - Example: `"a]b[c"` gives `[Normal("ac")]` (`StrayCloseRecovered`).
  - If the count never returns to 0, the pending plain text is lost.
    - The text after the last group start becomes one highlight; with no earlier group, that is everything after the first character.
    - Example: `"a]b"` gives `[Highlight("]b")]` (`StrayCloseExample`).

## Model

| member | source | states |
|---|---|---|
| TestModel.FindRunAfter | packages/crusher-server/src/modules/resources/tests/service.ts:435 | the index found holds a RUN_AFTER_TEST action and none comes before it; None exactly when there is none |
| TestModel.Dependency | packages/crusher-server/src/modules/resources/tests/service.ts:432-438 | a dependency is a non-zero target of one of the test's RUN_AFTER_TEST actions; a test with no such action has none |
| TestModel.FirstRunAfterOnly | packages/crusher-server/src/modules/resources/tests/service.ts:435-438 | a test has a dependency iff its first RUN_AFTER_TEST target is truthy, and then it is that target: later actions never count |
| Closure.SeedMap | packages/crusher-server/src/modules/resources/tests/service.ts:449-451 | the keys are exactly the seed ids, each value is a seed filed under its own id, and of duplicate ids the last seed wins |
| Closure.AscendingKeys | packages/crusher-server/src/modules/resources/tests/service.ts:457 | lists every key of the set exactly once, strictly ascending |
| Closure.TestsMap.constructor | packages/crusher-server/src/modules/resources/tests/service.ts:449-451 | the map starts as the seed map with nothing fetched |
| Closure.FillMapWithTestDependencies | packages/crusher-server/src/modules/resources/tests/service.ts:431-446 | on success the object's new map and fetch log are the specification `Fill` of the old ones; otherwise it reports the id `Fill` fails on |
| Closure.GetCompleteTestsArray | packages/crusher-server/src/modules/resources/tests/service.ts:448-458 | the loop over the seeds returns exactly `CompleteTestsArray` of the table and the seeds |
| Closure.FillGrows | packages/crusher-server/src/modules/resources/tests/service.ts:431-446 | one fill only adds: old keys keep their values; each new key is a table row reached from the test, fetched once, with its own dependency among the keys; the test's dependency ends up a key |
| Closure.FillMissing | packages/crusher-server/src/modules/resources/tests/service.ts:439-442 | a fill fails only on an id reached from the test that has no row |
| Closure.FillAllGrows | packages/crusher-server/src/modules/resources/tests/service.ts:453-455 | the loop over the seeds only adds reachable table rows, fetches each once, and leaves every seed's dependency a key |
| Closure.FillAllMissing | packages/crusher-server/src/modules/resources/tests/service.ts:453-455 | the loop fails only on an id reachable from a seed that has no row |
| Closure.ReachesStaysIn | packages/crusher-server/src/modules/resources/tests/service.ts:436-443 | following first-RUN_AFTER_TEST targets inside a map closed under dependencies never leaves the map |
| Closure.CompleteFacts | packages/crusher-server/src/modules/resources/tests/service.ts:448-458 | a successful resolution grows the seed map by reachable, dependency-closed, once-fetched rows and holds every seed's dependency |
| Closure.ClosureIsReachableSet | packages/crusher-server/src/modules/resources/tests/service.ts:431-458 | for seeds that agree with their table rows on the dependency, when every lookup succeeds, an id is a key of the closure iff it is a seed id or reachable from a seed by first RUN_AFTER_TEST targets |
| Closure.FetchedOnce | packages/crusher-server/src/modules/resources/tests/service.ts:439-443 | no id is fetched twice, no seed id is fetched, and every key beyond the seeds was fetched |
| Closure.MissingIffUnresolvable | packages/crusher-server/src/modules/resources/tests/service.ts:436-442 | resolution fails iff some reachable id has no row, and the id it reports is such an id |
| Closure.ClosureValues | packages/crusher-server/src/modules/resources/tests/service.ts:448-458 | every value of the closure map is filed under its own id and has its dependency among the keys |
| Closure.ValuesByKeyOrder | packages/crusher-server/src/modules/resources/tests/service.ts:457 | `Object.values` lists each value of an id-keyed map once, by strictly ascending id, and misses none |
| Closure.ResolvedArrayAscending | packages/crusher-server/src/modules/resources/tests/service.ts:449-457 | the resolved array has one test per key of the closure map, none missing, ids strictly ascending (duplicate seeds collapse) |
| Closure.SeedMapOfValues | packages/crusher-server/src/modules/resources/tests/service.ts:449-457 | seeding with the values of an id-keyed map rebuilds that map |
| Closure.FillAllNoop | packages/crusher-server/src/modules/resources/tests/service.ts:436-443 | filling from tests whose dependencies are all keys fetches nothing and changes nothing |
| Closure.ResolvingTwiceAddsNothing | packages/crusher-server/src/modules/resources/tests/service.ts:448-458 | resolving the resolved array again fetches nothing and returns the same array |
| Closure.AscendingOneTwo | packages/crusher-server/src/modules/resources/tests/service.ts:457 | the keys 1 and 2 are listed as [1, 2] |
| Closure.CycleOfTwoResolves | packages/crusher-server/src/modules/resources/tests/service.ts:439-443 | on the cycle A -> B -> A, B is fetched once and the walk stops at A |
| Closure.CycleOfTwo | packages/crusher-server/src/modules/resources/tests/service.ts:448-458 | the cycle A -> B -> A resolves to [A, B] |
| Templates.ExpandTemplates | packages/crusher-server/src/modules/resources/tests/service.ts:397-408 | the in-place loop leaves the action array equal to the expansion of its old contents |
| Templates.GetFullTest | packages/crusher-server/src/modules/resources/tests/service.ts:395-412 | returns the record with its actions expanded |
| Templates.GetFullTestArr | packages/crusher-server/src/modules/resources/tests/service.ts:414-416 | returns every record expanded, in order |
| Templates.ExpansionChangesOnlyScripts | packages/crusher-server/src/modules/resources/tests/service.ts:397-410 | the number and order of actions and every other record field are kept; only CUSTOM_CODE actions with a truthy, found template change, and only in their script, which becomes the template's code |
| Templates.ExpansionIdempotent | packages/crusher-server/src/modules/resources/tests/service.ts:395-412 | expanding an expanded record changes nothing |
| Templates.ExpansionKeepsDependency | packages/crusher-server/src/modules/resources/tests/service.ts:397-410 | expansion leaves the run-after dependency unchanged |
| Templates.FullTestsKeepIds | packages/crusher-server/src/modules/resources/tests/service.ts:414-416 | the expanded array keeps the length, the order, the ids and each dependency |
| RunRequests.Source | packages/crusher-server/src/modules/resources/tests/service.ts:174-184 | vercel iff `vercel.checkId` is truthy; github iff not and `github.repoName` is truthy; manual otherwise |
| RunRequests.BuildProjectMeta | packages/crusher-server/src/modules/resources/tests/service.ts:190-199 | always project-level; the baseline flag is true iff the input's is true; github and vercel are copied exactly when present |
| RunRequests.Baseline | packages/crusher-server/src/modules/resources/tests/service.ts:217 | a truthy override wins; a null or 0 override falls back to the project's baseline build |
| RunRequests.Ids | packages/crusher-server/src/modules/resources/tests/service.ts:212 | the ids of the list, position by position |
| RunRequests.ProjectRunShape | packages/crusher-server/src/modules/resources/tests/service.ts:186-218 | nothing is submitted iff the list is empty; otherwise the listed tests are submitted expanded, in order, with no closure, `config.testIds` names exactly their ids, the request is a non-draft project-level build, the caller's overrides are kept apart, and the baseline follows `Baseline` |
| RunRequests.DraftRunFails | packages/crusher-server/src/modules/resources/tests/service.ts:119-121 | a draft run fails iff some test the draft must run after has no row, and the id it reports is one |
| RunRequests.SingleSeedKept | packages/crusher-server/src/modules/resources/tests/service.ts:449-451 | the closure of one seed files the seed under its id |
| RunRequests.SingleSeedOthers | packages/crusher-server/src/modules/resources/tests/service.ts:431-458 | every other entry of a one-seed closure is a table row the seed reaches |
| RunRequests.SingleSeedClosure | packages/crusher-server/src/modules/resources/tests/service.ts:448-458 | a one-seed closure holds the seed, otherwise only reachable table rows, and every test the seed reaches, ascending by id |
| RunRequests.DraftRunShape | packages/crusher-server/src/modules/resources/tests/service.ts:121-131 | a successful draft run names only the drafted test in `config.testIds`, is a draft on chrome with no baseline, and submits the expanded test with, besides it, only table rows it must run after and every one of them, once each, ascending |
| RunRequests.TotalPages | packages/crusher-server/src/modules/resources/tests/service.ts:342 | `ceil(count / 15)`: the pages hold every row, and one page fewer would not |
| RunRequests.PageWindow | packages/crusher-server/src/modules/resources/tests/service.ts:334-340 | no LIMIT/OFFSET iff the page is null, undefined or -1; otherwise 15 rows from `page * 15` |
| RunRequests.PagesCoverRows | packages/crusher-server/src/modules/resources/tests/service.ts:334-342 | every row index below the count falls in the window of some page below `totalPages` |
| TestServiceModel.TestService.constructor | packages/crusher-server/src/modules/resources/tests/service.ts:34-37 | the service starts with the given tables and nothing submitted |
| TestServiceModel.TestService.CreateTest | packages/crusher-server/src/modules/resources/tests/service.ts:65-77 | the row is inserted under its fresh id and nothing else changes |
| TestServiceModel.TestService.LinkToDraftBuild | packages/crusher-server/src/modules/resources/tests/service.ts:142-144 | only the row's `draftJobId` changes, to the build id |
| TestServiceModel.TestService.SubmitDraft | packages/crusher-server/src/modules/resources/tests/service.ts:119-133 | the result and new state are `SubmitDraftSpec` of the old state: on a missing dependency nothing changes; otherwise one build is submitted and the row linked |
| TestServiceModel.TestService.CreateAndRunTest | packages/crusher-server/src/modules/resources/tests/service.ts:79-116 | the result and new state are `CreateAndRun` of the old state; templates, temporary tests and analytics are untouched |
| TestServiceModel.TestService.RunDraftTest | packages/crusher-server/src/modules/resources/tests/service.ts:118-136 | the result and new state are `RunDraft` of the old state |
| TestServiceModel.TestService.RunTestsInProject | packages/crusher-server/src/modules/resources/tests/service.ts:151-230 | returns nothing and changes nothing iff the list is empty; otherwise submits `ProjectRun`, reports `ProjectRunEvent` and returns the build id; the tests table is untouched |
| TestServiceModel.CreateAndRunWrites | packages/crusher-server/src/modules/resources/tests/service.ts:80-94 | a row is inserted iff the temporary test (if named) is found and a name is given; EventsMissing iff the temporary test is not found; NoName iff found and nameless; these failures write nothing; old rows are never changed |
| TestServiceModel.CreateAndRunRow | packages/crusher-server/src/modules/resources/tests/service.ts:80-115 | the new row carries the name, project, user and the temporary test's events (else the payload's, else none); it is linked to the build iff a draft was submitted; `shouldNotRunTests` submits nothing and returns the insert id |
| TestServiceModel.CreateAndRunSubmits | packages/crusher-server/src/modules/resources/tests/service.ts:98-111 | the build submitted for a new test names only that test in `config.testIds` and runs the expanded test with, besides it, only old rows it must run after and every test it must run after |
| TestServiceModel.RunDraftOutcome | packages/crusher-server/src/modules/resources/tests/service.ts:118-136 | a missing id or a missing dependency fails and writes nothing; success links only that row, returns the updated row, and appends one build naming only that test |
| ApiUtils.ContextEnvVariables | packages/cli/src/utils/apiUtils.ts:127-137 | a name is in the context iff `CRUSHER_` + name is in the environment, with the same value |
| ApiUtils.ContextKeepsPrefixedOnly | packages/cli/src/utils/apiUtils.ts:129-134 | a prefixed variable is in the context under its name without the 8-character prefix; an unprefixed one is under no name |
| ApiUtils.CommaListArg | packages/cli/src/utils/apiUtils.ts:139-147 | null iff absent or empty; otherwise one piece more than the commas, no piece holds a comma, and joining with commas restores the argument |
| ApiUtils.TruncateTowardZero | packages/cli/src/utils/apiUtils.ts:221-222 | `parseInt` of a decimal duration: the integer part, rounded toward zero for either sign |
| ApiUtils.ReportFor | packages/cli/src/utils/apiUtils.ts:218-224 | "passed" only for PASSED, "failed" for FAILED and MANUAL_REVIEW_REQUIRED, with the truncated duration |
| ApiUtils.FirstFinal | packages/cli/src/utils/apiUtils.ts:211-215 | the first fetch with a final status, no final status before it; None iff no fetch is final |
| ApiUtils.Poll | packages/cli/src/utils/apiUtils.ts:196-232 | the poll stops iff some fetched status is final, after exactly the first final fetch, reporting it; otherwise it is still polling after every fetch |
| ApiUtils.PollIgnoresLaterFetches | packages/cli/src/utils/apiUtils.ts:216 | once a final status is seen, later fetch results change nothing |
| ApiUtils.RunTests | packages/cli/src/utils/apiUtils.ts:150-232 | a truthy project flag wins over the project config; the body carries host, the raw `testIds`/`testGroups` strings, `proxyUrlsMap` (default `{}`), `browsers` (default chrome) and the context; then it polls as `Poll` |
| JsStrings.Split | packages/cli/src/utils/apiUtils.ts:142 | `split` on one character gives one piece more than the separators, none holding a separator |
| JsStrings.JoinSplit | packages/cli/src/utils/apiUtils.ts:142 | joining the pieces of a split restores the string |
| JsStrings.SplitJoin | packages/electron-app/src/_ui/ui/screens/recorder/sidebar/stepsPanel/helper.tsx:67 | splitting a join of separator-free pieces gives the pieces back |
| StepsPanelHelper.ParseStepNameText | packages/electron-app/src/_ui/ui/screens/recorder/sidebar/stepsPanel/helper.tsx:12-44 | the loop returns exactly the scanner's segments `StepNameSegments(text)` |
| StepsPanelHelper.CountIsDepth | packages/electron-app/src/_ui/ui/screens/recorder/sidebar/stepsPanel/helper.tsx:19-28 | the counter is always the number of `[` minus the number of `]` read so far |
| StepsPanelHelper.OpenGroup | packages/electron-app/src/_ui/ui/screens/recorder/sidebar/stepsPanel/helper.tsx:19-30 | while a group is open, `start` is its `[`, no plain text is pending, and the group's content so far never closes below its own level |
| StepsPanelHelper.ReadBack | packages/electron-app/src/_ui/ui/screens/recorder/sidebar/stepsPanel/helper.tsx:18-35 | on text that never closes more than it opened, the segments plus the pending text (or the open group from its `[`) rebuild what has been read |
| StepsPanelHelper.AlternatingScan | packages/electron-app/src/_ui/ui/screens/recorder/sidebar/stepsPanel/helper.tsx:19-31 | on such text the segments alternate normal/highlight from a normal one, and their number is odd exactly while a group is open |
| StepsPanelHelper.ClosedGroupsBalanced | packages/electron-app/src/_ui/ui/screens/recorder/sidebar/stepsPanel/helper.tsx:26-31 | every closed highlight is balanced and never goes below depth 0 |
| StepsPanelHelper.PlainScan | packages/electron-app/src/_ui/ui/screens/recorder/sidebar/stepsPanel/helper.tsx:32-34 | without brackets, everything read waits as plain text and no segment is pushed |
| StepsPanelHelper.BalancedRoundTrip | packages/electron-app/src/_ui/ui/screens/recorder/sidebar/stepsPanel/helper.tsx:12-44 | on balanced text that never closes more than it opened, normal values and bracketed highlight values rebuild the text |
| StepsPanelHelper.OpenRoundTrip | packages/electron-app/src/_ui/ui/screens/recorder/sidebar/stepsPanel/helper.tsx:36-39 | with groups left open, the last segment is a highlight that the rest of the text never closes (so it starts after the last top-level `[`), and the rest rebuild the text before that `[` |
| StepsPanelHelper.SegmentsAlternate | packages/electron-app/src/_ui/ui/screens/recorder/sidebar/stepsPanel/helper.tsx:19-42 | on text that never closes more than it opened, segment kinds alternate starting with normal, text that starts with `[` begins with an empty normal segment, and a trailing normal segment is never empty |
| StepsPanelHelper.HighlightsAreGroups | packages/electron-app/src/_ui/ui/screens/recorder/sidebar/stepsPanel/helper.tsx:19-34 | on balanced text every highlight is balanced, inner brackets included, and never goes below depth 0, and no normal segment holds a bracket: each highlight is a whole top-level group |
| StepsPanelHelper.NormalSegmentsPlain | packages/electron-app/src/_ui/ui/screens/recorder/sidebar/stepsPanel/helper.tsx:19-34 | for every text, no normal segment holds a `[` or a `]` |
| StepsPanelHelper.PlainText | packages/electron-app/src/_ui/ui/screens/recorder/sidebar/stepsPanel/helper.tsx:18-43 | text without brackets gives [] when empty and one normal segment equal to the text otherwise |
| StepsPanelHelper.StrayCloseExample | packages/electron-app/src/_ui/ui/screens/recorder/sidebar/stepsPanel/helper.tsx:26-39 | a stray `]` with no later `[` to balance it loses the text before it: "a]b" gives one highlight "]b" |
| StepsPanelHelper.StrayCloseRecovered | packages/electron-app/src/_ui/ui/screens/recorder/sidebar/stepsPanel/helper.tsx:19-43 | a `[` that balances a stray `]` opens no group: "a]b[c" gives the one normal segment "ac" |
| StepsPanelHelper.HighlightLabel | packages/electron-app/src/_ui/ui/screens/recorder/sidebar/stepsPanel/helper.tsx:51 | a value of at most 15 characters is shown whole; a longer one as its first 15 characters and "...", 18 in all |
| StepsPanelHelper.LabelIdempotent | packages/electron-app/src/_ui/ui/screens/recorder/sidebar/stepsPanel/helper.tsx:51 | labelling a label changes nothing |
| StepsPanelHelper.TextHighlighter | packages/electron-app/src/_ui/ui/screens/recorder/sidebar/stepsPanel/helper.tsx:46-58 | one span per segment, titled with the whole value, boxed iff a highlight; normal and short values shown whole, long highlights shown as their first 15 characters followed by "..." |
| StepsPanelHelper.TextHighlighterText | packages/electron-app/src/_ui/ui/screens/recorder/sidebar/stepsPanel/helper.tsx:60-64 | the segment values, one per segment, in order |
| StepsPanelHelper.PlainTextValues | packages/electron-app/src/_ui/ui/screens/recorder/sidebar/stepsPanel/helper.tsx:60-64 | on text without brackets the values are [] or [text] |
| StepsPanelHelper.SelectorsFromString | packages/electron-app/src/_ui/ui/screens/recorder/sidebar/stepsPanel/helper.tsx:66-71 | one playwright selector with score 1 per line, as many as newlines plus one, no value holding a newline, and the values joined by newlines restore the input |
| StepsPanelHelper.ErrorMessage | packages/electron-app/src/_ui/ui/screens/recorder/sidebar/stepsPanel/helper.tsx:73-88 | the message is always one of the five the panel knows |
| StepsPanelHelper.ErrorMessageClasses | packages/electron-app/src/_ui/ui/screens/recorder/sidebar/stepsPanel/helper.tsx:73-88 | an assertion message iff the error is ASSERTIONS_FAILED: the SEO one for VALIDATE_SEO, else the element one for ASSERT_ELEMENT, else the plain one; "element info couldn't be found" iff a timeout or element error on an `ELEMENT_` action; "unexpected error occurred" otherwise |

## Left out

- SQL and the database: the queries of `getTests` and the other `dbManager` calls are not modelled.
  - The tests table is a map and the result of `getTestsInProject` is given as a list with its count.
- Redis: `saveTempTest`, its uuid keys and its 600-second expiry are not modelled.
  - Stored temporary tests are a map.
  - A stored value that parses to something other than an event list is not modelled.
- lodash `merge` of `customTestsConfig` over the base request is a library call outside this model.
  - RunRequests.ProjectRun keeps the overrides beside the base request and claims nothing about the merged object, in particular not that `testIds` survives it.
- Analytics transport (`identifyUser`, `trackEvent`) is not modelled; the event is recorded in the service's `triggered` log.
- Concurrency: `Promise.all` in `getFullTest` and `getFullTestArr` is modelled as a sequential loop.
  - Each update touches its own action, so the result is the same.
- Timers: the poll's `setInterval` timing, overlapping callbacks and rejected fetches are not modelled.
  - A rejected fetch escapes the surrounding `try`, which is also not modelled.
  - A fetch whose `list` is empty is not modelled. There, reading `list[0].status` throws inside the interval callback, and the interval keeps running.
  - The poll is its per-tick decision over a finite sequence of fetched build infos.
- HTTP, cookies, console and chalk output are not modelled.
  - Neither are the report URL and `CI.getEnvironmentInfo`, whose fields are spread into the body before the modelled ones.
- JSON: `events` are kept parsed, so `JSON.parse` and `JSON.stringify` do not appear.
- String lengths count characters, not UTF-16 code units.
- Closure.FillMapWithTestDependencies: fetches the target row once, where the source calls `getTest` twice.
  - It does not model the `undefined` entry the source stores under a missing id just before it throws; on failure the map is discarded.
- Templates.GetFullTest: returns a new record, where the source mutates `testRecord` (and its parsed actions) in place and returns the same object.
  - Aliasing of the caller's record is not modelled.
- ApiUtils.TruncateTowardZero: models `parseInt` on an ordinary decimal number only.
  - Not modelled: strings, exponent forms, NaN, and a duration that is not a number.
- ApiUtils.RunTests: the body omits the CI environment fields.
  - The HTTP error path (`catch` and log) is not modelled.
- StepsPanelHelper.ErrorMessage: takes the spelled values of VALIDATE_SEO and ASSERT_ELEMENT as parameters, because the enum that defines them is not part of this model.
  - The error kinds are a datatype.
- TestServiceModel.TestService.CreateAndRunTest: the runner's build id and the table's insert id are parameters.
  - `getTest` after the insert is modelled as reading the inserted row back.
- `TextHighlighter`'s JSX and styling are not modelled; only each span's title, kind and shown text are.
- `getTestsInBuild`, `updateEmoji`, `updateTestSteps`, `updateTest`, folders, `deleteTest`, `updateMeta`, `addFeaturedVideo`, `getTestsFromIdList` and `getCompleteTestInfo` are plain database calls outside the modelled core.
