# Source-stats report materialisation, modelled in Dafny

`lambda_handler` in `lambda_function.py` produces three CSV reports on the storage
inventory of a data repository: `accounts`, `repositories` and `source`. For each report
type, in table order, it takes these steps:

- It submits an UNLOAD query to the analytical engine, aimed at a scratch prefix
  `temp/source-stats/<type>/<date>/` in the `source-inventories` bucket.
- It polls the query's status until it succeeds, fails, is cancelled or the 300-second
  deadline passes (`wait_for_query_completion`).
- It lists the scratch prefix and keeps the data files, dropping keys that end in
  `manifest.csv` or `.metadata`.
- It writes `header + "\n" + <the body of every data file of the one listing page, in
  listing order>` once, to
  `source/source-stats/<type>/<file name>` in the results bucket.
- It then deletes the consumed data files one by one (`create_csv_with_header`).

A report that returns true has its entry `<type>/<file name>` appended to the result list.
A report that returns false or raises is only logged, and the loop goes on. After the loop,
`cleanup_directories` runs once. It bulk-deletes one listing of `temp/athena/` and then
one listing of `temp/source-stats/`, and it swallows any exception. The handler answers
with status 200, the date and the list.

The model has these parts:

- `seqs.dfy` (`Seqs`): string order, sortedness and filtering helpers.
- `outcomes.dfy` (`Outcomes`): `Option`, and `Call`, which is how a Python call ends:
  `Returned(b)` or `Raised`.
- `store.dfy` (`Store`): the two buckets.
  - The class `ObjectStore` holds the inventory bucket's keys in listing order, both
    buckets' contents, and a ghost log of every changing request.
  - Its methods are the five S3 calls the handler makes.
  - `View`, `Mutation` and `Apply` describe the same state and requests as values.
- `naming.dfy` (`Naming`): the constants, the scratch locations, the file name with its
  special case for `source`, the final key and the result entry.
- `catalog.dfy` (`Catalog`): the fixed three-entry report table and the date `250629`.
- `poller.dfy` (`Poller`): the poll loop as a method, and its specification `Await`.
  - The engine is an oracle: `replies(n)` is the n-th status read, or an exception.
  - Time is counted in polls: 300 s / 10 s = 30 polls.
- `materializer.dfy` (`Materializer`): `create_csv_with_header` as methods on the store:
  - the read loop `ReadParts`;
  - the delete loop `DeleteParts`;
  - the write-then-delete `WriteAndClear`;
  - the whole call `CreateCsvWithHeader`.

  Each method is proved against the value-level effect `Materialize`: its outcome and
  the requests it makes, in order. One report's environment is a `Script`: the status
  oracle plus the step, if any, that raises.
- `materializer_facts.dfy` (`MaterializerFacts`): what one call does to both buckets.
- `cleaner.dfy` (`Cleaner`): `cleanup_directories` as a method, its specification
  `Cleanup`, and its properties.
- `handler.dfy` (`Handler`): the report loop `ProcessReports` and `LambdaHandler`.
  They are proved against `RunReports`, which runs the reports in order, each on the
  store the earlier ones left.
- `handler_facts.dfy` (`HandlerFacts`): the properties of the whole invocation.

Some behaviour of the code is easy to misread, and the model follows the code:

- **File names.** The docstring at lambda_function.py:9 names the files
  `source-stats/type/YYYYMMDD.csv`. The code builds `source-stats-<type>-<date>.csv`, or
  `source-stats-summary-<date>.csv` for `source`, under the type's directory
  (lambda_function.py:129-135).
- **Timeouts.** A timed-out wait returns `False`, just like a failed or cancelled query
  (lambda_function.py:116-123). `Await` gives `Returned(false)` in both cases.
- **Manifests.** `create_csv_with_header` deletes only the data files
  (lambda_function.py:199-200). The manifest and metadata stay until the clean-up, and
  `MaterializerFacts.MaterializeSuccessState` proves that they stay.
- **Listing limit.** Every listing reads one `list_objects_v2` page, which holds at most
  1000 keys, and the code never asks for a second page (lambda_function.py:167, 209, 221).
  - The docstring at lambda_function.py:206 says the cleaner cleans up the temporary
    directories. Beyond 1000 keys some remain, as `Cleaner.CleanupLeavesOverflow` shows.
  - With more than 1000 keys under a report's prefix, the report can still return true.
    Its file then leaves out every key past the page, and those keys stay in scratch, as
    `MaterializerFacts.MaterializeLeavesOverflow` shows.

## Model

| member | source | states |
|---|---|---|
| Poller.POLL_BUDGET | lambda_function.py:107-120 | its definition is the model of the deadline: the 300-second timeout of line 107 over the 10-second pause of line 120 gives 30 status reads |
| Poller.Await | lambda_function.py:110-123 | the specification of the wait: its definition is the model of the poll loop, reading replies until the first terminal one or the end of the budget |
| Poller.WaitForQueryCompletion | lambda_function.py:107-123 | the poll loop's outcome is `Await`; it reads at most `budget` statuses; every status before the last was non-terminal; when it stops before the budget, the last status read was terminal and gives the outcome |
| Poller.AwaitOutcomes | lambda_function.py:110-123 | the wait gives true exactly when SUCCEEDED is the first terminal status within the budget; it raises exactly when a status read raises first; otherwise it gives false |
| Poller.AwaitIsFirstEnd | lambda_function.py:114-118 | the wait ends as the first terminal reply within the budget says: true for SUCCEEDED, false for FAILED or CANCELLED, raised for an exception |
| Poller.AwaitTimesOut | lambda_function.py:110-123 | when no reply within the budget is terminal, the wait gives false |
| Naming.TempLocation | lambda_function.py:127 | its definition is the model of the UNLOAD target URL of one report type and date |
| Naming.TempPrefix | lambda_function.py:166 | its definition is the model of the prefix the parts are listed under |
| Naming.FileName | lambda_function.py:129-133 | its definition is the model of the file name, with the special case for `source` |
| Naming.FinalKey | lambda_function.py:135 | its definition is the model of the final key: the results prefix, the type, `/`, the file name |
| Naming.ResultEntry | lambda_function.py:242-246 | its definition is the model of the entry appended to the result list |
| Naming.StatsScratchUrl | lambda_function.py:127 | the hard-coded UNLOAD root URL is the inventory bucket's `temp/source-stats/` area |
| Naming.AthenaScratchUrl | lambda_function.py:155 | the engine's output location is the inventory bucket's `temp/athena/` area |
| Naming.TempLocationIsPrefix | lambda_function.py:127 | the UNLOAD target URL names, in the inventory bucket, exactly the prefix the parts are later listed under |
| Naming.Submission | lambda_function.py:151-158 | its definition, with the record `QueryRequest`, is the model of the parameters of `start_query_execution`: the query, the UNLOAD target, the database, the output location and the workgroup |
| Naming.SubmissionTargetsScratch | lambda_function.py:151-158 | the query writes its parts under the report's scratch prefix and its metadata under `temp/athena/`, both in the inventory bucket, and the report's prefix lies under `temp/source-stats/` |
| Naming.TempPrefixUnderScratch | lambda_function.py:166 | every report's scratch prefix lies under the cleaner's second prefix |
| Naming.TempPrefixesApart | lambda_function.py:166 | for two distinct type names without `/`, neither scratch prefix extends the other |
| Naming.TempPrefixesDisjoint | lambda_function.py:166 | no key lies under the scratch prefixes of two distinct type names without `/` |
| Naming.AthenaApartFromReports | lambda_function.py:155 | the engine's scratch area and a report's scratch prefix do not overlap |
| Naming.ScratchAreasDisjoint | lambda_function.py:209-221 | no key lies under both `temp/athena/` and `temp/source-stats/` |
| Naming.FinalKeyIsEntry | lambda_function.py:241-246 | the final key of a report is its result entry under the results prefix, so the entry uses the same file name rule |
| Naming.FinalKeyInjective | lambda_function.py:129-135 | distinct type names without `/` get distinct final keys |
| Naming.ResultEntryInjective | lambda_function.py:241-246 | distinct type names without `/` get distinct result entries |
| Catalog.REPORTS | lambda_function.py:27-105 | its definition is the model of the `queries` dict: the three types `accounts`, `repositories`, `source` in the insertion order line 238 iterates, each with its exact header and its query as an opaque string |
| Catalog.ReportsWellNamed | lambda_function.py:27-105 | the report table's type names are distinct and contain no `/` |
| Store.Listing | lambda_function.py:167-169 | a listing returns only keys of the bucket under the prefix, and as many as the prefix holds up to 1000 |
| Store.ListingSorted | lambda_function.py:167 | a listing is in key order, and it is the whole prefix when that holds at most 1000 keys |
| Store.EmptyListing | lambda_function.py:169 | a prefix that holds no key lists nothing |
| Store.ApplyDeletes | lambda_function.py:199-200 | a run of single-key deletions removes exactly the keys it names |
| Store.ObjectStore.ListObjectsV2 | lambda_function.py:167 | returns the listing of the prefix and changes nothing |
| Store.ObjectStore.GetObject | lambda_function.py:186-187 | returns the stored body of the key and changes nothing |
| Store.ObjectStore.PutObject | lambda_function.py:191-196 | sets the key's body in the results bucket and logs the write |
| Store.ObjectStore.DeleteObject | lambda_function.py:200 | removes one key from the inventory bucket and logs the deletion |
| Store.ObjectStore.DeleteObjects | lambda_function.py:214-217 | removes every key of the batch from the inventory bucket and logs one request |
| Materializer.DataFiles | lambda_function.py:174-175 | its definition is the model of the data-file comprehension |
| Materializer.Csv | lambda_function.py:182-188 | its definition is the model of the file content: the header, a newline, then every part's body in order |
| Materializer.Materialize | lambda_function.py:125-203 | its definition is the model of the whole call: its outcome and the bucket requests it makes, in order, for each step that may raise |
| Materializer.Publish | lambda_function.py:181-200 | its definition is the model of the steps after a listing that found data files: the reads, the write, then the deletions up to the first that raises |
| Materializer.DataFilesExact | lambda_function.py:174-175 | the data files are exactly the listed keys not ending in `manifest.csv` or `.metadata`, each as often as it was listed, with a sorted listing's order kept |
| Materializer.DataFilesInOrder | lambda_function.py:174-175 | filtering a concatenated listing is the concatenation of the filtered halves |
| Materializer.Parts | lambda_function.py:165-175 | the data files a report finds are keys of the bucket under its scratch prefix, are data files, and are in strictly increasing key order |
| Materializer.CsvFirstLine | lambda_function.py:182 | when the header has no newline, it is the first line of the file |
| Materializer.CsvSplices | lambda_function.py:182-188 | the file is the header line followed by the parts' bodies in order: a split part list contributes each half in turn, and one part contributes its body |
| Materializer.ReadParts | lambda_function.py:182-188 | the accumulation loop yields the header line followed by every part's body in order, or nothing when one of the reads raises |
| Materializer.DeleteStep | lambda_function.py:199-200 | deleting part `i` extends the deletions of the parts before it, on the store and on the log |
| Materializer.DeleteParts | lambda_function.py:198-200 | the delete loop deletes the parts in order up to the first one that raises, and it completes exactly when none raises |
| Materializer.WriteAndClear | lambda_function.py:190-200 | one write of the file, then the deletions; nothing else is requested |
| Materializer.PublishParts | lambda_function.py:181-203 | after a listing that found data files, the reads, the write and the deletions end and change the buckets as `Publish` says |
| Materializer.CreateCsvWithHeader | lambda_function.py:125-203 | the whole call returns, raises and changes both buckets exactly as `Materialize` says |
| MaterializerFacts.MaterializeSucceeds | lambda_function.py:160-203 | the call returns true exactly when the wait succeeds, data files are found and no step raises |
| MaterializerFacts.PublishSucceeds | lambda_function.py:181-203 | the steps after the listing return true exactly when no read, no write and no deletion raises |
| MaterializerFacts.MaterializeEarlyExits | lambda_function.py:162-179 | a wait that does not succeed, an empty listing or an empty data-file list write and delete nothing; a read or the write that raises deletes nothing; a false result changes nothing |
| MaterializerFacts.MaterializeShape | lambda_function.py:190-200 | the requests are nothing, or the write followed by the first `k` part deletions; success means all parts are deleted |
| MaterializerFacts.MaterializeOrder | lambda_function.py:190-200 | the write comes first and every later request deletes the next data file in order; on success exactly the write then every part's deletion |
| MaterializerFacts.PublishedState | lambda_function.py:190-200 | the write followed by `k` deletions leaves the file at the final key and the first `k` parts removed |
| MaterializerFacts.MaterializeSuccessState | lambda_function.py:182-200 | on success, the results bucket maps the final key to header line plus parts and starts with the header; every listed data file is removed; manifests, metadata and all other keys and results are unchanged |
| MaterializerFacts.MaterializeFrame | lambda_function.py:165-200 | in every outcome, no inventory key is added or altered, only data files are removed, and the results bucket changes at most at the final key, to the assembled file |
| MaterializerFacts.MaterializeLocal | lambda_function.py:165-188 | the call depends only on the keys under its own scratch prefix and their bodies |
| MaterializerFacts.PartsLocal | lambda_function.py:166-175 | stores that hold the same keys under the report's prefix list the same parts |
| MaterializerFacts.PublishLocal | lambda_function.py:184-188 | the write and the deletions depend only on the bodies of the parts |
| MaterializerFacts.AgreeUnderTrans | lambda_function.py:166-167 | stores that agree under a prefix with a common third agree with each other |
| MaterializerFacts.MaterializeRemoves | lambda_function.py:198-200 | the inventory bucket after the call is the old one less some of the report's data files |
| MaterializerFacts.MaterializeKeepsOtherPrefix | lambda_function.py:166-200 | a call leaves every prefix apart from its own scratch prefix as it found it |
| MaterializerFacts.MaterializeLeavesOverflow | lambda_function.py:167-175 | with more than 1000 keys under the report's prefix, a key past the listing page is no part of the file and is still in scratch afterwards, whatever the call returned |
| MaterializerFacts.MaterializeShrinks | lambda_function.py:190-200 | a call adds no key under any prefix |
| Cleaner.Cleanup | lambda_function.py:205-233 | its definition is the model of the clean-up's requests: each area's listing and bulk deletion, cut short at the step that raises |
| Cleaner.Sweep | lambda_function.py:211-217 | a bulk deletion is issued exactly when the listing is not empty |
| Cleaner.SweepPrefix | lambda_function.py:209-218 | one scratch area: one listing, then one bulk deletion of what it returned; it raises only when the deletion raises on a non-empty listing |
| Cleaner.CleanupDirectories | lambda_function.py:205-233 | the cleaner makes exactly the requests `Cleanup` names, and it never raises to its caller |
| Cleaner.SweepState | lambda_function.py:212-217 | a sweep removes exactly the listed keys |
| Cleaner.FirstSweep | lambda_function.py:209-221 | after the first sweep, `temp/source-stats/` holds no more keys than before |
| Cleaner.CleanupShape | lambda_function.py:207-233 | the requests are none, the first sweep or both sweeps, and both sweeps when nothing raises |
| Cleaner.CleanupClearsScratch | lambda_function.py:205-230 | when nothing raises, no key remains under either scratch area |
| Cleaner.CleanupKeepsOthers | lambda_function.py:205-233 | whatever raises, the results bucket is untouched, no inventory key is added or altered, and nothing outside the two areas is removed |
| Cleaner.CleanupStopsEarly | lambda_function.py:207-233 | an exception only cuts the clean-up short: its requests are a prefix of those of a clean-up where nothing raises |
| Cleaner.CleanupNothingToDo | lambda_function.py:211-213 | with both areas empty the cleaner sends no request |
| Cleaner.CleanupIdempotent | lambda_function.py:205-233 | a second clean-up after one where nothing raised deletes nothing |
| Cleaner.CleanupLeavesOverflow | lambda_function.py:209-217 | with more than 1000 keys under `temp/athena/`, one of them survives a clean-up where nothing raised |
| Handler.RunReports | lambda_function.py:238-251 | the reports run in order, one outcome each, on the store the earlier ones left |
| Handler.Files | lambda_function.py:240-246 | its definition is the model of the result list: one entry per report that returned true, in table order |
| Handler.RunExtends | lambda_function.py:238-251 | the run of the first `i + 1` reports is the run of the first `i` followed by report `i` on the store they left |
| Handler.FilesStep | lambda_function.py:240-246 | one turn of the loop appends the report's entry exactly when it returned true |
| Handler.NextRun | lambda_function.py:238-251 | one turn of the loop extends the run, the store and the result list |
| Handler.AttemptReport | lambda_function.py:239-251 | one report runs; its entry, built with the loop's own copy of the file-name rule (lines 242-246), is the `ResultEntry` of the type, and it is produced exactly when the call returned true; an exception is caught |
| Handler.ProcessReports | lambda_function.py:236-251 | the loop's result list and the store's new state and log are those of `RunReports` over the whole table |
| Handler.HandlerResponse | lambda_function.py:236-264 | its definition is the model of the response: status 200, the date and the result list of the run |
| Handler.HandlerState | lambda_function.py:236-254 | its definition is the model of the buckets after the handler: every report in order, then one clean-up |
| Handler.LambdaHandler | lambda_function.py:236-257 | the response is status 200 with the date and the list of `HandlerResponse`; the store sees every report's requests in table order, then a single clean-up's |
| HandlerFacts.RunDropLast | lambda_function.py:238 | leaving out the last report leaves out its outcome |
| HandlerFacts.RunPrefix | lambda_function.py:238 | the outcomes of the first `i` reports are the start of the outcomes of all of them |
| HandlerFacts.RunAttemptsEvery | lambda_function.py:238-251 | every report is attempted, whatever the earlier ones gave, on the store they left |
| HandlerFacts.BeforeAgrees | lambda_function.py:238-251 | for a table whose type names are distinct and without `/`: after the first `j` reports have run, for any `j <= i`, report `i`'s scratch prefix still holds the keys and bodies it held initially |
| HandlerFacts.RunIsolated | lambda_function.py:238-251 | for a table whose type names are distinct and without `/`, a failure or exception in one report does not reach another: each report does what it would do alone on the initial store |
| HandlerFacts.FilesOnlySuccesses | lambda_function.py:240-246 | every entry of the list is the entry of a report that returned true |
| HandlerFacts.FilesMember | lambda_function.py:240-246 | with distinct type names without `/`, report `i`'s entry is in the list exactly when report `i` returned true |
| HandlerFacts.FilesMembers | lambda_function.py:240-246 | the same, for every report of the table at once |
| HandlerFacts.EntryNotEarlier | lambda_function.py:241-246 | a name no report carries has no entry in the list |
| HandlerFacts.OthersApart | lambda_function.py:241-246 | with distinct type names without `/`, no report of a slice that leaves out report `i` carries its name |
| HandlerFacts.FilesInOrder | lambda_function.py:236-246 | the list is in table order: the entries of the first `i` reports come before those of the rest |
| HandlerFacts.FilesOfSuffix | lambda_function.py:240-246 | the entries from report `i` on end with the last report's entry, if it returned true |
| HandlerFacts.FilesBound | lambda_function.py:240-246 | the list has no more entries than the table has reports |
| HandlerFacts.RunShrinks | lambda_function.py:238-251 | the reports add no key under any prefix |
| HandlerFacts.ReportKeepsOutside | lambda_function.py:198-200 | one report deletes nothing outside `temp/source-stats/` and alters no body |
| HandlerFacts.RunInventoryFrame | lambda_function.py:238-251 | all reports together add no inventory key, alter no body and delete only under `temp/source-stats/` |
| HandlerFacts.ReportKeepsOtherResults | lambda_function.py:191-196 | one report touches no result but its own final key |
| HandlerFacts.RunResultsFrame | lambda_function.py:238-251 | all reports together touch no result but their own final keys |
| HandlerFacts.LaterKeepFile | lambda_function.py:238-251 | for a table whose type names are distinct and without `/`, a file written by one report stays unchanged while the later reports run |
| HandlerFacts.FileOfSuccess | lambda_function.py:240 | for a table whose type names are distinct and without `/`, a report that returned true has written the file it would assemble from the initial store |
| HandlerFacts.RunRecordsFiles | lambda_function.py:238-251 | for a table whose type names are distinct and without `/`, after all reports, each one that returned true has that file at its final key |
| HandlerFacts.RunIgnoresCleanup | lambda_function.py:238-254 | the reports' run does not depend on how the clean-up fails |
| HandlerFacts.ResponseIgnoresCleanup | lambda_function.py:232-257 | a clean-up exception never reaches the response: status 200 with the same list whatever the cleaner raises |
| HandlerFacts.FilesDistinct | lambda_function.py:240-246 | with distinct type names without `/`, no entry is appended twice |
| HandlerFacts.ResponseListsSuccesses | lambda_function.py:236-257 | the response's list is `Files` over the outcomes each type would have alone on the initial store, so it is in table order; a type's entry is listed exactly when its call, run alone, returned true; every listed item is the entry of such a type; no entry is listed twice and there is at most one per type |
| HandlerFacts.HandlerKeepsFiles | lambda_function.py:236-254 | after the handler, each type that returned true has its assembled file in the results bucket, whatever the clean-up raised |
| HandlerFacts.HandlerFrame | lambda_function.py:236-254 | the handler adds no inventory key, alters no body, removes nothing outside the two scratch areas and touches no result but the reports' final keys |
| HandlerFacts.HandlerClearsScratch | lambda_function.py:236-254 | when the clean-up raises nothing, no key under `temp/athena/` or `temp/source-stats/` remains after the handler |
| HandlerFacts.SecondCleanupDeletesNothing | lambda_function.py:205-254 | when the handler's clean-up raised nothing, a second clean-up after the handler deletes nothing, whatever the second one raises |

## Left out

- The SQL texts and what they compute are not modelled (lambda_function.py:27-104). The
  engine evaluates them with floating-point rounding. Each query is an opaque stand-in
  string; the headers are exact.
- The engine's own writes are not modelled. The query's output parts, manifest and metadata
  are taken to be in the inventory bucket already. `Naming.SubmissionTargetsScratch` proves
  only where the submission tells the engine to write.
- boto3 client construction, the region, `ContentType` and the UTF-8 decoding of bodies
  are not modelled. Decoding is the identity on strings, and `start_query_execution` is
  reduced to the step that may raise.
- Wall-clock time and `time.sleep` are replaced by a poll count. With zero-latency calls,
  the 300-second deadline and 10-second pause allow 30 status reads. Slower calls would
  allow fewer; that count is a parameter of `Poller.WaitForQueryCompletion`. But
  `Materializer.Materialize` and `Materializer.CreateCsvWithHeader` fix it at
  `Poller.POLL_BUDGET`, so every property of a report and of the handler assumes 30
  zero-latency status reads.
- `print` output is not modelled. Of the JSON body, only the status code, the date and the
  file list are kept; the fixed `message` and `structure` strings are left out.
- `test_setup.py` is not part of this model. It is a diagnostic script that runs its own
  copy of the poll loop.
- The docstring's path pattern is not modelled (lambda_function.py:9, 262). It disagrees
  with the file names the code builds.
- A `delete_objects` call that raises is modelled as deleting nothing, and per-key errors
  in a successful `delete_objects` reply are not modelled. S3 may report such a batch as
  partly done.
- A `put_object` or `delete_object` call that raises is modelled as changing nothing
  (`Materializer.Publish`, `Materializer.DeleteParts`). The model does not capture a request
  that takes effect before its reply is lost.
- S3 pagination is not modelled. A listing returns at most 1000 keys, in the materialiser
  as in the cleaner, and no code path asks for a second page. The properties of a
  report's file are therefore about the data files of its one listing page
  (`MaterializerFacts.MaterializeLeavesOverflow`).
- Cleaner.CleanupClearsScratch: stated only for at most 1000 keys per scratch area, because
  the cleaner reads one listing page; `Cleaner.CleanupLeavesOverflow` covers the other case.
- Cleaner.CleanupIdempotent: stated only for at most 1000 keys per scratch area, for the
  same reason.
- HandlerFacts.HandlerClearsScratch: stated only for at most 1000 keys per scratch area
  before the handler, for the same reason.
- HandlerFacts.SecondCleanupDeletesNothing: stated only for at most 1000 keys per scratch
  area before the handler, for the same reason. It also holds only when the handler's own
  clean-up raised nothing: after a clean-up that raised, the scratch may still hold keys.
- HandlerFacts.RunIsolated: stated for tables whose type names are distinct and contain no
  `/`. The handler's own table meets this (`Catalog.ReportsWellNamed`).
- HandlerFacts.FilesMember: has the same precondition, for the same reason. So do
  `Naming.TempPrefixesApart`, `Naming.TempPrefixesDisjoint`, `HandlerFacts.BeforeAgrees`,
  `HandlerFacts.OthersApart`, `HandlerFacts.LaterKeepFile`, `HandlerFacts.FileOfSuccess`,
  `HandlerFacts.RunRecordsFiles` and `HandlerFacts.FilesDistinct`: for the names `a` and
  `a/250629`, one scratch prefix extends the other.
