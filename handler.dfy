/** `lambda_handler`: run every report of the table in order, catching whatever one of them
    raises so that the next still runs, record the entry of each report that succeeded,
    clean the scratch areas once, and answer with status 200. */
module Handler {
  import opened Outcomes
  import opened Store
  import opened Naming
  import opened Catalog
  import opened Materializer
  import opened Cleaner

  /** The environment of one invocation: each report type's status replies and failing step,
      and the step of the clean-up that raises, if any. */
  datatype Env = Env(scripts: string -> Script, cleanupFault: Option<CleanStep>)

  /** How each report ended, in table order, and the bucket changes of all of them. */
  datatype Run = Run(outcomes: seq<Call>, mutations: seq<Mutation>)

  /** The part of the response the model keeps: the status code, the date and the list of
      files produced. */
  datatype Response = Response(statusCode: int, date: string, files: seq<string>)

  /** The reports run one after the other, each on the store the earlier ones left. */
  function RunReports(v: View, reports: seq<Report>, date: string, env: Env): (run: Run)
    requires WellFormed(v)
    ensures |run.outcomes| == |reports|
    ensures WellFormed(Apply(v, run.mutations))
    decreases |reports|
  {
    if reports == [] then Run([], [])
    else
      var n := |reports| - 1;
      var earlier := RunReports(v, reports[..n], date, env);
      var e := Materialize(Apply(v, earlier.mutations), reports[n], date, env.scripts(reports[n].name));
      Run(earlier.outcomes + [e.outcome], earlier.mutations + e.mutations)
  }

  /** The store as the first `i` reports left it. */
  function Before(v: View, reports: seq<Report>, i: nat, date: string, env: Env): (w: View)
    requires WellFormed(v) && i <= |reports|
    ensures WellFormed(w)
  {
    Apply(v, RunReports(v, reports[..i], date, env).mutations)
  }

  /** The entries the loop appends: one per report whose outcome is true, in table order. */
  function Files(reports: seq<Report>, outcomes: seq<Call>, date: string): seq<string>
    requires |outcomes| == |reports|
    decreases |reports|
  {
    if reports == [] then []
    else
      var n := |reports| - 1;
      Files(reports[..n], outcomes[..n], date)
        + (if outcomes[n] == Returned(true) then [ResultEntry(reports[n].name, date)] else [])
  }

  /** One turn of the loop: the run of the first i + 1 reports extends the run of the first i
      by report i, run on the store they left. */
  lemma RunExtends(v: View, reports: seq<Report>, i: nat, date: string, env: Env)
    requires WellFormed(v) && i < |reports|
    ensures var earlier := RunReports(v, reports[..i], date, env);
      var e := Materialize(Before(v, reports, i, date, env), reports[i], date, env.scripts(reports[i].name));
      RunReports(v, reports[..i + 1], date, env) == Run(earlier.outcomes + [e.outcome], earlier.mutations + e.mutations)
  {
    assert reports[..i + 1][..i] == reports[..i];
    assert reports[..i + 1][i] == reports[i];
  }

  lemma FilesStep(reports: seq<Report>, outcomes: seq<Call>, i: nat, o: Call, date: string)
    requires |outcomes| == i < |reports|
    ensures Files(reports[..i + 1], outcomes + [o], date) ==
      Files(reports[..i], outcomes, date) + (if o == Returned(true) then [ResultEntry(reports[i].name, date)] else [])
  {
    assert reports[..i + 1][..i] == reports[..i];
    assert (outcomes + [o])[..i] == outcomes;
  }

  /** One turn of the loop, on values: report `i` run on the store the first `i` reports
      left extends their run, the store and the result list. */
  lemma NextRun(v0: View, reports: seq<Report>, i: nat, date: string, env: Env, run: Run, e: Effect)
    requires WellFormed(v0) && i < |reports|
    requires run == RunReports(v0, reports[..i], date, env)
    requires e == Materialize(Apply(v0, run.mutations), reports[i], date, env.scripts(reports[i].name))
    ensures RunReports(v0, reports[..i + 1], date, env) == Run(run.outcomes + [e.outcome], run.mutations + e.mutations)
    ensures Apply(v0, run.mutations + e.mutations) == Apply(Apply(v0, run.mutations), e.mutations)
    ensures Files(reports[..i + 1], run.outcomes + [e.outcome], date) ==
      Files(reports[..i], run.outcomes, date) + (if e.outcome == Returned(true) then [ResultEntry(reports[i].name, date)] else [])
  {
    RunExtends(v0, reports, i, date, env);
    FilesStep(reports, run.outcomes, i, e.outcome, date);
    ApplyAppend(v0, run.mutations, e.mutations);
  }

  /** One turn of the loop: the report runs and, when it returns true, its entry is
      appended; an exception is caught and the entry is left out. The loop repeats the
      file-name rule of the materialiser, and the contract shows that both copies agree. */
  method AttemptReport(store: ObjectStore, report: Report, date: string, script: Script)
    returns (entry: seq<string>, ghost e: Effect)
    requires store.Valid()
    modifies store
    ensures store.Valid()
    ensures e == Materialize(old(store.Snapshot()), report, date, script)
    ensures entry == (if e.outcome == Returned(true) then [ResultEntry(report.name, date)] else [])
    ensures store.log == old(store.log) + e.mutations
    ensures store.Snapshot() == Apply(old(store.Snapshot()), e.mutations)
  {
    e := Materialize(store.Snapshot(), report, date, script);
    var ok := CreateCsvWithHeader(store, report, date, script);
    if ok == Returned(true) {
      var filename;
      if report.name == "source" {
        filename := "source-stats-summary-" + date + ".csv";
      } else {
        filename := "source-stats-" + report.name + "-" + date + ".csv";
      }
      entry := [report.name + "/" + filename];
    } else {
      entry := [];
    }
  }

  /** The loop over the report table: every report runs, whatever the previous ones
      returned or raised, and the entry of each one that returned true is appended. */
  method ProcessReports(store: ObjectStore, reports: seq<Report>, date: string, env: Env)
    returns (results: seq<string>)
    requires store.Valid()
    modifies store
    ensures store.Valid()
    ensures var run := RunReports(old(store.Snapshot()), reports, date, env);
      && results == Files(reports, run.outcomes, date)
      && store.log == old(store.log) + run.mutations
      && store.Snapshot() == Apply(old(store.Snapshot()), run.mutations)
  {
    ghost var v0 := store.Snapshot();
    ghost var log0 := store.log;
    ghost var run := Run([], []);
    results := [];
    for i := 0 to |reports|
      invariant store.Valid()
      invariant run == RunReports(v0, reports[..i], date, env)
      invariant store.Snapshot() == Apply(v0, run.mutations) && store.log == log0 + run.mutations
      invariant results == Files(reports[..i], run.outcomes, date)
    {
      ghost var e;
      var entry;
      entry, e := AttemptReport(store, reports[i], date, env.scripts(reports[i].name));
      NextRun(v0, reports, i, date, env, run, e);
      LogAppend(log0, run.mutations, e.mutations);
      results := results + entry;
      run := Run(run.outcomes + [e.outcome], run.mutations + e.mutations);
    }
    assert reports[..|reports|] == reports;
  }

  /** The handler's response on a store in state `v`: what `LambdaHandler` returns. */
  function HandlerResponse(v: View, env: Env): Response
    requires WellFormed(v)
  {
    Response(200, DATE, Files(REPORTS, RunReports(v, REPORTS, DATE, env).outcomes, DATE))
  }

  /** The store after the handler: all reports, then one clean-up. */
  function HandlerState(v: View, env: Env): View
    requires WellFormed(v)
  {
    var afterRun := Apply(v, RunReports(v, REPORTS, DATE, env).mutations);
    Apply(afterRun, Cleanup(afterRun, env.cleanupFault))
  }

  /** The handler on a store in state `old(store)`: the response lists exactly the reports
      that succeeded, in table order, whatever the clean-up does; the store sees every
      report's requests, in table order, and then those of a single clean-up. */
  method LambdaHandler(store: ObjectStore, env: Env) returns (response: Response)
    requires store.Valid()
    modifies store
    ensures store.Valid()
    ensures response == HandlerResponse(old(store.Snapshot()), env)
    ensures var run := RunReports(old(store.Snapshot()), REPORTS, DATE, env);
      var afterRun := Apply(old(store.Snapshot()), run.mutations);
      store.log == old(store.log) + run.mutations + Cleanup(afterRun, env.cleanupFault)
    ensures store.Snapshot() == HandlerState(old(store.Snapshot()), env)
  {
    var results := ProcessReports(store, REPORTS, DATE, env);
    CleanupDirectories(store, env.cleanupFault);
    response := Response(200, DATE, results);
  }
}
