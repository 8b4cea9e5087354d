/** What the handler's loop and its single clean-up guarantee: every report of the table is
    attempted whatever the earlier ones did, each one behaves as if it ran alone on the
    initial store, the result list names exactly the reports that succeeded in table order,
    each success leaves its file in the results bucket, nothing outside the scratch areas
    and the final keys changes, and after a clean-up that raised nothing the scratch areas
    are empty. */
module HandlerFacts {
  import opened Outcomes
  import opened Store
  import opened Naming
  import opened Catalog
  import opened Materializer
  import opened MaterializerFacts
  import opened Cleaner
  import opened Handler

  /** Leaving out the last report leaves out its outcome. */
  lemma RunDropLast(v: View, reports: seq<Report>, date: string, env: Env)
    requires WellFormed(v) && reports != []
    ensures RunReports(v, reports[..|reports| - 1], date, env).outcomes ==
      RunReports(v, reports, date, env).outcomes[..|reports| - 1]
  {
  }

  /** The run of the first `i` reports is the start of the run of all of them. */
  lemma {:induction false} RunPrefix(v: View, reports: seq<Report>, i: nat, date: string, env: Env)
    requires WellFormed(v) && i <= |reports|
    ensures RunReports(v, reports[..i], date, env).outcomes == RunReports(v, reports, date, env).outcomes[..i]
    decreases |reports|
  {
    if i == |reports| {
      assert reports[..i] == reports;
    } else {
      var n := |reports| - 1;
      RunDropLast(v, reports, date, env);
      RunPrefix(v, reports[..n], i, date, env);
      assert reports[..n][..i] == reports[..i];
    }
  }

  /** Every report is attempted, on the store the earlier ones left, whatever they returned
      or raised: its outcome is the one `create_csv_with_header` gives there. */
  lemma RunAttemptsEvery(v: View, reports: seq<Report>, i: nat, date: string, env: Env)
    requires WellFormed(v) && i < |reports|
    ensures RunReports(v, reports, date, env).outcomes[i] ==
      Materialize(Before(v, reports, i, date, env), reports[i], date, env.scripts(reports[i].name)).outcome
  {
    var part := RunReports(v, reports[..i + 1], date, env).outcomes;
    var earlier := RunReports(v, reports[..i], date, env).outcomes;
    var e := Materialize(Before(v, reports, i, date, env), reports[i], date, env.scripts(reports[i].name));
    RunPrefix(v, reports, i + 1, date, env);
    RunExtends(v, reports, i, date, env);
    assert part == earlier + [e.outcome] && |earlier| == i;
    assert part[i] == e.outcome;
  }

  /** Before report `j` runs, every scratch area of a later report `i` still holds what it held
      initially: each report only deletes under its own prefix, and the prefixes of distinct
      names are apart. */
  lemma {:induction false} BeforeAgrees(v: View, reports: seq<Report>, i: nat, j: nat, date: string, env: Env)
    requires WellFormed(v) && WellNamed(reports) && j <= i < |reports|
    ensures AgreeUnder(v, Before(v, reports, j, date, env), TempPrefix(reports[i].name, date))
    decreases j
  {
    var prefix := TempPrefix(reports[i].name, date);
    if j == 0 {
      assert reports[..0] == [];
      assert Before(v, reports, 0, date, env) == v;
    } else {
      BeforeAgrees(v, reports, i, j - 1, date, env);
      var w := Before(v, reports, j - 1, date, env);
      var earlier := RunReports(v, reports[..j - 1], date, env);
      var e := Materialize(w, reports[j - 1], date, env.scripts(reports[j - 1].name));
      RunExtends(v, reports, j - 1, date, env);
      ApplyAppend(v, earlier.mutations, e.mutations);
      assert Before(v, reports, j, date, env) == Apply(w, e.mutations);
      TempPrefixesApart(reports[j - 1].name, reports[i].name, date);
      MaterializeKeepsOtherPrefix(w, reports[j - 1], date, env.scripts(reports[j - 1].name), prefix);
      AgreeUnderTrans(v, w, Apply(w, e.mutations), prefix);
    }
  }

  /** A failure or an exception in one report does not reach another: with distinct type
      names, each report does exactly what it would do alone on the initial store. */
  lemma RunIsolated(v: View, reports: seq<Report>, i: nat, date: string, env: Env)
    requires WellFormed(v) && WellNamed(reports) && i < |reports|
    ensures Materialize(Before(v, reports, i, date, env), reports[i], date, env.scripts(reports[i].name)) ==
      Materialize(v, reports[i], date, env.scripts(reports[i].name))
    ensures RunReports(v, reports, date, env).outcomes[i] == Materialize(v, reports[i], date, env.scripts(reports[i].name)).outcome
  {
    var w := Before(v, reports, i, date, env);
    BeforeAgrees(v, reports, i, i, date, env);
    MaterializeLocal(w, v, reports[i], date, env.scripts(reports[i].name));
    RunAttemptsEvery(v, reports, i, date, env);
  }

  /** The result list holds nothing but entries of reports that returned true. */
  lemma {:induction false} FilesOnlySuccesses(reports: seq<Report>, outcomes: seq<Call>, date: string)
    requires |outcomes| == |reports|
    ensures forall x :: x in Files(reports, outcomes, date) ==>
      exists i :: 0 <= i < |reports| && outcomes[i] == Returned(true) && x == ResultEntry(reports[i].name, date)
    decreases |reports|
  {
    if reports != [] {
      var n := |reports| - 1;
      var front := reports[..n];
      FilesOnlySuccesses(front, outcomes[..n], date);
      forall x | x in Files(reports, outcomes, date)
        ensures exists i :: 0 <= i < |reports| && outcomes[i] == Returned(true) && x == ResultEntry(reports[i].name, date)
      {
        if x in Files(front, outcomes[..n], date) {
          var i :| 0 <= i < n && outcomes[..n][i] == Returned(true) && x == ResultEntry(front[i].name, date);
          assert outcomes[i] == Returned(true) && reports[i] == front[i];
        } else {
          assert outcomes[n] == Returned(true) && x == ResultEntry(reports[n].name, date);
        }
      }
    }
  }

  /** With distinct type names, the result list holds the entry of report `i` exactly when
      report `i` returned true. */
  lemma FilesMember(reports: seq<Report>, outcomes: seq<Call>, i: nat, date: string)
    requires |outcomes| == |reports| && WellNamed(reports) && i < |reports|
    ensures ResultEntry(reports[i].name, date) in Files(reports, outcomes, date) <==> outcomes[i] == Returned(true)
  {
    var name := reports[i].name;
    var own := reports[..i + 1];
    FilesInOrder(reports, outcomes, i + 1, date);
    FilesInOrder(own, outcomes[..i + 1], i, date);
    assert own[..i] == reports[..i] && outcomes[..i + 1][..i] == outcomes[..i];
    assert own[i..] == [reports[i]] && outcomes[..i + 1][i..] == [outcomes[i]];
    assert Files([reports[i]], [outcomes[i]], date) ==
      if outcomes[i] == Returned(true) then [ResultEntry(name, date)] else [];
    OthersApart(reports, i, 0, i);
    OthersApart(reports, i, i + 1, |reports|);
    EntryNotEarlier(reports[..i], outcomes[..i], name, date);
    EntryNotEarlier(reports[i + 1..], outcomes[i + 1..], name, date);
  }

  /** With distinct type names, no report of a slice without report `i` carries its name. */
  lemma OthersApart(reports: seq<Report>, i: nat, lo: nat, hi: nat)
    requires WellNamed(reports) && i < |reports| && lo <= hi <= |reports| && (hi <= i || i < lo)
    ensures '/' !in reports[i].name
    ensures forall j :: 0 <= j < hi - lo ==> '/' !in reports[lo..hi][j].name && reports[lo..hi][j].name != reports[i].name
  {
    forall j | 0 <= j < hi - lo ensures '/' !in reports[lo..hi][j].name && reports[lo..hi][j].name != reports[i].name {
      assert reports[lo..hi][j] == reports[lo + j];
    }
  }

  lemma FilesMembers(reports: seq<Report>, outcomes: seq<Call>, date: string)
    requires |outcomes| == |reports| && WellNamed(reports)
    ensures forall i :: 0 <= i < |reports| ==>
      (ResultEntry(reports[i].name, date) in Files(reports, outcomes, date) <==> outcomes[i] == Returned(true))
  {
    forall i | 0 <= i < |reports|
      ensures ResultEntry(reports[i].name, date) in Files(reports, outcomes, date) <==> outcomes[i] == Returned(true)
    {
      FilesMember(reports, outcomes, i, date);
    }
  }

  /** A name that no report of the table carries has no entry in the result list. */
  lemma EntryNotEarlier(reports: seq<Report>, outcomes: seq<Call>, name: string, date: string)
    requires |outcomes| == |reports| && '/' !in name
    requires forall j :: 0 <= j < |reports| ==> '/' !in reports[j].name && reports[j].name != name
    ensures ResultEntry(name, date) !in Files(reports, outcomes, date)
  {
    FilesOnlySuccesses(reports, outcomes, date);
    forall j | 0 <= j < |reports| ensures ResultEntry(reports[j].name, date) != ResultEntry(name, date) {
      ResultEntryInjective(reports[j].name, name, date);
    }
  }

  /** The result list is in table order: the entries of the first `i` reports come before
      those of the rest. */
  lemma {:induction false} FilesInOrder(reports: seq<Report>, outcomes: seq<Call>, i: nat, date: string)
    requires |outcomes| == |reports| && i <= |reports|
    ensures Files(reports, outcomes, date) ==
      Files(reports[..i], outcomes[..i], date) + Files(reports[i..], outcomes[i..], date)
    decreases |reports|
  {
    if i == |reports| {
      assert reports[..i] == reports && outcomes[..i] == outcomes;
      assert reports[i..] == [];
    } else {
      var n := |reports| - 1;
      FilesInOrder(reports[..n], outcomes[..n], i, date);
      assert reports[..n][..i] == reports[..i] && outcomes[..n][..i] == outcomes[..i];
      FilesOfSuffix(reports, outcomes, i, date);
    }
  }

  /** The entries of the reports from `i` on end with the last report's entry, if any. */
  lemma FilesOfSuffix(reports: seq<Report>, outcomes: seq<Call>, i: nat, date: string)
    requires |outcomes| == |reports| && i < |reports|
    ensures var n := |reports| - 1;
      Files(reports[i..], outcomes[i..], date) == Files(reports[..n][i..], outcomes[..n][i..], date)
        + (if outcomes[n] == Returned(true) then [ResultEntry(reports[n].name, date)] else [])
  {
    var n := |reports| - 1;
    var back := reports[i..];
    var m := |back| - 1;
    assert back[..m] == reports[..n][i..] && outcomes[i..][..m] == outcomes[..n][i..];
    assert back[m] == reports[n] && outcomes[i..][m] == outcomes[n];
  }

  /** The reports never add keys to the inventory bucket under any prefix. */
  lemma {:induction false} RunShrinks(v: View, reports: seq<Report>, date: string, env: Env, prefix: string)
    requires WellFormed(v)
    ensures |UnderPrefix(Apply(v, RunReports(v, reports, date, env).mutations).keys, prefix)| <= |UnderPrefix(v.keys, prefix)|
    decreases |reports|
  {
    if reports != [] {
      var n := |reports| - 1;
      RunShrinks(v, reports[..n], date, env, prefix);
      var earlier := RunReports(v, reports[..n], date, env);
      var w := Apply(v, earlier.mutations);
      var e := Materialize(w, reports[n], date, env.scripts(reports[n].name));
      MaterializeShrinks(w, reports[n], date, env.scripts(reports[n].name), prefix);
      ApplyAppend(v, earlier.mutations, e.mutations);
    }
  }

  /** One report deletes nothing outside `temp/source-stats/`. */
  lemma ReportKeepsOutside(u: View, report: Report, date: string, script: Script)
    requires WellFormed(u)
    ensures var w := Apply(u, Materialize(u, report, date, script).mutations);
      && (forall k :: k in w.inventory ==> k in u.inventory && w.inventory[k] == u.inventory[k])
      && (forall k :: k in u.inventory && !(STATS_SCRATCH <= k) ==> k in w.inventory)
  {
    MaterializeFrame(u, report, date, script);
    TempPrefixUnderScratch(report.name, date);
    var parts := Parts(u, report, date);
    forall k | k in parts ensures STATS_SCRATCH <= k {
      assert TempPrefix(report.name, date) <= k;
    }
  }

  /** The reports add no key to the inventory bucket, alter no body there and delete only
      under `temp/source-stats/`. */
  lemma {:induction false} RunInventoryFrame(v: View, reports: seq<Report>, date: string, env: Env)
    requires WellFormed(v)
    ensures var w := Apply(v, RunReports(v, reports, date, env).mutations);
      && (forall k :: k in w.inventory ==> k in v.inventory && w.inventory[k] == v.inventory[k])
      && (forall k :: k in v.inventory && !(STATS_SCRATCH <= k) ==> k in w.inventory)
    decreases |reports|
  {
    if reports != [] {
      var n := |reports| - 1;
      RunInventoryFrame(v, reports[..n], date, env);
      var earlier := RunReports(v, reports[..n], date, env);
      var u := Apply(v, earlier.mutations);
      var e := Materialize(u, reports[n], date, env.scripts(reports[n].name));
      ReportKeepsOutside(u, reports[n], date, env.scripts(reports[n].name));
      ApplyAppend(v, earlier.mutations, e.mutations);
    }
  }

  /** A key of the results bucket that is no report's final key. */
  predicate NotFinal(reports: seq<Report>, date: string, k: string)
  {
    forall j :: 0 <= j < |reports| ==> k != FinalKey(reports[j].name, date)
  }

  /** The reports touch no result but their own final keys. */
  lemma {:induction false} RunResultsFrame(v: View, reports: seq<Report>, date: string, env: Env)
    requires WellFormed(v)
    ensures var w := Apply(v, RunReports(v, reports, date, env).mutations);
      && (forall k :: NotFinal(reports, date, k) ==> (k in w.results <==> k in v.results))
      && (forall k :: NotFinal(reports, date, k) && k in v.results ==> w.results[k] == v.results[k])
    decreases |reports|
  {
    if reports != [] {
      var n := |reports| - 1;
      RunResultsFrame(v, reports[..n], date, env);
      var earlier := RunReports(v, reports[..n], date, env);
      var u := Apply(v, earlier.mutations);
      var e := Materialize(u, reports[n], date, env.scripts(reports[n].name));
      ReportKeepsOtherResults(u, reports[n], date, env.scripts(reports[n].name));
      ApplyAppend(v, earlier.mutations, e.mutations);
      forall k | NotFinal(reports, date, k)
        ensures NotFinal(reports[..n], date, k) && k != FinalKey(reports[n].name, date)
      {
        NotFinalFront(reports, date, k);
      }
    }
  }

  /** One report touches no result but its final key. */
  lemma ReportKeepsOtherResults(u: View, report: Report, date: string, script: Script)
    requires WellFormed(u)
    ensures var w := Apply(u, Materialize(u, report, date, script).mutations);
      forall k :: k != FinalKey(report.name, date) ==>
        (k in w.results <==> k in u.results) && (k in u.results ==> w.results[k] == u.results[k])
  {
    MaterializeFrame(u, report, date, script);
  }

  lemma NotFinalFront(reports: seq<Report>, date: string, k: string)
    requires reports != [] && NotFinal(reports, date, k)
    ensures NotFinal(reports[..|reports| - 1], date, k) && k != FinalKey(reports[|reports| - 1].name, date)
  {
    var n := |reports| - 1;
    forall j | 0 <= j < n ensures k != FinalKey(reports[..n][j].name, date) {
      assert reports[..n][j] == reports[j];
    }
  }

  /** A report that succeeded leaves its file at its final key for the rest of the run:
      the later reports write only their own final keys. */
  lemma {:induction false} LaterKeepFile(v: View, reports: seq<Report>, i: nat, j: nat, date: string, env: Env)
    requires WellFormed(v) && WellNamed(reports) && i < j <= |reports|
    ensures var key := FinalKey(reports[i].name, date);
      var before := Before(v, reports, i + 1, date, env);
      key in before.results ==>
        key in Before(v, reports, j, date, env).results && Before(v, reports, j, date, env).results[key] == before.results[key]
    decreases j
  {
    if j > i + 1 {
      LaterKeepFile(v, reports, i, j - 1, date, env);
      var u := Before(v, reports, j - 1, date, env);
      var earlier := RunReports(v, reports[..j - 1], date, env);
      var script := env.scripts(reports[j - 1].name);
      var e := Materialize(u, reports[j - 1], date, script);
      RunExtends(v, reports, j - 1, date, env);
      ApplyAppend(v, earlier.mutations, e.mutations);
      ReportKeepsOtherResults(u, reports[j - 1], date, script);
      FinalKeyInjective(reports[j - 1].name, reports[i].name, date);
    }
  }

  /** The file a successful report writes is the one it would assemble from the initial
      store. */
  lemma FileOfSuccess(v: View, reports: seq<Report>, i: nat, date: string, env: Env)
    requires WellFormed(v) && WellNamed(reports) && i < |reports|
    requires RunReports(v, reports, date, env).outcomes[i] == Returned(true)
    ensures var after := Before(v, reports, i + 1, date, env);
      var key := FinalKey(reports[i].name, date);
      key in after.results && after.results[key] == ReportCsv(v, reports[i], date)
  {
    var u := Before(v, reports, i, date, env);
    var script := env.scripts(reports[i].name);
    var e := Materialize(u, reports[i], date, script);
    RunIsolated(v, reports, i, date, env);
    RunExtends(v, reports, i, date, env);
    ApplyAppend(v, RunReports(v, reports[..i], date, env).mutations, e.mutations);
    MaterializeSuccessState(u, reports[i], date, script);
    MaterializeShape(u, reports[i], date, script);
    MaterializeShape(v, reports[i], date, script);
    assert e.mutations[0] == WriteOf(u, reports[i], date) == WriteOf(v, reports[i], date);
  }

  /** Every report that returned true has its file in the results bucket once all reports
      have run, with the content it assembled from the initial store. */
  lemma RunRecordsFiles(v: View, reports: seq<Report>, i: nat, date: string, env: Env)
    requires WellFormed(v) && WellNamed(reports) && i < |reports|
    requires RunReports(v, reports, date, env).outcomes[i] == Returned(true)
    ensures var w := Apply(v, RunReports(v, reports, date, env).mutations);
      var key := FinalKey(reports[i].name, date);
      key in w.results && w.results[key] == ReportCsv(v, reports[i], date)
  {
    FileOfSuccess(v, reports, i, date, env);
    LaterKeepFile(v, reports, i, |reports|, date, env);
    assert reports[..|reports|] == reports;
  }

  /** The run does not depend on how the clean-up fails. */
  lemma {:induction false} RunIgnoresCleanup(v: View, reports: seq<Report>, date: string, env: Env, fault: Option<CleanStep>)
    requires WellFormed(v)
    ensures RunReports(v, reports, date, env.(cleanupFault := fault)) == RunReports(v, reports, date, env)
    decreases |reports|
  {
    if reports != [] {
      RunIgnoresCleanup(v, reports[..|reports| - 1], date, env, fault);
    }
  }

  /** A clean-up exception never reaches the response: the handler answers 200 with the
      same list whatever the clean-up raises. */
  lemma ResponseIgnoresCleanup(v: View, env: Env, fault: Option<CleanStep>)
    requires WellFormed(v)
    ensures HandlerResponse(v, env.(cleanupFault := fault)) == HandlerResponse(v, env)
    ensures HandlerResponse(v, env).statusCode == 200
  {
    RunIgnoresCleanup(v, REPORTS, DATE, env, fault);
  }

  /** The outcome each report type of the table would have if it ran alone on the initial
      store. */
  function AloneOutcomes(v: View, env: Env): seq<Call>
    requires WellFormed(v)
  {
    seq(|REPORTS|, i requires 0 <= i < |REPORTS| => Materialize(v, REPORTS[i], DATE, env.scripts(REPORTS[i].name)).outcome)
  }

  /** The response lists, in table order, exactly the entries of the report types whose
      call returned true, each computed as if that type ran alone on the initial store, and
      none of them twice. */
  lemma ResponseListsSuccesses(v: View, env: Env)
    requires WellFormed(v)
    ensures var files := HandlerResponse(v, env).files;
      && files == Files(REPORTS, AloneOutcomes(v, env), DATE)
      && (forall i :: 0 <= i < |REPORTS| ==>
            (ResultEntry(REPORTS[i].name, DATE) in files <==>
             Materialize(v, REPORTS[i], DATE, env.scripts(REPORTS[i].name)).outcome == Returned(true)))
      && (forall x :: x in files ==>
            exists i :: (0 <= i < |REPORTS| &&
              Materialize(v, REPORTS[i], DATE, env.scripts(REPORTS[i].name)).outcome == Returned(true) &&
              x == ResultEntry(REPORTS[i].name, DATE)))
      && |files| <= |REPORTS|
      && (forall a, b :: 0 <= a < b < |files| ==> files[a] != files[b])
  {
    ReportsWellNamed();
    var run := RunReports(v, REPORTS, DATE, env);
    forall i | 0 <= i < |REPORTS|
      ensures run.outcomes[i] == Materialize(v, REPORTS[i], DATE, env.scripts(REPORTS[i].name)).outcome
    {
      RunIsolated(v, REPORTS, i, DATE, env);
    }
    assert run.outcomes == AloneOutcomes(v, env);
    FilesDistinct(REPORTS, run.outcomes, DATE);
    FilesMembers(REPORTS, run.outcomes, DATE);
    FilesOnlySuccesses(REPORTS, run.outcomes, DATE);
    FilesBound(REPORTS, run.outcomes, DATE);
  }

  /** At most one entry per report. */
  lemma {:induction false} FilesBound(reports: seq<Report>, outcomes: seq<Call>, date: string)
    requires |outcomes| == |reports|
    ensures |Files(reports, outcomes, date)| <= |reports|
    decreases |reports|
  {
    if reports != [] {
      FilesBound(reports[..|reports| - 1], outcomes[..|reports| - 1], date);
    }
  }

  /** With distinct type names, no entry is listed twice. */
  lemma {:induction false} FilesDistinct(reports: seq<Report>, outcomes: seq<Call>, date: string)
    requires |outcomes| == |reports| && WellNamed(reports)
    ensures var f := Files(reports, outcomes, date);
      forall a, b :: 0 <= a < b < |f| ==> f[a] != f[b]
    decreases |reports|
  {
    if reports != [] {
      var n := |reports| - 1;
      var before := Files(reports[..n], outcomes[..n], date);
      assert WellNamed(reports[..n]) by {
        assert forall j :: 0 <= j < n ==> reports[..n][j] == reports[j];
      }
      FilesDistinct(reports[..n], outcomes[..n], date);
      if outcomes[n] == Returned(true) {
        var e := ResultEntry(reports[n].name, date);
        OthersApart(reports, n, 0, n);
        assert reports[0..n] == reports[..n];
        EntryNotEarlier(reports[..n], outcomes[..n], reports[n].name, date);
        var f := before + [e];
        forall a, b | 0 <= a < b < |f| ensures f[a] != f[b] {
          if b < |before| {
            assert f[a] == before[a] && f[b] == before[b];
          } else {
            assert f[a] == before[a] && before[a] in before;
          }
        }
      }
    }
  }

  /** After the handler, each report type that returned true has its file in the results
      bucket, whatever the clean-up raised. */
  lemma HandlerKeepsFiles(v: View, env: Env, i: nat)
    requires WellFormed(v) && i < |REPORTS|
    requires Materialize(v, REPORTS[i], DATE, env.scripts(REPORTS[i].name)).outcome == Returned(true)
    ensures var key := FinalKey(REPORTS[i].name, DATE);
      key in HandlerState(v, env).results && HandlerState(v, env).results[key] == ReportCsv(v, REPORTS[i], DATE)
  {
    ReportsWellNamed();
    RunIsolated(v, REPORTS, i, DATE, env);
    RunRecordsFiles(v, REPORTS, i, DATE, env);
    CleanupKeepsOthers(Apply(v, RunReports(v, REPORTS, DATE, env).mutations), env.cleanupFault);
  }

  /** Nothing else changes: the handler adds no key to the inventory bucket and alters no
      body there, removes nothing outside the two scratch areas, and touches no result but
      the reports' final keys. */
  lemma HandlerFrame(v: View, env: Env)
    requires WellFormed(v)
    ensures var w := HandlerState(v, env);
      && (forall k :: k in w.inventory ==> k in v.inventory && w.inventory[k] == v.inventory[k])
      && (forall k :: k in v.inventory && !(ATHENA_SCRATCH <= k) && !(STATS_SCRATCH <= k) ==> k in w.inventory)
      && (forall k :: NotFinal(REPORTS, DATE, k) ==> (k in w.results <==> k in v.results))
      && (forall k :: NotFinal(REPORTS, DATE, k) && k in v.results ==> w.results[k] == v.results[k])
  {
    RunInventoryFrame(v, REPORTS, DATE, env);
    RunResultsFrame(v, REPORTS, DATE, env);
    CleanupKeepsOthers(Apply(v, RunReports(v, REPORTS, DATE, env).mutations), env.cleanupFault);
  }

  /** With a clean-up that raises nothing, and at most one listing page in each scratch area
      at the start, no key under `temp/athena/` or `temp/source-stats/` remains. */
  lemma HandlerClearsScratch(v: View, env: Env)
    requires WellFormed(v) && env.cleanupFault == None
    requires |UnderPrefix(v.keys, ATHENA_SCRATCH)| <= MAX_KEYS && |UnderPrefix(v.keys, STATS_SCRATCH)| <= MAX_KEYS
    ensures ScratchEmpty(HandlerState(v, env))
  {
    RunShrinks(v, REPORTS, DATE, env, ATHENA_SCRATCH);
    RunShrinks(v, REPORTS, DATE, env, STATS_SCRATCH);
    CleanupClearsScratch(Apply(v, RunReports(v, REPORTS, DATE, env).mutations));
  }

  /** When the handler's own clean-up raised nothing, a second clean-up after the handler,
      on a store that had at most one listing page in each scratch area, deletes nothing. */
  lemma SecondCleanupDeletesNothing(v: View, env: Env, fault: Option<CleanStep>)
    requires WellFormed(v) && env.cleanupFault == None
    requires |UnderPrefix(v.keys, ATHENA_SCRATCH)| <= MAX_KEYS && |UnderPrefix(v.keys, STATS_SCRATCH)| <= MAX_KEYS
    ensures Cleanup(HandlerState(v, env), fault) == []
  {
    HandlerClearsScratch(v, env);
    CleanupNothingToDo(HandlerState(v, env), fault);
  }
}
