/** Where the handler reads and writes: the scratch locations of one report, the final key of
    its CSV file and the entry recorded in the response, all built from the report type and
    the inventory date. */
module Naming {

  const INVENTORY_BUCKET := "source-inventories"
  const RESULTS_PREFIX := "source/source-stats/"
  const DATABASE := "source_stats"
  const WORKGROUP := "primary"

  /** The two scratch areas the cleaner empties. */
  const ATHENA_SCRATCH := "temp/athena/"
  const STATS_SCRATCH := "temp/source-stats/"

  /** Where the query engine writes its own result metadata. */
  const ATHENA_OUTPUT_LOCATION := "s3://source-inventories/temp/athena/"

  /** The UNLOAD target of one report, as a URL. */
  function TempLocation(kind: string, date: string): string
  {
    "s3://source-inventories/temp/source-stats/" + kind + "/" + date + "/"
  }

  /** The prefix under which the report's output parts are listed. */
  function TempPrefix(kind: string, date: string): string
  {
    "temp/source-stats/" + kind + "/" + date + "/"
  }

  function FileName(kind: string, date: string): string
  {
    if kind == "source" then "source-stats-summary-" + date + ".csv"
    else "source-stats-" + kind + "-" + date + ".csv"
  }

  /** The key of the report's CSV file in the results bucket. */
  function FinalKey(kind: string, date: string): string
  {
    RESULTS_PREFIX + kind + "/" + FileName(kind, date)
  }

  /** The entry the handler records for a report that succeeded. */
  function ResultEntry(kind: string, date: string): string
  {
    kind + "/" + FileName(kind, date)
  }

  /** The parameters of `start_query_execution` for one report. */
  datatype QueryRequest = QueryRequest(
    query: string, unloadTarget: string, database: string, outputLocation: string, workgroup: string)

  function Submission(kind: string, query: string, date: string): QueryRequest
  {
    QueryRequest(query, TempLocation(kind, date), DATABASE, ATHENA_OUTPUT_LOCATION, WORKGROUP)
  }

  /** The hard-coded URL of the UNLOAD root is the second scratch area of the inventory
      bucket. */
  lemma StatsScratchUrl()
    ensures "s3://source-inventories/temp/source-stats/" == "s3://" + INVENTORY_BUCKET + "/" + STATS_SCRATCH
  {
    assert "s3://" + INVENTORY_BUCKET + "/" == "s3://source-inventories/";
  }

  /** The engine's output location is the first scratch area of the inventory bucket. */
  lemma AthenaScratchUrl()
    ensures ATHENA_OUTPUT_LOCATION == "s3://" + INVENTORY_BUCKET + "/" + ATHENA_SCRATCH
  {
    assert "s3://" + INVENTORY_BUCKET + "/" == "s3://source-inventories/";
  }

  /** The UNLOAD target names, in the inventory bucket, the prefix the parts are listed under. */
  lemma TempLocationIsPrefix(kind: string, date: string)
    ensures TempLocation(kind, date) == "s3://" + INVENTORY_BUCKET + "/" + TempPrefix(kind, date)
  {
    StatsScratchUrl();
    var root := "s3://" + INVENTORY_BUCKET + "/";
    var rest := kind + "/" + date + "/";
    assert TempLocation(kind, date) == (root + STATS_SCRATCH) + rest;
    assert TempPrefix(kind, date) == STATS_SCRATCH + rest;
  }

  /** Every report's scratch prefix lies under the cleaner's second prefix. */
  lemma TempPrefixUnderScratch(kind: string, date: string)
    ensures STATS_SCRATCH <= TempPrefix(kind, date)
  {
    assert TempPrefix(kind, date) == STATS_SCRATCH + (kind + "/" + date + "/");
  }

  /** The query writes its parts exactly where the materialiser later lists them, and its
      metadata where the cleaner looks for it; both lie in the inventory bucket, and every
      report's scratch area lies under the cleaner's second prefix. */
  lemma SubmissionTargetsScratch(kind: string, query: string, date: string)
    ensures Submission(kind, query, date).unloadTarget == "s3://" + INVENTORY_BUCKET + "/" + TempPrefix(kind, date)
    ensures Submission(kind, query, date).outputLocation == "s3://" + INVENTORY_BUCKET + "/" + ATHENA_SCRATCH
    ensures STATS_SCRATCH <= TempPrefix(kind, date)
  {
    TempLocationIsPrefix(kind, date);
    TempPrefixUnderScratch(kind, date);
    AthenaScratchUrl();
  }

  /** Two prefixes of one key are prefixes of each other. */
  lemma PrefixesComparable(p: string, q: string, key: string)
    requires p <= key && q <= key
    ensures p <= q || q <= p
  {
    if |p| <= |q| {
      assert p == key[..|p|] == q[..|p|];
    } else {
      assert q == key[..|q|] == p[..|q|];
    }
  }

  /** Neither of two different report types' scratch prefixes extends the other. */
  lemma TempPrefixesApart(k1: string, k2: string, date: string)
    requires '/' !in k1 && '/' !in k2 && k1 != k2
    ensures !(TempPrefix(k1, date) <= TempPrefix(k2, date)) && !(TempPrefix(k2, date) <= TempPrefix(k1, date))
  {
    TempPrefixesDisjoint(k1, k2, date, TempPrefix(k2, date));
    TempPrefixesDisjoint(k1, k2, date, TempPrefix(k1, date));
  }

  /** The engine's scratch area and any report's scratch prefix do not overlap. */
  lemma AthenaApartFromReports(kind: string, date: string)
    ensures !(ATHENA_SCRATCH <= TempPrefix(kind, date)) && !(TempPrefix(kind, date) <= ATHENA_SCRATCH)
  {
    TempPrefixUnderScratch(kind, date);
    ScratchAreasDisjoint(TempPrefix(kind, date));
    if TempPrefix(kind, date) <= ATHENA_SCRATCH {
      PrefixesComparable(STATS_SCRATCH, TempPrefix(kind, date), ATHENA_SCRATCH);
      ScratchAreasDisjoint(ATHENA_SCRATCH);
    }
  }

  /** No key lies in both scratch areas. */
  lemma ScratchAreasDisjoint(key: string)
    ensures !(ATHENA_SCRATCH <= key && STATS_SCRATCH <= key)
  {
    assert STATS_SCRATCH[5] == 's';
    if ATHENA_SCRATCH <= key {
      assert key[5] == ATHENA_SCRATCH[5] == 'a';
    }
  }

  /** The results bucket key is the response entry under the results prefix. */
  lemma FinalKeyIsEntry(kind: string, date: string)
    ensures FinalKey(kind, date) == RESULTS_PREFIX + ResultEntry(kind, date)
  {
  }

  lemma PrefixSplit(p: string, q: string, s: string)
    requires p + q <= s
    ensures p <= s && q <= s[|p|..]
  {
    assert s[..|p|] == (p + q)[..|p|] == p;
    assert s[|p|..][..|q|] == (p + q)[|p|..] == q;
  }

  /** Two names without `/` that both stand, followed by `/`, at the head of one string are
      the same name. */
  lemma FirstSegment(a: string, b: string, s: string)
    requires '/' !in a && '/' !in b
    requires a + "/" <= s && b + "/" <= s
    ensures a == b
  {
    assert forall j :: 0 <= j < |a| ==> s[j] == (a + "/")[j] == a[j];
    assert forall j :: 0 <= j < |b| ==> s[j] == (b + "/")[j] == b[j];
    assert s[|a|] == (a + "/")[|a|] == '/';
    assert s[|b|] == (b + "/")[|b|] == '/';
    assert |a| == |b|;
    assert a == s[..|a|] == b;
  }

  /** Report types without `/` get different final keys. */
  lemma FinalKeyInjective(k1: string, k2: string, date: string)
    requires '/' !in k1 && '/' !in k2 && k1 != k2
    ensures FinalKey(k1, date) != FinalKey(k2, date)
  {
    if FinalKey(k1, date) == FinalKey(k2, date) {
      var s := FinalKey(k1, date);
      var f1, f2 := FileName(k1, date), FileName(k2, date);
      assert RESULTS_PREFIX + (k1 + "/" + f1) == s;
      assert RESULTS_PREFIX + (k2 + "/" + f2) == s;
      PrefixSplit(RESULTS_PREFIX, k1 + "/" + f1, s);
      PrefixSplit(RESULTS_PREFIX, k2 + "/" + f2, s);
      var tail := s[|RESULTS_PREFIX|..];
      PrefixSplit(k1 + "/", f1, tail);
      PrefixSplit(k2 + "/", f2, tail);
      FirstSegment(k1, k2, tail);
    }
  }

  /** Report types without `/` get different response entries. */
  lemma ResultEntryInjective(k1: string, k2: string, date: string)
    requires '/' !in k1 && '/' !in k2 && k1 != k2
    ensures ResultEntry(k1, date) != ResultEntry(k2, date)
  {
    FinalKeyIsEntry(k1, date);
    FinalKeyIsEntry(k2, date);
    FinalKeyInjective(k1, k2, date);
  }

  /** No key lies in the scratch areas of two different report types. */
  lemma TempPrefixesDisjoint(k1: string, k2: string, date: string, key: string)
    requires '/' !in k1 && '/' !in k2 && k1 != k2
    ensures !(TempPrefix(k1, date) <= key && TempPrefix(k2, date) <= key)
  {
    if TempPrefix(k1, date) <= key && TempPrefix(k2, date) <= key {
      assert STATS_SCRATCH + (k1 + "/" + (date + "/")) == TempPrefix(k1, date);
      assert STATS_SCRATCH + (k2 + "/" + (date + "/")) == TempPrefix(k2, date);
      PrefixSplit(STATS_SCRATCH, k1 + "/" + (date + "/"), key);
      PrefixSplit(STATS_SCRATCH, k2 + "/" + (date + "/"), key);
      PrefixSplit(k1 + "/", date + "/", key[|STATS_SCRATCH|..]);
      PrefixSplit(k2 + "/", date + "/", key[|STATS_SCRATCH|..]);
      FirstSegment(k1, k2, key[|STATS_SCRATCH|..]);
    }
  }
}
