/** The fixed table of reports the handler produces, in the order it runs them. The query
    texts are evaluated by the external engine and are not part of this model: each is kept
    as an opaque stand-in string. */
module Catalog {

  datatype Report = Report(name: string, query: string, header: string)

  const ACCOUNTS_HEADER := "account,repositories,objects,storage_gb,avg_object_size_mb,oldest_file,newest_file"
  const REPOSITORIES_HEADER := "account,repository,objects,storage_gb,avg_object_size_mb,oldest_file,newest_file"
  const SOURCE_HEADER := "metric,value"

  const REPORTS: seq<Report> := [
    Report("accounts", "per-account storage totals", ACCOUNTS_HEADER),
    Report("repositories", "per-repository storage totals", REPOSITORIES_HEADER),
    Report("source", "global summary", SOURCE_HEADER)
  ]

  /** The inventory date the handler analyses. */
  const DATE := "250629"

  /** What the naming lemmas need of a table: distinct type names without `/`. */
  predicate WellNamed(reports: seq<Report>)
  {
    && (forall i, j :: 0 <= i < j < |reports| ==> reports[i].name != reports[j].name)
    && (forall i :: 0 <= i < |reports| ==> '/' !in reports[i].name)
  }

  lemma ReportsWellNamed()
    ensures WellNamed(REPORTS)
  {
    assert '/' !in "accounts" && '/' !in "repositories" && '/' !in "source";
  }
}
