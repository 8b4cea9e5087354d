/** `create_csv_with_header`: run one report's query, wait for it, list its output parts,
    assemble the CSV file from the header and the data parts, write it to its final key and
    then delete the parts it consumed.

    Any S3 or Athena call may raise, and the first exception ends the function, so one
    report's environment is a status oracle for the wait plus the step, if any, that raises. */
module Materializer {
  import opened Seqs
  import opened Outcomes
  import opened Store
  import opened Naming
  import opened Catalog
  import opened Poller

  /** A listed key is a data file unless it is a manifest or a metadata file. */
  predicate IsDataFile(key: string)
  {
    !HasSuffix(key, "manifest.csv") && !HasSuffix(key, ".metadata")
  }

  function DataFiles(listed: seq<string>): seq<string>
  {
    Filter(listed, IsDataFile)
  }

  /** The data files are exactly the listed keys that are neither manifests nor metadata:
      each occurs as often as it was listed, so nothing is dropped or added, and listing order
      (key order) is kept. */
  lemma DataFilesExact(listed: seq<string>)
    ensures forall k :: k in DataFiles(listed) <==> k in listed && IsDataFile(k)
    ensures forall k :: multiset(DataFiles(listed))[k] == if IsDataFile(k) then multiset(listed)[k] else 0
    ensures StrictlySorted(listed) ==> StrictlySorted(DataFiles(listed))
  {
    forall k {
      FilterMultiplicity(listed, IsDataFile, k);
    }
    FilterSorted(listed, IsDataFile);
  }

  /** Filtering keeps the data files of a longer listing in the same relative order. */
  lemma DataFilesInOrder(a: seq<string>, b: seq<string>)
    ensures DataFiles(a + b) == DataFiles(a) + DataFiles(b)
  {
    FilterAppend(a, b, IsDataFile);
  }

  /** The contents of the parts, one after the other. */
  function Concat(inventory: map<string, string>, parts: seq<string>): string
    requires forall k :: k in parts ==> k in inventory
  {
    if parts == [] then "" else inventory[parts[0]] + Concat(inventory, parts[1..])
  }

  lemma {:induction false} ConcatAppend(inventory: map<string, string>, a: seq<string>, b: seq<string>)
    requires forall k :: k in a + b ==> k in inventory
    ensures Concat(inventory, a + b) == Concat(inventory, a) + Concat(inventory, b)
  {
    if a == [] {
      assert a + b == b;
    } else {
      assert (a + b)[0] == a[0];
      assert (a + b)[1..] == a[1..] + b;
      ConcatAppend(inventory, a[1..], b);
    }
  }

  /** The parts' contents depend only on the stored bodies of those parts. */
  lemma {:induction false} ConcatAgree(i1: map<string, string>, i2: map<string, string>, parts: seq<string>)
    requires forall k :: k in parts ==> k in i1 && k in i2 && i1[k] == i2[k]
    ensures Concat(i1, parts) == Concat(i2, parts)
  {
    if parts != [] {
      ConcatAgree(i1, i2, parts[1..]);
    }
  }

  /** The CSV file written for a report. */
  function Csv(header: string, inventory: map<string, string>, parts: seq<string>): string
    requires forall k :: k in parts ==> k in inventory
  {
    header + "\n" + Concat(inventory, parts)
  }

  function FirstLine(s: string): string
  {
    if s == [] || s[0] == '\n' then [] else [s[0]] + FirstLine(s[1..])
  }

  /** A one-line header is the first line of the file. */
  lemma {:induction false} CsvFirstLine(header: string, body: string)
    requires '\n' !in header
    ensures FirstLine(header + "\n" + body) == header
  {
    if header != [] {
      assert (header + "\n" + body)[0] == header[0];
      assert (header + "\n" + body)[1..] == header[1..] + "\n" + body;
      CsvFirstLine(header[1..], body);
    } else {
      assert header + "\n" + body == "\n" + body;
    }
  }

  /** The file is the header line followed by every part's content, spliced in order:
      the parts of a split list contribute in turn, and a single part contributes its body. */
  lemma CsvSplices(header: string, inventory: map<string, string>, a: seq<string>, b: seq<string>)
    requires forall k :: k in a + b ==> k in inventory
    ensures Csv(header, inventory, a + b) == Csv(header, inventory, a) + Concat(inventory, b)
    ensures forall k :: k in inventory ==> Concat(inventory, [k]) == inventory[k]
  {
    ConcatAppend(inventory, a, b);
    forall k | k in inventory ensures Concat(inventory, [k]) == inventory[k] {
      assert [k][1..] == [];
    }
  }

  /** The call that raises, if any. */
  datatype Step = StartQuery | ListParts | ReadPart(index: nat) | WriteCsv | DeletePart(index: nat)

  /** One report's environment: the status replies and the step that raises. */
  datatype Script = Script(replies: nat -> Reply, fault: Option<Step>)

  /** What one call does: how it ends and the bucket changes it made, in order. */
  datatype Effect = Effect(outcome: Call, mutations: seq<Mutation>)

  /** One of the first `count` reads raises. */
  predicate ReadFails(fault: Option<Step>, count: nat)
  {
    fault.Some? && fault.value.ReadPart? && fault.value.index < count
  }

  /** How many of `count` deletions complete before one raises. */
  function DeletedBeforeFault(fault: Option<Step>, count: nat): (k: nat)
    ensures k <= count
  {
    if fault.Some? && fault.value.DeletePart? && fault.value.index < count then fault.value.index else count
  }

  /** A report's data files as the store lists them now. */
  function Parts(v: View, report: Report, date: string): (parts: seq<string>)
    requires WellFormed(v)
    ensures forall k :: k in parts ==> k in v.keys && k in v.inventory && TempPrefix(report.name, date) <= k && IsDataFile(k)
    ensures StrictlySorted(parts)
  {
    var listed := Listing(v.keys, TempPrefix(report.name, date));
    ListingSorted(v.keys, TempPrefix(report.name, date));
    DataFilesExact(listed);
    DataFiles(listed)
  }

  /** The file the report would write from the current store. */
  function ReportCsv(v: View, report: Report, date: string): string
    requires WellFormed(v)
  {
    Csv(report.header, v.inventory, Parts(v, report, date))
  }

  /** The single write the report makes when it gets that far. */
  function WriteOf(v: View, report: Report, date: string): Mutation
    requires WellFormed(v)
  {
    Put(FinalKey(report.name, date), ReportCsv(v, report, date))
  }

  /** The effect of `create_csv_with_header` on a store in state `v`. */
  function Materialize(v: View, report: Report, date: string, script: Script): Effect
    requires WellFormed(v)
  {
    if script.fault == Some(StartQuery) then Effect(Raised, [])
    else
      var waited := Await(script.replies, POLL_BUDGET);
      if waited != Returned(true) then Effect(waited, [])
      else if script.fault == Some(ListParts) then Effect(Raised, [])
      else
        var listed := Listing(v.keys, TempPrefix(report.name, date));
        var parts := Parts(v, report, date);
        if |listed| == 0 || |parts| == 0 then Effect(Returned(false), [])
        else Publish(v, FinalKey(report.name, date), report.header, parts, script.fault)
  }

  /** The effect of the steps after a listing that found the data files `parts`: read them,
      write the file to `key`, delete them. */
  function Publish(v: View, key: string, header: string, parts: seq<string>, fault: Option<Step>): Effect
    requires forall k :: k in parts ==> k in v.inventory
  {
    if ReadFails(fault, |parts|) || fault == Some(WriteCsv) then Effect(Raised, [])
    else
      var k := DeletedBeforeFault(fault, |parts|);
      Effect(if k < |parts| then Raised else Returned(true), [Put(key, Csv(header, v.inventory, parts))] + Deletes(parts[..k]))
  }

  /** The accumulation loop: each data file is read in turn and appended to the header
      line; the first read that raises ends it. */
  method ReadParts(store: ObjectStore, header: string, parts: seq<string>, fault: Option<Step>)
    returns (csv: Option<string>)
    requires forall k :: k in parts ==> k in store.inventory
    ensures csv == if ReadFails(fault, |parts|) then None else Some(Csv(header, store.inventory, parts))
  {
    var content := header + "\n";
    var i := 0;
    while i < |parts|
      invariant 0 <= i <= |parts|
      invariant forall j :: 0 <= j < i ==> fault != Some(ReadPart(j))
      invariant content == header + "\n" + Concat(store.inventory, parts[..i])
    {
      if fault == Some(ReadPart(i)) {
        return None;
      }
      var body := store.GetObject(parts[i]);
      assert parts[..i + 1] == parts[..i] + [parts[i]];
      ConcatAppend(store.inventory, parts[..i], [parts[i]]);
      assert Concat(store.inventory, [parts[i]]) == body by {
        assert [parts[i]][1..] == [];
      }
      content := content + body;
      i := i + 1;
    }
    assert parts[..|parts|] == parts;
    return Some(content);
  }

  /** One turn of the clean-up loop, on values: deleting part `i` extends the deletions of
      the parts before it. */
  lemma DeleteStep(v: View, log0: seq<Mutation>, w: View, log: seq<Mutation>, parts: seq<string>, i: nat)
    requires i < |parts| && w == Apply(v, Deletes(parts[..i])) && log == log0 + Deletes(parts[..i])
    ensures ApplyOne(w, Delete(parts[i])) == Apply(v, Deletes(parts[..i + 1]))
    ensures log + [Delete(parts[i])] == log0 + Deletes(parts[..i + 1])
  {
    assert parts[..i + 1] == parts[..i] + [parts[i]];
    DeletesSnoc(parts[..i], parts[i]);
    ApplyAppend(v, Deletes(parts[..i]), [Delete(parts[i])]);
    ApplySingle(w, Delete(parts[i]));
    LogAppend(log0, Deletes(parts[..i]), [Delete(parts[i])]);
  }

  /** The clean-up loop after the write: one `delete_object` per data file, in order; the
      first one that raises ends it. */
  method DeleteParts(store: ObjectStore, parts: seq<string>, fault: Option<Step>) returns (completed: bool)
    requires store.Valid()
    modifies store
    ensures store.Valid()
    ensures completed == (DeletedBeforeFault(fault, |parts|) == |parts|)
    ensures store.log == old(store.log) + Deletes(parts[..DeletedBeforeFault(fault, |parts|)])
    ensures store.Snapshot() == Apply(old(store.Snapshot()), Deletes(parts[..DeletedBeforeFault(fault, |parts|)]))
  {
    ghost var v := store.Snapshot();
    ghost var log0 := store.log;
    var i := 0;
    while i < |parts|
      invariant 0 <= i <= |parts|
      invariant store.Valid()
      invariant forall j :: 0 <= j < i ==> fault != Some(DeletePart(j))
      invariant store.log == old(store.log) + Deletes(parts[..i])
      invariant store.Snapshot() == Apply(v, Deletes(parts[..i]))
    {
      if fault == Some(DeletePart(i)) {
        return false;
      }
      DeleteStep(v, log0, store.Snapshot(), store.log, parts, i);
      store.DeleteObject(parts[i]);
      i := i + 1;
    }
    assert parts[..|parts|] == parts;
    return true;
  }

  /** The write of the assembled file followed by the clean-up loop. */
  method WriteAndClear(store: ObjectStore, key: string, csv: string, parts: seq<string>, fault: Option<Step>)
    returns (completed: bool)
    requires store.Valid()
    modifies store
    ensures store.Valid()
    ensures completed == (DeletedBeforeFault(fault, |parts|) == |parts|)
    ensures store.log == old(store.log) + ([Put(key, csv)] + Deletes(parts[..DeletedBeforeFault(fault, |parts|)]))
    ensures store.Snapshot() == Apply(old(store.Snapshot()), [Put(key, csv)] + Deletes(parts[..DeletedBeforeFault(fault, |parts|)]))
  {
    ghost var v := store.Snapshot();
    ghost var log0 := store.log;
    ghost var deleted := Deletes(parts[..DeletedBeforeFault(fault, |parts|)]);
    store.PutObject(key, csv);
    ApplySingle(v, Put(key, csv));
    completed := DeleteParts(store, parts, fault);
    ApplyAppend(v, [Put(key, csv)], deleted);
    LogAppend(log0, [Put(key, csv)], deleted);
  }

  /** The steps of `create_csv_with_header` after a listing that found data files. */
  method PublishParts(store: ObjectStore, key: string, header: string, parts: seq<string>, fault: Option<Step>)
    returns (r: Call)
    requires store.Valid() && forall k :: k in parts ==> k in store.inventory
    modifies store
    ensures store.Valid()
    ensures r == Publish(old(store.Snapshot()), key, header, parts, fault).outcome
    ensures store.log == old(store.log) + Publish(old(store.Snapshot()), key, header, parts, fault).mutations
    ensures store.Snapshot() == Apply(old(store.Snapshot()), Publish(old(store.Snapshot()), key, header, parts, fault).mutations)
  {
    var csv := ReadParts(store, header, parts, fault);
    if csv == None || fault == Some(WriteCsv) {
      return Raised;
    }
    var completed := WriteAndClear(store, key, csv.value, parts, fault);
    r := if completed then Returned(true) else Raised;
  }

  method CreateCsvWithHeader(store: ObjectStore, report: Report, date: string, script: Script) returns (r: Call)
    requires store.Valid()
    modifies store
    ensures store.Valid()
    ensures r == Materialize(old(store.Snapshot()), report, date, script).outcome
    ensures store.log == old(store.log) + Materialize(old(store.Snapshot()), report, date, script).mutations
    ensures store.Snapshot() == Apply(old(store.Snapshot()), Materialize(old(store.Snapshot()), report, date, script).mutations)
  {
    ghost var v := store.Snapshot();
    if script.fault == Some(StartQuery) {
      return Raised;
    }
    var waited, _ := WaitForQueryCompletion(script.replies, POLL_BUDGET);
    if waited == Raised {
      return Raised;
    }
    if !waited.ok {
      return Returned(false);
    }
    if script.fault == Some(ListParts) {
      return Raised;
    }
    var listed := store.ListObjectsV2(TempPrefix(report.name, date));
    if |listed| == 0 {
      return Returned(false);
    }
    var parts := DataFiles(listed);
    assert parts == Parts(v, report, date);
    if |parts| == 0 {
      return Returned(false);
    }
    r := PublishParts(store, FinalKey(report.name, date), report.header, parts, script.fault);
  }
}
