/** What one call of `create_csv_with_header` does to the two buckets, stated over its
    effect `Materialize`: when it succeeds, what it writes and what it deletes, the order of
    its requests, what it leaves alone, and on which parts of the store it depends. */
module MaterializerFacts {
  import opened Seqs
  import opened Outcomes
  import opened Store
  import opened Naming
  import opened Catalog
  import opened Poller
  import opened Materializer

  /** A fault that never fires for a report with `count` data files: no exception at all, or
      one on a read or a deletion the function never makes. */
  predicate Harmless(fault: Option<Step>, count: nat)
  {
    || fault == None
    || (fault.value.ReadPart? && fault.value.index >= count)
    || (fault.value.DeletePart? && fault.value.index >= count)
  }

  /** The call returns true exactly when the query succeeds within the deadline, the listing
      holds at least one data file and no call raises. */
  lemma MaterializeSucceeds(v: View, report: Report, date: string, script: Script)
    requires WellFormed(v)
    ensures Materialize(v, report, date, script).outcome == Returned(true) <==>
      && Await(script.replies, POLL_BUDGET) == Returned(true)
      && |Parts(v, report, date)| > 0
      && Harmless(script.fault, |Parts(v, report, date)|)
  {
    var listed := Listing(v.keys, TempPrefix(report.name, date));
    var parts := Parts(v, report, date);
    assert |parts| <= |listed|;
    PublishSucceeds(v, FinalKey(report.name, date), report.header, parts, script.fault);
  }

  /** The steps after the listing return true exactly when neither a read, nor the write, nor
      a deletion of one of the parts raises. */
  lemma PublishSucceeds(v: View, key: string, header: string, parts: seq<string>, fault: Option<Step>)
    requires forall k :: k in parts ==> k in v.inventory
    ensures Publish(v, key, header, parts, fault).outcome == Returned(true) <==>
      && !ReadFails(fault, |parts|)
      && fault != Some(WriteCsv)
      && !(fault.Some? && fault.value.DeletePart? && fault.value.index < |parts|)
  {
  }

  /** Each early exit writes nothing and deletes nothing: a wait that does not succeed, an
      empty listing, a listing without data files, and an exception before the write. A
      call that returns false never changes the store. */
  lemma MaterializeEarlyExits(v: View, report: Report, date: string, script: Script)
    requires WellFormed(v)
    ensures script.fault != Some(StartQuery) && Await(script.replies, POLL_BUDGET) != Returned(true) ==>
      Materialize(v, report, date, script) == Effect(Await(script.replies, POLL_BUDGET), [])
    ensures && script.fault !in {Some(StartQuery), Some(ListParts)}
            && Await(script.replies, POLL_BUDGET) == Returned(true)
            && (|Listing(v.keys, TempPrefix(report.name, date))| == 0 || |Parts(v, report, date)| == 0)
            ==>
      Materialize(v, report, date, script) == Effect(Returned(false), [])
    ensures script.fault == Some(WriteCsv) || ReadFails(script.fault, |Parts(v, report, date)|) ==>
      Materialize(v, report, date, script).mutations == []
    ensures Materialize(v, report, date, script).outcome == Returned(false) ==>
      Materialize(v, report, date, script).mutations == [] &&
      Apply(v, Materialize(v, report, date, script).mutations) == v
  {
  }

  /** The requests are nothing, or the write followed by the first `k` deletions, where `k`
      counts the deletions made before one raises; a call that succeeds makes them all. */
  lemma MaterializeShape(v: View, report: Report, date: string, script: Script)
    requires WellFormed(v)
    ensures var parts := Parts(v, report, date);
      var ms := Materialize(v, report, date, script).mutations;
      || ms == []
      || ms == [WriteOf(v, report, date)] + Deletes(parts[..DeletedBeforeFault(script.fault, |parts|)])
    ensures Materialize(v, report, date, script).outcome == Returned(true) ==>
      && Materialize(v, report, date, script).mutations != []
      && DeletedBeforeFault(script.fault, |Parts(v, report, date)|) == |Parts(v, report, date)|
  {
    var parts := Parts(v, report, date);
    var e := Materialize(v, report, date, script);
    if e.mutations != [] {
      assert e == Publish(v, FinalKey(report.name, date), report.header, parts, script.fault);
    }
  }

  /** The requests are the single write of the file, first, followed by deletions of data
      files in listing order and nothing else; a call that succeeds deletes every one. */
  lemma MaterializeOrder(v: View, report: Report, date: string, script: Script)
    requires WellFormed(v)
    ensures var ms := Materialize(v, report, date, script).mutations;
      && |ms| <= |Parts(v, report, date)| + 1
      && (ms != [] ==> ms[0] == WriteOf(v, report, date))
      && (forall j :: 1 <= j < |ms| ==> ms[j] == Delete(Parts(v, report, date)[j - 1]))
    ensures Materialize(v, report, date, script).outcome == Returned(true) ==>
      Materialize(v, report, date, script).mutations == [WriteOf(v, report, date)] + Deletes(Parts(v, report, date))
  {
    var parts := Parts(v, report, date);
    var k := DeletedBeforeFault(script.fault, |parts|);
    var ms := Materialize(v, report, date, script).mutations;
    MaterializeShape(v, report, date, script);
    if ms != [] {
      var ds := Deletes(parts[..k]);
      assert ms == [WriteOf(v, report, date)] + ds;
      forall j | 1 <= j < |ms| ensures ms[j] == Delete(parts[j - 1]) {
        assert ms[j] == ds[j - 1] == Delete(parts[..k][j - 1]);
      }
      if k == |parts| {
        assert parts[..k] == parts;
      }
    }
  }

  /** The store after a call that made the write and then deleted the first `k` data files. */
  lemma PublishedState(v: View, report: Report, date: string, k: nat)
    requires WellFormed(v) && k <= |Parts(v, report, date)|
    ensures Apply(v, [WriteOf(v, report, date)] + Deletes(Parts(v, report, date)[..k])) ==
      Remove(v.(results := v.results[FinalKey(report.name, date) := ReportCsv(v, report, date)]),
             SetOf(Parts(v, report, date)[..k]))
  {
    var w := WriteOf(v, report, date);
    var ds := Deletes(Parts(v, report, date)[..k]);
    ApplyAppend(v, [w], ds);
    ApplySingle(v, w);
    ApplyDeletes(ApplyOne(v, w), Parts(v, report, date)[..k]);
  }

  /** After a call that succeeds, the results bucket maps the final key to the header line
      followed by every data file's content in listing order (so the header is the first
      line), every data file is gone from the inventory bucket, and every other key of both
      buckets is as it was: manifests and metadata in particular stay. */
  lemma MaterializeSuccessState(v: View, report: Report, date: string, script: Script)
    requires WellFormed(v) && Materialize(v, report, date, script).outcome == Returned(true)
    ensures var w := Apply(v, Materialize(v, report, date, script).mutations);
      var parts := Parts(v, report, date);
      var key := FinalKey(report.name, date);
      && w.results == v.results[key := report.header + "\n" + Concat(v.inventory, parts)]
      && ('\n' !in report.header ==> FirstLine(w.results[key]) == report.header)
      && w.inventory == v.inventory - SetOf(parts)
      && w.keys == Without(v.keys, SetOf(parts))
      && (forall k :: k in parts ==> k !in w.inventory)
      && (forall k :: k in v.inventory && k !in parts ==> k in w.inventory && w.inventory[k] == v.inventory[k])
      && (forall k :: k in v.inventory && !IsDataFile(k) ==> k in w.inventory)
      && (forall k :: k != key ==> (k in w.results <==> k in v.results))
      && (forall k :: k != key && k in v.results ==> w.results[k] == v.results[k])
  {
    var parts := Parts(v, report, date);
    MaterializeOrder(v, report, date, script);
    PublishedState(v, report, date, |parts|);
    assert parts[..|parts|] == parts;
    if '\n' !in report.header {
      CsvFirstLine(report.header, Concat(v.inventory, parts));
    }
  }

  /** Whatever the outcome, the call adds no key to the inventory bucket and alters no body
      there, removes nothing but data files under the report's prefix, touches no result
      other than the final key, and deletes only once the file has been written. */
  lemma MaterializeFrame(v: View, report: Report, date: string, script: Script)
    requires WellFormed(v)
    ensures var w := Apply(v, Materialize(v, report, date, script).mutations);
      var parts := Parts(v, report, date);
      && (forall k :: k in w.inventory ==> k in v.inventory && w.inventory[k] == v.inventory[k])
      && (forall k :: k in v.inventory && k !in parts ==> k in w.inventory)
      && (w.results == v.results || w.results == v.results[FinalKey(report.name, date) := ReportCsv(v, report, date)])
      && (w.inventory != v.inventory ==> w.results == v.results[FinalKey(report.name, date) := ReportCsv(v, report, date)])
  {
    var parts := Parts(v, report, date);
    var ms := Materialize(v, report, date, script).mutations;
    if ms != [] {
      var k := DeletedBeforeFault(script.fault, |parts|);
      assert ms == [WriteOf(v, report, date)] + Deletes(parts[..k]);
      PublishedState(v, report, date, k);
      assert forall x :: x in SetOf(parts[..k]) ==> x in parts;
    }
  }

  /** The call depends only on the keys under its own prefix and their bodies: two stores that
      agree there give the same outcome and the same requests. */
  lemma MaterializeLocal(v1: View, v2: View, report: Report, date: string, script: Script)
    requires WellFormed(v1) && WellFormed(v2)
    requires UnderPrefix(v1.keys, TempPrefix(report.name, date)) == UnderPrefix(v2.keys, TempPrefix(report.name, date))
    requires forall k :: k in UnderPrefix(v1.keys, TempPrefix(report.name, date)) ==> v1.inventory[k] == v2.inventory[k]
    ensures Materialize(v1, report, date, script) == Materialize(v2, report, date, script)
  {
    PartsLocal(v1, v2, report, date);
    var parts := Parts(v1, report, date);
    PublishLocal(v1, v2, FinalKey(report.name, date), report.header, parts, script.fault);
  }

  /** Stores that list the same keys under the report's prefix list the same data files. */
  lemma PartsLocal(v1: View, v2: View, report: Report, date: string)
    requires WellFormed(v1) && WellFormed(v2)
    requires UnderPrefix(v1.keys, TempPrefix(report.name, date)) == UnderPrefix(v2.keys, TempPrefix(report.name, date))
    ensures Listing(v1.keys, TempPrefix(report.name, date)) == Listing(v2.keys, TempPrefix(report.name, date))
    ensures Parts(v1, report, date) == Parts(v2, report, date)
    ensures forall k :: k in Parts(v1, report, date) ==> k in UnderPrefix(v1.keys, TempPrefix(report.name, date))
  {
  }

  /** The write and the deletions depend only on the bodies of the parts. */
  lemma PublishLocal(v1: View, v2: View, key: string, header: string, parts: seq<string>, fault: Option<Step>)
    requires forall k :: k in parts ==> k in v1.inventory && k in v2.inventory && v1.inventory[k] == v2.inventory[k]
    ensures Publish(v1, key, header, parts, fault) == Publish(v2, key, header, parts, fault)
  {
    ConcatAgree(v1.inventory, v2.inventory, parts);
  }

  /** Two stores list the same keys under `prefix`, with the same bodies. */
  predicate AgreeUnder(v: View, w: View, prefix: string)
  {
    && UnderPrefix(v.keys, prefix) == UnderPrefix(w.keys, prefix)
    && forall k :: k in UnderPrefix(v.keys, prefix) ==>
         k in v.inventory && k in w.inventory && v.inventory[k] == w.inventory[k]
  }

  lemma AgreeUnderTrans(u: View, v: View, w: View, prefix: string)
    requires AgreeUnder(u, v, prefix) && AgreeUnder(v, w, prefix)
    ensures AgreeUnder(u, w, prefix)
  {
  }

  /** After the call, the inventory bucket is the old one less a set `gone` of data files
      from the report's own scratch area. */
  lemma MaterializeRemoves(v: View, report: Report, date: string, script: Script) returns (gone: set<string>)
    requires WellFormed(v)
    ensures forall k :: k in gone ==> k in Parts(v, report, date)
    ensures var w := Apply(v, Materialize(v, report, date, script).mutations);
      w.keys == Without(v.keys, gone) && w.inventory == v.inventory - gone
  {
    var parts := Parts(v, report, date);
    var ms := Materialize(v, report, date, script).mutations;
    MaterializeShape(v, report, date, script);
    if ms == [] {
      WithoutNothing(v.keys);
      assert v.inventory - {} == v.inventory;
      gone := {};
    } else {
      var k := DeletedBeforeFault(script.fault, |parts|);
      PublishedState(v, report, date, k);
      gone := SetOf(parts[..k]);
      assert forall x :: x in gone ==> x in parts;
    }
  }

  /** A call leaves any other scratch area as it found it: when neither `prefix` nor the
      report's own prefix extends the other (so no key lies under both), the keys under
      `prefix` and their bodies are unchanged. */
  lemma MaterializeKeepsOtherPrefix(v: View, report: Report, date: string, script: Script, prefix: string)
    requires WellFormed(v)
    requires !(prefix <= TempPrefix(report.name, date)) && !(TempPrefix(report.name, date) <= prefix)
    ensures AgreeUnder(v, Apply(v, Materialize(v, report, date, script).mutations), prefix)
  {
    var w := Apply(v, Materialize(v, report, date, script).mutations);
    var gone := MaterializeRemoves(v, report, date, script);
    forall k | k in gone ensures !(prefix <= k) {
      if prefix <= k {
        PrefixesComparable(prefix, TempPrefix(report.name, date), k);
      }
    }
    UnderPrefixWithout(v.keys, gone, prefix);
  }

  /** A call never adds keys under any prefix. */
  lemma MaterializeShrinks(v: View, report: Report, date: string, script: Script, prefix: string)
    requires WellFormed(v)
    ensures |UnderPrefix(Apply(v, Materialize(v, report, date, script).mutations).keys, prefix)| <= |UnderPrefix(v.keys, prefix)|
  {
    var w := Apply(v, Materialize(v, report, date, script).mutations);
    var gone := MaterializeRemoves(v, report, date, script);
    UnderPrefixWithout(v.keys, gone, prefix);
  }

  /** A listing returns one page, and the call asks for no other: with more than MAX_KEYS
      keys under the report's prefix, a key past the page is no part of the file and is still
      in scratch afterwards, whatever the call returned. */
  lemma MaterializeLeavesOverflow(v: View, report: Report, date: string, script: Script)
    requires WellFormed(v) && |UnderPrefix(v.keys, TempPrefix(report.name, date))| > MAX_KEYS
    ensures exists k :: && TempPrefix(report.name, date) <= k && k !in Parts(v, report, date)
                        && k in Apply(v, Materialize(v, report, date, script).mutations).inventory
  {
    var prefix := TempPrefix(report.name, date);
    var under := UnderPrefix(v.keys, prefix);
    FilterSorted(v.keys, k => prefix <= k);
    var listed := Listing(v.keys, prefix);
    assert listed == under[..MAX_KEYS];
    var x := under[MAX_KEYS];
    assert x in v.keys && prefix <= x;
    assert x !in listed by {
      forall j | 0 <= j < |listed| ensures listed[j] != x {
        SortedDistinct(under, j, MAX_KEYS);
      }
    }
    DataFilesExact(listed);
    assert x !in Parts(v, report, date);
    MaterializeFrame(v, report, date, script);
    assert x in Apply(v, Materialize(v, report, date, script).mutations).inventory;
  }
}
