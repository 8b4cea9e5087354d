/** `cleanup_directories`: after all reports, empty the two scratch areas of the inventory
    bucket, first the engine's own output under `temp/athena/`, then the report parts under
    `temp/source-stats/`, each with one listing and one bulk deletion. Any exception ends the
    clean-up and is swallowed, so the cleaner never fails its caller. */
module Cleaner {
  import opened Seqs
  import opened Outcomes
  import opened Store
  import opened Naming

  /** The call that raises, if any. A bulk deletion that raises changes nothing. */
  datatype CleanStep = ListAthena | DeleteAthena | ListSourceStats | DeleteSourceStats

  /** The bulk deletion for one listing, if the listing is not empty. */
  function Sweep(listed: seq<string>): (ms: seq<Mutation>)
    ensures ms == [] <==> |listed| == 0
  {
    if |listed| > 0 then [DeleteBatch(listed)] else []
  }

  /** The requests the cleaner makes on a store in state `v`. */
  function Cleanup(v: View, fault: Option<CleanStep>): seq<Mutation>
  {
    if fault == Some(ListAthena) then []
    else
      var athena := Listing(v.keys, ATHENA_SCRATCH);
      if |athena| > 0 && fault == Some(DeleteAthena) then []
      else
        var first := Sweep(athena);
        if fault == Some(ListSourceStats) then first
        else
          var stats := Listing(Apply(v, first).keys, STATS_SCRATCH);
          if |stats| > 0 && fault == Some(DeleteSourceStats) then first
          else first + Sweep(stats)
  }

  /** One scratch area: list it, and delete what the listing returned. */
  method SweepPrefix(store: ObjectStore, prefix: string, failsOnDelete: bool) returns (raised: bool)
    requires store.Valid()
    modifies store
    ensures store.Valid()
    ensures var listed := Listing(old(store.keys), prefix);
      && raised == (|listed| > 0 && failsOnDelete)
      && store.log == old(store.log) + (if raised then [] else Sweep(listed))
      && store.Snapshot() == Apply(old(store.Snapshot()), if raised then [] else Sweep(listed))
  {
    ghost var v := store.Snapshot();
    var listed := store.ListObjectsV2(prefix);
    if |listed| > 0 {
      var batch := listed;
      if |batch| > 0 {
        if failsOnDelete {
          return true;
        }
        store.DeleteObjects(batch);
        ApplySingle(v, DeleteBatch(batch));
      }
    }
    return false;
  }

  method CleanupDirectories(store: ObjectStore, fault: Option<CleanStep>)
    requires store.Valid()
    modifies store
    ensures store.Valid()
    ensures store.log == old(store.log) + Cleanup(old(store.Snapshot()), fault)
    ensures store.Snapshot() == Apply(old(store.Snapshot()), Cleanup(old(store.Snapshot()), fault))
  {
    ghost var v := store.Snapshot();
    ghost var log0 := store.log;
    if fault == Some(ListAthena) {
      return;
    }
    var raised := SweepPrefix(store, ATHENA_SCRATCH, fault == Some(DeleteAthena));
    if raised {
      return;
    }
    ghost var first := Sweep(Listing(v.keys, ATHENA_SCRATCH));
    ghost var v1 := store.Snapshot();
    if fault == Some(ListSourceStats) {
      return;
    }
    raised := SweepPrefix(store, STATS_SCRATCH, fault == Some(DeleteSourceStats));
    if raised {
      return;
    }
    ghost var second := Sweep(Listing(v1.keys, STATS_SCRATCH));
    ApplyAppend(v, first, second);
    LogAppend(log0, first, second);
  }

  /** A sweep removes exactly the listed keys. */
  lemma SweepState(v: View, listed: seq<string>)
    ensures Apply(v, Sweep(listed)) == Remove(v, SetOf(listed))
  {
    if |listed| > 0 {
      ApplySingle(v, DeleteBatch(listed));
    } else {
      WithoutNothing(v.keys);
      assert SetOf(listed) == {};
      assert v.inventory - {} == v.inventory;
    }
  }

  /** The state after the first sweep, and the second listing taken from it. */
  lemma FirstSweep(v: View)
    requires WellFormed(v)
    ensures var athena := Listing(v.keys, ATHENA_SCRATCH);
      && Apply(v, Sweep(athena)) == Remove(v, SetOf(athena))
      && |UnderPrefix(Apply(v, Sweep(athena)).keys, STATS_SCRATCH)| <= |UnderPrefix(v.keys, STATS_SCRATCH)|
  {
    var athena := Listing(v.keys, ATHENA_SCRATCH);
    SweepState(v, athena);
    UnderPrefixWithout(v.keys, SetOf(athena), STATS_SCRATCH);
  }

  /** The requests are one of: none, the first sweep, or both sweeps. */
  lemma CleanupShape(v: View, fault: Option<CleanStep>)
    ensures var first := Sweep(Listing(v.keys, ATHENA_SCRATCH));
      var whole := first + Sweep(Listing(Apply(v, first).keys, STATS_SCRATCH));
      && (Cleanup(v, fault) == [] || Cleanup(v, fault) == first || Cleanup(v, fault) == whole)
      && (fault == None ==> Cleanup(v, fault) == whole)
  {
  }

  /** No key of the inventory bucket lies in either scratch area. */
  predicate ScratchEmpty(v: View)
  {
    forall k :: k in v.inventory ==> !(ATHENA_SCRATCH <= k) && !(STATS_SCRATCH <= k)
  }

  /** With no exception, and at most one listing page in each scratch area, nothing is left
      in either area: no key of the inventory bucket lies under `temp/athena/` or
      `temp/source-stats/` afterwards. */
  lemma CleanupClearsScratch(v: View)
    requires WellFormed(v)
    requires |UnderPrefix(v.keys, ATHENA_SCRATCH)| <= MAX_KEYS && |UnderPrefix(v.keys, STATS_SCRATCH)| <= MAX_KEYS
    ensures ScratchEmpty(Apply(v, Cleanup(v, None)))
  {
    var athena := Listing(v.keys, ATHENA_SCRATCH);
    var first := Sweep(athena);
    var v1 := Apply(v, first);
    FirstSweep(v);
    ListingSorted(v.keys, ATHENA_SCRATCH);
    var stats := Listing(v1.keys, STATS_SCRATCH);
    ListingSorted(v1.keys, STATS_SCRATCH);
    SweepState(v1, stats);
    CleanupShape(v, None);
    ApplyAppend(v, first, Sweep(stats));
    var w := Apply(v1, Sweep(stats));
    forall k | k in w.inventory ensures !(ATHENA_SCRATCH <= k) && !(STATS_SCRATCH <= k) {
      assert k in v1.inventory && k !in stats;
      assert k in v.inventory && k !in athena;
    }
  }

  /** Whatever raises, the cleaner touches nothing in the results bucket, adds no key and
      alters no body in the inventory bucket, and removes nothing outside the two scratch
      areas. */
  lemma CleanupKeepsOthers(v: View, fault: Option<CleanStep>)
    requires WellFormed(v)
    ensures var w := Apply(v, Cleanup(v, fault));
      && w.results == v.results
      && (forall k :: k in w.inventory ==> k in v.inventory && w.inventory[k] == v.inventory[k])
      && (forall k :: k in v.inventory && !(ATHENA_SCRATCH <= k) && !(STATS_SCRATCH <= k) ==> k in w.inventory)
  {
    var athena := Listing(v.keys, ATHENA_SCRATCH);
    var first := Sweep(athena);
    var v1 := Apply(v, first);
    FirstSweep(v);
    var stats := Listing(v1.keys, STATS_SCRATCH);
    SweepState(v1, stats);
    CleanupShape(v, fault);
    ApplyAppend(v, first, Sweep(stats));
  }

  /** An exception only ends the clean-up early: the requests made are a prefix of those
      made when nothing raises. */
  lemma CleanupStopsEarly(v: View, fault: Option<CleanStep>)
    ensures Cleanup(v, fault) <= Cleanup(v, None)
  {
    CleanupShape(v, fault);
  }

  /** A store with nothing in either scratch area gets no request at all. */
  lemma CleanupNothingToDo(v: View, fault: Option<CleanStep>)
    requires WellFormed(v) && ScratchEmpty(v)
    ensures Cleanup(v, fault) == []
  {
    EmptyListing(v.keys, ATHENA_SCRATCH);
    EmptyListing(v.keys, STATS_SCRATCH);
    assert Apply(v, []) == v;
  }

  /** A second clean-up after a complete one deletes nothing, whatever raises. */
  lemma CleanupIdempotent(v: View, fault: Option<CleanStep>)
    requires WellFormed(v)
    requires |UnderPrefix(v.keys, ATHENA_SCRATCH)| <= MAX_KEYS && |UnderPrefix(v.keys, STATS_SCRATCH)| <= MAX_KEYS
    ensures Cleanup(Apply(v, Cleanup(v, None)), fault) == []
  {
    CleanupClearsScratch(v);
    CleanupNothingToDo(Apply(v, Cleanup(v, None)), fault);
  }

  /** A listing returns one page, and the cleaner asks for no other: with more than MAX_KEYS
      keys under `temp/athena/`, one of them is still there after a clean-up that raised
      nothing. */
  lemma CleanupLeavesOverflow(v: View)
    requires WellFormed(v) && |UnderPrefix(v.keys, ATHENA_SCRATCH)| > MAX_KEYS
    ensures exists k :: k in Apply(v, Cleanup(v, None)).inventory && ATHENA_SCRATCH <= k
  {
    var under := UnderPrefix(v.keys, ATHENA_SCRATCH);
    FilterSorted(v.keys, k => ATHENA_SCRATCH <= k);
    var athena := Listing(v.keys, ATHENA_SCRATCH);
    assert athena == under[..MAX_KEYS];
    var x := under[MAX_KEYS];
    assert x !in athena by {
      forall j | 0 <= j < |athena| ensures athena[j] != x {
        SortedDistinct(under, j, MAX_KEYS);
      }
    }
    var first := Sweep(athena);
    var v1 := Apply(v, first);
    FirstSweep(v);
    assert x in v.keys && x in v1.inventory;
    var stats := Listing(v1.keys, STATS_SCRATCH);
    SweepState(v1, stats);
    ScratchAreasDisjoint(x);
    ApplyAppend(v, first, Sweep(stats));
    CleanupShape(v, None);
    assert x in Apply(v, Cleanup(v, None)).inventory;
  }
}
