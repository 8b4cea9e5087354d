/** The object store the handler talks to, reduced to the two buckets it uses: the inventory
    bucket (`source-inventories`), which holds the scratch output and is listed and deleted
    from, and the results bucket, which is only written to. */
module Store {
  import opened Seqs

  /** A listing returns at most this many keys; the handler never asks for a second page. */
  const MAX_KEYS := 1000

  /** The state of both buckets. `keys` is the inventory bucket's key set in the order a
      listing returns it; `inventory` and `results` are the buckets' contents. */
  datatype View = View(keys: seq<string>, inventory: map<string, string>, results: map<string, string>)

  /** The store's own invariant: keys are listed in strictly increasing order and are
      exactly the inventory bucket's keys. */
  predicate WellFormed(v: View)
  {
    && StrictlySorted(v.keys)
    && (forall k :: k in v.keys ==> k in v.inventory)
    && (forall k :: k in v.inventory ==> k in v.keys)
  }

  /** A request that changes a bucket: `put_object` to the results bucket, and
      `delete_object` and `delete_objects` on the inventory bucket. */
  datatype Mutation = Put(key: string, body: string) | Delete(key: string) | DeleteBatch(batch: seq<string>)

  function Without(keys: seq<string>, gone: set<string>): (r: seq<string>)
    ensures forall k :: k in r <==> k in keys && k !in gone
    ensures StrictlySorted(keys) ==> StrictlySorted(r)
  {
    FilterSorted(keys, k => k !in gone);
    Filter(keys, k => k !in gone)
  }

  /** The inventory bucket with the keys `gone` deleted; deleting a missing key is a no-op,
      as in the object store. */
  function Remove(v: View, gone: set<string>): (w: View)
    ensures WellFormed(v) ==> WellFormed(w)
  {
    View(Without(v.keys, gone), v.inventory - gone, v.results)
  }

  function SetOf(ks: seq<string>): set<string>
  {
    set k | k in ks
  }

  function ApplyOne(v: View, m: Mutation): (w: View)
    ensures WellFormed(v) ==> WellFormed(w)
  {
    match m
    case Put(k, b) => v.(results := v.results[k := b])
    case Delete(k) => Remove(v, {k})
    case DeleteBatch(ks) => Remove(v, SetOf(ks))
  }

  /** The store after the mutations, applied in order. */
  function Apply(v: View, ms: seq<Mutation>): (w: View)
    ensures WellFormed(v) ==> WellFormed(w)
    decreases |ms|
  {
    if ms == [] then v else Apply(ApplyOne(v, ms[0]), ms[1..])
  }

  lemma {:induction false} ApplyAppend(v: View, a: seq<Mutation>, b: seq<Mutation>)
    ensures Apply(v, a + b) == Apply(Apply(v, a), b)
    decreases |a|
  {
    if a == [] {
      assert a + b == b;
    } else {
      assert (a + b)[0] == a[0];
      assert (a + b)[1..] == a[1..] + b;
      ApplyAppend(ApplyOne(v, a[0]), a[1..], b);
    }
  }

  /** Extending a log by `a` and then by `b` extends it by `a + b`. */
  lemma LogAppend(log: seq<Mutation>, a: seq<Mutation>, b: seq<Mutation>)
    ensures log + a + b == log + (a + b)
  {
  }

  lemma ApplySingle(v: View, m: Mutation)
    ensures Apply(v, [m]) == ApplyOne(v, m)
  {
    assert [m][1..] == [];
  }

  lemma {:induction false} WithoutTwice(keys: seq<string>, a: set<string>, b: set<string>)
    ensures Without(Without(keys, a), b) == Without(keys, a + b)
  {
    if keys != [] {
      WithoutTwice(keys[1..], a, b);
      var once := Without(keys, a);
      if keys[0] !in a {
        assert once == [keys[0]] + Without(keys[1..], a);
        assert once[0] == keys[0] && once[1..] == Without(keys[1..], a);
      } else {
        assert once == Without(keys[1..], a);
      }
    }
  }

  /** Deleting two sets of keys one after the other is deleting their union. */
  lemma RemoveTwice(v: View, a: set<string>, b: set<string>)
    ensures Remove(Remove(v, a), b) == Remove(v, a + b)
  {
    WithoutTwice(v.keys, a, b);
    assert (v.inventory - a) - b == v.inventory - (a + b);
  }

  lemma {:induction false} WithoutNothing(keys: seq<string>)
    ensures Without(keys, {}) == keys
  {
    if keys != [] {
      WithoutNothing(keys[1..]);
      assert keys == [keys[0]] + keys[1..];
    }
  }

  /** One `delete_object` per key, in order. */
  function Deletes(ks: seq<string>): (ms: seq<Mutation>)
    ensures |ms| == |ks| && forall j :: 0 <= j < |ks| ==> ms[j] == Delete(ks[j])
  {
    seq(|ks|, j requires 0 <= j < |ks| => Delete(ks[j]))
  }

  /** One more key, one more deletion at the end. */
  lemma DeletesSnoc(ks: seq<string>, k: string)
    ensures Deletes(ks + [k]) == Deletes(ks) + [Delete(k)]
  {
    assert |Deletes(ks + [k])| == |Deletes(ks) + [Delete(k)]|;
    forall j | 0 <= j < |ks| + 1 ensures Deletes(ks + [k])[j] == (Deletes(ks) + [Delete(k)])[j] {
      if j < |ks| {
        assert (ks + [k])[j] == ks[j];
      }
    }
  }

  /** A run of single-key deletions removes exactly the keys it names. */
  lemma {:induction false} ApplyDeletes(v: View, ks: seq<string>)
    ensures Apply(v, Deletes(ks)) == Remove(v, SetOf(ks))
    decreases |ks|
  {
    if ks == [] {
      WithoutNothing(v.keys);
      assert SetOf(ks) == {};
      assert v.inventory - {} == v.inventory;
      assert Deletes(ks) == [];
    } else {
      assert Deletes(ks)[1..] == Deletes(ks[1..]);
      ApplyDeletes(Remove(v, {ks[0]}), ks[1..]);
      RemoveTwice(v, {ks[0]}, SetOf(ks[1..]));
      assert {ks[0]} + SetOf(ks[1..]) == SetOf(ks);
    }
  }

  /** The keys under `prefix`, in listing order. */
  function UnderPrefix(keys: seq<string>, prefix: string): seq<string>
  {
    Filter(keys, k => prefix <= k)
  }

  /** Deleting keys never adds keys under a prefix, and deleting keys outside the prefix
      leaves its listing as it was. */
  lemma {:induction false} UnderPrefixWithout(keys: seq<string>, gone: set<string>, prefix: string)
    ensures |UnderPrefix(Without(keys, gone), prefix)| <= |UnderPrefix(keys, prefix)|
    ensures (forall k :: k in gone ==> !(prefix <= k)) ==>
      UnderPrefix(Without(keys, gone), prefix) == UnderPrefix(keys, prefix)
  {
    if keys != [] {
      UnderPrefixWithout(keys[1..], gone, prefix);
      var rest := Without(keys[1..], gone);
      if keys[0] !in gone {
        var kept := [keys[0]] + rest;
        assert Without(keys, gone) == kept;
        assert kept[0] == keys[0] && kept[1..] == rest;
      } else {
        assert Without(keys, gone) == rest;
      }
    }
  }

  /** What one `list_objects_v2` call returns: the first MAX_KEYS keys under the prefix. */
  function Listing(keys: seq<string>, prefix: string): (listed: seq<string>)
    ensures forall k :: k in listed ==> k in keys && prefix <= k
    ensures |listed| == Min(|UnderPrefix(keys, prefix)|, MAX_KEYS)
  {
    var under := UnderPrefix(keys, prefix);
    assert forall k :: k in under[..Min(|under|, MAX_KEYS)] ==> k in under;
    under[..Min(|under|, MAX_KEYS)]
  }

  /** A prefix that holds no key lists nothing. */
  lemma EmptyListing(keys: seq<string>, prefix: string)
    requires forall k :: k in keys ==> !(prefix <= k)
    ensures Listing(keys, prefix) == []
  {
    FilterNone(keys, k => prefix <= k);
  }

  /** A listing is in key order, so it has no duplicates, and when the prefix holds at most
      MAX_KEYS keys it holds all of them. */
  lemma ListingSorted(keys: seq<string>, prefix: string)
    requires StrictlySorted(keys)
    ensures StrictlySorted(Listing(keys, prefix))
    ensures |UnderPrefix(keys, prefix)| <= MAX_KEYS ==> Listing(keys, prefix) == UnderPrefix(keys, prefix)
  {
    FilterSorted(keys, k => prefix <= k);
  }

  /** The two buckets, as the handler's S3 client sees them. `log` records every request
      that changed a bucket, in the order they were made. */
  class ObjectStore {
    var keys: seq<string>
    var inventory: map<string, string>
    var results: map<string, string>
    ghost var log: seq<Mutation>

    function Snapshot(): View
      reads this
    {
      View(keys, inventory, results)
    }

    ghost predicate Valid()
      reads this
    {
      WellFormed(Snapshot())
    }

    constructor (keys: seq<string>, inventory: map<string, string>, results: map<string, string>)
      requires WellFormed(View(keys, inventory, results))
      ensures Valid() && Snapshot() == View(keys, inventory, results) && log == []
    {
      this.keys := keys;
      this.inventory := inventory;
      this.results := results;
      log := [];
    }

    /** `list_objects_v2` on the inventory bucket; an empty result is a response without
        `Contents`. */
    method ListObjectsV2(prefix: string) returns (listed: seq<string>)
      ensures listed == Listing(keys, prefix)
    {
      listed := Listing(keys, prefix);
    }

    /** `get_object` on the inventory bucket, with the body decoded. */
    method GetObject(key: string) returns (body: string)
      requires key in inventory
      ensures body == inventory[key]
    {
      body := inventory[key];
    }

    /** `put_object` on the results bucket. */
    method PutObject(key: string, body: string)
      modifies this
      ensures Snapshot() == ApplyOne(old(Snapshot()), Put(key, body))
      ensures log == old(log) + [Put(key, body)]
    {
      results := results[key := body];
      log := log + [Put(key, body)];
    }

    /** `delete_object` on the inventory bucket. */
    method DeleteObject(key: string)
      requires Valid()
      modifies this
      ensures Valid()
      ensures Snapshot() == ApplyOne(old(Snapshot()), Delete(key))
      ensures log == old(log) + [Delete(key)]
    {
      keys := Without(keys, {key});
      inventory := inventory - {key};
      log := log + [Delete(key)];
    }

    /** `delete_objects` on the inventory bucket: one request for the whole batch. */
    method DeleteObjects(batch: seq<string>)
      requires Valid()
      modifies this
      ensures Valid()
      ensures Snapshot() == ApplyOne(old(Snapshot()), DeleteBatch(batch))
      ensures log == old(log) + [DeleteBatch(batch)]
    {
      keys := Without(keys, SetOf(batch));
      inventory := inventory - SetOf(batch);
      log := log + [DeleteBatch(batch)];
    }
  }
}
