/**
 * Merging a feature back into the configuration being imported
 * (`ConfigFeaturesManager::mergeFeature`): every entry of the feature's store
 * is written into the transforming store, in the default collection and in
 * every other collection of the feature, keeping the UUID the site already
 * uses for it.
 */
module Merge {
  import opened PhpText
  import opened Stores
  import opened Features
  import opened Split

  /**
   * The UUID reconciliation of one entry `d` of the feature: when the
   * transforming store already has the entry with another UUID, that UUID is
   * kept; otherwise, when the active store's default collection has an entry
   * of that name with another UUID, that one is kept.
   */
  function Reconcile(d: Payload, existing: Option<Payload>, activeData: Option<Payload>): (r: Payload)
    ensures r.status == d.status && r.body == d.body
    ensures d.uuid == None ==> r == d
    ensures d.uuid.Some? && existing.Some? && existing.value.uuid.Some? && d.uuid != existing.value.uuid
      ==> r.uuid == existing.value.uuid
    ensures !(existing.Some? && existing.value.uuid.Some? && d.uuid != existing.value.uuid)
      && d.uuid.Some? && activeData.Some? && activeData.value.uuid.Some? && d.uuid != activeData.value.uuid
      ==> r.uuid == activeData.value.uuid
    ensures !(d.uuid.Some? && existing.Some? && existing.value.uuid.Some? && d.uuid != existing.value.uuid)
      && !(d.uuid.Some? && activeData.Some? && activeData.value.uuid.Some? && d.uuid != activeData.value.uuid)
      ==> r == d
  {
    if existing.Some? && d.uuid.Some? && existing.value.uuid.Some? && d.uuid != existing.value.uuid then
      d.(uuid := existing.value.uuid)
    else if activeData.Some? && d.uuid.Some? && activeData.value.uuid.Some? && d.uuid != activeData.value.uuid then
      d.(uuid := activeData.value.uuid)
    else d
  }

  /** The entry the merge writes for key `k` of the feature. */
  function MergedEntry(t: StoreData, feature: StoreData, active: StoreData, k: Key): Payload
    requires k in feature
  {
    Reconcile(feature[k], Lookup(t, k.collection, k.name), Lookup(active, Default, k.name))
  }

  /** The transforming store after the merge: every entry of the feature is written, the rest is kept. */
  function Merged(t: StoreData, feature: StoreData, active: StoreData): (r: StoreData)
    ensures forall k :: k in r <==> k in t || k in feature
    ensures forall k :: k in r && k !in feature ==> r[k] == t[k]
    ensures forall k :: k in feature ==> r[k] == MergedEntry(t, feature, active, k)
  {
    map k | k in t.Keys + feature.Keys :: if k in feature then MergedEntry(t, feature, active, k) else t[k]
  }

  /** When the transforming store and the active store agree on an entry's UUID, the merged entry carries it. */
  lemma MergeKeepsSiteUuid(t: StoreData, feature: StoreData, active: StoreData, k: Key, u: string)
    requires k in feature && feature[k].uuid.Some?
    requires Lookup(t, k.collection, k.name).Some? && Lookup(t, k.collection, k.name).value.uuid == Some(u)
    requires Lookup(active, Default, k.name).Some? && Lookup(active, Default, k.name).value.uuid == Some(u)
    ensures Merged(t, feature, active)[k].uuid == Some(u)
    ensures Merged(t, feature, active)[k].body == feature[k].body
  {
  }

  /** Merging the same feature twice gives what merging it once gives. */
  lemma MergeIdempotent(t: StoreData, feature: StoreData, active: StoreData)
    ensures Merged(Merged(t, feature, active), feature, active) == Merged(t, feature, active)
  {
    var m := Merged(t, feature, active);
    forall k | k in feature ensures MergedEntry(m, feature, active, k) == m[k] {
      ReconcileAgain(feature[k], Lookup(t, k.collection, k.name), Lookup(active, Default, k.name));
    }
  }

  /** Reconciling the feature's entry against the result of a first reconciliation changes nothing more. */
  lemma ReconcileAgain(d: Payload, existing: Option<Payload>, activeData: Option<Payload>)
    ensures Reconcile(d, Some(Reconcile(d, existing, activeData)), activeData) == Reconcile(d, existing, activeData)
  {
  }

  /**
   * The entries of collections other than the default one carry, when they
   * carry a UUID at all, the UUID of the default-collection entry of that name.
   */
  predicate UuidsFollowDefault(active: StoreData) {
    forall k :: k in active && k.collection != Default && Key(Default, k.name) in active
      && active[k].uuid.Some? && active[Key(Default, k.name)].uuid.Some?
      ==> active[k].uuid == active[Key(Default, k.name)].uuid
  }

  /**
   * The round trip of a feature: splitting it out of an export of the active
   * store and merging it back gives the active store again.
   */
  lemma SplitMergeRoundTrip(active: StoreData, f: Feature, resolver: Resolver)
    requires UuidsFollowDefault(active)
    ensures Merged(SplitTransforming(active, active, f, resolver), SplitFeature(active, f, resolver), active) == active
  {
    var t := SplitTransforming(active, active, f, resolver);
    var feature := SplitFeature(active, f, resolver);
    var m := Merged(t, feature, active);
    forall k | k in feature ensures m[k] == active[k] {
      assert Lookup(t, k.collection, k.name) == None;
    }
  }

  /**
   * Whatever UUIDs the active store carries, splitting a feature out of an
   * export of it and merging it back gives back every entry, with its status
   * and its content; only UUIDs can differ.
   */
  lemma SplitMergeRestoresContent(active: StoreData, f: Feature, resolver: Resolver)
    ensures Merged(SplitTransforming(active, active, f, resolver), SplitFeature(active, f, resolver), active).Keys == active.Keys
    ensures forall k :: k in active ==>
      && Merged(SplitTransforming(active, active, f, resolver), SplitFeature(active, f, resolver), active)[k].status == active[k].status
      && Merged(SplitTransforming(active, active, f, resolver), SplitFeature(active, f, resolver), active)[k].body == active[k].body
  {
  }

  /** The transforming store once the feature entries in `done` are written. */
  function MergedUpTo(t: StoreData, feature: StoreData, active: StoreData, done: set<Key>): StoreData {
    map k | k in t.Keys + (feature.Keys * done) :: if k in feature && k in done then MergedEntry(t, feature, active, k) else t[k]
  }

  lemma MergeOneMore(t: StoreData, feature: StoreData, active: StoreData, done: set<Key>, k: Key)
    requires k in feature && k !in done
    ensures Lookup(MergedUpTo(t, feature, active, done), k.collection, k.name) == Lookup(t, k.collection, k.name)
    ensures MergedUpTo(t, feature, active, done)[k := MergedEntry(t, feature, active, k)] == MergedUpTo(t, feature, active, done + {k})
  {
  }

  lemma MergeComplete(t: StoreData, feature: StoreData, active: StoreData, done: set<Key>)
    requires feature.Keys <= done
    ensures MergedUpTo(t, feature, active, done) == Merged(t, feature, active)
  {
  }

  lemma MergeStart(t: StoreData, feature: StoreData, active: StoreData)
    ensures MergedUpTo(t, feature, active, {}) == t
  {
  }

  /**
   * `mergeFeature($config, $transforming, $featureStorage)`: afterwards the
   * transforming store is the merge of the feature into what it held.
   */
  method MergeFeature(feature: StoreData, active: StoreData, transforming: Storage)
    modifies transforming
    ensures transforming.data == Merged(old(transforming.data), feature, active)
  {
    ghost var t0 := transforming.data;
    ghost var done: set<Key> := {};
    MergeStart(t0, feature, active);
    var others := Enumerate(Collections(feature));
    var collections := [Default] + others;
    for i := 0 to |collections|
      invariant forall k :: k in done <==> k in feature && k.collection in collections[..i]
      invariant transforming.data == MergedUpTo(t0, feature, active, done)
    {
      var c := collections[i];
      assert c !in collections[..i] by {
        if i > 0 {
          assert c in others && c != Default;
          forall j | 0 < j < i ensures collections[j] != c {
            assert collections[j] == others[j - 1] && c == others[i - 1];
          }
        }
      }
      done := MergeCollection(c, feature, active, t0, done, transforming);
      assert collections[..i + 1] == collections[..i] + [c];
    }
    assert collections[..|collections|] == collections;
    forall k | k in feature ensures k in done {
      if k.collection != Default {
        assert k.collection in Collections(feature);
      }
    }
    MergeComplete(t0, feature, active, done);
  }

  /** The merge of one collection of the feature. */
  method MergeCollection(c: string, feature: StoreData, active: StoreData, ghost t0: StoreData, ghost done0: set<Key>, transforming: Storage)
    returns (ghost done: set<Key>)
    requires done0 <= feature.Keys
    requires forall k :: k in done0 ==> k.collection != c
    requires transforming.data == MergedUpTo(t0, feature, active, done0)
    modifies transforming
    ensures forall k :: k in done <==> k in done0 || (k in feature && k.collection == c)
    ensures transforming.data == MergedUpTo(t0, feature, active, done)
  {
    done := done0;
    var names := Enumerate(Names(feature, c));
    for j := 0 to |names|
      invariant forall k :: k in done <==> k in done0 || (k in feature && k.collection == c && k.name in names[..j])
      invariant transforming.data == MergedUpTo(t0, feature, active, done)
    {
      var name := names[j];
      var k := Key(c, name);
      assert k !in done by {
        forall m | 0 <= m < j ensures names[m] != name { }
      }
      MergeOneMore(t0, feature, active, done, k);
      var data := feature[k];
      var updated := Reconcile(data, transforming.Read(c, name), Lookup(active, Default, name));
      transforming.Write(c, name, updated);
      done := done + {k};
      assert names[..j + 1] == names[..j] + [name];
    }
    assert names[..|names|] == names;
  }
}
