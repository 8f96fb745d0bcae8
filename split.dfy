/**
 * Splitting a feature out of the configuration being exported
 * (`ConfigFeaturesManager::featurePreview` and its helpers): the configuration
 * the feature shares is copied from the active store into the feature's own
 * store and deleted from the transforming store, in the default collection and
 * in every other collection of the active store, except what the feature
 * excludes.
 */
module Split {
  import opened PhpText
  import opened Wildcard
  import opened Stores
  import opened Features

  /**
   * The config manager's dependency calculation for the removal of the given
   * configuration, reduced to what the engine uses of it: the names of the
   * configuration entities that would have to be deleted.
   */
  type Resolver = set<string> -> seq<string>

  /** The names `in_array($name, $configsExcluded)` holds for. */
  function Excluded(f: Feature): set<string> {
    SetOf(f.configsExcluded)
  }

  /** The names of collection `c` of `s` some pattern of `patterns` matches. */
  function Matching(s: StoreData, c: string, patterns: seq<string>): (r: set<string>)
    ensures forall n :: n in r <==> Key(c, n) in s && InFilterList(n, patterns)
  {
    set n | n in Names(s, c) && InFilterList(n, patterns)
  }

  /**
   * The names the split of `f` moves out of collection `c`: nothing when the
   * feature shares nothing; in the default collection the shared names of the
   * active store and the configuration the resolver says depends on them; in
   * another collection the shared names found there; never an excluded name.
   */
  function MovedNames(active: StoreData, f: Feature, resolver: Resolver, c: string): (r: set<string>)
    ensures f.configsShared == [] ==> r == {}
    ensures r !! Excluded(f)
    ensures f.configsShared != [] ==> Matching(active, c, f.configsShared) - Excluded(f) <= r
    ensures c != Default ==> r <= Names(active, c)
  {
    if f.configsShared == [] then {}
    else if c == Default then
      var shared := Matching(active, Default, f.configsShared);
      (shared + SetOf(resolver(shared))) - Excluded(f)
    else Matching(active, c, f.configsShared) - Excluded(f)
  }

  /** The feature's store after the split: the moved entries, as the active store has them. */
  function SplitFeature(active: StoreData, f: Feature, resolver: Resolver): (r: StoreData)
    ensures forall k :: k in r <==> k in active && k.name in MovedNames(active, f, resolver, k.collection)
    ensures forall k :: k in r ==> r[k] == active[k]
  {
    map k | k in active && k.name in MovedNames(active, f, resolver, k.collection) :: active[k]
  }

  /** The transforming store after the split: the moved names are gone, everything else is kept. */
  function SplitTransforming(t: StoreData, active: StoreData, f: Feature, resolver: Resolver): (r: StoreData)
    ensures forall k :: k in r <==> k in t && k.name !in MovedNames(active, f, resolver, k.collection)
    ensures forall k :: k in r ==> r[k] == t[k]
  {
    map k | k in t && k.name !in MovedNames(active, f, resolver, k.collection) :: t[k]
  }

  // ----- What the split promises -----

  /** A feature that shares nothing splits nothing off. */
  lemma SplitNothingShared(t: StoreData, active: StoreData, f: Feature, resolver: Resolver)
    requires f.configsShared == []
    ensures SplitFeature(active, f, resolver) == map[]
    ensures SplitTransforming(t, active, f, resolver) == t
  {
  }

  /** An excluded name stays where it is and never enters the feature, in every collection. */
  lemma SplitKeepsExcluded(t: StoreData, active: StoreData, f: Feature, resolver: Resolver, c: string, n: string)
    requires n in f.configsExcluded
    ensures Lookup(SplitTransforming(t, active, f, resolver), c, n) == Lookup(t, c, n)
    ensures Lookup(SplitFeature(active, f, resolver), c, n) == None
  {
  }

  /**
   * A name of the active store that a shared pattern matches and that is not
   * excluded leaves the export and enters the feature with the active
   * store's content, in whichever collection it is.
   */
  lemma SplitTakesShared(t: StoreData, active: StoreData, f: Feature, resolver: Resolver, c: string, n: string)
    requires Key(c, n) in active && InFilterList(n, f.configsShared) && n !in f.configsExcluded
    ensures Lookup(SplitFeature(active, f, resolver), c, n) == Lookup(active, c, n)
    ensures Lookup(SplitTransforming(t, active, f, resolver), c, n) == None
  {
    assert f.configsShared != [];
    assert n in MovedNames(active, f, resolver, c);
  }

  /**
   * A name no shared pattern matches is left alone, unless it is in the
   * default collection and depends on shared configuration.
   */
  lemma SplitKeepsUnshared(t: StoreData, active: StoreData, f: Feature, resolver: Resolver, c: string, n: string)
    requires !InFilterList(n, f.configsShared)
    requires c == Default ==> n !in resolver(Matching(active, Default, f.configsShared))
    ensures Lookup(SplitTransforming(t, active, f, resolver), c, n) == Lookup(t, c, n)
    ensures Lookup(SplitFeature(active, f, resolver), c, n) == None
  {
  }

  /** Split from the active store itself, the export and the feature are disjoint and together make up the active store. */
  lemma SplitPartitions(active: StoreData, f: Feature, resolver: Resolver)
    ensures SplitTransforming(active, active, f, resolver).Keys !! SplitFeature(active, f, resolver).Keys
    ensures SplitTransforming(active, active, f, resolver) + SplitFeature(active, f, resolver) == active
  {
  }

  /** Splitting the same feature a second time removes nothing more. */
  lemma SplitIdempotent(t: StoreData, active: StoreData, f: Feature, resolver: Resolver)
    ensures SplitTransforming(SplitTransforming(t, active, f, resolver), active, f, resolver) == SplitTransforming(t, active, f, resolver)
  {
  }

  // ----- The split, collection by collection -----

  /** What a split moves out of each collection. */
  type Plan = string -> set<string>

  /** The plan of the split of `f`. */
  function PlanOf(active: StoreData, f: Feature, resolver: Resolver): (p: Plan)
    ensures forall c :: p(c) == MovedNames(active, f, resolver, c)
  {
    c => MovedNames(active, f, resolver, c)
  }

  /** What the plan moves out of collection `c` once the collections in `done` (and the default one) are split. */
  function PlannedUpTo(plan: Plan, done: set<string>, c: string): set<string> {
    if c == Default || c in done then plan(c) else {}
  }

  /** The feature's store once the collections in `done` (and the default one) are split. */
  function FeatureUpTo(active: StoreData, plan: Plan, done: set<string>): StoreData {
    map k | k in active && k.name in PlannedUpTo(plan, done, k.collection) :: active[k]
  }

  /** The transforming store once the collections in `done` (and the default one) are split. */
  function TransformingUpTo(t: StoreData, plan: Plan, done: set<string>): StoreData {
    map k | k in t && k.name !in PlannedUpTo(plan, done, k.collection) :: t[k]
  }

  /** Once every collection of the active store is done, the split is complete. */
  lemma UpToComplete(t: StoreData, active: StoreData, f: Feature, resolver: Resolver, done: set<string>)
    requires Collections(active) <= done || f.configsShared == []
    ensures FeatureUpTo(active, PlanOf(active, f, resolver), done) == SplitFeature(active, f, resolver)
    ensures TransformingUpTo(t, PlanOf(active, f, resolver), done) == SplitTransforming(t, active, f, resolver)
  {
    var plan := PlanOf(active, f, resolver);
    forall c | c != Default && c !in done ensures MovedNames(active, f, resolver, c) == {} {
      if f.configsShared != [] {
        assert Matching(active, c, f.configsShared) == {};
      }
    }
    forall c ensures PlannedUpTo(plan, done, c) == MovedNames(active, f, resolver, c) {
    }
  }

  /** Collection `c` of `s` with the entries of collection `c` of `source` named in `names` written into it. */
  function CopyAll(s: StoreData, source: StoreData, c: string, names: set<string>): (r: StoreData)
    ensures forall k :: k in r <==> k in s || (k in source && k.collection == c && k.name in names)
  {
    s + map k | k in source && k.collection == c && k.name in names :: source[k]
  }

  /** Collection `c` of `s` with every name of `names` deleted. */
  function DropAll(s: StoreData, c: string, names: set<string>): (r: StoreData)
    ensures forall k :: k in r <==> k in s && !(k.collection == c && k.name in names)
  {
    map k | k in s && !(k.collection == c && k.name in names) :: s[k]
  }

  /** Moving one more name adds its source entry, when there is one. */
  lemma CopyOneMore(s: StoreData, source: StoreData, c: string, names: set<string>, n: string)
    ensures (if Key(c, n) in source then CopyAll(s, source, c, names)[Key(c, n) := source[Key(c, n)]] else CopyAll(s, source, c, names))
      == CopyAll(s, source, c, names + {n})
  {
  }

  /** Moving one more name deletes it from the transforming collection. */
  lemma DropOneMore(s: StoreData, c: string, names: set<string>, n: string)
    ensures DropAll(s, c, names) - {Key(c, n)} == DropAll(s, c, names + {n})
  {
  }

  lemma CopyTwice(s: StoreData, source: StoreData, c: string, a: set<string>, b: set<string>)
    ensures CopyAll(CopyAll(s, source, c, a), source, c, b) == CopyAll(s, source, c, a + b)
  {
  }

  lemma DropTwice(s: StoreData, c: string, a: set<string>, b: set<string>)
    ensures DropAll(DropAll(s, c, a), c, b) == DropAll(s, c, a + b)
  {
  }

  /** Moving no name changes nothing. */
  lemma NothingPlanned(t: StoreData, active: StoreData, c: string)
    ensures CopyAll(map[], active, c, {}) == map[]
    ensures DropAll(t, c, {}) == t
  {
  }

  /** The default phase is the first step of the split. */
  lemma UpToDefault(t: StoreData, active: StoreData, plan: Plan)
    ensures CopyAll(map[], active, Default, plan(Default)) == FeatureUpTo(active, plan, {})
    ensures DropAll(t, Default, plan(Default)) == TransformingUpTo(t, plan, {})
  {
  }

  /** Splitting collection `c` advances both stores by one collection. */
  lemma SplitOneMore(t: StoreData, active: StoreData, plan: Plan, done: set<string>, c: string)
    requires c != Default && c !in done
    ensures CopyAll(FeatureUpTo(active, plan, done), active, c, plan(c)) == FeatureUpTo(active, plan, done + {c})
    ensures DropAll(TransformingUpTo(t, plan, done), c, plan(c)) == TransformingUpTo(t, plan, done + {c})
  {
    FeatureOneMore(active, plan, done, c);
    TransformingOneMore(t, plan, done, c);
  }

  lemma FeatureOneMore(active: StoreData, plan: Plan, done: set<string>, c: string)
    requires c != Default && c !in done
    ensures CopyAll(FeatureUpTo(active, plan, done), active, c, plan(c)) == FeatureUpTo(active, plan, done + {c})
  {
    var before := FeatureUpTo(active, plan, done);
    var after := FeatureUpTo(active, plan, done + {c});
    var r := CopyAll(before, active, c, plan(c));
    forall k | k in r ensures k in after && r[k] == after[k] {
      assert k in before || (k in active && k.collection == c && k.name in plan(c));
    }
    forall k | k in after ensures k in r {
      if k.collection != c {
        assert k in before;
      }
    }
  }

  lemma TransformingOneMore(t: StoreData, plan: Plan, done: set<string>, c: string)
    requires c != Default && c !in done
    ensures DropAll(TransformingUpTo(t, plan, done), c, plan(c)) == TransformingUpTo(t, plan, done + {c})
  {
  }

  /**
   * `moveConfigToSplit($name, $source, $feature, $transforming)` on collection
   * `c`: the entry is copied from the source when the source has it, and
   * deleted from the transforming store in any case.
   */
  method MoveConfigToSplit(name: string, c: string, source: StoreData, feature: Storage, transforming: Storage)
    requires feature != transforming
    modifies feature, transforming
    ensures feature.data == if Key(c, name) in source then old(feature.data)[Key(c, name) := source[Key(c, name)]] else old(feature.data)
    ensures transforming.data == old(transforming.data) - {Key(c, name)}
  {
    if Key(c, name) in source {
      feature.Write(c, name, source[Key(c, name)]);
    }
    transforming.Delete(c, name);
  }

  /**
   * The loop that moves every listed name not excluded, in order, into the
   * feature's collection `c`. It returns the names it moved.
   */
  method MoveAll(names: seq<string>, excluded: seq<string>, c: string, source: StoreData, feature: Storage, transforming: Storage)
    returns (moved: seq<string>)
    requires feature != transforming
    modifies feature, transforming
    ensures forall x :: x in moved <==> x in names && x !in excluded
    ensures feature.data == CopyAll(old(feature.data), source, c, SetOf(names) - SetOf(excluded))
    ensures transforming.data == DropAll(old(transforming.data), c, SetOf(names) - SetOf(excluded))
  {
    ghost var f0 := feature.data;
    ghost var t0 := transforming.data;
    moved := [];
    ghost var done: set<string> := {};
    for i := 0 to |names|
      invariant done == SetOf(names[..i]) - SetOf(excluded)
      invariant forall x :: x in moved <==> x in done
      invariant feature.data == CopyAll(f0, source, c, done)
      invariant transforming.data == DropAll(t0, c, done)
    {
      var name := names[i];
      assert names[..i + 1] == names[..i] + [name];
      if name !in excluded {
        MoveConfigToSplit(name, c, source, feature, transforming);
        CopyOneMore(f0, source, c, done, name);
        DropOneMore(t0, c, done, name);
        done := done + {name};
        moved := moved + [name];
      }
    }
    assert names[..|names|] == names;
  }

  /**
   * `processEntitiesToChangeOnDependencyRemoval`: the entities to update are
   * left alone; the ones to delete are moved to the feature unless excluded.
   */
  method ProcessDeletes(deletes: seq<string>, excluded: seq<string>, source: StoreData, feature: Storage, transforming: Storage)
    requires feature != transforming
    modifies feature, transforming
    ensures feature.data == CopyAll(old(feature.data), source, Default, SetOf(deletes) - SetOf(excluded))
    ensures transforming.data == DropAll(old(transforming.data), Default, SetOf(deletes) - SetOf(excluded))
  {
    var _ := MoveAll(deletes, excluded, Default, source, feature, transforming);
  }

  /** "Empty the feature storage": every collection of the store is deleted. */
  method EmptyStorage(s: Storage)
    modifies s
    ensures s.data == map[]
  {
    var cs := s.GetAllCollectionNames();
    s.DeleteAll(Default);
    for i := 0 to |cs|
      invariant forall k :: k in s.data ==> k.collection in cs[i..]
    {
      s.DeleteAll(cs[i]);
    }
  }

  /** The default-collection phase: the shared names of the active store, with what depends on them. */
  method SplitShared(f: Feature, active: StoreData, resolver: Resolver, feature: Storage, transforming: Storage)
    returns (completelySplit: seq<string>)
    requires feature != transforming
    requires f.configsShared != []
    modifies feature, transforming
    ensures forall x :: x in completelySplit ==> InFilterList(x, f.configsShared)
    ensures feature.data == CopyAll(old(feature.data), active, Default, MovedNames(active, f, resolver, Default))
    ensures transforming.data == DropAll(old(transforming.data), Default, MovedNames(active, f, resolver, Default))
  {
    ghost var f0 := feature.data;
    ghost var t0 := transforming.data;
    completelySplit := [];
    var completeList := Matching(active, Default, f.configsShared);
    completeList := completeList - SetOf(completelySplit);
    assert completeList == Matching(active, Default, f.configsShared);
    var deletes := resolver(completeList);
    ProcessDeletes(deletes, f.configsExcluded, active, feature, transforming);
    var unprocessed := Enumerate(completeList - SetOf(deletes));
    var split := MoveAll(unprocessed, f.configsExcluded, Default, active, feature, transforming);
    completelySplit := completelySplit + split;
    DefaultMoved(active, f, resolver, completeList, deletes, unprocessed);
    CopyTwice(f0, active, Default, SetOf(deletes) - Excluded(f), SetOf(unprocessed) - Excluded(f));
    DropTwice(t0, Default, SetOf(deletes) - Excluded(f), SetOf(unprocessed) - Excluded(f));
  }

  /** In the default collection, the deleted dependents and the rest of the shared names make up what the plan moves. */
  lemma DefaultMoved(active: StoreData, f: Feature, resolver: Resolver, completeList: set<string>, deletes: seq<string>, unprocessed: seq<string>)
    requires f.configsShared != []
    requires completeList == Matching(active, Default, f.configsShared)
    requires deletes == resolver(completeList)
    requires forall x :: x in unprocessed <==> x in completeList - SetOf(deletes)
    ensures (SetOf(deletes) - Excluded(f)) + (SetOf(unprocessed) - Excluded(f)) == MovedNames(active, f, resolver, Default)
  {
    SetsCombine(completeList, SetOf(deletes), SetOf(unprocessed), Excluded(f));
  }

  lemma SetsCombine(all: set<string>, deleted: set<string>, rest: set<string>, excluded: set<string>)
    requires rest == all - deleted
    ensures (deleted - excluded) + (rest - excluded) == (all + deleted) - excluded
  {
  }

  /**
   * `featurePreview($config, $transforming, $featureStorage)`: afterwards the
   * feature's store holds exactly what the feature takes from the active
   * store, and the transforming store has lost exactly that.
   */
  method FeaturePreview(f: Feature, active: StoreData, resolver: Resolver, transforming: Storage, featureStorage: Storage)
    requires transforming != featureStorage
    modifies transforming, featureStorage
    ensures featureStorage.data == SplitFeature(active, f, resolver)
    ensures transforming.data == SplitTransforming(old(transforming.data), active, f, resolver)
  {
    ghost var plan := PlanOf(active, f, resolver);
    ghost var t0 := transforming.data;
    EmptyStorage(featureStorage);
    var completelySplit: seq<string> := [];
    if f.configsShared != [] {
      completelySplit := SplitShared(f, active, resolver, featureStorage, transforming);
    }
    if f.configsShared == [] {
      NothingPlanned(t0, active, Default);
    }
    UpToDefault(t0, active, plan);
    if completelySplit != [] || f.configsShared != [] {
      SplitCollections(f, active, resolver, completelySplit, t0, featureStorage, transforming);
    } else {
      UpToComplete(t0, active, f, resolver, {});
    }
  }

  /** The collections phase: in every other collection of the active store, what the feature shares is moved too. */
  method SplitCollections(f: Feature, active: StoreData, resolver: Resolver, completelySplit: seq<string>, ghost t0: StoreData,
                          featureStorage: Storage, transforming: Storage)
    requires transforming != featureStorage
    requires forall x :: x in completelySplit ==> InFilterList(x, f.configsShared)
    requires featureStorage.data == FeatureUpTo(active, PlanOf(active, f, resolver), {})
    requires transforming.data == TransformingUpTo(t0, PlanOf(active, f, resolver), {})
    modifies transforming, featureStorage
    ensures featureStorage.data == SplitFeature(active, f, resolver)
    ensures transforming.data == SplitTransforming(t0, active, f, resolver)
  {
    ghost var plan := PlanOf(active, f, resolver);
    var cs := Enumerate(Collections(active));
    ghost var done: set<string> := {};
    for i := 0 to |cs|
      invariant done == SetOf(cs[..i])
      invariant featureStorage.data == FeatureUpTo(active, plan, done)
      invariant transforming.data == TransformingUpTo(t0, plan, done)
    {
      var c := cs[i];
      PrefixGrows(cs, i);
      SplitCollection(f, active, resolver, c, completelySplit, featureStorage, transforming);
      SplitOneMore(t0, active, plan, done, c);
      done := done + {c};
    }
    assert Collections(active) <= done by {
      assert cs[..|cs|] == cs;
    }
    UpToComplete(t0, active, f, resolver, done);
  }

  /** One collection of the collections phase. */
  method SplitCollection(f: Feature, active: StoreData, resolver: Resolver, c: string, completelySplit: seq<string>,
                         featureStorage: Storage, transforming: Storage)
    requires c in Collections(active)
    requires transforming != featureStorage
    requires forall x :: x in completelySplit ==> InFilterList(x, f.configsShared)
    modifies transforming, featureStorage
    ensures featureStorage.data == CopyAll(old(featureStorage.data), active, c, PlanOf(active, f, resolver)(c))
    ensures transforming.data == DropAll(old(transforming.data), c, PlanOf(active, f, resolver)(c))
  {
    var removeList := Enumerate(set n | n in Names(active, c) && (n in completelySplit || InFilterList(n, f.configsShared)));
    var _ := MoveAll(removeList, f.configsExcluded, c, active, featureStorage, transforming);
    CollectionMoved(f, active, resolver, c, completelySplit, removeList);
  }

  /** In a collection other than the default one, the remove list less the excluded names is what the plan moves. */
  lemma CollectionMoved(f: Feature, active: StoreData, resolver: Resolver, c: string, completelySplit: seq<string>, removeList: seq<string>)
    requires c != Default
    requires forall x :: x in completelySplit ==> InFilterList(x, f.configsShared)
    requires forall n :: n in removeList <==> Key(c, n) in active && (n in completelySplit || InFilterList(n, f.configsShared))
    ensures SetOf(removeList) - Excluded(f) == PlanOf(active, f, resolver)(c)
  {
    if f.configsShared == [] {
      assert forall n :: !InFilterList(n, f.configsShared);
      assert SetOf(removeList) == {};
    }
  }
}
