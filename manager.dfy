/**
 * The lifecycle operations of `ConfigFeaturesManager` built on the split and
 * the merge: the export and import transformations, committing previews,
 * the single-feature export preview, import, activation and deactivation,
 * and the stacked sync storage used to compare a feature's partial export.
 *
 * The stores a feature's folder gives (`getSplitStorage`) are passed in as
 * `folders`, keyed by the feature's `folder` setting; a folder that is not
 * there is one the manager could not create.  A feature's preview table
 * (`getPreviewStorage`) is a `Storage` parameter when it is written and a
 * lookup in `tables` when it is only read.
 */
module Manager {
  import opened PhpText
  import opened Stores
  import opened Features
  import opened Split
  import opened Merge

  /** The exceptions the manager throws: `InvalidArgumentException` and `RuntimeException` (or a missing storage). */
  datatype Error = AlreadyInactive | NoStorage

  datatype Result<T> = Success(value: T) | Failure(error: Error)

  /** The descriptor entry of a feature in a store: its config name in the default collection. */
  function Descriptor(name: string): Key {
    Key(Default, name)
  }

  /** The store with the `status` of the feature's descriptor entry set to `b`, when the entry is there. */
  function SetStatus(t: StoreData, name: string, b: bool): StoreData {
    if Descriptor(name) in t then t[Descriptor(name) := t[Descriptor(name)].(status := Some(b))] else t
  }

  /** What a database table holds: an unknown table reads as empty. */
  function TableContents(tables: map<string, StoreData>, table: string): StoreData {
    if table in tables then tables[table] else map[]
  }

  // ----- The config transformation events -----

  /**
   * `exportTransform($name, $event)`: a known, active feature is split out of
   * the export into its preview table; otherwise nothing is read or written.
   * `preview` is the preview table of the feature the name designates.
   */
  method ExportTransform(name: string, live: map<string, Feature>, active: StoreData, resolver: Resolver,
                         storage: Storage, preview: Storage)
    requires storage != preview
    modifies storage, preview
    ensures var f := GetFeatureConfig(name, None, live);
      if f.Some? && f.value.status then
        storage.data == SplitTransforming(old(storage.data), active, f.value, resolver)
        && preview.data == SplitFeature(active, f.value, resolver)
      else
        storage.data == old(storage.data) && preview.data == old(preview.data)
  {
    var feature := GetFeatureConfig(name, None, live);
    if feature == None {
      return;
    }
    if !feature.value.status {
      return;
    }
    FeaturePreview(feature.value, active, resolver, storage, preview);
  }

  /**
   * `importTransform($name, $event)`: a feature known to the import (or to the
   * site) and active there is merged back into the import from its folder,
   * when the folder's store exists; otherwise the import is left alone.
   * `staged` are the descriptors the import holds.
   */
  method ImportTransform(name: string, staged: map<string, Feature>, live: map<string, Feature>, active: StoreData,
                         folders: map<string, StoreData>, storage: Storage)
    modifies storage
    ensures var f := GetFeatureConfig(name, Some(staged), live);
      if f.Some? && f.value.status && f.value.folder in folders then
        storage.data == Merged(old(storage.data), folders[f.value.folder], active)
      else
        storage.data == old(storage.data)
  {
    var feature := GetFeatureConfig(name, Some(staged), live);
    if feature == None {
      return;
    }
    if !feature.value.status {
      return;
    }
    if feature.value.folder in folders {
      MergeFeature(folders[feature.value.folder], active, storage);
    }
  }

  // ----- Committing the previews -----

  /** Feature `n` is active and its folder's store is `s`: `commitAll` copies its preview there. */
  predicate CommitsTo(live: map<string, Feature>, folders: map<string, Storage>, n: string, s: Storage) {
    n in live && live[n].status && live[n].folder in folders && folders[live[n].folder] == s
  }

  /** The preview `commitAll` reads for feature `n`. */
  function PreviewOf(live: map<string, Feature>, tables: map<string, StoreData>, n: string): StoreData
    requires n in live
  {
    TableContents(tables, PreviewTableName(live[n].name))
  }

  /**
   * `commitAll()`: the preview of every active feature replaces the contents
   * of its folder's store.  A store no active feature uses is untouched; a
   * store used by one active feature only ends up holding its preview; a store
   * several active features share ends up holding the preview of one of them.
   */
  method CommitAll(live: map<string, Feature>, tables: map<string, StoreData>, folders: map<string, Storage>)
    modifies folders.Values
    ensures forall s :: s in folders.Values && (forall n :: !CommitsTo(live, folders, n, s)) ==> s.data == old(s.data)
    ensures forall s, n :: CommitsTo(live, folders, n, s) ==>
      exists m :: CommitsTo(live, folders, m, s) && s.data == PreviewOf(live, tables, m)
    ensures forall s, n :: CommitsTo(live, folders, n, s) && (forall m :: CommitsTo(live, folders, m, s) ==> m == n) ==>
      s.data == PreviewOf(live, tables, n)
  {
    var names := Enumerate(live.Keys);
    for i := 0 to |names|
      invariant forall s :: s in folders.Values ==>
        (s.data == old(s.data) && forall j :: 0 <= j < i ==> !CommitsTo(live, folders, names[j], s))
        || (exists j :: 0 <= j < i && CommitsTo(live, folders, names[j], s) && s.data == PreviewOf(live, tables, names[j]))
    {
      var feature := live[names[i]];
      if feature.status && feature.folder in folders {
        var permanent := folders[feature.folder];
        permanent.ReplaceContents(TableContents(tables, PreviewTableName(feature.name)));
        assert CommitsTo(live, folders, names[i], permanent);
      }
    }
    forall s, n | CommitsTo(live, folders, n, s)
      ensures exists m :: CommitsTo(live, folders, m, s) && s.data == PreviewOf(live, tables, m)
    {
      assert s in folders.Values;
      assert n in names;
      var j :| 0 <= j < |names| && names[j] == n;
      assert CommitsTo(live, folders, names[j], s);
    }
  }

  // ----- The single-feature operations -----

  /** A conflict `singleExportPreview` resolves: both stores hold the default-collection entry with different UUIDs. */
  predicate Conflicts(p: StoreData, fs: StoreData, k: Key) {
    k.collection == Default && k in p && k in fs && p[k].uuid.Some? && fs[k].uuid.Some? && p[k].uuid != fs[k].uuid
  }

  /** The preview with the UUID of every conflicting entry taken from the feature's folder. */
  function Aligned(p: StoreData, fs: StoreData): (r: StoreData)
    ensures r.Keys == p.Keys
    ensures forall k :: k in r ==> r[k].status == p[k].status && r[k].body == p[k].body
    ensures forall k :: k in r && Conflicts(p, fs, k) ==> r[k].uuid == fs[k].uuid
    ensures forall k :: k in r && !Conflicts(p, fs, k) ==> r[k] == p[k]
  {
    map k | k in p :: if Conflicts(p, fs, k) then p[k].(uuid := fs[k].uuid) else p[k]
  }

  /** After the alignment no conflict is left. */
  lemma AlignedHasNoConflict(p: StoreData, fs: StoreData, k: Key)
    ensures !Conflicts(Aligned(p, fs), fs, k)
  {
  }

  /** Aligning twice is aligning once. */
  lemma AlignIdempotent(p: StoreData, fs: StoreData)
    ensures Aligned(Aligned(p, fs), fs) == Aligned(p, fs)
  {
    var a := Aligned(p, fs);
    forall k | k in a ensures !Conflicts(a, fs, k) {
      AlignedHasNoConflict(p, fs, k);
    }
  }

  /** The preview once the names in `done` are aligned. */
  function AlignedUpTo(p: StoreData, fs: StoreData, done: set<string>): StoreData {
    map k | k in p :: if k.name in done && Conflicts(p, fs, k) then p[k].(uuid := fs[k].uuid) else p[k]
  }

  lemma AlignStart(p: StoreData, fs: StoreData)
    ensures AlignedUpTo(p, fs, {}) == p
  {
  }

  lemma AlignComplete(p: StoreData, fs: StoreData, done: set<string>)
    requires Names(fs, Default) <= done
    ensures AlignedUpTo(p, fs, done) == Aligned(p, fs)
  {
  }

  /** Aligning one more name of the folder's default collection. */
  lemma AlignOneMore(p: StoreData, fs: StoreData, done: set<string>, name: string)
    requires name !in done
    ensures Lookup(AlignedUpTo(p, fs, done), Default, name) == Lookup(p, Default, name)
    ensures Conflicts(p, fs, Key(Default, name)) ==>
      AlignedUpTo(p, fs, done)[Key(Default, name) := p[Key(Default, name)].(uuid := fs[Key(Default, name)].uuid)]
        == AlignedUpTo(p, fs, done + {name})
    ensures !Conflicts(p, fs, Key(Default, name)) ==> AlignedUpTo(p, fs, done) == AlignedUpTo(p, fs, done + {name})
  {
  }

  /**
   * `singleExportPreview($feature)`: an inactive feature is split from the
   * export into its preview table first (an active one already was by the
   * export transformation); then every default-collection entry the preview
   * shares with the feature's folder takes the folder's UUID where the two
   * differ.  Without a store for the folder the alignment fails.
   */
  method SingleExportPreview(f: Feature, exported: StoreData, active: StoreData, resolver: Resolver,
                             folders: map<string, StoreData>, preview: Storage)
    returns (r: Result<StoreData>)
    modifies preview
    ensures var p := if f.status then old(preview.data) else SplitFeature(active, f, resolver);
      && (f.folder !in folders ==> r == Failure(NoStorage) && preview.data == p)
      && (f.folder in folders ==> r == Success(preview.data) && preview.data == Aligned(p, folders[f.folder]))
  {
    if !f.status {
      var transforming := new Storage(exported);
      FeaturePreview(f, active, resolver, transforming, preview);
    }
    if f.folder !in folders {
      return Failure(NoStorage);
    }
    var featureStorage := folders[f.folder];
    ghost var p0 := preview.data;
    ghost var done: set<string> := {};
    AlignStart(p0, featureStorage);
    var names := Enumerate(Names(featureStorage, Default));
    for j := 0 to |names|
      invariant done == SetOf(names[..j])
      invariant preview.data == AlignedUpTo(p0, featureStorage, done)
    {
      var name := names[j];
      PrefixGrows(names, j);
      AlignOneMore(p0, featureStorage, done, name);
      var previewData := preview.Read(Default, name);
      if previewData.Some? {
        var featureData := featureStorage[Key(Default, name)];
        if featureData.uuid.Some? && previewData.value.uuid.Some? && featureData.uuid != previewData.value.uuid {
          preview.Write(Default, name, previewData.value.(uuid := featureData.uuid));
        }
      }
      done := done + {name};
    }
    assert Names(featureStorage, Default) <= done by {
      assert names[..|names|] == names;
    }
    AlignComplete(p0, featureStorage, done);
    return Success(preview.data);
  }

  /** `singleImportOrActivate($feature, $storage, $activate)` as a value: the merge into a copy of the active store, then the status flip. */
  function ImportedOrActivated(f: Feature, split: StoreData, activate: bool, active: StoreData): StoreData {
    var merged := Merged(active, split, active);
    if activate then SetStatus(merged, f.name, true) else merged
  }

  /**
   * `singleImportOrActivate($feature, $storage, $activate)`: a copy of the
   * active store with the feature's folder merged in and, when activating,
   * the feature's descriptor marked active.
   */
  method SingleImportOrActivate(f: Feature, split: StoreData, activate: bool, active: StoreData) returns (r: StoreData)
    ensures forall k :: k in r <==> k in active || k in split
    ensures forall k :: k in r && k !in split && k != Descriptor(f.name) ==> r[k] == active[k]
    ensures forall k :: k in split && k != Descriptor(f.name) ==> r[k] == MergedEntry(active, split, active, k)
    ensures activate && Descriptor(f.name) in r ==> r[Descriptor(f.name)].status == Some(true)
    ensures r == ImportedOrActivated(f, split, activate, active)
  {
    var transformation := new Storage(active);
    MergeFeature(split, active, transformation);
    var config := transformation.Read(Default, f.name);
    if activate && config.Some? {
      transformation.Write(Default, f.name, config.value.(status := Some(true)));
    }
    r := transformation.data;
  }

  /**
   * `singleImport($feature, $activate)` and `singleActivate($feature, $activate)`:
   * both take the feature's folder store (the storage argument they pass to
   * `getSplitStorage` is not used by it); without one there is nothing to merge.
   */
  method SingleImport(f: Feature, activate: bool, active: StoreData, folders: map<string, StoreData>) returns (r: Result<StoreData>)
    ensures f.folder !in folders <==> r == Failure(NoStorage)
    ensures f.folder in folders ==> r == Success(ImportedOrActivated(f, folders[f.folder], activate, active))
  {
    if f.folder !in folders {
      return Failure(NoStorage);
    }
    var t := SingleImportOrActivate(f, folders[f.folder], activate, active);
    return Success(t);
  }

  /**
   * An entry of the default collection the import brings keeps the UUID the
   * site already uses for it.
   */
  lemma ImportKeepsActiveUuid(f: Feature, split: StoreData, activate: bool, active: StoreData, k: Key)
    requires k in split && k.collection == Default && split[k].uuid.Some?
    requires k in active && active[k].uuid.Some?
    ensures ImportedOrActivated(f, split, activate, active)[k].uuid == active[k].uuid
  {
  }

  /** The store `singleDeactivate` hands to the importer: the split export with the descriptor switched off, unless overridden. */
  function Deactivated(f: Feature, override: bool, active: StoreData, resolver: Resolver): StoreData {
    var t := SplitTransforming(active, active, f, resolver);
    if override then t else SetStatus(t, f.name, false)
  }

  /**
   * `singleDeactivate($feature, $exportSplit, $override)`: rejects a feature
   * that is already inactive unless overridden; otherwise splits the feature
   * out of a copy of the active store into its preview table, copies the
   * preview to the folder's store when asked to, and switches the descriptor
   * off unless overridden.
   */
  method SingleDeactivate(f: Feature, exportSplit: bool, override: bool, active: StoreData, resolver: Resolver,
                          preview: Storage, permanent: Storage?)
    returns (r: Result<StoreData>)
    requires preview != permanent
    modifies preview, permanent
    ensures !f.status && !override ==>
      r == Failure(AlreadyInactive) && preview.data == old(preview.data) && (permanent != null ==> permanent.data == old(permanent.data))
    ensures f.status || override ==> preview.data == SplitFeature(active, f, resolver)
    ensures (f.status || override) && exportSplit && permanent == null ==> r == Failure(NoStorage)
    ensures (f.status || override) && exportSplit && permanent != null ==> permanent.data == SplitFeature(active, f, resolver)
    ensures !exportSplit && permanent != null ==> permanent.data == old(permanent.data)
    ensures (f.status || override) && !(exportSplit && permanent == null) ==> r == Success(Deactivated(f, override, active, resolver))
  {
    if !f.status && !override {
      return Failure(AlreadyInactive);
    }
    var transformation := new Storage(active);
    FeaturePreview(f, active, resolver, transformation, preview);
    if exportSplit {
      if permanent == null {
        return Failure(NoStorage);
      }
      permanent.ReplaceContents(preview.data);
    }
    var config := transformation.Read(Default, f.name);
    if config.Some? && !override {
      transformation.Write(Default, f.name, config.value.(status := Some(false)));
    }
    return Success(transformation.data);
  }

  /**
   * Deactivating a feature (exporting its split) and then activating it from
   * that split gives the site back exactly the store it had, provided the
   * feature was active and its descriptor is not part of what it shares.
   */
  lemma DeactivateActivateRoundTrip(f: Feature, active: StoreData, resolver: Resolver)
    requires Descriptor(f.name) in active && active[Descriptor(f.name)].status == Some(true)
    requires f.name !in MovedNames(active, f, resolver, Default)
    ensures ImportedOrActivated(f, SplitFeature(active, f, resolver), true, Deactivated(f, false, active, resolver)) == active
  {
    var split := SplitFeature(active, f, resolver);
    var t := SplitTransforming(active, active, f, resolver);
    var after := Deactivated(f, false, active, resolver);
    MergeBack(f, active, resolver);
    SplitPartitions(active, f, resolver);
    assert Descriptor(f.name) !in split;
    assert after + split == SetStatus(active, f.name, false) by {
      assert after == SetStatus(t, f.name, false);
      assert t + split == active;
    }
    assert SetStatus(SetStatus(active, f.name, false), f.name, true) == active by {
      assert active[Descriptor(f.name)].(status := Some(true)) == active[Descriptor(f.name)];
    }
  }

  /** Merging the split back into the deactivated store adds it unchanged: nothing of it is left there to reconcile against. */
  lemma MergeBack(f: Feature, active: StoreData, resolver: Resolver)
    ensures var after := Deactivated(f, false, active, resolver);
      Merged(after, SplitFeature(active, f, resolver), after) == after + SplitFeature(active, f, resolver)
  {
    var split := SplitFeature(active, f, resolver);
    var after := Deactivated(f, false, active, resolver);
    forall k | k in split ensures MergedEntry(after, split, after, k) == split[k] {
      SplitLeavesNoTrace(f, active, resolver, k);
    }
  }

  /** An entry that was split off is gone from the deactivated store, and so is the default-collection entry of its name. */
  lemma SplitLeavesNoTrace(f: Feature, active: StoreData, resolver: Resolver, k: Key)
    requires k in SplitFeature(active, f, resolver)
    ensures Lookup(Deactivated(f, false, active, resolver), k.collection, k.name) == None
    ensures Lookup(Deactivated(f, false, active, resolver), Default, k.name) == None
  {
    if k.collection != Default {
      assert k.name in Matching(active, k.collection, f.configsShared);
    }
  }

  // ----- The stacked comparison storage -----

  /** The weight of a loaded feature (0 for a name that does not load). */
  function WeightOf(live: map<string, Feature>, n: string): int {
    if n in live then live[n].weight else 0
  }

  predicate Descending(s: seq<string>, live: map<string, Feature>) {
    forall i, j :: 0 <= i < j < |s| ==> WeightOf(live, s[i]) >= WeightOf(live, s[j])
  }

  /** Inserting `n` after every name at least as heavy. */
  function InsertByWeight(n: string, s: seq<string>, live: map<string, Feature>): (r: seq<string>)
    requires Descending(s, live)
    ensures multiset(r) == multiset(s) + multiset{n}
    ensures Descending(r, live)
  {
    if s == [] then [n]
    else if WeightOf(live, n) > WeightOf(live, s[0]) then
      HeadOnTop(n, s, live);
      [n] + s
    else
      assert s == [s[0]] + s[1..];
      DescendingTail(s, live);
      var rest := InsertByWeight(n, s[1..], live);
      assert forall x :: x in rest ==> x == n || x in s[1..] by {
        forall x | x in rest ensures x == n || x in s[1..] {
          assert x in multiset(rest);
        }
      }
      HeadOnTop(s[0], rest, live);
      [s[0]] + rest
  }

  lemma DescendingTail(s: seq<string>, live: map<string, Feature>)
    requires s != [] && Descending(s, live)
    ensures Descending(s[1..], live)
    ensures forall x :: x in s[1..] ==> WeightOf(live, s[0]) >= WeightOf(live, x)
  {
    forall i, j | 0 <= i < j < |s[1..]| ensures WeightOf(live, s[1..][i]) >= WeightOf(live, s[1..][j]) {
      assert s[1..][i] == s[i + 1] && s[1..][j] == s[j + 1];
    }
    forall x | x in s[1..] ensures WeightOf(live, s[0]) >= WeightOf(live, x) {
      var i :| 0 <= i < |s[1..]| && s[1..][i] == x;
      assert s[i + 1] == x;
    }
  }

  /** A name at least as heavy as every name of a descending list can go in front of it. */
  lemma HeadOnTop(n: string, s: seq<string>, live: map<string, Feature>)
    requires Descending(s, live)
    requires forall x :: x in s ==> WeightOf(live, n) >= WeightOf(live, x)
    ensures Descending([n] + s, live)
  {
    var r := [n] + s;
    forall i, j | 0 <= i < j < |r| ensures WeightOf(live, r[i]) >= WeightOf(live, r[j]) {
      assert r[j] == s[j - 1];
      if i > 0 {
        assert r[i] == s[i - 1];
      }
    }
  }

  /** `uasort` by descending weight. */
  function SortByWeight(s: seq<string>, live: map<string, Feature>): (r: seq<string>)
    ensures multiset(r) == multiset(s)
    ensures Descending(r, live)
  {
    if s == [] then []
    else
      assert s == s[..|s| - 1] + [s[|s| - 1]];
      InsertByWeight(s[|s| - 1], SortByWeight(s[..|s| - 1], live), live)
  }

  /** The features `prepareSyncForPartialComparison` merges for `config`: active, stackable, heavier, and not itself. */
  predicate Stacked(config: Feature, live: map<string, Feature>, n: string) {
    n in live && n != config.name && live[n].status && live[n].weight > config.weight && live[n].stackable
  }

  /** The features of `s` that are merged, in order. */
  function StackOf(config: Feature, s: seq<string>, live: map<string, Feature>): (r: seq<string>)
    ensures multiset(r) <= multiset(s)
    ensures forall x :: x in r <==> x in s && Stacked(config, live, x)
  {
    if s == [] then []
    else
      assert s == [s[0]] + s[1..];
      (if Stacked(config, live, s[0]) then [s[0]] else []) + StackOf(config, s[1..], live)
  }

  /** Keeping only some names keeps them in descending weight order. */
  lemma {:induction false} StackDescending(config: Feature, s: seq<string>, live: map<string, Feature>)
    requires Descending(s, live)
    ensures Descending(StackOf(config, s, live), live)
  {
    if s != [] {
      var rest := StackOf(config, s[1..], live);
      DescendingTail(s, live);
      StackDescending(config, s[1..], live);
      if Stacked(config, live, s[0]) {
        HeadOnTop(s[0], rest, live);
      } else {
        assert StackOf(config, s, live) == rest;
      }
    }
  }

  /** Each name occurs at most once. */
  ghost predicate Once(s: seq<string>) {
    forall x :: multiset(s)[x] <= 1
  }

  lemma {:induction false} DistinctOnce(s: seq<string>)
    requires Distinct(s)
    ensures Once(s)
  {
    if s != [] {
      var last := s[|s| - 1];
      var init := s[..|s| - 1];
      assert Distinct(init);
      DistinctOnce(init);
      assert s == init + [last];
      assert last !in init;
    }
  }

  /**
   * Merging the stores of the folders of `order`, one after the other; a
   * folder without a store is an error. Merging never removes, so a composed
   * store holds everything the start held, and the composition fails exactly
   * when some feature to merge has no folder store.
   */
  function Compose(t: StoreData, order: seq<string>, live: map<string, Feature>, folders: map<string, StoreData>,
                   active: StoreData): (r: Result<StoreData>)
    requires forall n :: n in order ==> n in live
    ensures r.Success? ==> t.Keys <= r.value.Keys
    ensures r.Failure? <==> exists n :: n in order && live[n].folder !in folders
    decreases |order|
  {
    if order == [] then Success(t)
    else if live[order[0]].folder !in folders then Failure(NoStorage)
    else
      assert forall n :: n in order ==> n == order[0] || n in order[1..];
      Compose(Merged(t, folders[live[order[0]].folder], active), order[1..], live, folders, active)
  }

  /**
   * `prepareSyncForPartialComparison($config)`: for a feature that is not
   * stackable, the sync store itself; otherwise a copy of the sync store
   * into which the folders of the stacked features are merged, heaviest
   * first.  The order is returned as `order`.
   */
  method PrepareSyncForPartialComparison(config: Feature, sync: StoreData, active: StoreData, live: map<string, Feature>,
                                         folders: map<string, StoreData>)
    returns (r: Result<StoreData>, ghost order: seq<string>)
    ensures !config.stackable ==> r == Success(sync)
    ensures config.stackable ==> forall n :: n in order ==> n in live
    ensures config.stackable ==> r == Compose(sync, order, live, folders, active)
    ensures config.stackable ==> (forall n :: n in order <==> Stacked(config, live, n)) && Descending(order, live) && Once(order)
  {
    order := [];
    if !config.stackable {
      return Success(sync), order;
    }
    var listed := Enumerate(live.Keys);
    var names := StackCandidates(listed, config.name);
    var features := SortByWeight(names, live);
    order := StackOf(config, features, live);
    OrderFacts(config, names, live);
    var composed := new Storage(sync);
    r := MergeStack(config, features, live, folders, active, composed);
  }

  /** The loop of `prepareSyncForPartialComparison` over the sorted features, skipping those not stacked. */
  method MergeStack(config: Feature, features: seq<string>, live: map<string, Feature>, folders: map<string, StoreData>,
                    active: StoreData, composed: Storage)
    returns (r: Result<StoreData>)
    requires forall x :: x in features ==> x in live && x != config.name
    modifies composed
    ensures r == Compose(old(composed.data), StackOf(config, features, live), live, folders, active)
  {
    ghost var goal := Compose(composed.data, StackOf(config, features, live), live, folders, active);
    assert features[0..] == features;
    for i := 0 to |features|
      invariant goal == Compose(composed.data, StackOf(config, features[i..], live), live, folders, active)
    {
      var n := features[i];
      ghost var rest := StackOf(config, features[i + 1..], live);
      ComposeStep(config, features, i, composed.data, live, folders, active);
      var feature := live[n];
      assert Stacked(config, live, n) <==> feature.status && feature.weight > config.weight && feature.stackable;
      if !feature.status || feature.weight <= config.weight || !feature.stackable {
        assert goal == Compose(composed.data, rest, live, folders, active);
        continue;
      }
      if feature.folder !in folders {
        return Failure(NoStorage);
      }
      ghost var merged := Merged(composed.data, folders[feature.folder], active);
      assert goal == Compose(merged, rest, live, folders, active);
      MergeFeature(folders[feature.folder], active, composed);
      assert composed.data == merged;
    }
    assert StackOf(config, features[|features|..], live) == [];
    return Success(composed.data);
  }

  /** One step of the loop: a feature that is not stacked is skipped, a stacked one is merged (or fails). */
  lemma ComposeStep(config: Feature, features: seq<string>, i: nat, t: StoreData, live: map<string, Feature>,
                    folders: map<string, StoreData>, active: StoreData)
    requires i < |features| && forall x :: x in features ==> x in live
    ensures var n := features[i];
      Compose(t, StackOf(config, features[i..], live), live, folders, active) ==
      if !Stacked(config, live, n) then Compose(t, StackOf(config, features[i + 1..], live), live, folders, active)
      else if live[n].folder !in folders then Failure(NoStorage)
      else Compose(Merged(t, folders[live[n].folder], active), StackOf(config, features[i + 1..], live), live, folders, active)
  {
    var s := features[i..];
    assert s[0] == features[i] && s[1..] == features[i + 1..];
    var rest := StackOf(config, s[1..], live);
    if Stacked(config, live, s[0]) {
      var o := StackOf(config, s, live);
      assert o == [s[0]] + rest;
      assert o[0] == s[0] && o[1..] == rest;
    } else {
      assert StackOf(config, s, live) == rest;
    }
  }

  lemma DistinctCons(x: string, s: seq<string>)
    requires Distinct(s) && x !in s
    ensures Distinct([x] + s)
  {
    var r := [x] + s;
    forall i, j | 0 <= i < j < |r| ensures r[i] != r[j] {
      assert r[j] == s[j - 1];
      if i > 0 {
        assert r[i] == s[i - 1];
      }
    }
  }

  /** The order of the merges: exactly the stacked features, heaviest first, each once. */
  lemma OrderFacts(config: Feature, names: seq<string>, live: map<string, Feature>)
    requires Distinct(names)
    requires forall x :: x in names <==> x in live && x != config.name
    ensures var features := SortByWeight(names, live);
      && (forall x :: x in features ==> x in live && x != config.name)
      && var order := StackOf(config, features, live);
      && (forall n :: n in order <==> Stacked(config, live, n))
      && Descending(order, live) && Once(order)
  {
    var features := SortByWeight(names, live);
    assert forall x :: x in features <==> x in multiset(names);
    var order := StackOf(config, features, live);
    StackDescending(config, features, live);
    DistinctOnce(names);
    assert Once(order) by {
      forall x ensures multiset(order)[x] <= 1 {
        assert multiset(order)[x] <= multiset(features)[x];
      }
    }
  }

  /** The listed features without the one being compared (`unset($features[$config->getName()])`). */
  function StackCandidates(listed: seq<string>, name: string): (r: seq<string>)
    requires Distinct(listed)
    ensures Distinct(r)
    ensures forall x :: x in r <==> x in listed && x != name
  {
    if listed == [] then []
    else
      assert Distinct(listed[1..]) by {
        forall i, j | 0 <= i < j < |listed[1..]| ensures listed[1..][i] != listed[1..][j] {
          assert listed[1..][i] == listed[i + 1] && listed[1..][j] == listed[j + 1];
        }
      }
      var rest := StackCandidates(listed[1..], name);
      assert listed[0] !in listed[1..];
      if listed[0] == name then rest else DistinctCons(listed[0], rest); [listed[0]] + rest
  }
}
