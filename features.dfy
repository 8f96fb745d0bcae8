/**
 * The feature descriptor (the `config_feature` config entity) and the
 * registry helpers of the manager: name prefixing, the feature listing,
 * left-biased loading and the preview table name.
 */
module Features {
  import opened PhpText

  /** The config prefix of every feature descriptor. */
  const FeaturePrefix: string := "config_features.config_feature."

  /** The prefix of the preview table of every feature. */
  const PreviewPrefix: string := "config_feature_preview_"

  /**
   * A feature descriptor as the manager reads it through `ImmutableConfig::get`.
   * `title` is the entity label. `name` is the config name (`getName()`), `FeaturePrefix` followed by the id.
   * `stackable` is read by the manager but is not an exported field of the
   * entity, so it only ever holds what an override puts there.
   */
  datatype Feature = Feature(
    name: string,
    title: string,
    description: string,
    weight: int,
    status: bool,
    folder: string,
    configsShared: seq<string>,
    configsExcluded: seq<string>,
    stackable: bool)

  /** A new feature entity with the entity's field defaults. */
  function NewFeature(id: string, title: string): (f: Feature)
    ensures StartsWith(f.name, FeaturePrefix)
    ensures f.status && f.weight == 0 && !f.stackable
    ensures f.configsShared == [] && f.configsExcluded == []
  {
    Feature(FeaturePrefix + id, title, "", 0, true, "", [], [], false)
  }

  /** The name prefixing of `getFeatureConfig`: the prefix is added unless the name starts with it. */
  function FeatureConfigName(name: string): (r: string)
    ensures StartsWith(r, FeaturePrefix)
    ensures StartsWith(name, FeaturePrefix) ==> r == name
    ensures !StartsWith(name, FeaturePrefix) ==> r == FeaturePrefix + name
  {
    if StartsWith(name, FeaturePrefix) then name else FeaturePrefix + name
  }

  /** A bare id and its prefixed config name designate the same feature, and prefixing is idempotent. */
  lemma PrefixOnce(id: string)
    ensures FeatureConfigName(FeatureConfigName(id)) == FeatureConfigName(id)
    ensures !StartsWith(id, FeaturePrefix) ==> FeatureConfigName(id) == FeatureConfigName(FeaturePrefix + id)
  {
    assert (FeaturePrefix + id)[..|FeaturePrefix|] == FeaturePrefix;
  }

  /**
   * `getFeatureConfig($name, $storage)`: the descriptor is taken from the
   * descriptors visible through the given storage when it is there, otherwise
   * from the live descriptors; None when neither knows it.
   * `staged` is None when no storage is given.
   */
  function GetFeatureConfig(name: string, staged: Option<map<string, Feature>>, live: map<string, Feature>): (r: Option<Feature>)
    ensures var n := FeatureConfigName(name);
      && (r == None <==> (staged.None? || n !in staged.value) && n !in live)
      && (staged.Some? && n in staged.value ==> r == Some(staged.value[n]))
      && (r.Some? && (staged.None? || n !in staged.value) ==> r == Some(live[n]))
  {
    var n := FeatureConfigName(name);
    if staged.Some? && n in staged.value then Some(staged.value[n])
    else if n in live then Some(live[n])
    else None
  }

  predicate Distinct(s: seq<string>) {
    forall i, j :: 0 <= i < j < |s| ==> s[i] != s[j]
  }

  /** `array_unique`: keeps the first occurrence of every value, in order. */
  function Unique(s: seq<string>): (r: seq<string>)
    ensures Distinct(r)
    ensures forall x :: x in r <==> x in s
    decreases |s|
  {
    if s == [] then []
    else
      var u := Unique(s[..|s| - 1]);
      if s[|s| - 1] in u then u else u + [s[|s| - 1]]
  }

  /** `array_unique` of a concatenation starts with `array_unique` of its first part. */
  lemma {:induction false} UniquePrefix(a: seq<string>, b: seq<string>)
    ensures Unique(a) <= Unique(a + b)
    decreases |b|
  {
    if b == [] {
      assert a + b == a;
    } else {
      UniquePrefix(a, b[..|b| - 1]);
      assert (a + b)[..|a + b| - 1] == a + b[..|b| - 1];
    }
  }

  /**
   * `listAll($storage)`: the feature names visible through the storage
   * followed by the live ones, without repetition.
   */
  function ListAll(stagedNames: seq<string>, liveNames: seq<string>): (r: seq<string>)
    ensures Distinct(r)
    ensures forall x :: x in r <==> x in stagedNames || x in liveNames
    ensures Unique(stagedNames) <= r
  {
    UniquePrefix(stagedNames, liveNames);
    Unique(stagedNames + liveNames)
  }

  /**
   * `loadMultiple($names, $storage)`: `$configs + $factory->loadMultiple($names)`,
   * so a descriptor visible through the storage wins over the live one.
   */
  function LoadMultiple(names: seq<string>, staged: map<string, Feature>, live: map<string, Feature>): (r: map<string, Feature>)
    ensures forall n :: n in r <==> n in names && (n in staged || n in live)
    ensures forall n :: n in r && n in staged ==> r[n] == staged[n]
    ensures forall n :: n in r && n !in staged ==> r[n] == live[n]
  {
    map n | n in names && (n in staged || n in live) :: if n in staged then staged[n] else live[n]
  }

  /** `substr($s, $k)` for a non-negative start: empty when the string is shorter. */
  function Substr(s: string, k: nat): string {
    if k <= |s| then s[k..] else ""
  }

  /** `strtr($s, ['.' => '_'])`. */
  function DotsToUnderscores(s: string): (r: string)
    ensures |r| == |s|
    ensures forall i :: 0 <= i < |s| ==> r[i] == (if s[i] == '.' then '_' else s[i])
  {
    seq(|s|, i requires 0 <= i < |s| => if s[i] == '.' then '_' else s[i])
  }

  /** The table name `getPreviewStorage` derives from the feature's config name. */
  function PreviewTableName(configName: string): (r: string)
    ensures StartsWith(r, PreviewPrefix)
    ensures '.' !in r[|PreviewPrefix|..]
  {
    var t := PreviewPrefix + DotsToUnderscores(Substr(configName, |FeaturePrefix|));
    assert t[..|PreviewPrefix|] == PreviewPrefix;
    assert t[|PreviewPrefix|..] == DotsToUnderscores(Substr(configName, |FeaturePrefix|));
    t
  }

  /** For a machine-name id (no dot) the table name ends with the id itself. */
  lemma PreviewTableOfId(id: string)
    requires '.' !in id
    ensures PreviewTableName(FeaturePrefix + id) == PreviewPrefix + id
  {
    assert Substr(FeaturePrefix + id, |FeaturePrefix|) == id;
    assert DotsToUnderscores(id) == id;
  }

  /** Distinct machine-name ids never share a preview table. */
  lemma PreviewTablesDistinct(id1: string, id2: string)
    requires '.' !in id1 && '.' !in id2 && id1 != id2
    ensures PreviewTableName(FeaturePrefix + id1) != PreviewTableName(FeaturePrefix + id2)
  {
    PreviewTableOfId(id1);
    PreviewTableOfId(id2);
    assert (PreviewPrefix + id1)[|PreviewPrefix|..] == id1;
    assert (PreviewPrefix + id2)[|PreviewPrefix|..] == id2;
  }
}
