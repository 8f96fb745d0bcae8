/**
 * The UUID-ignore import transformation (`ConfigSubscriber::onImportTransform`):
 * entries of the import whose names the ignore settings match take the UUID
 * the active site uses for them, and every entry of the import that mentions
 * one of the replaced UUIDs has it rewritten to the active one.
 *
 * The storage's own serialisation (`encode`/`decode`) is passed in as a pair
 * of functions.
 */
module UuidIgnore {
  import opened PhpText
  import opened Wildcard
  import opened Stores

  // ----- Which entries are ignored -----

  /** The pattern of one ignore setting: the text before its first `:` (the rest names keys). */
  function IgnorePattern(setting: string): string {
    Explode(setting, ":")[0]
  }

  /** The patterns of the ignore settings, in order. */
  function IgnorePatterns(ignore: seq<string>): seq<string> {
    seq(|ignore|, i requires 0 <= i < |ignore| => IgnorePattern(ignore[i]))
  }

  /**
   * `matchConfigName($config_name)` with the ignore settings as a parameter:
   * the filter-list rule applied to the patterns of the settings.
   */
  predicate MatchConfigName(name: string, ignore: seq<string>)
    ensures MatchConfigName(name, ignore) <==> InFilterList(name, IgnorePatterns(ignore))
  {
    assert forall i :: 0 <= i < |ignore| ==> IgnorePatterns(ignore)[i] == IgnorePattern(ignore[i]);
    exists i :: 0 <= i < |ignore| && WildcardMatch(IgnorePattern(ignore[i]), name)
  }

  /** The part after the first separator never reaches the pattern. */
  lemma {:induction false} ExplodeFirstPiece(p: string, rest: string)
    requires ':' !in p
    ensures Explode(p + ":" + rest, ":")[0] == p
    decreases |p|
  {
    var s := p + ":" + rest;
    if p == [] {
      assert s[..1] == ":";
    } else {
      assert s[..1] != ":" by { assert s[0] == p[0]; }
      assert s[1..] == p[1..] + ":" + rest;
      ExplodeFirstPiece(p[1..], rest);
      assert p == [p[0]] + p[1..];
    }
  }

  /** A setting with key names after `:` matches exactly what its pattern matches. */
  lemma SettingPatternOnly(pattern: string, keys: string, name: string)
    requires ':' !in pattern
    ensures MatchConfigName(name, [pattern + ":" + keys]) <==> WildcardMatch(pattern, name)
  {
    ExplodeFirstPiece(pattern, keys);
    assert [pattern + ":" + keys][0] == pattern + ":" + keys;
  }

  /** A setting without `:` is a pattern as it stands. */
  lemma {:induction false} SettingWithoutKeys(setting: string)
    requires ':' !in setting
    ensures IgnorePattern(setting) == setting
    decreases |setting|
  {
    if |setting| >= 1 {
      assert setting[..1] != ":" by { assert setting[0] != ':'; }
      SettingWithoutKeys(setting[1..]);
      assert setting == [setting[0]] + setting[1..];
    }
  }

  // ----- The first pass: adopting the active UUIDs -----

  /** `!empty($data['uuid'])`: set, and neither "" nor "0". */
  predicate Filled(uuid: Option<string>) {
    uuid.Some? && Truthy(uuid.value)
  }

  /** The first pass replaces the UUID of entry `n` of the import. */
  predicate Replaced(t: StoreData, active: StoreData, ignore: seq<string>, n: string) {
    var k := Key(Default, n);
    && k in t && k in active && MatchConfigName(n, ignore)
    && Filled(t[k].uuid) && Filled(active[k].uuid) && t[k].uuid != active[k].uuid
  }

  /** The import after the first pass over the names in `done`. */
  function AdoptedUpTo(t: StoreData, active: StoreData, ignore: seq<string>, done: set<string>): StoreData {
    map k | k in t :: if k.collection == Default && k.name in done && Replaced(t, active, ignore, k.name)
      then t[k].(uuid := active[k].uuid) else t[k]
  }

  /** The import after the first pass. */
  function Adopted(t: StoreData, active: StoreData, ignore: seq<string>): (r: StoreData)
    ensures r.Keys == t.Keys
    ensures forall n :: Replaced(t, active, ignore, n) ==> r[Key(Default, n)].uuid == active[Key(Default, n)].uuid
    ensures forall k :: k in t && !(k.collection == Default && Replaced(t, active, ignore, k.name)) ==> r[k] == t[k]
    ensures forall k :: k in t ==> r[k].status == t[k].status && r[k].body == t[k].body
  {
    map k | k in t :: if k.collection == Default && Replaced(t, active, ignore, k.name) then t[k].(uuid := active[k].uuid) else t[k]
  }

  /** After the first pass every matched entry whose UUID differed from the active one carries the active one. */
  lemma AdoptedAgrees(t: StoreData, active: StoreData, ignore: seq<string>, n: string)
    requires Key(Default, n) in t && Key(Default, n) in active && MatchConfigName(n, ignore)
    requires Filled(t[Key(Default, n)].uuid) && Filled(active[Key(Default, n)].uuid)
    ensures Adopted(t, active, ignore)[Key(Default, n)].uuid == active[Key(Default, n)].uuid
  {
  }

  /** The first pass leaves nothing for a second first pass to do. */
  lemma AdoptIdempotent(t: StoreData, active: StoreData, ignore: seq<string>)
    ensures Adopted(Adopted(t, active, ignore), active, ignore) == Adopted(t, active, ignore)
  {
    var a := Adopted(t, active, ignore);
    forall k | k in a && k.collection == Default ensures !Replaced(a, active, ignore, k.name) {
      assert Key(Default, k.name) == k;
    }
  }

  // ----- The replacement list (`$uuids_to_replace`) -----

  /**
   * `$uuids_to_replace`: a PHP array from the import's UUIDs to the active
   * ones.  `order` lists its keys in insertion order, each once; `current`
   * gives the value of each key.
   */
  datatype UuidMap = UuidMap(order: seq<string>, current: map<string, string>)

  predicate WellFormed(m: UuidMap) {
    && (forall x :: x in m.order ==> x in m.current)
    && (forall x :: x in m.current ==> x in m.order)
    && (forall i, j :: 0 <= i < j < |m.order| ==> m.order[i] != m.order[j])
  }

  /** `$uuids_to_replace[$incoming] = $current`: a new key goes last, an existing key keeps its place and takes the new value. */
  function Put(m: UuidMap, incoming: string, current: string): (r: UuidMap)
    requires WellFormed(m)
    ensures WellFormed(r)
    ensures r.current == m.current[incoming := current]
    ensures incoming in m.current ==> r.order == m.order
    ensures incoming !in m.current ==> r.order == m.order + [incoming]
  {
    if incoming in m.current then UuidMap(m.order, m.current[incoming := current])
    else UuidMap(m.order + [incoming], m.current[incoming := current])
  }

  /** The replacement list the first pass builds walking `names` in order. */
  function Changes(t: StoreData, active: StoreData, ignore: seq<string>, names: seq<string>): (r: UuidMap)
    ensures WellFormed(r)
    decreases |names|
  {
    if names == [] then UuidMap([], map[])
    else
      var pairs := Changes(t, active, ignore, names[..|names| - 1]);
      var n := names[|names| - 1];
      if Replaced(t, active, ignore, n) then Put(pairs, t[Key(Default, n)].uuid.value, active[Key(Default, n)].uuid.value)
      else pairs
  }

  /**
   * The list only grows as the walk goes on: the keys present after any
   * prefix of `names` lead the final list in the same order, so the keys come
   * in the order of their first replacement.
   */
  lemma {:induction false} ChangesInOrder(t: StoreData, active: StoreData, ignore: seq<string>, names: seq<string>)
    ensures forall i :: 0 <= i <= |names| ==> Changes(t, active, ignore, names[..i]).order <= Changes(t, active, ignore, names).order
    decreases |names|
  {
    if names != [] {
      var init := names[..|names| - 1];
      ChangesInOrder(t, active, ignore, init);
      assert Changes(t, active, ignore, init).order <= Changes(t, active, ignore, names).order;
      forall i | 0 <= i <= |names|
        ensures Changes(t, active, ignore, names[..i]).order <= Changes(t, active, ignore, names).order
      {
        if i == |names| {
          assert names[..i] == names;
        } else {
          assert init[..i] == names[..i];
        }
      }
    }
  }

  /** Every UUID to replace is a filled UUID, so it is never the empty search string. */
  predicate Searchable(m: UuidMap) {
    && (forall x :: x in m.order ==> x in m.current)
    && (forall i :: 0 <= i < |m.order| ==> m.order[i] != [])
  }

  /** The replacement list is empty exactly when the first pass replaced nothing. */
  lemma {:induction false} ChangesEmpty(t: StoreData, active: StoreData, ignore: seq<string>, names: seq<string>)
    ensures Changes(t, active, ignore, names).order == [] <==> forall i :: 0 <= i < |names| ==> !Replaced(t, active, ignore, names[i])
    decreases |names|
  {
    if names != [] {
      var init := names[..|names| - 1];
      ChangesEmpty(t, active, ignore, init);
      assert forall i :: 0 <= i < |names| - 1 ==> names[i] == init[i];
    }
  }

  /** The UUID of every replaced entry is a key of the replacement list. */
  lemma {:induction false} ChangesKeys(t: StoreData, active: StoreData, ignore: seq<string>, names: seq<string>)
    ensures forall i :: 0 <= i < |names| && Replaced(t, active, ignore, names[i]) ==>
      t[Key(Default, names[i])].uuid.value in Changes(t, active, ignore, names).current
    decreases |names|
  {
    if names != [] {
      var init := names[..|names| - 1];
      ChangesKeys(t, active, ignore, init);
      assert forall i :: 0 <= i < |names| - 1 ==> names[i] == init[i];
    }
  }

  /** Every key of the replacement list is the UUID of a replaced entry, mapped to that entry's active UUID. */
  lemma {:induction false} ChangesValues(t: StoreData, active: StoreData, ignore: seq<string>, names: seq<string>, x: string)
    requires x in Changes(t, active, ignore, names).current
    ensures exists i :: && 0 <= i < |names| && Replaced(t, active, ignore, names[i]) && t[Key(Default, names[i])].uuid.value == x
                        && Changes(t, active, ignore, names).current[x] == active[Key(Default, names[i])].uuid.value
    decreases |names|
  {
    var init := names[..|names| - 1];
    var n := names[|names| - 1];
    var last := |names| - 1;
    if Replaced(t, active, ignore, n) && t[Key(Default, n)].uuid.value == x {
      assert names[last] == n;
    } else {
      ChangesValues(t, active, ignore, init, x);
      var i :| && 0 <= i < |init| && Replaced(t, active, ignore, init[i]) && t[Key(Default, init[i])].uuid.value == x
               && Changes(t, active, ignore, init).current[x] == active[Key(Default, init[i])].uuid.value;
      assert names[i] == init[i];
    }
  }

  /** Every key of the replacement list is a non-empty search string. */
  lemma {:induction false} ChangesSearchable(t: StoreData, active: StoreData, ignore: seq<string>, names: seq<string>)
    ensures Searchable(Changes(t, active, ignore, names))
    decreases |names|
  {
    if names != [] {
      ChangesSearchable(t, active, ignore, names[..|names| - 1]);
    }
  }

  // ----- The second pass: rewriting every mention of a replaced UUID -----

  /** The subject after `str_replace` of every pair in turn. */
  function ReplaceChain(raw: string, keys: seq<string>, current: map<string, string>): string
    requires Searchable(UuidMap(keys, current))
    decreases |keys|
  {
    if keys == [] then raw
    else ReplaceChain(ReplaceAll(raw, keys[0], current[keys[0]]), keys[1..], current)
  }

  /** `$sum_count`: the replacements `str_replace` reports, summed over the keys. */
  function CountChain(raw: string, keys: seq<string>, current: map<string, string>): nat
    requires Searchable(UuidMap(keys, current))
    decreases |keys|
  {
    if keys == [] then 0
    else
      CountOccurrences(raw, keys[0]) + CountChain(ReplaceAll(raw, keys[0], current[keys[0]]), keys[1..], current)
  }

  /**
   * The replacements sum to zero exactly when no UUID to replace occurs in the
   * encoded entry, and then the chain changes nothing.
   */
  lemma {:induction false} CountChainZero(raw: string, keys: seq<string>, current: map<string, string>)
    requires Searchable(UuidMap(keys, current))
    ensures CountChain(raw, keys, current) == 0 <==> forall i :: 0 <= i < |keys| ==> !Contains(raw, keys[i])
    ensures CountChain(raw, keys, current) == 0 ==> ReplaceChain(raw, keys, current) == raw
    decreases |keys|
  {
    if keys != [] {
      var k := keys[0];
      CountZeroIff(raw, k);
      if CountOccurrences(raw, k) == 0 {
        NoCountNoChange(raw, k, current[k]);
        CountChainZero(raw, keys[1..], current);
        forall i | 0 < i < |keys| ensures keys[i] == keys[1..][i - 1] { }
      }
    }
  }

  /**
   * The inner loop of the second pass: every pair is applied in turn to the
   * encoded entry and the replacements are counted.
   */
  method ReplaceUuids(raw: string, uuids: UuidMap) returns (out: string, sum: nat)
    requires Searchable(uuids)
    ensures out == ReplaceChain(raw, uuids.order, uuids.current)
    ensures sum == CountChain(raw, uuids.order, uuids.current)
  {
    var keys := uuids.order;
    out := raw;
    sum := 0;
    for i := 0 to |keys|
      invariant ReplaceChain(raw, keys, uuids.current) == ReplaceChain(out, keys[i..], uuids.current)
      invariant CountChain(raw, keys, uuids.current) == sum + CountChain(out, keys[i..], uuids.current)
    {
      assert keys[i..][0] == keys[i] && keys[i..][1..] == keys[i + 1..];
      var count := CountOccurrences(out, keys[i]);
      out := ReplaceAll(out, keys[i], uuids.current[keys[i]]);
      sum := sum + count;
    }
    assert keys[|keys|..] == [];
  }

  /** What the second pass makes of one entry: rewritten through the storage's encoding when some UUID was found in it. */
  function RewriteEntry(p: Payload, uuids: UuidMap, encode: Payload -> string, decode: string -> Payload): Payload
    requires Searchable(uuids)
  {
    var raw := encode(p);
    if CountChain(raw, uuids.order, uuids.current) > 0 then decode(ReplaceChain(raw, uuids.order, uuids.current)) else p
  }

  /** The import after the second pass over the names in `done`. */
  function RewrittenUpTo(t: StoreData, uuids: UuidMap, encode: Payload -> string, decode: string -> Payload,
                         done: set<string>): StoreData
    requires Searchable(uuids)
  {
    map k | k in t :: if k.collection == Default && k.name in done then RewriteEntry(t[k], uuids, encode, decode) else t[k]
  }

  /** The import after the second pass. */
  function Rewritten(t: StoreData, uuids: UuidMap, encode: Payload -> string, decode: string -> Payload): (r: StoreData)
    requires Searchable(uuids)
    ensures r.Keys == t.Keys
    ensures forall k :: k in t && k.collection != Default ==> r[k] == t[k]
    ensures forall k :: k in t && k.collection == Default && CountChain(encode(t[k]), uuids.order, uuids.current) == 0 ==> r[k] == t[k]
    ensures forall k :: k in t && k.collection == Default && CountChain(encode(t[k]), uuids.order, uuids.current) > 0 ==>
      r[k] == decode(ReplaceChain(encode(t[k]), uuids.order, uuids.current))
  {
    map k | k in t :: if k.collection == Default then RewriteEntry(t[k], uuids, encode, decode) else t[k]
  }

  /** With nothing to replace the second pass would change nothing, so skipping it is only a shortcut. */
  lemma NothingToRewrite(t: StoreData, encode: Payload -> string, decode: string -> Payload)
    ensures Rewritten(t, UuidMap([], map[]), encode, decode) == t
  {
  }

  /**
   * An entry is rewritten exactly when its encoded form mentions one of the
   * UUIDs to replace; an entry that mentions none keeps its content.
   */
  lemma RewriteOnlyMentions(t: StoreData, uuids: UuidMap, encode: Payload -> string, decode: string -> Payload, k: Key)
    requires Searchable(uuids)
    requires k in t && forall i :: 0 <= i < |uuids.order| ==> !Contains(encode(t[k]), uuids.order[i])
    ensures Rewritten(t, uuids, encode, decode)[k] == t[k]
  {
    CountChainZero(encode(t[k]), uuids.order, uuids.current);
  }

  /** The whole transformation, for the listing order `names` of the import's default collection. */
  function ImportTransformed(t: StoreData, active: StoreData, ignore: seq<string>, names: seq<string>,
                             encode: Payload -> string, decode: string -> Payload): (r: StoreData)
    ensures r.Keys == t.Keys
    ensures forall k :: k in t && k.collection != Default ==> r[k] == t[k]
    ensures (forall n :: !Replaced(t, active, ignore, n)) ==> r == t
  {
    ChangesSearchable(t, active, ignore, names);
    ChangesEmpty(t, active, ignore, names);
    var uuids := Changes(t, active, ignore, names);
    var adopted := Adopted(t, active, ignore);
    if uuids.order == [] then adopted else Rewritten(adopted, uuids, encode, decode)
  }

  // ----- The chain of replacements -----

  /** An encoding that writes out the UUID alone, and the decoding that reads it back. */
  function UuidText(p: Payload): string {
    if p.uuid.Some? then p.uuid.value else ""
  }

  function FromUuidText(s: string): Payload {
    Payload(Some(s), None, "")
  }

  /**
   * The second pass applies the pairs one after the other to the same text,
   * so a UUID written by one pair is searched for by a later one. Importing
   * `a` with UUID x and `b` with UUID y onto a site where `a` has y and `b`
   * has z, `a` adopts y in the first pass, and the second pass turns it into
   * z: `a` ends with the UUID the site uses for `b`.
   */
  lemma ChainUndoesAdoption()
    ensures var t := map[Key(Default, "a") := Payload(Some("x"), None, ""), Key(Default, "b") := Payload(Some("y"), None, "")];
            var active := map[Key(Default, "a") := Payload(Some("y"), None, ""), Key(Default, "b") := Payload(Some("z"), None, "")];
            && Adopted(t, active, ["*"])[Key(Default, "a")].uuid == Some("y")
            && ImportTransformed(t, active, ["*"], ["a", "b"], UuidText, FromUuidText)[Key(Default, "a")].uuid == Some("z")
  {
    var t := map[Key(Default, "a") := Payload(Some("x"), None, ""), Key(Default, "b") := Payload(Some("y"), None, "")];
    var active := map[Key(Default, "a") := Payload(Some("y"), None, ""), Key(Default, "b") := Payload(Some("z"), None, "")];
    EverythingIgnored("a");
    EverythingIgnored("b");
    assert Replaced(t, active, ["*"], "a") && Replaced(t, active, ["*"], "b");
    var uuids := Changes(t, active, ["*"], ["a", "b"]);
    ChangesOfTwo(t, active, ["*"], "a", "b");
    ChainOfTwo();
    var adopted := Adopted(t, active, ["*"]);
    assert adopted[Key(Default, "a")] == Payload(Some("y"), None, "");
    assert UuidText(adopted[Key(Default, "a")]) == "y";
  }

  /** The setting `*` ignores every single-character name. */
  lemma EverythingIgnored(n: string)
    requires |n| == 1 && n[0] != '\n'
    ensures MatchConfigName(n, ["*"])
  {
    SettingWithoutKeys("*");
    assert "*"[1..] == [] && n[1..] == [];
    assert GlobMatch("*", n);
    assert ["*"][0] == "*";
  }

  /** Two replaced names walked in order give two pairs, in that order. */
  lemma ChangesOfTwo(t: StoreData, active: StoreData, ignore: seq<string>, a: string, b: string)
    requires Replaced(t, active, ignore, a) && Replaced(t, active, ignore, b)
    requires t[Key(Default, a)].uuid != t[Key(Default, b)].uuid
    ensures Changes(t, active, ignore, [a, b]) ==
      UuidMap([t[Key(Default, a)].uuid.value, t[Key(Default, b)].uuid.value],
              map[t[Key(Default, a)].uuid.value := active[Key(Default, a)].uuid.value,
                  t[Key(Default, b)].uuid.value := active[Key(Default, b)].uuid.value])
  {
    assert [a, b][..1] == [a] && [a][..0] == [];
    assert Changes(t, active, ignore, []) == UuidMap([], map[]);
  }

  /** The text "y" under the pairs x to y, then y to z, becomes "z" with one replacement counted. */
  lemma ChainOfTwo()
    ensures ReplaceChain("y", ["x", "y"], map["x" := "y", "y" := "z"]) == "z"
    ensures CountChain("y", ["x", "y"], map["x" := "y", "y" := "z"]) == 1
  {
    assert "y"[..1] == "y" && "y"[1..] == [];
    assert ReplaceAll("y", "x", "y") == "y";
    assert ReplaceAll("y", "y", "z") == "z";
    assert CountOccurrences("y", "x") == 0;
    assert CountOccurrences("y", "y") == 1;
    assert ["x", "y"][1..] == ["y"] && ["y"][1..] == [];
  }

  // ----- The event handler -----

  lemma AdoptStart(t: StoreData, active: StoreData, ignore: seq<string>)
    ensures AdoptedUpTo(t, active, ignore, {}) == t
  {
  }

  lemma AdoptOneMore(t: StoreData, active: StoreData, ignore: seq<string>, done: set<string>, n: string)
    requires n !in done
    ensures Lookup(AdoptedUpTo(t, active, ignore, done), Default, n) == Lookup(t, Default, n)
    ensures Replaced(t, active, ignore, n) ==>
      AdoptedUpTo(t, active, ignore, done)[Key(Default, n) := t[Key(Default, n)].(uuid := active[Key(Default, n)].uuid)]
        == AdoptedUpTo(t, active, ignore, done + {n})
    ensures !Replaced(t, active, ignore, n) ==> AdoptedUpTo(t, active, ignore, done) == AdoptedUpTo(t, active, ignore, done + {n})
  {
  }

  lemma AdoptComplete(t: StoreData, active: StoreData, ignore: seq<string>, done: set<string>)
    requires Names(t, Default) <= done
    ensures AdoptedUpTo(t, active, ignore, done) == Adopted(t, active, ignore)
  {
  }

  lemma RewriteStart(t: StoreData, uuids: UuidMap, encode: Payload -> string, decode: string -> Payload)
    requires Searchable(uuids)
    ensures RewrittenUpTo(t, uuids, encode, decode, {}) == t
  {
  }

  lemma RewriteOneMore(t: StoreData, uuids: UuidMap, encode: Payload -> string, decode: string -> Payload,
                       done: set<string>, n: string)
    requires Searchable(uuids)
    requires n !in done && Key(Default, n) in t
    ensures Lookup(RewrittenUpTo(t, uuids, encode, decode, done), Default, n) == Some(t[Key(Default, n)])
    ensures RewrittenUpTo(t, uuids, encode, decode, done)[Key(Default, n) := RewriteEntry(t[Key(Default, n)], uuids, encode, decode)]
      == RewrittenUpTo(t, uuids, encode, decode, done + {n})
    ensures RewriteEntry(t[Key(Default, n)], uuids, encode, decode) == t[Key(Default, n)] ==>
      RewrittenUpTo(t, uuids, encode, decode, done) == RewrittenUpTo(t, uuids, encode, decode, done + {n})
  {
  }

  lemma RewriteComplete(t: StoreData, uuids: UuidMap, encode: Payload -> string, decode: string -> Payload, done: set<string>)
    requires Searchable(uuids)
    requires Names(t, Default) <= done
    ensures RewrittenUpTo(t, uuids, encode, decode, done) == Rewritten(t, uuids, encode, decode)
  {
  }

  /**
   * `onImportTransform($event)` on the import's storage: afterwards the
   * storage holds the transformation of what it held, for the order in which
   * its default collection was listed (returned as `names`).
   */
  method OnImportTransform(ignore: seq<string>, active: StoreData, encode: Payload -> string, decode: string -> Payload,
                           storage: Storage)
    returns (ghost names: seq<string>)
    modifies storage
    ensures forall x :: x in names <==> Key(Default, x) in old(storage.data)
    ensures storage.data == ImportTransformed(old(storage.data), active, ignore, names, encode, decode)
  {
    ghost var t0 := storage.data;
    var configNames := storage.ListAll(Default);
    names := configNames;
    ChangesSearchable(t0, active, ignore, configNames);
    var uuids := AdoptUuids(configNames, ignore, active, storage);
    if uuids.order != [] {
      RewriteMentions(configNames, uuids, encode, decode, storage);
    }
  }

  /** The first loop of `onImportTransform`. */
  method AdoptUuids(configNames: seq<string>, ignore: seq<string>, active: StoreData, storage: Storage)
    returns (uuids: UuidMap)
    requires forall i, j :: 0 <= i < j < |configNames| ==> configNames[i] != configNames[j]
    requires forall x :: x in configNames <==> Key(Default, x) in storage.data
    modifies storage
    ensures uuids == Changes(old(storage.data), active, ignore, configNames)
    ensures storage.data == Adopted(old(storage.data), active, ignore)
  {
    ghost var t0 := storage.data;
    ghost var done: set<string> := {};
    AdoptStart(t0, active, ignore);
    uuids := UuidMap([], map[]);
    for i := 0 to |configNames|
      invariant done == SetOf(configNames[..i])
      invariant uuids == Changes(t0, active, ignore, configNames[..i])
      invariant storage.data == AdoptedUpTo(t0, active, ignore, done)
    {
      var name := configNames[i];
      PrefixGrows(configNames, i);
      AdoptOneMore(t0, active, ignore, done, name);
      assert configNames[..i + 1][..i] == configNames[..i];
      if MatchConfigName(name, ignore) {
        var data := storage.Read(Default, name);
        var activeData := Lookup(active, Default, name);
        if data.Some? && activeData.Some? && Filled(data.value.uuid) && Filled(activeData.value.uuid)
          && data.value.uuid != activeData.value.uuid {
          uuids := Put(uuids, data.value.uuid.value, activeData.value.uuid.value);
          storage.Write(Default, name, data.value.(uuid := activeData.value.uuid));
        }
      }
      done := done + {name};
    }
    assert configNames[..|configNames|] == configNames;
    AdoptComplete(t0, active, ignore, done);
  }

  /** The second loop of `onImportTransform`. */
  method RewriteMentions(configNames: seq<string>, uuids: UuidMap, encode: Payload -> string, decode: string -> Payload,
                         storage: Storage)
    requires Searchable(uuids)
    requires forall i, j :: 0 <= i < j < |configNames| ==> configNames[i] != configNames[j]
    requires forall x :: x in configNames <==> Key(Default, x) in storage.data
    modifies storage
    ensures storage.data == Rewritten(old(storage.data), uuids, encode, decode)
  {
    ghost var t1 := storage.data;
    ghost var done: set<string> := {};
    RewriteStart(t1, uuids, encode, decode);
    for i := 0 to |configNames|
      invariant done == SetOf(configNames[..i])
      invariant storage.data == RewrittenUpTo(t1, uuids, encode, decode, done)
    {
      var name := configNames[i];
      PrefixGrows(configNames, i);
      RewriteOneMore(t1, uuids, encode, decode, done, name);
      var data := storage.Read(Default, name);
      var rawData := encode(data.value);
      var replaced, sumCount := ReplaceUuids(rawData, uuids);
      if sumCount > 0 {
        storage.Write(Default, name, decode(replaced));
      }
      done := done + {name};
    }
    assert Names(t1, Default) <= done by {
      assert configNames[..|configNames|] == configNames;
    }
    RewriteComplete(t1, uuids, encode, decode, done);
  }
}
