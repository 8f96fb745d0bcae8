/**
 * The configuration store contract the engine is written against: entries
 * addressed by name inside collections, the default collection being the
 * empty name.  A store's contents are a map from (collection, name) to the
 * entry; a collection exists exactly when it holds an entry, which is how
 * `getAllCollectionNames` sees collections.
 */
module Stores {
  import opened PhpText

  /** `StorageInterface::DEFAULT_COLLECTION`. */
  const Default: string := ""

  /**
   * One configuration entry: the `uuid` key (absent or null is None), the
   * `status` key (absent or null is None), and the rest of the data, opaque.
   */
  datatype Payload = Payload(uuid: Option<string>, status: Option<bool>, body: string)

  datatype Key = Key(collection: string, name: string)

  type StoreData = map<Key, Payload>

  /** `createCollection($c)->read($name)`: FALSE is None. */
  function Lookup(s: StoreData, c: string, name: string): Option<Payload> {
    if Key(c, name) in s then Some(s[Key(c, name)]) else None
  }

  /** The names `createCollection($c)->listAll()` returns. */
  function Names(s: StoreData, c: string): (r: set<string>)
    ensures forall n :: n in r <==> Key(c, n) in s
  {
    set k | k in s && k.collection == c :: k.name
  }

  /** The names `getAllCollectionNames()` returns: every collection holding an entry, but the default one. */
  function Collections(s: StoreData): (r: set<string>)
    ensures forall c :: c in r ==> c != Default
    ensures forall c, n :: Key(c, n) in s && c != Default ==> c in r
  {
    var r := set k | k in s && k.collection != Default :: k.collection;
    assert forall c, n :: Key(c, n) in s && c != Default ==> c in r by {
      forall c, n | Key(c, n) in s && c != Default ensures c in r {
        assert Key(c, n).collection == c;
      }
    }
    r
  }

  /** Lists a finite set of names in some order, each once (the order `listAll` gives is unspecified). */
  method Enumerate(xs: set<string>) returns (names: seq<string>)
    ensures forall i, j :: 0 <= i < j < |names| ==> names[i] != names[j]
    ensures forall x :: x in names <==> x in xs
  {
    names := [];
    var rest := xs;
    while rest != {}
      invariant forall i, j :: 0 <= i < j < |names| ==> names[i] != names[j]
      invariant forall x :: x in names ==> x in xs && x !in rest
      invariant forall x :: x in xs ==> x in names || x in rest
      invariant rest <= xs
      decreases |rest|
    {
      var x :| x in rest;
      names := names + [x];
      rest := rest - {x};
    }
  }

  /** The members of a list. */
  function SetOf(s: seq<string>): (r: set<string>)
    ensures forall x :: x in r <==> x in s
  {
    set x | x in s
  }

  /** Walking a list of distinct names one step further adds a name not seen before. */
  lemma PrefixGrows(cs: seq<string>, i: nat)
    requires i < |cs|
    requires forall a, b :: 0 <= a < b < |cs| ==> cs[a] != cs[b]
    ensures cs[i] !in SetOf(cs[..i])
    ensures SetOf(cs[..i]) + {cs[i]} == SetOf(cs[..i + 1])
  {
    assert cs[..i + 1] == cs[..i] + [cs[i]];
  }

  /**
   * A store the engine changes in place (a transforming store, a feature's
   * preview or permanent store).
   */
  class Storage {
    var data: StoreData

    /** A `MemoryStorage` filled with `contents` (`replaceStorageContents` into a new store). */
    constructor (contents: StoreData)
      ensures data == contents
    {
      data := contents;
    }

    function Read(c: string, name: string): Option<Payload>
      reads this
    {
      Lookup(data, c, name)
    }

    /** `write($name, $data)` on collection `c`: the entry is set, nothing else changes. */
    method Write(c: string, name: string, p: Payload)
      modifies this
      ensures data == old(data)[Key(c, name) := p]
    {
      data := data[Key(c, name) := p];
    }

    /** `delete($name)` on collection `c`. */
    method Delete(c: string, name: string)
      modifies this
      ensures data == old(data) - {Key(c, name)}
    {
      data := data - {Key(c, name)};
    }

    /** `createCollection($c)->deleteAll()`: collection `c` is emptied, the others are kept. */
    method DeleteAll(c: string)
      modifies this
      ensures data == map k | k in old(data) && k.collection != c :: old(data)[k]
    {
      data := map k | k in data && k.collection != c :: data[k];
    }

    /** `replaceStorageContents($source, $this)`: afterwards this store holds exactly the source. */
    method ReplaceContents(source: StoreData)
      modifies this
      ensures data == source
    {
      data := source;
    }

    /** `createCollection($c)->listAll()`. */
    method ListAll(c: string) returns (names: seq<string>)
      ensures forall i, j :: 0 <= i < j < |names| ==> names[i] != names[j]
      ensures forall x :: x in names <==> Key(c, x) in data
    {
      names := Enumerate(Names(data, c));
    }

    /** `getAllCollectionNames()`. */
    method GetAllCollectionNames() returns (cs: seq<string>)
      ensures forall i, j :: 0 <= i < j < |cs| ==> cs[i] != cs[j]
      ensures forall x :: x in cs <==> x in Collections(data)
    {
      cs := Enumerate(Collections(data));
    }
  }
}
