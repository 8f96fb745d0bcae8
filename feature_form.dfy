/**
 * The input handling of the feature edit form (`ConfigFeatureEntityForm`):
 * the free-text pattern lists are split into lines, lowercased and stripped
 * of every character a config name pattern cannot hold; the picker
 * selections are read; the two are combined into `configs_shared` and
 * `configs_excluded`; and a folder inside the sync directory is refused.
 */
module FeatureForm {
  import opened PhpText

  // ----- Cleaning free-text pattern lists -----

  /** The characters a pattern keeps: `[a-z0-9_.\-*]`. */
  predicate Allowed(c: char) {
    ('a' <= c <= 'z') || ('0' <= c <= '9') || c == '_' || c == '.' || c == '-' || c == '*'
  }

  /** `preg_replace('/[^a-z0-9_\.\-\*]+/', '', $s)`: every other character is removed. */
  function StripIllegal(s: string): (r: string)
    ensures forall i :: 0 <= i < |r| ==> Allowed(r[i])
    ensures |r| <= |s|
    ensures (forall i :: 0 <= i < |s| ==> Allowed(s[i])) ==> r == s
    ensures |s| == 1 ==> r == (if Allowed(s[0]) then s else [])
  {
    if s == [] then []
    else (if Allowed(s[0]) then [s[0]] else []) + StripIllegal(s[1..])
  }

  /** `array_filter` without a callback on a list of strings: the falsy entries ("" and "0") go, the others keep their order. */
  function KeepTruthy(s: seq<string>): (r: seq<string>)
    ensures forall i :: 0 <= i < |r| ==> Truthy(r[i])
    ensures forall x :: x in r <==> x in s && Truthy(x)
    ensures |r| <= |s|
  {
    if s == [] then []
    else
      assert s == [s[0]] + s[1..];
      (if Truthy(s[0]) then [s[0]] else []) + KeepTruthy(s[1..])
  }

  /** Filtering a concatenation filters each part in turn: the survivors keep their input order. */
  lemma {:induction false} KeepTruthyAppend(a: seq<string>, b: seq<string>)
    ensures KeepTruthy(a + b) == KeepTruthy(a) + KeepTruthy(b)
    decreases |a|
  {
    if a == [] {
      assert a + b == b;
    } else {
      var head := if Truthy(a[0]) then [a[0]] else [];
      assert (a + b)[0] == a[0] && (a + b)[1..] == a[1..] + b;
      KeepTruthyAppend(a[1..], b);
      calc {
        KeepTruthy(a + b);
        head + KeepTruthy(a[1..] + b);
        head + (KeepTruthy(a[1..]) + KeepTruthy(b));
        (head + KeepTruthy(a[1..])) + KeepTruthy(b);
        KeepTruthy(a) + KeepTruthy(b);
      }
    }
  }

  /** A list with nothing falsy in it passes the filter unchanged. */
  lemma {:induction false} KeepTruthyAll(s: seq<string>)
    requires forall i :: 0 <= i < |s| ==> Truthy(s[i])
    ensures KeepTruthy(s) == s
    decreases |s|
  {
    if s != [] {
      KeepTruthyAll(s[1..]);
      assert s == [s[0]] + s[1..];
    }
  }

  /** The text of one pattern after lowercasing and stripping. */
  function Sanitize(entry: string): string {
    StripIllegal(ToLower(entry))
  }

  /** Lowercasing comes first, so an uppercase letter of a name is kept as its lowercase form. */
  lemma UppercaseKept(entry: string)
    requires forall i :: 0 <= i < |entry| ==> Allowed(LowerChar(entry[i]))
    ensures Sanitize(entry) == ToLower(entry)
  {
  }

  lemma UppercaseLetter(c: char)
    requires 'A' <= c <= 'Z'
    ensures Sanitize([c]) == [LowerChar(c)]
  {
    assert Allowed(LowerChar(c));
    UppercaseKept([c]);
  }

  /** Stripping a concatenation strips each part. */
  lemma {:induction false} StripAppend(a: string, b: string)
    ensures StripIllegal(a + b) == StripIllegal(a) + StripIllegal(b)
    decreases |a|
  {
    if a == [] {
      assert a + b == b;
    } else {
      assert (a + b)[0] == a[0] && (a + b)[1..] == a[1..] + b;
      StripAppend(a[1..], b);
    }
  }

  /** A browser posts line breaks as CR LF: the carriage return left at the end of a line is stripped with the rest. */
  lemma CarriageReturnStripped(entry: string)
    ensures Sanitize(entry + "\r") == Sanitize(entry)
  {
    assert ToLower(entry + "\r") == ToLower(entry) + "\r";
    StripAppend(ToLower(entry), "\r");
    assert StripIllegal("\r") == [];
  }

  /** What `filterConfigNames` returns for the candidate entries. */
  function Cleaned(entries: seq<string>): (r: seq<string>)
    ensures forall i :: 0 <= i < |r| ==> Truthy(r[i]) && forall j :: 0 <= j < |r[i]| ==> Allowed(r[i][j])
  {
    KeepTruthy(seq(|entries|, i requires 0 <= i < |entries| => Sanitize(entries[i])))
  }

  /** The form value: a text of one pattern per line, or a list of patterns. */
  datatype TextInput = Lines(text: string) | Entries(items: seq<string>)

  /** The candidates: the lines of a text (split on every line feed), or the list as given. */
  function Candidates(input: TextInput): (r: seq<string>)
    ensures input.Lines? ==> forall i :: 0 <= i < |r| ==> !Contains(r[i], "\n")
    ensures input.Lines? ==> |r| >= 1 && Implode(r, "\n") == input.text
  {
    match input
    case Lines(text) =>
      ExplodePiecesFree(text, "\n");
      ImplodeExplode(text, "\n");
      Explode(text, "\n")
    case Entries(items) => items
  }

  /**
   * `filterConfigNames($text)`: the candidates are lowercased in place, then
   * stripped of illegal characters, and the entries left empty or "0" are dropped.
   */
  method FilterConfigNames(input: TextInput) returns (r: seq<string>)
    ensures r == Cleaned(Candidates(input))
    ensures forall i :: 0 <= i < |r| ==> Truthy(r[i]) && forall j :: 0 <= j < |r[i]| ==> Allowed(r[i][j])
  {
    var text := if input.Lines? then Explode(input.text, "\n") else input.items;
    assert text == Candidates(input);
    for i := 0 to |text|
      invariant |text| == |Candidates(input)|
      invariant forall j :: 0 <= j < i ==> text[j] == ToLower(Candidates(input)[j])
      invariant forall j :: i <= j < |text| ==> text[j] == Candidates(input)[j]
    {
      text := text[i := ToLower(text[i])];
    }
    var stripped := seq(|text|, i requires 0 <= i < |text| => StripIllegal(text[i]));
    ghost var entries := Candidates(input);
    assert stripped == seq(|entries|, i requires 0 <= i < |entries| => Sanitize(entries[i])) by {
      forall j | 0 <= j < |entries| ensures stripped[j] == Sanitize(entries[j]) {
        assert text[j] == ToLower(entries[j]);
      }
    }
    r := KeepTruthy(stripped);
  }

  // ----- The picker and the lists the form saves -----

  /** One element of a picker's form value: the config name and the value the widget posted for it. */
  datatype PickerEntry = PickerEntry(name: string, value: string)

  /**
   * `readValuesFromPicker($selection)`: a select list posts only what is
   * selected and is kept as it is; checkboxes post every option and only the
   * truthy ones are kept (an unchecked box posts 0, written "0" here).
   */
  function ReadValuesFromPicker(selection: seq<PickerEntry>, useSelectList: bool): (r: seq<PickerEntry>)
    ensures useSelectList ==> r == selection
    ensures !useSelectList ==> forall e :: e in r <==> e in selection && Truthy(e.value)
  {
    if useSelectList || selection == [] then selection
    else
      assert selection == [selection[0]] + selection[1..];
      (if Truthy(selection[0].value) then [selection[0]] else []) + ReadValuesFromPicker(selection[1..], false)
  }

  /** `array_keys`: the names, in order. */
  function PickerNames(selection: seq<PickerEntry>): (r: seq<string>)
    ensures |r| == |selection|
    ensures forall i :: 0 <= i < |r| ==> r[i] == selection[i].name
  {
    seq(|selection|, i requires 0 <= i < |selection| => selection[i].name)
  }

  /**
   * The list `submitForm` stores in `configs_shared` (and likewise in
   * `configs_excluded`): the names picked, then the cleaned free-text patterns.
   */
  method BuildConfigList(picker: seq<PickerEntry>, useSelectList: bool, text: TextInput) returns (r: seq<string>)
    ensures r == PickerNames(ReadValuesFromPicker(picker, useSelectList)) + Cleaned(Candidates(text))
    ensures forall e :: e in picker && (useSelectList || Truthy(e.value)) ==> e.name in r
  {
    var selection := ReadValuesFromPicker(picker, useSelectList);
    var names := FilterConfigNames(text);
    r := PickerNames(selection) + names;
    forall e | e in picker && (useSelectList || Truthy(e.value)) ensures e.name in r {
      var i :| 0 <= i < |selection| && selection[i] == e;
      assert r[i] == e.name;
    }
  }

  // ----- Validating the folder -----

  /** A path with its trailing slashes trimmed and one slash added. */
  function Padded(path: string): (r: string)
    ensures r != [] && r[|r| - 1] == '/'
  {
    RTrim(path, '/') + "/"
  }

  /**
   * `isConflicting($folder)`: the `strpos` scan finds the padded sync
   * directory in the padded folder, that is, it occurs at some position.
   */
  predicate IsConflicting(folder: string, sync: string)
    ensures IsConflicting(folder, sync) <==> exists i :: OccursAt(Padded(folder), Padded(sync), i)
  {
    ContainsIff(Padded(folder), Padded(sync));
    Contains(Padded(folder), Padded(sync))
  }

  /** `validateForm`: a conflicting folder is refused with an error on the folder field, any other is accepted. */
  function ValidateFolder(folder: string, sync: string): (error: Option<string>)
    ensures error.Some? <==> IsConflicting(folder, sync)
  {
    if IsConflicting(folder, sync) then Some("The features folder can not be in the sync folder.") else None
  }

  /** The sync directory itself conflicts, with or without trailing slashes. */
  lemma SyncConflicts(sync: string, slashes: string)
    requires forall i :: 0 <= i < |slashes| ==> slashes[i] == '/'
    ensures IsConflicting(sync + slashes, sync)
  {
    TrimSlashes(sync, slashes);
    assert Padded(sync + slashes) == Padded(sync);
    ContainsInfix("", Padded(sync), "");
    assert "" + Padded(sync) + "" == Padded(sync);
  }

  /** With no sync directory set, the needle is a lone slash and every folder conflicts. */
  lemma UnsetSyncConflicts(folder: string)
    ensures IsConflicting(folder, "")
  {
    assert RTrim("", '/') == "";
    assert Padded("") == "/";
    var trimmed := RTrim(folder, '/');
    ContainsInfix(trimmed, "/", "");
    assert trimmed + "/" + "" == Padded(folder);
  }

  /** Trailing slashes added to a path are trimmed away with the path's own. */
  lemma {:induction false} TrimSlashes(path: string, slashes: string)
    requires forall i :: 0 <= i < |slashes| ==> slashes[i] == '/'
    ensures RTrim(path + slashes, '/') == RTrim(path, '/')
    decreases |slashes|
  {
    if slashes == [] {
      assert path + slashes == path;
    } else {
      var shorter := slashes[..|slashes| - 1];
      assert (path + slashes)[..|path + slashes| - 1] == path + shorter;
      TrimSlashes(path, shorter);
    }
  }

  /** Every folder below the sync directory conflicts. */
  lemma SubfolderConflicts(sync: string, sub: string)
    requires sub != [] && sub[|sub| - 1] != '/'
    ensures IsConflicting(Padded(sync) + sub, sync)
  {
    var folder := Padded(sync) + sub;
    assert folder[|folder| - 1] == sub[|sub| - 1];
    assert Padded(folder) == folder + "/";
    ContainsInfix("", Padded(sync), sub + "/");
    assert "" + Padded(sync) + (sub + "/") == folder + "/";
  }
}
