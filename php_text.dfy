/**
 * The PHP string primitives the configuration-feature engine relies on,
 * written out with PHP's own semantics: truthiness, `strpos`, `rtrim`,
 * `strtolower`, `explode`, `implode` and `str_replace`.
 */
module PhpText {

  datatype Option<+T> = None | Some(value: T)

  /** PHP truthiness of a string: "" and "0" are falsy, everything else is truthy. */
  predicate Truthy(s: string) {
    s != "" && s != "0"
  }

  /** `strpos($s, $prefix) === 0`. */
  predicate StartsWith(s: string, prefix: string) {
    |prefix| <= |s| && s[..|prefix|] == prefix
  }

  /** `strpos($s, $t) !== FALSE`, scanning from the left as strpos does. */
  predicate Contains(s: string, t: string)
    ensures Contains(s, t) ==> |t| <= |s|
    ensures StartsWith(s, t) ==> Contains(s, t)
    ensures t == [] ==> Contains(s, t)
    decreases |s|
  {
    if |s| < |t| then false
    else s[..|t|] == t || (s != [] && Contains(s[1..], t))
  }

  /** The reference reading of Contains: some window of `s` equals `t`. */
  predicate OccursAt(s: string, t: string, i: int) {
    0 <= i && i + |t| <= |s| && s[i..i + |t|] == t
  }

  lemma {:induction false} ContainsIff(s: string, t: string)
    ensures Contains(s, t) <==> exists i :: OccursAt(s, t, i)
    decreases |s|
  {
    if |s| < |t| {
    } else if s[..|t|] == t {
      assert OccursAt(s, t, 0);
    } else {
      assert s != [];
      ContainsIff(s[1..], t);
      if Contains(s[1..], t) {
        var i :| OccursAt(s[1..], t, i);
        assert s[i + 1..i + 1 + |t|] == s[1..][i..i + |t|];
        assert OccursAt(s, t, i + 1);
      }
      if exists i :: OccursAt(s, t, i) {
        var i :| OccursAt(s, t, i);
        assert i != 0;
        assert s[1..][i - 1..i - 1 + |t|] == s[i..i + |t|];
        assert OccursAt(s[1..], t, i - 1);
      }
    }
  }

  /** Any string placed between two others is found by Contains. */
  lemma ContainsInfix(a: string, t: string, b: string)
    ensures Contains(a + t + b, t)
  {
    var s := a + t + b;
    assert s[|a|..|a| + |t|] == t;
    assert OccursAt(s, t, |a|);
    ContainsIff(s, t);
  }

  /** `rtrim($s, $c)` for a single character: every trailing `c` is removed. */
  function RTrim(s: string, c: char): (r: string)
    ensures r <= s
    ensures r == [] || r[|r| - 1] != c
    ensures forall i :: |r| <= i < |s| ==> s[i] == c
    decreases |s|
  {
    if s != [] && s[|s| - 1] == c then RTrim(s[..|s| - 1], c) else s
  }

  /** `strtolower` on one character (ASCII only, as in PHP 8). */
  function LowerChar(ch: char): char {
    if 'A' <= ch <= 'Z' then (ch as int + 32) as char else ch
  }

  /** `strtolower($s)`. */
  function ToLower(s: string): (r: string)
    ensures |r| == |s|
    ensures forall i :: 0 <= i < |s| ==> r[i] == LowerChar(s[i])
  {
    seq(|s|, i requires 0 <= i < |s| => LowerChar(s[i]))
  }

  /**
   * `explode($sep, $s)`: the pieces of `s` between the occurrences of `sep`,
   * found left to right without overlap. There is always at least one piece,
   * and the first piece is a prefix of `s`.
   */
  function Explode(s: string, sep: string): (pieces: seq<string>)
    requires sep != []
    ensures |pieces| >= 1
    ensures pieces[0] <= s
    decreases |s|
  {
    if |s| < |sep| then [s]
    else if s[..|sep|] == sep then [""] + Explode(s[|sep|..], sep)
    else
      var rest := Explode(s[1..], sep);
      [[s[0]] + rest[0]] + rest[1..]
  }

  /** `implode($glue, $pieces)`: the text starts with the first piece, followed by the glue when more pieces come. */
  function Implode(pieces: seq<string>, glue: string): (r: string)
    requires |pieces| >= 1
    ensures pieces[0] <= r
    ensures |pieces| > 1 ==> pieces[0] + glue <= r
    decreases |pieces|
  {
    if |pieces| == 1 then pieces[0] else pieces[0] + glue + Implode(pieces[1..], glue)
  }

  /** Gluing the pieces of `explode` back with the separator gives the input back. */
  lemma {:induction false} ImplodeExplode(s: string, sep: string)
    requires sep != []
    ensures Implode(Explode(s, sep), sep) == s
    decreases |s|
  {
    if |s| < |sep| {
    } else if s[..|sep|] == sep {
      var rest := Explode(s[|sep|..], sep);
      ImplodeExplode(s[|sep|..], sep);
      assert Explode(s, sep) == [""] + rest;
      assert ([""] + rest)[1..] == rest;
      calc {
        Implode([""] + rest, sep);
        "" + sep + Implode(rest, sep);
        sep + s[|sep|..];
        { assert s == s[..|sep|] + s[|sep|..]; }
        s;
      }
    } else {
      var rest := Explode(s[1..], sep);
      ImplodeExplode(s[1..], sep);
      ImplodeConsFirst([s[0]], rest, sep);
      assert s == [s[0]] + s[1..];
    }
  }

  /** Prepending text to the first piece prepends it to the imploded string. */
  lemma ImplodeConsFirst(x: string, pieces: seq<string>, glue: string)
    requires |pieces| >= 1
    ensures Implode([x + pieces[0]] + pieces[1..], glue) == x + Implode(pieces, glue)
  {
    var p := [x + pieces[0]] + pieces[1..];
    if |pieces| > 1 {
      assert p[1..] == pieces[1..];
    }
  }

  /** No piece produced by `explode` contains the separator: every occurrence was cut. */
  lemma {:induction false} ExplodePiecesFree(s: string, sep: string)
    requires sep != []
    ensures forall i :: 0 <= i < |Explode(s, sep)| ==> !Contains(Explode(s, sep)[i], sep)
    decreases |s|
  {
    var pieces := Explode(s, sep);
    if |s| < |sep| {
      NotContainsShort(s, sep);
    } else if s[..|sep|] == sep {
      var rest := Explode(s[|sep|..], sep);
      ExplodePiecesFree(s[|sep|..], sep);
      NotContainsShort("", sep);
      forall i | 0 <= i < |pieces| ensures !Contains(pieces[i], sep) {
        if i > 0 { assert pieces[i] == rest[i - 1]; }
      }
    } else {
      var rest := Explode(s[1..], sep);
      ExplodePiecesFree(s[1..], sep);
      var first := [s[0]] + rest[0];
      assert first <= s;
      assert first[1..] == rest[0];
      if |first| >= |sep| {
        assert first[..|sep|] == s[..|sep|];
      }
      assert !Contains(first, sep);
      forall i | 0 <= i < |pieces| ensures !Contains(pieces[i], sep) {
        if i > 0 { assert pieces[i] == rest[i]; }
      }
    }
  }

  lemma NotContainsShort(s: string, t: string)
    requires |s| < |t|
    ensures !Contains(s, t)
  {
  }

  /**
   * `str_replace($pat, $rep, $s)` for one non-empty search string: occurrences
   * are found left to right without overlap and each is replaced.
   */
  function ReplaceAll(s: string, pat: string, rep: string): (r: string)
    requires pat != []
    ensures !Contains(s, pat) ==> r == s
    ensures rep == pat ==> r == s
    ensures |rep| == |pat| ==> |r| == |s|
    decreases |s|
  {
    if |s| < |pat| then s
    else if s[..|pat|] == pat then
      assert s == s[..|pat|] + s[|pat|..];
      rep + ReplaceAll(s[|pat|..], pat, rep)
    else
      assert s == [s[0]] + s[1..];
      [s[0]] + ReplaceAll(s[1..], pat, rep)
  }

  /** The `$count` that `str_replace` reports: how many occurrences it replaced. */
  function CountOccurrences(s: string, pat: string): nat
    requires pat != []
    decreases |s|
  {
    if |s| < |pat| then 0
    else if s[..|pat|] == pat then 1 + CountOccurrences(s[|pat|..], pat)
    else CountOccurrences(s[1..], pat)
  }

  /**
   * `str_replace` cuts the subject at every occurrence (the pieces of
   * `explode`) and glues the pieces with the replacement; the count it
   * reports is the number of cuts.
   */
  lemma {:induction false} ReplaceAllIsImplode(s: string, pat: string, rep: string)
    requires pat != []
    ensures ReplaceAll(s, pat, rep) == Implode(Explode(s, pat), rep)
    ensures CountOccurrences(s, pat) == |Explode(s, pat)| - 1
    decreases |s|
  {
    if |s| < |pat| {
    } else if s[..|pat|] == pat {
      var rest := Explode(s[|pat|..], pat);
      ReplaceAllIsImplode(s[|pat|..], pat, rep);
      assert ReplaceAll(s, pat, rep) == rep + ReplaceAll(s[|pat|..], pat, rep);
      assert CountOccurrences(s, pat) == 1 + CountOccurrences(s[|pat|..], pat);
      assert Explode(s, pat) == [""] + rest;
      assert ([""] + rest)[1..] == rest;
      assert Implode([""] + rest, rep) == "" + rep + Implode(rest, rep);
    } else {
      var rest := Explode(s[1..], pat);
      ReplaceAllIsImplode(s[1..], pat, rep);
      assert ReplaceAll(s, pat, rep) == [s[0]] + ReplaceAll(s[1..], pat, rep);
      assert CountOccurrences(s, pat) == CountOccurrences(s[1..], pat);
      assert Explode(s, pat) == [[s[0]] + rest[0]] + rest[1..];
      ImplodeConsFirst([s[0]], rest, rep);
    }
  }

  /** When `str_replace` reports no replacement, the subject is returned unchanged. */
  lemma NoCountNoChange(s: string, pat: string, rep: string)
    requires pat != []
    requires CountOccurrences(s, pat) == 0
    ensures ReplaceAll(s, pat, rep) == s
  {
    ReplaceAllIsImplode(s, pat, rep);
    ImplodeExplode(s, pat);
  }

  /** The count is zero exactly when the search string does not occur. */
  lemma {:induction false} CountZeroIff(s: string, pat: string)
    requires pat != []
    ensures CountOccurrences(s, pat) == 0 <==> !Contains(s, pat)
    decreases |s|
  {
    if |s| < |pat| {
    } else if s[..|pat|] == pat {
    } else {
      CountZeroIff(s[1..], pat);
    }
  }
}
