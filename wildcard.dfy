/**
 * The wildcard rule shared by `ConfigFeaturesManager::inFilterList` and
 * `ConfigSubscriber::wildcardMatch`: the pattern is regex-quoted, every `*`
 * becomes `.*`, and the result is anchored with `^...$`.  Written directly
 * as a matcher: `*` matches any run of characters, every other character
 * matches itself.  Two PCRE details are kept: `.` does not match a line feed,
 * and `$` also matches just before a final line feed of the subject.
 */
module Wildcard {

  /** Anchored glob match of the whole of `s` against `pat`. */
  function GlobMatch(pat: string, s: string): bool
    decreases |pat| + |s|
  {
    if pat == [] then s == []
    else if pat[0] == '*' then
      GlobMatch(pat[1..], s) || (s != [] && s[0] != '\n' && GlobMatch(pat, s[1..]))
    else s != [] && s[0] == pat[0] && GlobMatch(pat[1..], s[1..])
  }

  /**
   * `preg_match('/^' . quoted . '$/', $s)` with `*` turned into `.*`. Every
   * glob match is a match, and on a name without line feeds the PCRE anchoring
   * adds nothing: the match is the glob match.
   */
  predicate WildcardMatch(pat: string, s: string)
    ensures GlobMatch(pat, s) ==> WildcardMatch(pat, s)
    ensures NoLineFeed(s) ==> (WildcardMatch(pat, s) <==> GlobMatch(pat, s))
  {
    GlobMatch(pat, s) || (s != [] && s[|s| - 1] == '\n' && GlobMatch(pat, s[..|s| - 1]))
  }

  /**
   * `inFilterList($name, $list)`: some pattern of the list matches the name.
   * An empty list matches nothing, and a name listed as it stands is matched.
   */
  predicate InFilterList(name: string, list: seq<string>)
    ensures list == [] ==> !InFilterList(name, list)
    ensures forall i :: 0 <= i < |list| && list[i] == name ==> InFilterList(name, list)
  {
    GlobSelf(name);
    exists i :: 0 <= i < |list| && WildcardMatch(list[i], name)
  }

  /** Every text glob-matches itself: a `*` in it can stand for the `*` character. */
  lemma {:induction false} GlobSelf(p: string)
    ensures GlobMatch(p, p)
    decreases |p|
  {
    if p != [] {
      GlobSelf(p[1..]);
      if p[0] == '*' {
        assert GlobMatch(p, p[1..]);
      }
    }
  }

  // ----- An independent reading of the rule: fill every `*` with a run -----

  function Stars(pat: string): nat {
    if pat == [] then 0 else (if pat[0] == '*' then 1 else 0) + Stars(pat[1..])
  }

  /** The text obtained by replacing the i-th `*` of `pat` with `fills[i]`. */
  function Instantiate(pat: string, fills: seq<string>): string
    requires |fills| == Stars(pat)
  {
    if pat == [] then []
    else if pat[0] == '*' then fills[0] + Instantiate(pat[1..], fills[1..])
    else [pat[0]] + Instantiate(pat[1..], fills)
  }

  predicate NoLineFeed(s: string) {
    forall i :: 0 <= i < |s| ==> s[i] != '\n'
  }

  predicate NoLineFeeds(fills: seq<string>) {
    forall k :: 0 <= k < |fills| ==> NoLineFeed(fills[k])
  }

  /** A star followed by `rest` matches any line-feed-free run followed by a match of `rest`. */
  lemma {:induction false} StarAbsorbs(rest: string, f: string, s: string)
    requires NoLineFeed(f)
    requires GlobMatch(rest, s)
    ensures GlobMatch(['*'] + rest, f + s)
    decreases |f|
  {
    var pat := ['*'] + rest;
    assert pat[1..] == rest;
    if f == [] {
      assert f + s == s;
    } else {
      StarAbsorbs(rest, f[1..], s);
      assert (f + s)[1..] == f[1..] + s;
    }
  }

  /** Every instantiation of the pattern is matched by it. */
  lemma {:induction false} GlobComplete(pat: string, fills: seq<string>)
    requires |fills| == Stars(pat)
    requires NoLineFeeds(fills)
    ensures GlobMatch(pat, Instantiate(pat, fills))
    decreases |pat|
  {
    if pat == [] {
    } else if pat[0] == '*' {
      assert NoLineFeeds(fills[1..]) by {
        forall k | 0 <= k < |fills[1..]| ensures NoLineFeed(fills[1..][k]) {
          assert fills[1..][k] == fills[k + 1];
        }
      }
      GlobComplete(pat[1..], fills[1..]);
      assert NoLineFeed(fills[0]);
      StarAbsorbs(pat[1..], fills[0], Instantiate(pat[1..], fills[1..]));
      assert ['*'] + pat[1..] == pat;
    } else {
      GlobComplete(pat[1..], fills);
      var s := Instantiate(pat, fills);
      assert s[1..] == Instantiate(pat[1..], fills);
    }
  }

  predicate IsFilling(pat: string, fills: seq<string>, s: string) {
    |fills| == Stars(pat) && NoLineFeeds(fills) && Instantiate(pat, fills) == s
  }

  /** Every match of the pattern is an instantiation of it. */
  lemma {:induction false} GlobSound(pat: string, s: string)
    requires GlobMatch(pat, s)
    ensures exists fills :: IsFilling(pat, fills, s)
    decreases |pat| + |s|
  {
    if pat == [] {
      assert IsFilling(pat, [], s);
    } else if pat[0] == '*' {
      if GlobMatch(pat[1..], s) {
        GlobSound(pat[1..], s);
        var fills :| IsFilling(pat[1..], fills, s);
        StarSkips(pat, fills, s);
      } else {
        GlobSound(pat, s[1..]);
        var fills :| IsFilling(pat, fills, s[1..]);
        StarEats(pat, fills, s);
      }
    } else {
      GlobSound(pat[1..], s[1..]);
      var fills :| IsFilling(pat[1..], fills, s[1..]);
      assert Instantiate(pat, fills) == [pat[0]] + s[1..];
      assert s == [s[0]] + s[1..];
      assert IsFilling(pat, fills, s);
    }
  }

  /** A leading star filled with the empty run. */
  lemma StarSkips(pat: string, fills: seq<string>, s: string)
    requires pat != [] && pat[0] == '*'
    requires IsFilling(pat[1..], fills, s)
    ensures IsFilling(pat, [""] + fills, s)
  {
    var all := [""] + fills;
    assert all[1..] == fills;
    forall k | 0 <= k < |all| ensures NoLineFeed(all[k]) {
      if k > 0 { assert all[k] == fills[k - 1]; }
    }
    assert Instantiate(pat, all) == "" + s;
  }

  /** A leading star whose run grows by the first character of the subject. */
  lemma StarEats(pat: string, fills: seq<string>, s: string)
    requires pat != [] && pat[0] == '*'
    requires s != [] && s[0] != '\n'
    requires IsFilling(pat, fills, s[1..])
    ensures IsFilling(pat, [[s[0]] + fills[0]] + fills[1..], s)
  {
    var all := [[s[0]] + fills[0]] + fills[1..];
    assert all[1..] == fills[1..];
    assert NoLineFeed(fills[0]);
    forall k | 0 <= k < |all| ensures NoLineFeed(all[k]) {
      if k > 0 {
        assert all[k] == fills[k];
      } else {
        forall j | 0 <= j < |all[0]| ensures all[0][j] != '\n' {
          if j > 0 { assert all[0][j] == fills[0][j - 1]; }
        }
      }
    }
    assert Instantiate(pat, fills) == fills[0] + Instantiate(pat[1..], fills[1..]);
    assert Instantiate(pat, all) == [s[0]] + fills[0] + Instantiate(pat[1..], fills[1..]);
    assert s == [s[0]] + s[1..];
  }

  /** A pattern without `*` glob-matches exactly itself. */
  lemma {:induction false} LiteralPattern(pat: string, s: string)
    requires Stars(pat) == 0
    ensures GlobMatch(pat, s) <==> s == pat
    decreases |pat|
  {
    if pat != [] {
      assert pat[0] != '*';
      if s != [] {
        LiteralPattern(pat[1..], s[1..]);
        if s == pat {
          assert s[1..] == pat[1..];
        }
        if GlobMatch(pat, s) {
          assert s == [s[0]] + s[1..];
          assert pat == [pat[0]] + pat[1..];
        }
      }
    }
  }

  /** A leading run of literal characters must be matched verbatim. */
  lemma {:induction false} LiteralPrefix(lit: string, rest: string, s: string)
    requires '*' !in lit
    ensures GlobMatch(lit + rest, s) <==> |lit| <= |s| && s[..|lit|] == lit && GlobMatch(rest, s[|lit|..])
    decreases |lit|
  {
    if lit == [] {
      assert lit + rest == rest;
    } else {
      var pat := lit + rest;
      assert pat[0] == lit[0] && pat[1..] == lit[1..] + rest;
      assert '*' !in lit[1..];
      if s != [] {
        LiteralPrefix(lit[1..], rest, s[1..]);
        if |lit| <= |s| {
          assert s[1..][|lit| - 1..] == s[|lit|..];
          assert s[..|lit|] == [s[0]] + s[1..][..|lit| - 1];
          assert lit == [lit[0]] + lit[1..];
        }
      }
    }
  }

  /** A lone star matches exactly the runs without line feeds. */
  lemma {:induction false} LoneStar(s: string)
    ensures GlobMatch("*", s) <==> NoLineFeed(s)
    decreases |s|
  {
    var p := "*";
    assert p[1..] == [];
    if s != [] {
      LoneStar(s[1..]);
      if NoLineFeed(s) {
        assert s[0] != '\n';
        assert NoLineFeed(s[1..]) by {
          forall i | 0 <= i < |s[1..]| ensures s[1..][i] != '\n' { assert s[1..][i] == s[i + 1]; }
        }
      }
      if GlobMatch(p, s) {
        assert !GlobMatch(p[1..], s);
        assert s[0] != '\n' && GlobMatch(p, s[1..]);
        forall i | 0 <= i < |s| ensures s[i] != '\n' {
          if i > 0 { assert s[i] == s[1..][i - 1]; }
        }
      }
    }
  }

  /** The documented examples: `node.type.*` covers the bundles but neither the prefix nor a longer name. */
  lemma NodeTypeMatches(bundle: string)
    requires NoLineFeed(bundle)
    ensures InFilterList("node.type." + bundle, ["node.type.*"])
  {
    var lit := "node.type.";
    var s := lit + bundle;
    assert lit + "*" == "node.type.*";
    LiteralPrefix(lit, "*", s);
    assert s[..|lit|] == lit && s[|lit|..] == bundle;
    LoneStar(bundle);
    assert ["node.type.*"][0] == "node.type.*";
  }

  lemma NodeTypeRejectsPrefix()
    ensures !InFilterList("node.type", ["node.type.*"])
  {
    var lit := "node.type.";
    assert lit + "*" == "node.type.*";
    var a := "node.type";
    LiteralPrefix(lit, "*", a);
  }

  lemma NodeTypeRejectsOther()
    ensures !InFilterList("field.node.type.article", ["node.type.*"])
  {
    var lit := "node.type.";
    assert lit + "*" == "node.type.*";
    var b := "field.node.type.article";
    LiteralPrefix(lit, "*", b);
    assert b[..|lit|] != lit by { assert b[0] != lit[0]; }
  }
}
