/** The two string predicates of plugin/util.go. */
module Util {

  import opened Strs

  /**
   * hasBase(pkgPath, tail): `tail` names the package `pkgPath` itself or a
   * trailing run of its path segments. The character just before the suffix is
   * only looked at when the paths differ, and then it is in bounds.
   */
  predicate HasBase(pkgPath: string, tail: string)
  {
    pkgPath == tail ||
    (HasSuffix(pkgPath, tail) &&
     assert |pkgPath| > |tail| by { SuffixOfSameLength(pkgPath, tail); }
     pkgPath[|pkgPath| - |tail| - 1] == '/')
  }

  lemma SuffixOfSameLength(s: string, t: string)
    requires HasSuffix(s, t) && s != t
    ensures |s| > |t|
  {
  }

  /** A path matches itself and every slash-separated tail of itself, and nothing else. */
  lemma HasBaseIffSegmentTail(pkgPath: string, tail: string)
    ensures HasBase(pkgPath, tail) <==>
              pkgPath == tail ||
              (|pkgPath| > |tail| && pkgPath == pkgPath[..|pkgPath| - |tail| - 1] + "/" + tail)
  {
    var n, m := |pkgPath|, |tail|;
    if n > m && pkgPath == pkgPath[..n - m - 1] + "/" + tail {
      assert pkgPath[n - m..] == tail;
      assert pkgPath[n - m - 1] == '/';
    }
    if pkgPath != tail && HasBase(pkgPath, tail) {
      SuffixOfSameLength(pkgPath, tail);
      assert pkgPath == pkgPath[..n - m - 1] + [pkgPath[n - m - 1]] + pkgPath[n - m..];
    }
  }

  /** Any prefix followed by "/" and a tail matches that tail. */
  lemma HasBaseOfJoin(prefix: string, tail: string)
    ensures HasBase(prefix + "/" + tail, tail)
  {
    var p := prefix + "/" + tail;
    assert p[|p| - |tail|..] == tail;
    assert p[|p| - |tail| - 1] == '/';
  }

  /** The cases pinned by the package's test of hasBase. */
  lemma HasBaseExamples()
    ensures HasBase("example.com/hello/world", "example.com/hello/world")
    ensures HasBase("example.com/hello/world", "hello/world")
    ensures HasBase("example.com/hello/world", "world")
    ensures !HasBase("example.com/hello/world", "orld")
    ensures !HasBase("example.com/hello/world", "/world")
  {
    HasBaseOfJoin("example.com", "hello/world");
    HasBaseOfJoin("example.com/hello", "world");
    var p := "example.com/hello/world";
    assert p[|p| - 4..] == "orld" && p[|p| - 5] == 'w';
    assert p[|p| - 6..] == "/world" && p[|p| - 7] == 'o';
  }

  /** ASCII lower-case letter. */
  predicate IsLower(c: char)
  {
    'a' <= c <= 'z'
  }

  /**
   * hasPrefixCamel(s, prefix): `s` is `prefix` followed by at least one more
   * character that does not continue the prefix as a lower-case word.
   */
  predicate HasPrefixCamel(s: string, prefix: string)
  {
    |s| > |prefix| && s[..|prefix|] == prefix && !IsLower(s[|prefix|])
  }

  /** Equivalent form: `s` splits as prefix, one non-lower-case character, and the rest. */
  lemma HasPrefixCamelIff(s: string, prefix: string)
    ensures HasPrefixCamel(s, prefix) <==>
              exists c: char, rest: string :: !IsLower(c) && s == prefix + [c] + rest
  {
    if HasPrefixCamel(s, prefix) {
      var c, rest := s[|prefix|], s[|prefix| + 1..];
      assert s == prefix + [c] + rest;
    }
    if exists c: char, rest: string :: !IsLower(c) && s == prefix + [c] + rest {
      var c: char, rest: string :| !IsLower(c) && s == prefix + [c] + rest;
      assert s[..|prefix|] == prefix;
      assert s[|prefix|] == c;
    }
  }

  /** "Null" alone and "Nullable" are not Null-types; "NullString" is. */
  lemma HasPrefixCamelExamples()
    ensures !HasPrefixCamel("Null", "Null")
    ensures !HasPrefixCamel("Nullable", "Null")
    ensures HasPrefixCamel("NullString", "Null")
  {
    assert "NullString"[..4] == "Null";
  }
}
