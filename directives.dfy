/**
 * The package-scope directive of plugin/plugin.go: `+gen:convert: a, b`
 * (convert between the packages of one list) or `+gen:convert: to -> api`,
 * and validateEquality, which tells whether two package lists name the same
 * packages.
 */
module Directives {

  import opened Wrappers
  import opened Strs

  /** "invalid directive (must in format pkg1 -> pkg2)" */
  datatype DirectiveError = InvalidDirective

  /** Every entry trimmed. */
  function TrimEach(ss: seq<string>): (r: seq<string>)
    ensures |r| == |ss| && forall i :: 0 <= i < |ss| ==> r[i] == TrimSpace(ss[i])
  {
    seq(|ss|, i requires 0 <= i < |ss| => TrimSpace(ss[i]))
  }

  predicate NoneEmpty(ss: seq<string>)
  {
    forall i :: 0 <= i < |ss| ==> ss[i] != ""
  }

  /**
   * parseConvertDirective, giving (apiPkgs, toPkgs). Without "->" the trimmed
   * comma-separated list is both lists, empty entries included; with "->"
   * there must be exactly one arrow, the left side lists the to-packages and
   * the right side the api-packages, and no trimmed entry may be empty.
   */
  function ConvertDirective(arg: string): Result<(seq<string>, seq<string>), DirectiveError>
  {
    if !Contains(arg, "->") then
      var pkgs := TrimEach(Split(arg, ","));
      Ok((pkgs, pkgs))
    else
      var parts := Split(arg, "->");
      if |parts| != 2 then Err(InvalidDirective)
      else
        var to := TrimEach(Split(parts[0], ","));
        var api := TrimEach(Split(parts[1], ","));
        if !NoneEmpty(to) || !NoneEmpty(api) then Err(InvalidDirective)
        else Ok((api, to))
  }

  /** Trims every entry of `a` in place. */
  method TrimAll(a: array<string>)
    modifies a
    ensures a[..] == TrimEach(old(a[..]))
  {
    for i := 0 to a.Length
      invariant forall k :: 0 <= k < i ==> a[k] == TrimSpace(old(a[k]))
      invariant forall k :: i <= k < a.Length ==> a[k] == old(a[k])
    {
      a[i] := TrimSpace(a[i]);
    }
  }

  /** Trims the entries of `a` in place, stopping at the first one that trims to nothing. */
  method TrimAllNonEmpty(a: array<string>) returns (ok: bool)
    modifies a
    ensures ok <==> NoneEmpty(TrimEach(old(a[..])))
    ensures ok ==> a[..] == TrimEach(old(a[..]))
  {
    for i := 0 to a.Length
      invariant forall k :: 0 <= k < i ==> a[k] == TrimSpace(old(a[k])) && a[k] != ""
      invariant forall k :: i <= k < a.Length ==> a[k] == old(a[k])
    {
      a[i] := TrimSpace(a[i]);
      if a[i] == "" {
        assert TrimEach(old(a[..]))[i] == "";
        return false;
      }
    }
    return true;
  }

  /** One side of the directive: its comma-separated entries, trimmed in place. */
  method TrimmedList(side: string) returns (pkgs: seq<string>)
    ensures pkgs == TrimEach(Split(side, ","))
  {
    var split := Split(side, ",");
    var a := new string[|split|](i requires 0 <= i < |split| => split[i]);
    assert a[..] == split;
    TrimAll(a);
    pkgs := a[..];
  }

  /** One side of an arrow directive: its trimmed entries, or failure at the first empty one. */
  method TrimmedNonEmptyList(side: string) returns (ok: bool, pkgs: seq<string>)
    ensures ok <==> NoneEmpty(TrimEach(Split(side, ",")))
    ensures ok ==> pkgs == TrimEach(Split(side, ","))
  {
    var split := Split(side, ",");
    var a := new string[|split|](i requires 0 <= i < |split| => split[i]);
    assert a[..] == split;
    ok := TrimAllNonEmpty(a);
    pkgs := a[..];
  }

  method ParseConvertDirective(arg: string) returns (r: Result<(seq<string>, seq<string>), DirectiveError>)
    ensures r == ConvertDirective(arg)
  {
    if !Contains(arg, "->") {
      var pkgs := TrimmedList(arg);
      return Ok((pkgs, pkgs));
    }
    var parts := Split(arg, "->");
    if |parts| != 2 {
      return Err(InvalidDirective);
    }
    var ok, to := TrimmedNonEmptyList(parts[0]);
    if !ok {
      return Err(InvalidDirective);
    }
    var api;
    ok, api := TrimmedNonEmptyList(parts[1]);
    if !ok {
      return Err(InvalidDirective);
    }
    return Ok((api, to));
  }

  /** A package path as the directive can carry it: already trimmed, without "," or "->". */
  predicate Listable(p: string)
  {
    TrimSpace(p) == p && ',' !in p && !Contains(p, "->")
  }

  lemma ParseList(pkgs: seq<string>)
    requires |pkgs| >= 1 && forall k :: 0 <= k < |pkgs| ==> Listable(pkgs[k])
    ensures TrimEach(Split(Join(pkgs, ","), ",")) == pkgs
    ensures !Contains(Join(pkgs, ","), "->")
  {
    SplitJoin(pkgs, ',');
    ArrowFreeJoin(pkgs);
  }

  /**
   * A list without an arrow reads back as itself, for both sides, even when
   * some entries are empty.
   */
  lemma ListDirectiveRoundTrip(pkgs: seq<string>)
    requires |pkgs| >= 1 && forall k :: 0 <= k < |pkgs| ==> Listable(pkgs[k])
    ensures ConvertDirective(Join(pkgs, ",")) == Ok((pkgs, pkgs))
  {
    ParseList(pkgs);
  }

  /**
   * `to -> api` reads back as (api, to) exactly when no entry of either side
   * is empty; otherwise it is the invalid-directive error.
   */
  lemma ArrowDirectiveRoundTrip(to: seq<string>, api: seq<string>)
    requires |to| >= 1 && forall k :: 0 <= k < |to| ==> Listable(to[k])
    requires |api| >= 1 && forall k :: 0 <= k < |api| ==> Listable(api[k])
    ensures ConvertDirective(Join(to, ",") + "->" + Join(api, ",")) ==
              if NoneEmpty(to) && NoneEmpty(api) then Ok((api, to)) else Err(InvalidDirective)
  {
    var l, r := Join(to, ","), Join(api, ",");
    ParseList(to);
    ParseList(api);
    SplitArrow(l, r);
  }

  /** The one arrow between two arrow-free sides splits them apart. */
  lemma SplitArrow(l: string, r: string)
    requires !Contains(l, "->") && !Contains(r, "->")
    ensures Contains(l + "->" + r, "->")
    ensures Split(l + "->" + r, "->") == [l, r]
  {
    var s := l + "->" + r;
    ArrowAfter(l, r);
    assert OccursAt(s, "->", |l|);
    assert s[..|l|] == l && s[|l| + 2..] == r;
    assert IndexOf(r, "->").None?;
    assert Split(r, "->") == [r];
  }

  // ------------------------------------------------------------ validateEquality

  /** "duplicated package (p)" */
  datatype EqualityError = DuplicatedPackage(pkg: string)

  /** The first index of `p1` whose entry occurs twice or more in `p2`. */
  function FirstDuplicated(p1: seq<string>, p2: seq<string>): (r: Option<nat>)
    ensures r.Some? ==> r.value < |p1| && multiset(p2)[p1[r.value]] >= 2
    ensures r.Some? ==> forall k :: 0 <= k < r.value ==> multiset(p2)[p1[k]] <= 1
    ensures r.None? ==> forall k :: 0 <= k < |p1| ==> multiset(p2)[p1[k]] <= 1
  {
    if p1 == [] then None
    else if multiset(p2)[p1[0]] >= 2 then Some(0)
    else match FirstDuplicated(p1[1..], p2)
      case None => None
      case Some(k) => Some(k + 1)
  }

  /**
   * validateEquality: lists of different lengths are not equal; an entry of
   * the first list found twice in the second is an error; otherwise they are
   * equal when every entry of the first occurs in the second.
   */
  function Equality(p1: seq<string>, p2: seq<string>): Result<bool, EqualityError>
  {
    if |p1| != |p2| then Ok(false)
    else match FirstDuplicated(p1, p2)
      case Some(i) => Err(DuplicatedPackage(p1[i]))
      case None => Ok(forall k :: 0 <= k < |p1| ==> p1[k] in p2)
  }

  /** How many entries of `xs` occur in `ys`. */
  function CountIn(xs: seq<string>, ys: seq<string>): (n: nat)
    ensures n <= |xs|
    ensures n == |xs| <==> forall k :: 0 <= k < |xs| ==> xs[k] in ys
  {
    if xs == [] then 0
    else
      var rest := CountIn(xs[1..], ys);
      assert forall k :: 1 <= k < |xs| ==> xs[k] == xs[1..][k - 1];
      (if xs[0] in ys then 1 else 0) + rest
  }

  lemma CountInSnoc(xs: seq<string>, x: string, ys: seq<string>)
    ensures CountIn(xs + [x], ys) == CountIn(xs, ys) + (if x in ys then 1 else 0)
  {
    if xs != [] {
      assert (xs + [x])[1..] == xs[1..] + [x];
      CountInSnoc(xs[1..], x, ys);
    }
  }

  /**
   * The inner loop of validateEquality for entry `i` of the first list: it
   * flags the entry and counts it when found in `p2`, and stops at a second
   * occurrence.
   */
  method MarkFound(x: string, p2: seq<string>, flags: array<bool>, i: nat, count0: nat) returns (dup: bool, count: nat)
    requires i < flags.Length && !flags[i]
    modifies flags
    ensures dup <==> multiset(p2)[x] >= 2
    ensures !dup ==> count == count0 + (if x in p2 then 1 else 0)
    ensures forall k :: 0 <= k < flags.Length && k != i ==> flags[k] == old(flags[k])
  {
    count := count0;
    for j := 0 to |p2|
      invariant flags[i] <==> x in p2[..j]
      invariant multiset(p2[..j])[x] == if flags[i] then 1 else 0
      invariant count == count0 + (if flags[i] then 1 else 0)
      invariant forall k :: 0 <= k < flags.Length && k != i ==> flags[k] == old(flags[k])
    {
      assert p2[..j + 1] == p2[..j] + [p2[j]];
      if x == p2[j] {
        if flags[i] {
          assert multiset(p2[..j + 1])[x] == 2;
          MultisetPrefix(p2, j + 1, x);
          return true, count;
        }
        count := count + 1;
        flags[i] := true;
      }
    }
    assert p2[..|p2|] == p2;
    return false, count;
  }

  method ValidateEquality(p1: seq<string>, p2: seq<string>) returns (r: Result<bool, EqualityError>)
    ensures r == Equality(p1, p2)
  {
    if |p1| != |p2| {
      return Ok(false);
    }
    var count := 0;
    var flags := new bool[|p1|](_ => false);
    for i := 0 to |p1|
      invariant count == CountIn(p1[..i], p2)
      invariant forall k :: 0 <= k < i ==> multiset(p2)[p1[k]] <= 1
      invariant forall k :: i <= k < |p1| ==> !flags[k]
    {
      var dup;
      dup, count := MarkFound(p1[i], p2, flags, i, count);
      if dup {
        DuplicatedAt(p1, p2, i);
        return Err(DuplicatedPackage(p1[i]));
      }
      assert p1[..i + 1] == p1[..i] + [p1[i]];
      CountInSnoc(p1[..i], p1[i], p2);
    }
    assert p1[..|p1|] == p1;
    return Ok(count == |p1|);
  }

  lemma MultisetPrefix(s: seq<string>, j: nat, x: string)
    requires j <= |s|
    ensures multiset(s[..j])[x] <= multiset(s)[x]
  {
    assert s == s[..j] + s[j..];
  }

  /** The first duplicated entry is at `i` when `i`'s is duplicated and no earlier one is. */
  lemma DuplicatedAt(p1: seq<string>, p2: seq<string>, i: nat)
    requires i < |p1| && multiset(p2)[p1[i]] >= 2
    requires forall k :: 0 <= k < i ==> multiset(p2)[p1[k]] <= 1
    ensures FirstDuplicated(p1, p2) == Some(i)
  {
    if i > 0 {
      DuplicatedAt(p1[1..], p2, i - 1);
    }
  }

  /**
   * validateEquality says "equal" exactly when the lists have the same length
   * and every entry of the first occurs exactly once in the second.
   */
  lemma EqualityIff(p1: seq<string>, p2: seq<string>)
    ensures Equality(p1, p2) == Ok(true) <==>
              |p1| == |p2| && forall k :: 0 <= k < |p1| ==> multiset(p2)[p1[k]] == 1
  {
  }

  predicate Distinct(s: seq<string>)
  {
    forall i, j :: 0 <= i < j < |s| ==> s[i] != s[j]
  }

  lemma {:induction false} DistinctOnce(s: seq<string>, x: string)
    requires Distinct(s)
    ensures multiset(s)[x] <= 1
  {
    if s != [] {
      assert s == [s[0]] + s[1..];
      DistinctOnce(s[1..], x);
      if x == s[0] {
        assert x !in s[1..];
      }
    }
  }

  /** Two orderings of the same distinct packages are equal lists. */
  lemma EqualityOfReordering(p1: seq<string>, p2: seq<string>)
    requires Distinct(p2) && multiset(p1) == multiset(p2)
    ensures Equality(p1, p2) == Ok(true)
  {
    assert |p1| == |multiset(p1)| == |p2|;
    forall k | 0 <= k < |p1| ensures multiset(p2)[p1[k]] == 1 {
      DistinctOnce(p2, p1[k]);
      assert p1[k] in multiset(p1);
    }
    EqualityIff(p1, p2);
  }

  /** The comparison is not a permutation test: a repeated entry can stand for a missing one. */
  lemma EqualityRepeatedEntry()
    ensures Equality(["a", "a"], ["a", "b"]) == Ok(true)
  {
    EqualityIff(["a", "a"], ["a", "b"]);
    assert multiset(["a", "b"])["a"] == 1;
  }
}
