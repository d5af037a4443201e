/**
 * The handful of Go `strings` functions the plugin relies on, over `seq<char>`
 * (every directive and identifier handled by the plugin is ASCII text).
 */
module Strs {

  import opened Wrappers

  /** strings.HasSuffix */
  predicate HasSuffix(s: string, suffix: string)
  {
    |suffix| <= |s| && s[|s| - |suffix|..] == suffix
  }

  /** strings.HasPrefix */
  predicate HasPrefix(s: string, prefix: string)
  {
    |prefix| <= |s| && s[..|prefix|] == prefix
  }

  /** Does `sep` occur in `s` starting at index `i`? */
  predicate OccursAt(s: string, sep: string, i: nat)
  {
    i + |sep| <= |s| && s[i..i + |sep|] == sep
  }

  /** strings.Contains */
  predicate Contains(s: string, sep: string)
  {
    exists i: nat | i <= |s| :: OccursAt(s, sep, i)
  }

  /** Index of the first occurrence of a non-empty `sep` in `s`, if any. */
  function IndexOf(s: string, sep: string): (r: Option<nat>)
    requires |sep| > 0
    ensures r.Some? ==> OccursAt(s, sep, r.value)
    ensures r.Some? ==> forall j: nat :: j < r.value ==> !OccursAt(s, sep, j)
    ensures r.None? ==> forall j: nat :: !OccursAt(s, sep, j)
    decreases |s|
  {
    if |s| < |sep| then None
    else if s[..|sep|] == sep then Some(0)
    else
      match IndexOf(s[1..], sep)
      case None =>
        assert forall j: nat :: !OccursAt(s, sep, j) by {
          forall j: nat ensures !OccursAt(s, sep, j) {
            if j > 0 { OccursShift(s, sep, j - 1); }
          }
        }
        None
      case Some(k) =>
        OccursShift(s, sep, k);
        assert forall j: nat :: j < k + 1 ==> !OccursAt(s, sep, j) by {
          forall j: nat | j < k + 1 ensures !OccursAt(s, sep, j) {
            if j > 0 { OccursShift(s, sep, j - 1); }
          }
        }
        Some(k + 1)
  }

  lemma OccursShift(s: string, sep: string, j: nat)
    requires |s| > 0
    ensures OccursAt(s, sep, j + 1) <==> OccursAt(s[1..], sep, j)
  {
    if j + 1 + |sep| <= |s| {
      assert s[1..][j..j + |sep|] == s[j + 1..j + 1 + |sep|];
    }
  }

  /**
   * strings.Split with a non-empty separator: the pieces between the
   * occurrences of `sep`, in order; an empty string gives one empty piece.
   */
  function Split(s: string, sep: string): (parts: seq<string>)
    requires |sep| > 0
    ensures |parts| >= 1
    decreases |s|
  {
    match IndexOf(s, sep)
    case None => [s]
    case Some(i) => [s[..i]] + Split(s[i + |sep|..], sep)
  }

  /** strings.Join, the inverse of Split. */
  function Join(parts: seq<string>, sep: string): string
  {
    if |parts| == 0 then ""
    else if |parts| == 1 then parts[0]
    else parts[0] + sep + Join(parts[1..], sep)
  }

  /** Joining the pieces of a split gives back the original string. */
  lemma {:induction false} JoinSplit(s: string, sep: string)
    requires |sep| > 0
    ensures Join(Split(s, sep), sep) == s
    decreases |s|
  {
    match IndexOf(s, sep)
    case None =>
    case Some(i) =>
      var rest := s[i + |sep|..];
      var parts := Split(rest, sep);
      JoinSplit(rest, sep);
      assert Split(s, sep) == [s[..i]] + parts;
      assert ([s[..i]] + parts)[0] == s[..i] && ([s[..i]] + parts)[1..] == parts;
      assert Join([s[..i]] + parts, sep) == s[..i] + sep + rest;
      assert s[i..i + |sep|] == sep;
      assert s == s[..i] + s[i..i + |sep|] + rest;
  }

  /** No piece of a split contains the separator. */
  lemma {:induction false} SplitPartsFree(s: string, sep: string)
    requires |sep| > 0
    ensures forall k :: 0 <= k < |Split(s, sep)| ==> !Contains(Split(s, sep)[k], sep)
    decreases |s|
  {
    match IndexOf(s, sep)
    case None =>
      assert Split(s, sep) == [s];
    case Some(i) =>
      var rest := s[i + |sep|..];
      SplitPartsFree(rest, sep);
      assert Split(s, sep) == [s[..i]] + Split(rest, sep);
      forall j: nat | OccursAt(s[..i], sep, j)
        ensures false
      {
        assert s[..i][j..j + |sep|] == s[j..j + |sep|];
        assert OccursAt(s, sep, j);
      }
  }

  /** IndexOf finds the first occurrence. */
  lemma IndexOfIs(s: string, sep: string, i: nat)
    requires |sep| > 0 && OccursAt(s, sep, i)
    requires forall j: nat :: j < i ==> !OccursAt(s, sep, j)
    ensures IndexOf(s, sep) == Some(i)
  {
  }

  /** A one-character separator occurs exactly where that character is. */
  lemma OccursChar(s: string, c: char)
    ensures Contains(s, [c]) <==> c in s
  {
    if c in s {
      var i :| 0 <= i < |s| && s[i] == c;
      assert s[i..i + 1] == [c];
      assert OccursAt(s, [c], i);
    }
    if Contains(s, [c]) {
      var i: nat :| i <= |s| && OccursAt(s, [c], i);
      assert s[i] == s[i..i + 1][0];
    }
  }

  /** Splitting a join on a one-character separator that no piece contains gives the pieces back. */
  lemma {:induction false} SplitJoin(xs: seq<string>, c: char)
    requires |xs| >= 1 && forall k :: 0 <= k < |xs| ==> c !in xs[k]
    ensures Split(Join(xs, [c]), [c]) == xs
  {
    if |xs| == 1 {
      OccursChar(xs[0], c);
      assert IndexOf(xs[0], [c]).None?;
    } else {
      var x, rest := xs[0], Join(xs[1..], [c]);
      var s := x + [c] + rest;
      assert Join(xs, [c]) == s;
      assert OccursAt(s, [c], |x|) by { assert s[|x|..|x| + 1] == [c]; }
      forall j: nat | j < |x| ensures !OccursAt(s, [c], j) {
        assert s[j..j + 1] == [x[j]];
      }
      IndexOfIs(s, [c], |x|);
      assert s[..|x|] == x && s[|x| + 1..] == rest;
      SplitJoin(xs[1..], c);
    }
  }

  /** "->" cannot straddle a comma. */
  lemma ArrowFreeConcat(a: string, b: string)
    requires !Contains(a, "->") && !Contains(b, "->")
    ensures !Contains(a + "," + b, "->")
  {
    var s := a + "," + b;
    forall i: nat | i <= |s| ensures !OccursAt(s, "->", i) {
      if OccursAt(s, "->", i) {
        assert s[i] == '-' && s[i + 1] == '>' by { assert s[i..i + 2] == "->"; }
        if i + 1 < |a| {
          assert a[i..i + 2] == s[i..i + 2];
          assert OccursAt(a, "->", i);
        } else if i > |a| {
          assert b[i - |a| - 1..i - |a| + 1] == s[i..i + 2];
          assert OccursAt(b, "->", i - |a| - 1);
        }
      }
    }
  }

  /** A comma-join of pieces without "->" has no "->". */
  lemma {:induction false} ArrowFreeJoin(xs: seq<string>)
    requires forall k :: 0 <= k < |xs| ==> !Contains(xs[k], "->")
    ensures !Contains(Join(xs, ","), "->")
  {
    if |xs| >= 2 {
      ArrowFreeJoin(xs[1..]);
      ArrowFreeConcat(xs[0], Join(xs[1..], ","));
    } else if |xs| == 0 {
      assert forall i: nat :: !OccursAt("", "->", i);
    }
  }

  /** The first "->" of `a + "->" + b` is the one written between them, when `a` has none. */
  lemma ArrowAfter(a: string, b: string)
    requires !Contains(a, "->")
    ensures IndexOf(a + "->" + b, "->") == Some(|a|)
  {
    var s := a + "->" + b;
    assert s[|a|..|a| + 2] == "->";
    forall j: nat | j < |a| ensures !OccursAt(s, "->", j) {
      if j + 1 < |a| {
        assert a[j..j + 2] == s[j..j + 2];
        assert !OccursAt(a, "->", j);
      } else {
        assert s[j..j + 2] == [a[j], '-'];
      }
    }
    IndexOfIs(s, "->", |a|);
  }

  /** The ASCII white-space characters recognised by strings.TrimSpace. */
  predicate IsSpace(c: char)
  {
    c == ' ' || c == '\t' || c == '\n' || c == '\r' || c == '\U{000B}' || c == '\U{000C}'
  }

  function TrimLeft(s: string): (r: string)
    ensures |r| <= |s| && r == s[|s| - |r|..]
    ensures r == [] || !IsSpace(r[0])
    ensures forall k :: 0 <= k < |s| - |r| ==> IsSpace(s[k])
  {
    if |s| > 0 && IsSpace(s[0]) then TrimLeft(s[1..]) else s
  }

  function TrimRight(s: string): (r: string)
    ensures |r| <= |s| && r == s[..|r|]
    ensures r == [] || !IsSpace(r[|r| - 1])
    ensures forall k :: |r| <= k < |s| ==> IsSpace(s[k])
  {
    if |s| > 0 && IsSpace(s[|s| - 1]) then TrimRight(s[..|s| - 1]) else s
  }

  /** strings.TrimSpace: drop leading and trailing white space. */
  function TrimSpace(s: string): (r: string)
  {
    TrimRight(TrimLeft(s))
  }

  /** Where the piece TrimSpace keeps begins and ends in its input. */
  lemma TrimSpaceBounds(s: string) returns (i: nat, j: nat)
    ensures i <= j <= |s| && TrimSpace(s) == s[i..j]
    ensures forall k :: 0 <= k < i ==> IsSpace(s[k])
    ensures forall k :: j <= k < |s| ==> IsSpace(s[k])
  {
    var l := TrimLeft(s);
    i, j := PieceBounds(s, l, TrimRight(l));
  }

  /** A prefix `r` of a suffix `l` of `s`, cut off by white space on both sides, is a slice of `s`. */
  lemma PieceBounds(s: string, l: string, r: string) returns (i: nat, j: nat)
    requires |l| <= |s| && l == s[|s| - |l|..] && forall k :: 0 <= k < |s| - |l| ==> IsSpace(s[k])
    requires |r| <= |l| && r == l[..|r|] && forall k :: |r| <= k < |l| ==> IsSpace(l[k])
    ensures i <= j <= |s| && r == s[i..j]
    ensures forall k :: 0 <= k < i ==> IsSpace(s[k])
    ensures forall k :: j <= k < |s| ==> IsSpace(s[k])
  {
    i := |s| - |l|;
    j := i + |r|;
    assert s[i..][..j - i] == s[i..j];
    forall k | j <= k < |s| ensures IsSpace(s[k]) {
      assert s[k] == l[k - i];
    }
  }

  /**
   * TrimSpace returns a contiguous piece of its input, with no white space
   * at either end, and only white space is dropped around it.
   */
  lemma TrimSpaceSpec(s: string)
    ensures exists i, j ::
              && 0 <= i <= j <= |s| && TrimSpace(s) == s[i..j]
              && (forall k :: 0 <= k < i ==> IsSpace(s[k]))
              && (forall k :: j <= k < |s| ==> IsSpace(s[k]))
    ensures TrimSpace(s) == [] || (!IsSpace(TrimSpace(s)[0]) && !IsSpace(TrimSpace(s)[|TrimSpace(s)| - 1]))
  {
    var i, j := TrimSpaceBounds(s);
    var l := TrimLeft(s);
    assert TrimSpace(s) == TrimRight(l);
  }

  /** Trimming twice is trimming once. */
  lemma TrimSpaceIdempotent(s: string)
    ensures TrimSpace(TrimSpace(s)) == TrimSpace(s)
  {
    var r := TrimSpace(s);
    TrimSpaceSpec(s);
    assert TrimLeft(r) == r;
  }

  /** Strict lexicographic order on strings, Go's `<` on string. */
  predicate Less(a: string, b: string)
  {
    if |a| == 0 then |b| > 0
    else if |b| == 0 then false
    else a[0] < b[0] || (a[0] == b[0] && Less(a[1..], b[1..]))
  }

  lemma {:induction false} LessIrreflexive(a: string)
    ensures !Less(a, a)
  {
    if |a| > 0 { LessIrreflexive(a[1..]); }
  }

  lemma {:induction false} LessTrichotomy(a: string, b: string)
    ensures a == b || Less(a, b) || Less(b, a)
  {
    if |a| > 0 && |b| > 0 && a[0] == b[0] {
      LessTrichotomy(a[1..], b[1..]);
      if a[1..] == b[1..] { assert a == [a[0]] + a[1..] && b == [b[0]] + b[1..]; }
    }
  }

  lemma {:induction false} LessAsymmetric(a: string, b: string)
    ensures Less(a, b) ==> !Less(b, a)
  {
    if |a| > 0 && |b| > 0 && a[0] == b[0] { LessAsymmetric(a[1..], b[1..]); }
  }

  lemma {:induction false} LessTransitive(a: string, b: string, c: string)
    requires Less(a, b) && Less(b, c)
    ensures Less(a, c)
  {
    if |a| > 0 && |b| > 0 && |c| > 0 && a[0] == b[0] && b[0] == c[0] {
      LessTransitive(a[1..], b[1..], c[1..]);
    }
  }
}
