/**
 * The per-type directives of plugin/plugin.go (`+convert:type=Name`,
 * `pkg.Name`, `Name(id1,id2)`): the two regular expressions they are matched
 * with, parseTypeName and parseWithMode.
 */
module TypeNames {

  import opened Wrappers
  import opened Strs
  import opened Util
  import opened GoTypes

  /** reName found anywhere in `s` (the match is unanchored): an ASCII upper-case letter. */
  predicate MatchesName(s: string)
  {
    exists i | 0 <= i < |s| :: 'A' <= s[i] <= 'Z'
  }

  // ---------------------------------------------------- reTypeName, by definition

  /** The three groups of a match of `^(.+\.)?([^.(]+)(\([^)]*\))?$`. */
  datatype Groups = Groups(path: string, name: string, extra: string)

  /** `(.+\.)?`: empty, or at least one character other than a newline followed by a dot. */
  predicate PathGroup(p: string)
  {
    p == "" || (|p| >= 2 && p[|p| - 1] == '.' && '\n' !in p[..|p| - 1])
  }

  /** `([^.(]+)` */
  predicate NameGroup(n: string)
  {
    |n| > 0 && '.' !in n && '(' !in n
  }

  /** `(\([^)]*\))?` */
  predicate ExtraGroup(x: string)
  {
    x == "" || (|x| >= 2 && x[0] == '(' && x[|x| - 1] == ')' && ')' !in x[1..|x| - 1])
  }

  /** `g` is one way for the whole of `s` to match reTypeName. */
  predicate IsMatch(s: string, g: Groups)
  {
    s == g.path + g.name + g.extra && PathGroup(g.path) && NameGroup(g.name) && ExtraGroup(g.extra)
  }

  // ---------------------------------------------------- reTypeName, as matched

  /** Index of the first '(' of `r`, or its length. */
  function FirstParen(r: string): (k: nat)
    ensures k <= |r| && '(' !in r[..k] && (k < |r| ==> r[k] == '(')
  {
    if r == [] || r[0] == '(' then 0
    else
      var k := FirstParen(r[1..]);
      assert r[..k + 1] == [r[0]] + r[1..][..k];
      k + 1
  }

  /** What follows the path group: the name runs up to the first '(', the rest must be the extra group. */
  function NameExtra(r: string): (o: Option<(string, string)>)
    ensures o.Some? ==> r == o.value.0 + o.value.1 && NameGroup(o.value.0) && ExtraGroup(o.value.1)
  {
    var k := FirstParen(r);
    assert r == r[..k] + r[k..];
    if NameGroup(r[..k]) && ExtraGroup(r[k..]) then Some((r[..k], r[k..])) else None
  }

  /** The index of the first '(' is the one index before which there is none and at which there is one. */
  lemma FirstParenIs(r: string, k: nat)
    requires k <= |r| && '(' !in r[..k] && (k < |r| ==> r[k] == '(')
    ensures FirstParen(r) == k
  {
    var k0 := FirstParen(r);
    forall j | 0 <= j < k ensures r[j] != '(' {
      assert r[..k][j] == r[j];
    }
    forall j | 0 <= j < k0 ensures r[j] != '(' {
      assert r[..k0][j] == r[j];
    }
  }

  /** The name and extra groups are determined by the text that follows the path. */
  lemma NameExtraUnique(r: string, n: string, x: string)
    requires r == n + x && NameGroup(n) && ExtraGroup(x)
    ensures NameExtra(r) == Some((n, x))
  {
    assert r[..|n|] == n && r[|n|..] == x;
    FirstParenIs(r, |n|);
  }

  /**
   * The match found by Go's leftmost-first engine: the optional path group is
   * tried first and `.+` is greedy, so the longest path (of length at most `i`)
   * after which the rest matches wins; with none, the path is empty.
   */
  function SearchFrom(s: string, i: nat): (o: Option<Groups>)
    requires i <= |s|
    decreases i
  {
    if i < 2 then
      match NameExtra(s)
      case None => None
      case Some(ne) => Some(Groups("", ne.0, ne.1))
    else if PathGroup(s[..i]) && NameExtra(s[i..]).Some? then
      Some(Groups(s[..i], NameExtra(s[i..]).value.0, NameExtra(s[i..]).value.1))
    else SearchFrom(s, i - 1)
  }

  /** reTypeName.FindStringSubmatch: the groups, or none when the input does not match. */
  function MatchTypeName(s: string): Option<Groups>
  {
    SearchFrom(s, |s|)
  }

  lemma {:induction false} SearchSound(s: string, i: nat)
    requires i <= |s|
    ensures SearchFrom(s, i).Some? ==> IsMatch(s, SearchFrom(s, i).value) && |SearchFrom(s, i).value.path| <= i
    decreases i
  {
    if i >= 2 && !(PathGroup(s[..i]) && NameExtra(s[i..]).Some?) {
      SearchSound(s, i - 1);
    } else if i >= 2 {
      assert s == s[..i] + s[i..];
    }
  }

  lemma {:induction false} SearchGreedy(s: string, i: nat, g: Groups)
    requires i <= |s| && IsMatch(s, g) && |g.path| <= i
    ensures SearchFrom(s, i).Some? && |SearchFrom(s, i).value.path| >= |g.path|
    decreases i
  {
    assert s[..|g.path|] == g.path && s[|g.path|..] == g.name + g.extra;
    if i < 2 {
      NameExtraUnique(s, g.name, g.extra);
    } else if !(PathGroup(s[..i]) && NameExtra(s[i..]).Some?) {
      if |g.path| == i {
        NameExtraUnique(s[i..], g.name, g.extra);
        assert false;
      }
      SearchGreedy(s, i - 1, g);
    }
  }

  /**
   * MatchTypeName is exactly a match of reTypeName: it finds one whenever one
   * exists, what it finds is a match, no match has a longer path group, and
   * the path group determines the other two.
   */
  lemma MatchTypeNameSpec(s: string, g: Groups)
    ensures MatchTypeName(s).Some? ==> IsMatch(s, MatchTypeName(s).value)
    ensures IsMatch(s, g) ==> MatchTypeName(s).Some? && |g.path| <= |MatchTypeName(s).value.path|
    ensures IsMatch(s, g) && MatchTypeName(s).Some? && MatchTypeName(s).value.path == g.path ==> MatchTypeName(s).value == g
  {
    SearchSound(s, |s|);
    if IsMatch(s, g) {
      SearchGreedy(s, |s|, g);
      var m := MatchTypeName(s).value;
      if m.path == g.path {
        assert s[|g.path|..] == g.name + g.extra == m.name + m.extra;
        NameExtraUnique(s[|g.path|..], g.name, g.extra);
        NameExtraUnique(s[|g.path|..], m.name, m.extra);
      }
    }
  }

  /** A non-empty path group ends at a dot of the input. */
  lemma PathEndsInDot(s: string, g: Groups)
    requires IsMatch(s, g)
    ensures g.path != "" ==> |g.path| <= |s| && s[|g.path| - 1] == '.'
  {
    if g.path != "" {
      assert s[|g.path| - 1] == g.path[|g.path| - 1];
    }
  }

  /** Without a dot in the input the path group is empty. */
  lemma MatchWithoutDot(s: string, n: string, x: string)
    requires s == n + x && NameGroup(n) && ExtraGroup(x) && '.' !in x
    ensures MatchTypeName(s) == Some(Groups("", n, x))
  {
    var g := Groups("", n, x);
    assert IsMatch(s, g);
    MatchTypeNameSpec(s, g);
    var m := MatchTypeName(s).value;
    forall j | 0 <= j < |s| ensures s[j] != '.' {
      if j < |n| {
        assert s[j] == n[j];
      } else {
        assert s[j] == x[j - |n|];
      }
    }
    PathEndsInDot(s, m);
  }

  /** With a plain name after the last dot, the path group runs up to that dot. */
  lemma MatchQualified(path: string, n: string)
    requires path != "" && '\n' !in path && NameGroup(n)
    ensures MatchTypeName(path + "." + n) == Some(Groups(path + ".", n, ""))
  {
    var s := path + "." + n;
    var g := Groups(path + ".", n, "");
    assert (path + ".")[..|path + "."| - 1] == path;
    assert IsMatch(s, g);
    MatchTypeNameSpec(s, g);
    var m := MatchTypeName(s).value;
    forall j | |g.path| <= j < |s| ensures s[j] != '.' {
      assert s[j] == n[j - |g.path|];
    }
    PathEndsInDot(s, m);
    assert m.path == s[..|g.path|] == g.path;
  }

  // ---------------------------------------------------- parseTypeName

  datatype TypeNameError =
    | InvalidConvertDirective(input: string)
    | InvalidFieldName(input: string)
    | InvalidTypeName(text: string)
    | MustProvidePath(input: string)
    | AmbiguousPath(path: string)
    | PackageNotFound(path: string, pkgs: seq<string>)
    | InvalidExtraOption(arg: string)

  /** The api packages whose path has `path` as a segment tail, in order. */
  function Matching(pkgs: seq<string>, path: string): (m: seq<string>)
    ensures |m| <= |pkgs|
    ensures forall k :: 0 <= k < |m| ==> m[k] in pkgs && HasBase(m[k], path)
  {
    if pkgs == [] then []
    else
      var init := pkgs[..|pkgs| - 1];
      var m := Matching(init, path);
      assert forall k :: 0 <= k < |m| ==> m[k] in pkgs by {
        forall k | 0 <= k < |m| ensures m[k] in pkgs {
          var j :| 0 <= j < |init| && init[j] == m[k];
          assert pkgs[j] == init[j];
        }
      }
      m + (if HasBase(pkgs[|pkgs| - 1], path) then [pkgs[|pkgs| - 1]] else [])
  }

  lemma {:induction false} MatchingPrefix(pkgs: seq<string>, path: string, i: nat)
    requires i <= |pkgs|
    ensures |Matching(pkgs[..i], path)| <= |Matching(pkgs, path)|
    decreases |pkgs|
  {
    if i < |pkgs| {
      var init := pkgs[..|pkgs| - 1];
      assert pkgs[..i] == init[..i];
      MatchingPrefix(init, path, i);
    } else {
      assert pkgs[..i] == pkgs;
    }
  }

  /** The package a qualified directive names: the one api package whose path ends in it. */
  function PackageFor(pkgs: seq<string>, path: string): Result<string, TypeNameError>
  {
    var m := Matching(pkgs, path);
    if |m| == 0 then Err(PackageNotFound(path, pkgs))
    else if |m| >= 2 then Err(AmbiguousPath(path))
    else Ok(m[0])
  }

  /** The lookup loop of parseTypeName: the second match is "ambiguous", none is "not found". */
  method FindPackage(pkgs: seq<string>, path: string) returns (r: Result<string, TypeNameError>)
    ensures r == PackageFor(pkgs, path)
  {
    var found: Option<string> := None;
    for i := 0 to |pkgs|
      invariant |Matching(pkgs[..i], path)| <= 1
      invariant found.None? <==> |Matching(pkgs[..i], path)| == 0
      invariant found.Some? ==> found.value == Matching(pkgs[..i], path)[0]
    {
      assert pkgs[..i + 1][..i] == pkgs[..i];
      if HasBase(pkgs[i], path) {
        if found.Some? {
          MatchingPrefix(pkgs, path, i + 1);
          return Err(AmbiguousPath(path));
        }
        found := Some(pkgs[i]);
      }
    }
    assert pkgs[..|pkgs|] == pkgs;
    if found.None? {
      return Err(PackageNotFound(path, pkgs));
    }
    return Ok(found.value);
  }

  /** The identifiers inside the parentheses, split on commas (none without parentheses). */
  function Identifiers(extra: string): seq<string>
  {
    if extra == "" || |extra| < 2 then [] else Split(extra[1..|extra| - 1], ",")
  }

  /**
   * parseTypeName: the groups of reTypeName; each identifier and the name
   * must match reName; a bare name needs exactly one api package, a path must
   * end exactly one api package's path.
   */
  function TypeName(apiPkgs: seq<string>, input: string): Result<(ObjName, seq<string>), TypeNameError>
  {
    match MatchTypeName(input)
    case None => Err(InvalidConvertDirective(input))
    case Some(g) =>
      var ids := Identifiers(g.extra);
      if exists k | 0 <= k < |ids| :: !MatchesName(ids[k]) then Err(InvalidFieldName(input))
      else if g.path == "" then
        if !MatchesName(g.name) then Err(InvalidTypeName(input))
        else if |apiPkgs| == 1 then Ok((ObjName(apiPkgs[0], g.name), ids))
        else Err(MustProvidePath(input))
      else
        match PackageFor(apiPkgs, g.path[..|g.path| - 1])
        case Err(e) => Err(e)
        case Ok(p) =>
          if !MatchesName(g.name) then Err(InvalidTypeName(g.name)) else Ok((ObjName(p, g.name), ids))
  }

  method ParseTypeName(apiPkgs: seq<string>, input: string) returns (r: Result<(ObjName, seq<string>), TypeNameError>)
    ensures r == TypeName(apiPkgs, input)
  {
    var parts := MatchTypeName(input);
    if parts.None? {
      return Err(InvalidConvertDirective(input));
    }
    var g := parts.value;
    var ids := Identifiers(g.extra);
    for k := 0 to |ids|
      invariant forall j :: 0 <= j < k ==> MatchesName(ids[j])
    {
      if !MatchesName(ids[k]) {
        return Err(InvalidFieldName(input));
      }
    }
    if g.path == "" {
      if !MatchesName(g.name) {
        return Err(InvalidTypeName(input));
      }
      if |apiPkgs| == 1 {
        return Ok((ObjName(apiPkgs[0], g.name), ids));
      }
      return Err(MustProvidePath(input));
    }
    var pkg := FindPackage(apiPkgs, g.path[..|g.path| - 1]);
    if pkg.Err? {
      return Err(pkg.error);
    }
    if !MatchesName(g.name) {
      return Err(InvalidTypeName(g.name));
    }
    return Ok((ObjName(pkg.value, g.name), ids));
  }

  /** Whatever parseTypeName accepts names a type of an api package, and every part matches reName. */
  lemma TypeNameSound(apiPkgs: seq<string>, input: string)
    requires TypeName(apiPkgs, input).Ok?
    ensures var (obj, ids) := TypeName(apiPkgs, input).value;
      && obj.pkg in apiPkgs && MatchesName(obj.name)
      && forall k :: 0 <= k < |ids| ==> MatchesName(ids[k])
  {
  }

  /** A bare name is taken from the one api package, and needs there to be exactly one. */
  lemma TypeNameBare(apiPkgs: seq<string>, name: string)
    requires NameGroup(name) && MatchesName(name)
    ensures TypeName(apiPkgs, name) ==
              if |apiPkgs| == 1 then Ok((ObjName(apiPkgs[0], name), [])) else Err(MustProvidePath(name))
  {
    assert name == name + "";
    MatchWithoutDot(name, name, "");
  }

  /** `path.Name` names Name in the one api package whose path ends in `path`. */
  lemma TypeNameQualified(apiPkgs: seq<string>, path: string, name: string)
    requires path != "" && '\n' !in path && NameGroup(name)
    ensures TypeName(apiPkgs, path + "." + name) ==
              match PackageFor(apiPkgs, path)
              case Err(e) => Err(e)
              case Ok(p) => if MatchesName(name) then Ok((ObjName(p, name), [])) else Err(InvalidTypeName(name))
  {
    MatchQualified(path, name);
    assert (path + ".")[..|path + "."| - 1] == path;
  }

  /** The extra part `(id1,id2)` of an update directive. */
  function Parenthesised(ids: seq<string>): string
  {
    "(" + Join(ids, ",") + ")"
  }

  /** A parenthesised comma-join of identifiers is an extra group, without a dot, whose identifiers are those. */
  lemma ParenthesisedList(ids: seq<string>)
    requires |ids| >= 1 && forall k :: 0 <= k < |ids| ==> ',' !in ids[k] && ')' !in ids[k] && '.' !in ids[k]
    ensures ExtraGroup(Parenthesised(ids)) && '.' !in Parenthesised(ids) && Identifiers(Parenthesised(ids)) == ids
  {
    var inner := Join(ids, [',']);
    assert inner == Join(ids, ",");
    var x := "(" + inner + ")";
    JoinFree(ids, ')');
    JoinFree(ids, '.');
    assert x[1..|x| - 1] == inner;
    assert ExtraGroup(x);
    assert x == ['('] + inner + [')'];
    assert '.' !in x;
    SplitJoin(ids, ',');
    assert Identifiers(x) == Split(inner, [',']);
  }

  /** A match without a path group and with valid names: the type is taken from the one api package. */
  lemma TypeNameWithoutPath(apiPkgs: seq<string>, input: string, g: Groups)
    requires MatchTypeName(input) == Some(g) && g.path == "" && MatchesName(g.name) && |apiPkgs| == 1
    requires forall k :: 0 <= k < |Identifiers(g.extra)| ==> MatchesName(Identifiers(g.extra)[k])
    ensures TypeName(apiPkgs, input) == Ok((ObjName(apiPkgs[0], g.name), Identifiers(g.extra)))
  {
  }

  /** `Name(id1,id2)` gives back the identifiers, in order. */
  lemma TypeNameIdentifiers(apiPkg: string, name: string, ids: seq<string>)
    requires NameGroup(name) && MatchesName(name)
    requires |ids| >= 1 && forall k :: 0 <= k < |ids| ==>
               MatchesName(ids[k]) && ',' !in ids[k] && ')' !in ids[k] && '.' !in ids[k]
    ensures TypeName([apiPkg], name + Parenthesised(ids)) == Ok((ObjName(apiPkg, name), ids))
  {
    var x := Parenthesised(ids);
    ParenthesisedList(ids);
    MatchWithoutDot(name + x, name, x);
    TypeNameWithoutPath([apiPkg], name + x, Groups("", name, x));
  }

  /** A comma-join of pieces without the character `c` has no `c` (when `c` is not a comma). */
  lemma {:induction false} JoinFree(xs: seq<string>, c: char)
    requires c != ',' && forall k :: 0 <= k < |xs| ==> c !in xs[k]
    ensures c !in Join(xs, ",")
  {
    if |xs| >= 2 {
      JoinFree(xs[1..], c);
      assert Join(xs, ",") == xs[0] + "," + Join(xs[1..], ",");
    }
  }

  // ---------------------------------------------------- parseWithMode

  /** The three per-type directive commands. */
  datatype Mode = TypeMode | CreateMode | UpdateMode

  function ModeOf(cmd: string): Option<Mode>
  {
    if cmd == "convert:type" then Some(TypeMode)
    else if cmd == "convert:create" then Some(CreateMode)
    else if cmd == "convert:update" then Some(UpdateMode)
    else None
  }

  /** A parsed per-type directive: its mode, the api type it names, and its identifiers. */
  datatype Target = Target(mode: Mode, name: ObjName, identifiers: seq<string>)

  /**
   * parseWithMode: other commands are not conversion directives (None);
   * identifiers are accepted in update mode only.
   */
  function WithMode(apiPkgs: seq<string>, cmd: string, arg: string): Result<Option<Target>, TypeNameError>
  {
    match ModeOf(cmd)
    case None => Ok(None)
    case Some(mode) =>
      match TypeName(apiPkgs, arg)
      case Err(e) => Err(e)
      case Ok((obj, ids)) =>
        if mode != UpdateMode && |ids| != 0 then Err(InvalidExtraOption(arg))
        else Ok(Some(Target(mode, obj, ids)))
  }

  method ParseWithMode(apiPkgs: seq<string>, cmd: string, arg: string) returns (r: Result<Option<Target>, TypeNameError>)
    ensures r == WithMode(apiPkgs, cmd, arg)
  {
    var mode := ModeOf(cmd);
    if mode.None? {
      return Ok(None);
    }
    var parsed := ParseTypeName(apiPkgs, arg);
    if parsed.Err? {
      return Err(parsed.error);
    }
    var (obj, ids) := parsed.value;
    if mode.value != UpdateMode && |ids| != 0 {
      return Err(InvalidExtraOption(arg));
    }
    return Ok(Some(Target(mode.value, obj, ids)));
  }

  /**
   * A directive accepted by parseWithMode is a known command naming a type
   * of an api package, and only update directives carry identifiers.
   */
  lemma WithModeSound(apiPkgs: seq<string>, cmd: string, arg: string)
    requires WithMode(apiPkgs, cmd, arg).Ok? && WithMode(apiPkgs, cmd, arg).value.Some?
    ensures var t := WithMode(apiPkgs, cmd, arg).value.value;
      && ModeOf(cmd) == Some(t.mode)
      && t.name.pkg in apiPkgs
      && (t.mode != UpdateMode ==> t.identifiers == [])
  {
    TypeNameSound(apiPkgs, arg);
  }

  /** Identifiers on a type or create directive are refused, on an update directive kept. */
  lemma WithModeIdentifiers(apiPkg: string, name: string, ids: seq<string>, cmd: string)
    requires ModeOf(cmd).Some?
    requires NameGroup(name) && MatchesName(name)
    requires |ids| >= 1 && forall k :: 0 <= k < |ids| ==>
               MatchesName(ids[k]) && ',' !in ids[k] && ')' !in ids[k] && '.' !in ids[k]
    ensures var arg := name + Parenthesised(ids);
      WithMode([apiPkg], cmd, arg) ==
        if ModeOf(cmd) == Some(UpdateMode) then Ok(Some(Target(UpdateMode, ObjName(apiPkg, name), ids)))
        else Err(InvalidExtraOption(arg))
  {
    TypeNameIdentifiers(apiPkg, name, ids);
  }
}
