/**
 * The table of conversion pairs plugin/plugin.go keeps while generating:
 * the package pairs each generating package claims, the custom conversion
 * functions collected from the generating packages (Generate), convInUse and
 * prepareConverts, which files the Type-mode pairs the generated code
 * converts between.
 */
module Table {

  import opened Wrappers
  import opened GoTypes
  import opened Pairs
  import opened TypeNames

  /** objGen: one per-type directive on a type of a generating package, naming the api type it converts. */
  datatype ObjGen = ObjGen(mode: Mode, obj: ObjName, identifiers: seq<string>, convPkg: string)

  /** apiObjMap: the directives naming each exported api object (the object is its own key). */
  type ObjMap = map<ObjName, seq<ObjGen>>

  /** conversionFunc: a table entry; `fn` is the custom function, `converterPkg` the generated package. */
  datatype ConversionFunc = ConversionFunc(pair: ConvPair, mode: nat, fn: Option<ObjName>, converterPkg: Option<string>)

  type ConvTable = map<ConvPair, ConversionFunc>

  datatype TableError =
    | MultiplePackages(argPkg: string, outPkg: string, first: nat, second: nat)
    | WrongPackage(fn: string, arg: string, out: string, pkg: nat, owner: nat)
    | DuplicatedFunctions(pair: ConvPair, firstFn: Option<ObjName>, secondFn: string)

  // ---------------------------------------------------- package pairs

  /** generatingPackageStep: the api and target packages of one package-scope directive. */
  datatype Step = Step(argPkgs: seq<string>, outPkgs: seq<string>)

  /** One (argPkg, outPkg) combination visited by the nested loops, with the index of its generating package. */
  datatype Claim = Claim(argPkg: string, outPkg: string, owner: nat)

  /** The claims of one step: every arg package with every out package, arg packages outermost. */
  function StepClaims(s: Step, owner: nat): (r: seq<Claim>)
    ensures |r| == |s.argPkgs| * |s.outPkgs|
    decreases |s.argPkgs|
  {
    if s.argPkgs == [] then []
    else
      (seq(|s.outPkgs|, k requires 0 <= k < |s.outPkgs| => Claim(s.argPkgs[0], s.outPkgs[k], owner)))
        + StepClaims(Step(s.argPkgs[1..], s.outPkgs), owner)
  }

  /** The claims of every step of every generating package, in loop order. */
  function AllClaims(steps: seq<seq<Step>>, first: nat): seq<Claim>
    decreases |steps|
  {
    if steps == [] then [] else PackageClaims(steps[0], first) + AllClaims(steps[1..], first + 1)
  }

  function PackageClaims(steps: seq<Step>, owner: nat): seq<Claim>
  {
    if steps == [] then [] else StepClaims(steps[0], owner) + PackageClaims(steps[1..], owner)
  }

  /**
   * pkgPairs: each claim files its pair under its package in both
   * directions; a pair already filed in either direction is "multiple
   * packages with same conversion".
   */
  function PkgPairsOf(claims: seq<Claim>): Result<map<(string, string), nat>, TableError>
  {
    if claims == [] then Ok(map[])
    else
      match PkgPairsOf(claims[..|claims| - 1])
      case Err(e) => Err(e)
      case Ok(m) =>
        var c := claims[|claims| - 1];
        if (c.argPkg, c.outPkg) in m then Err(MultiplePackages(c.argPkg, c.outPkg, m[(c.argPkg, c.outPkg)], c.owner))
        else Ok(m[(c.argPkg, c.outPkg) := c.owner][(c.outPkg, c.argPkg) := c.owner])
  }

  method BuildPkgPairs(claims: seq<Claim>) returns (r: Result<map<(string, string), nat>, TableError>)
    ensures r == PkgPairsOf(claims)
  {
    var pkgPairs: map<(string, string), nat> := map[];
    for i := 0 to |claims|
      invariant PkgPairsOf(claims[..i]) == Ok(pkgPairs)
    {
      var c := claims[i];
      assert claims[..i + 1][..i] == claims[..i];
      if (c.argPkg, c.outPkg) in pkgPairs {
        PkgPairsErrPersists(claims, i + 1);
        return Err(MultiplePackages(c.argPkg, c.outPkg, pkgPairs[(c.argPkg, c.outPkg)], c.owner));
      }
      pkgPairs := pkgPairs[(c.argPkg, c.outPkg) := c.owner][(c.outPkg, c.argPkg) := c.owner];
    }
    assert claims[..|claims|] == claims;
    return Ok(pkgPairs);
  }

  lemma {:induction false} PkgPairsErrPersists(claims: seq<Claim>, i: nat)
    requires i <= |claims| && PkgPairsOf(claims[..i]).Err?
    ensures PkgPairsOf(claims) == PkgPairsOf(claims[..i])
    decreases |claims| - i
  {
    if i < |claims| {
      assert claims[..i + 1][..i] == claims[..i];
      PkgPairsErrPersists(claims, i + 1);
    } else {
      assert claims[..i] == claims;
    }
  }

  /** The pair `c` files, in one direction or the other, is `(a, o)`. */
  predicate Files(c: Claim, a: string, o: string)
  {
    (c.argPkg == a && c.outPkg == o) || (c.outPkg == a && c.argPkg == o)
  }

  /**
   * The package pairs are built without error exactly when no claim's pair
   * was filed, in either direction, by an earlier claim; then every claim's
   * pair is filed both ways, and nothing else is.
   */
  lemma PkgPairsOfIff(claims: seq<Claim>)
    ensures PkgPairsOf(claims).Ok? <==>
              forall i, j :: 0 <= i < j < |claims| ==> !Files(claims[i], claims[j].argPkg, claims[j].outPkg)
    ensures PkgPairsOf(claims).Ok? ==> forall a, o ::
              (a, o) in PkgPairsOf(claims).value <==> exists i :: 0 <= i < |claims| && Files(claims[i], a, o)
  {
    PkgPairsOfOk(claims);
    if PkgPairsOf(claims).Ok? {
      PkgPairsOfKeys(claims);
    }
  }

  lemma {:induction false} PkgPairsOfOk(claims: seq<Claim>)
    ensures PkgPairsOf(claims).Ok? <==>
              forall i, j :: 0 <= i < j < |claims| ==> !Files(claims[i], claims[j].argPkg, claims[j].outPkg)
  {
    if claims != [] {
      var init, c := claims[..|claims| - 1], claims[|claims| - 1];
      PkgPairsOfOk(init);
      assert forall i :: 0 <= i < |init| ==> init[i] == claims[i];
      if PkgPairsOf(init).Ok? {
        PkgPairsOfKeys(init);
        var m := PkgPairsOf(init).value;
        if (c.argPkg, c.outPkg) in m {
          var i :| 0 <= i < |init| && Files(init[i], c.argPkg, c.outPkg);
          assert Files(claims[i], claims[|claims| - 1].argPkg, claims[|claims| - 1].outPkg);
        } else {
          forall i, j | 0 <= i < j < |claims|
            ensures !Files(claims[i], claims[j].argPkg, claims[j].outPkg)
          {
            if j == |claims| - 1 {
              assert claims[j] == c && claims[i] == init[i];
              assert !Files(init[i], c.argPkg, c.outPkg);
            } else {
              assert claims[i] == init[i] && claims[j] == init[j];
            }
          }
        }
      } else {
        var i, j :| 0 <= i < j < |init| && Files(init[i], init[j].argPkg, init[j].outPkg);
        assert Files(claims[i], claims[j].argPkg, claims[j].outPkg);
      }
    }
  }

  lemma {:induction false} PkgPairsOfKeys(claims: seq<Claim>)
    requires PkgPairsOf(claims).Ok?
    ensures forall a, o ::
              (a, o) in PkgPairsOf(claims).value <==> exists i :: 0 <= i < |claims| && Files(claims[i], a, o)
  {
    if claims != [] {
      var init, c := claims[..|claims| - 1], claims[|claims| - 1];
      assert PkgPairsOf(init).Ok?;
      PkgPairsOfKeys(init);
      var m := PkgPairsOf(init).value;
      var m' := PkgPairsOf(claims).value;
      forall a, o ensures (a, o) in m' <==> exists i :: 0 <= i < |claims| && Files(claims[i], a, o) {
        if (a, o) in m' && (a, o) !in m {
          assert Files(claims[|claims| - 1], a, o);
        }
        if (a, o) in m {
          var i :| 0 <= i < |init| && Files(init[i], a, o);
          assert Files(claims[i], a, o);
        }
        if exists i :: 0 <= i < |claims| && Files(claims[i], a, o) {
          var i :| 0 <= i < |claims| && Files(claims[i], a, o);
          if i < |init| {
            assert Files(init[i], a, o);
          }
        }
      }
    }
  }

  /**
   * A generating package whose steps name no packages claims nothing, so
   * the package pairs stay empty and no function is ever refused for being
   * defined in the wrong package.
   */
  lemma {:induction false} EmptyStepsClaimNothing(steps: seq<seq<Step>>, first: nat)
    requires forall g, k :: 0 <= g < |steps| && 0 <= k < |steps[g]| ==> steps[g][k].argPkgs == []
    ensures AllClaims(steps, first) == []
    ensures PkgPairsOf(AllClaims(steps, first)) == Ok(map[])
    decreases |steps|
  {
    if steps != [] {
      EmptyStepsPackage(steps[0], first);
      assert forall g, k :: 0 <= g < |steps[1..]| && 0 <= k < |steps[1..][g]| ==> steps[1..][g][k] == steps[g + 1][k];
      EmptyStepsClaimNothing(steps[1..], first + 1);
    }
  }

  lemma {:induction false} EmptyStepsPackage(steps: seq<Step>, owner: nat)
    requires forall k :: 0 <= k < |steps| ==> steps[k].argPkgs == []
    ensures PackageClaims(steps, owner) == []
  {
    if steps != [] {
      EmptyStepsPackage(steps[1..], owner);
    }
  }

  // ---------------------------------------------------- convInUse

  /** Some directive on `a` names `b`. */
  predicate Generates(objMap: ObjMap, a: ObjName, b: ObjName)
  {
    a in objMap && exists k :: 0 <= k < |objMap[a]| && objMap[a][k].obj == b
  }

  /** convInUse: some directive relates the two types of the pair, in either direction. */
  predicate InUse(objMap: ObjMap, pair: ConvPair)
  {
    Generates(objMap, pair.arg, pair.out) || Generates(objMap, pair.out, pair.arg)
  }

  method ConvInUse(objMap: ObjMap, pair: ConvPair) returns (b: bool)
    ensures b == InUse(objMap, pair)
  {
    var items := [(pair.arg, pair.out), (pair.out, pair.arg)];
    for i := 0 to 2
      invariant forall j :: 0 <= j < i ==> !Generates(objMap, items[j].0, items[j].1)
    {
      if items[i].0 !in objMap {
        continue;
      }
      var gens := objMap[items[i].0];
      for k := 0 to |gens|
        invariant forall j :: 0 <= j < k ==> gens[j].obj != items[i].1
      {
        if gens[k].obj == items[i].1 {
          return true;
        }
      }
    }
    assert items[0] == (pair.arg, pair.out) && items[1] == (pair.out, pair.arg);
    return false;
  }

  /** Whether a pair is in use does not depend on its direction. */
  lemma InUseSwap(objMap: ObjMap, pair: ConvPair)
    ensures InUse(objMap, pair) == InUse(objMap, Swap(pair))
  {
  }

  // ---------------------------------------------------- custom functions

  /** The comment listed for each function Generate looks at. */
  datatype Note = Note(owner: nat, name: string, comment: string, custom: bool)

  /** A function of a generating package, with the index of that package. */
  datatype Candidate = Candidate(owner: nat, fn: FuncDecl)

  /**
   * One function of the collection loop of Generate: methods are skipped; an
   * unrecognised signature or one whose params are not pointers to named types
   * is ignored with a note; a function for a package pair claimed by another
   * generating package, or for a pair that already has a function, is an
   * error; otherwise the function is filed under its pair.
   */
  function CollectOne(pkgPairs: map<(string, string), nat>, objMaps: seq<ObjMap>, table: ConvTable, notes: seq<Note>, c: Candidate)
    : Result<(ConvTable, seq<Note>), TableError>
    requires c.owner < |objMaps|
  {
    var fn := c.fn;
    if fn.isMethod then Ok((table, notes))
    else
      match ConvertFuncShape(fn)
      case NotRecognized => Ok((table, notes + [Note(c.owner, fn.name, "not recognized", false)]))
      case Recognized(mode, arg, out) =>
        var key := (arg.pkg, out.pkg);
        if key in pkgPairs && pkgPairs[key] != c.owner then
          Err(WrongPackage(fn.name, arg.name, out.name, c.owner, pkgPairs[key]))
        else
          var pair := PointerPair(arg.typ, out.typ).0;
          if !pair.valid then
            Ok((table, notes + [Note(c.owner, fn.name, "params are not pointer to named types", false)]))
          else if pair in table then
            Err(DuplicatedFunctions(pair, table[pair].fn, fn.name))
          else
            var comment := if InUse(objMaps[c.owner], pair) then "in use" else "not use, no conversions between params";
            Ok((table[pair := ConversionFunc(pair, mode, Some(ObjName(fn.pkg, fn.name)), None)],
                notes + [Note(c.owner, fn.name, comment, true)]))
  }

  /** The collection loop over the functions, in order, stopping at the first error. */
  function CollectAll(pkgPairs: map<(string, string), nat>, objMaps: seq<ObjMap>, cs: seq<Candidate>)
    : Result<(ConvTable, seq<Note>), TableError>
    requires forall k :: 0 <= k < |cs| ==> cs[k].owner < |objMaps|
  {
    if cs == [] then Ok((map[], []))
    else
      match CollectAll(pkgPairs, objMaps, cs[..|cs| - 1])
      case Err(e) => Err(e)
      case Ok(st) => CollectOne(pkgPairs, objMaps, st.0, st.1, cs[|cs| - 1])
  }

  lemma {:induction false} CollectErrPersists(pkgPairs: map<(string, string), nat>, objMaps: seq<ObjMap>, cs: seq<Candidate>, i: nat)
    requires forall k :: 0 <= k < |cs| ==> cs[k].owner < |objMaps|
    requires i <= |cs| && CollectAll(pkgPairs, objMaps, cs[..i]).Err?
    ensures CollectAll(pkgPairs, objMaps, cs) == CollectAll(pkgPairs, objMaps, cs[..i])
    decreases |cs| - i
  {
    if i < |cs| {
      assert cs[..i + 1][..i] == cs[..i];
      CollectErrPersists(pkgPairs, objMaps, cs, i + 1);
    } else {
      assert cs[..i] == cs;
    }
  }

  /** The pair a candidate would be filed under: the named types its arg and out parameters point to. */
  function CandidatePair(c: Candidate): ConvPair
  {
    var s := ConvertFuncShape(c.fn);
    if s.Recognized? then PointerPair(s.arg.typ, s.out.typ).0 else InvalidPair()
  }

  /** A candidate the collection files in the table: a function of a recognised shape over pointers to named types. */
  predicate Filed(c: Candidate)
  {
    !c.fn.isMethod && CandidatePair(c).valid
  }

  /** The entry a filed candidate gets. */
  function EntryOf(c: Candidate): ConversionFunc
    requires ConvertFuncShape(c.fn).Recognized?
  {
    ConversionFunc(CandidatePair(c), ConvertFuncShape(c.fn).mode, Some(ObjName(c.fn.pkg, c.fn.name)), None)
  }

  /** One successful step adds exactly the entry of a filed candidate, to a pair not yet in the table. */
  lemma CollectOneTable(pkgPairs: map<(string, string), nat>, objMaps: seq<ObjMap>, table: ConvTable, notes: seq<Note>, c: Candidate)
    requires c.owner < |objMaps|
    requires CollectOne(pkgPairs, objMaps, table, notes, c).Ok?
    ensures Filed(c) ==> CandidatePair(c) !in table
                         && CollectOne(pkgPairs, objMaps, table, notes, c).value.0 == table[CandidatePair(c) := EntryOf(c)]
    ensures !Filed(c) ==> CollectOne(pkgPairs, objMaps, table, notes, c).value.0 == table
  {
  }

  /** An entry as the collection files it: under its own valid pair, with a mode, a function and no package yet. */
  predicate WellFiled(e: ConversionFunc, p: ConvPair)
  {
    e.pair == p && p.valid && 1 <= e.mode <= 3 && e.fn.Some? && e.converterPkg.None?
  }

  /** Some candidate of `cs` is the function of entry `e` under pair `p`. */
  predicate FiledBy(e: ConversionFunc, p: ConvPair, cs: seq<Candidate>)
  {
    exists i :: 0 <= i < |cs| && Filed(cs[i]) && CandidatePair(cs[i]) == p && e.fn == Some(ObjName(cs[i].fn.pkg, cs[i].fn.name))
  }

  /** Well-formed entries: each custom function is filed under its own pair, with its mode, by a candidate. */
  predicate CustomEntries(table: ConvTable, cs: seq<Candidate>)
  {
    forall p :: p in table ==> WellFiled(table[p], p) && FiledBy(table[p], p, cs)
  }

  /** Filing one more candidate keeps the entries well formed. */
  lemma CustomEntriesStep(table: ConvTable, init: seq<Candidate>, c: Candidate)
    requires CustomEntries(table, init)
    requires Filed(c) ==> CandidatePair(c) !in table
    ensures Filed(c) ==> CustomEntries(table[CandidatePair(c) := EntryOf(c)], init + [c])
    ensures !Filed(c) ==> CustomEntries(table, init + [c])
  {
    var cs := init + [c];
    var t := if Filed(c) then table[CandidatePair(c) := EntryOf(c)] else table;
    forall p | p in t
      ensures WellFiled(t[p], p) && FiledBy(t[p], p, cs)
    {
      if Filed(c) && p == CandidatePair(c) {
        assert cs[|init|] == c;
      } else {
        var i :| 0 <= i < |init| && Filed(init[i]) && CandidatePair(init[i]) == p
                 && table[p].fn == Some(ObjName(init[i].fn.pkg, init[i].fn.name));
        assert cs[i] == init[i];
      }
    }
  }

  /**
   * After a successful collection the table holds exactly the filed
   * candidates: each under its own pair, with its mode, with no generated
   * package yet.
   */
  lemma {:induction false} CollectedTable(pkgPairs: map<(string, string), nat>, objMaps: seq<ObjMap>, cs: seq<Candidate>)
    requires forall k :: 0 <= k < |cs| ==> cs[k].owner < |objMaps|
    requires CollectAll(pkgPairs, objMaps, cs).Ok?
    ensures CustomEntries(CollectAll(pkgPairs, objMaps, cs).value.0, cs)
    ensures forall i :: 0 <= i < |cs| && Filed(cs[i]) ==> CandidatePair(cs[i]) in CollectAll(pkgPairs, objMaps, cs).value.0
  {
    if cs != [] {
      var init, c := cs[..|cs| - 1], cs[|cs| - 1];
      assert init + [c] == cs;
      CollectedTable(pkgPairs, objMaps, init);
      var st := CollectAll(pkgPairs, objMaps, init).value;
      CollectOneTable(pkgPairs, objMaps, st.0, st.1, c);
      CustomEntriesStep(st.0, init, c);
      forall i | 0 <= i < |cs| && Filed(cs[i])
        ensures CandidatePair(cs[i]) in CollectAll(pkgPairs, objMaps, cs).value.0
      {
        if i < |init| {
          assert cs[i] == init[i];
        }
      }
    }
  }

  /** No two candidates are filed under the same pair when the collection succeeds: a second one is an error. */
  lemma {:induction false} CollectedDistinct(pkgPairs: map<(string, string), nat>, objMaps: seq<ObjMap>, cs: seq<Candidate>)
    requires forall k :: 0 <= k < |cs| ==> cs[k].owner < |objMaps|
    requires CollectAll(pkgPairs, objMaps, cs).Ok?
    ensures forall i, j :: 0 <= i < j < |cs| && Filed(cs[i]) && Filed(cs[j]) ==> CandidatePair(cs[i]) != CandidatePair(cs[j])
  {
    if cs != [] {
      var init, c := cs[..|cs| - 1], cs[|cs| - 1];
      assert init + [c] == cs;
      CollectedDistinct(pkgPairs, objMaps, init);
      CollectedTable(pkgPairs, objMaps, init);
      var st := CollectAll(pkgPairs, objMaps, init).value;
      CollectOneTable(pkgPairs, objMaps, st.0, st.1, c);
      forall i, j | 0 <= i < j < |cs| && Filed(cs[i]) && Filed(cs[j])
        ensures CandidatePair(cs[i]) != CandidatePair(cs[j])
      {
        assert cs[i] == init[i];
        if j < |init| {
          assert cs[j] == init[j];
        } else {
          assert cs[j] == c && CandidatePair(init[i]) in st.0;
        }
      }
    }
  }

  // ---------------------------------------------------- prepareConverts

  /** One Type-mode pair to file with the package generated for it. */
  datatype PairPkg = PairPkg(pair: ConvPair, pkg: string)

  /** The pairs a list of directives on `src` asks for: both directions of each Type-mode directive, in order. */
  function GenPairs(src: ObjName, gens: seq<ObjGen>): seq<PairPkg>
  {
    if gens == [] then []
    else
      GenHead(src, gens[0]) + GenPairs(src, gens[1..])
  }

  /** The pairs one directive asks for: both directions for a Type-mode directive, none otherwise. */
  function GenHead(src: ObjName, g: ObjGen): (r: seq<PairPkg>)
    ensures |r| == (if g.mode == TypeMode then 2 else 0)
  {
    if g.mode == TypeMode
    then [PairPkg(NamedPair(Named(src), Named(g.obj)), g.convPkg), PairPkg(NamedPair(Named(g.obj), Named(src)), g.convPkg)]
    else []
  }

  lemma GenPairsAt(src: ObjName, gens: seq<ObjGen>, j: nat)
    requires j < |gens|
    ensures GenPairs(src, gens[j..]) == GenHead(src, gens[j]) + GenPairs(src, gens[j + 1..])
  {
    assert gens[j..][0] == gens[j] && gens[j..][1..] == gens[j + 1..];
  }

  /** The pairs of every listed object, in list order. */
  function ListPairs(objMap: ObjMap, list: seq<ObjName>): seq<PairPkg>
    requires forall k :: 0 <= k < |list| ==> list[k] in objMap
  {
    if list == [] then [] else GenPairs(list[0], objMap[list[0]]) + ListPairs(objMap, list[1..])
  }

  /** Files one pair: an absent pair gets a fresh entry; either way it gets the generated package. */
  function FilePair(table: ConvTable, pp: PairPkg): ConvTable
  {
    var entry := if pp.pair in table then table[pp.pair] else ConversionFunc(pp.pair, 0, None, None);
    table[pp.pair := entry.(converterPkg := Some(pp.pkg))]
  }

  function FileAll(table: ConvTable, pps: seq<PairPkg>): ConvTable
    decreases |pps|
  {
    if pps == [] then table else FileAll(FilePair(table, pps[0]), pps[1..])
  }

  /** Filing a concatenation files the first part, then the second. */
  lemma {:induction false} FileAllAppend(table: ConvTable, a: seq<PairPkg>, b: seq<PairPkg>)
    ensures FileAll(table, a + b) == FileAll(FileAll(table, a), b)
    decreases |a|
  {
    if a != [] {
      assert (a + b)[0] == a[0] && (a + b)[1..] == a[1..] + b;
      FileAllAppend(FilePair(table, a[0]), a[1..], b);
    } else {
      assert a + b == b;
    }
  }

  lemma FileAllTwo(table: ConvTable, p0: PairPkg, p1: PairPkg)
    ensures FileAll(table, [p0, p1]) == FilePair(FilePair(table, p0), p1)
  {
    assert [p0, p1][0] == p0 && [p0, p1][1..] == [p1];
    assert [p1][0] == p1 && [p1][1..] == [];
    var t0 := FilePair(table, p0);
    assert FileAll(table, [p0, p1]) == FileAll(t0, [p1]);
    assert FileAll(t0, [p1]) == FileAll(FilePair(t0, p1), []);
  }

  /** One directive of prepareConverts: its own pairs first, then the rest. */
  lemma PrepareStep(table: ConvTable, src: ObjName, gens: seq<ObjGen>, j: nat, later: seq<PairPkg>)
    requires j < |gens|
    ensures FileAll(table, GenPairs(src, gens[j..]) + later)
            == FileAll(FileAll(table, GenHead(src, gens[j])), GenPairs(src, gens[j + 1..]) + later)
  {
    GenPairsAt(src, gens, j);
    assert GenPairs(src, gens[j..]) + later == GenHead(src, gens[j]) + (GenPairs(src, gens[j + 1..]) + later);
    FileAllAppend(table, GenHead(src, gens[j]), GenPairs(src, gens[j + 1..]) + later);
  }

  /** One listed object of prepareConverts: its own pairs first, then the rest. */
  lemma ListPairsAt(objMap: ObjMap, list: seq<ObjName>, i: nat)
    requires forall k :: 0 <= k < |list| ==> list[k] in objMap
    requires i < |list|
    ensures ListPairs(objMap, list[i..]) == GenPairs(list[i], objMap[list[i]]) + ListPairs(objMap, list[i + 1..])
  {
    assert list[i..][0] == list[i] && list[i..][1..] == list[i + 1..];
  }

  /** Some entry of `pps` asks for `p`. */
  predicate Asked(pps: seq<PairPkg>, p: ConvPair)
  {
    exists k :: 0 <= k < |pps| && pps[k].pair == p
  }

  lemma AskedCons(pps: seq<PairPkg>, p: ConvPair)
    requires pps != []
    ensures Asked(pps, p) <==> pps[0].pair == p || Asked(pps[1..], p)
  {
    if Asked(pps, p) && pps[0].pair != p {
      var k :| 0 <= k < |pps| && pps[k].pair == p;
      assert pps[1..][k - 1] == pps[k];
    }
    if Asked(pps[1..], p) {
      var k :| 0 <= k < |pps[1..]| && pps[1..][k].pair == p;
      assert pps[k + 1] == pps[1..][k];
    }
  }

  /**
   * prepareConverts only adds the pairs asked for, never replaces an entry:
   * every custom function keeps its function and mode, every new entry has
   * none, every pair asked for gets a generated package, and entries not
   * asked for are untouched.
   */
  lemma {:induction false} FileAllSpec(table: ConvTable, pps: seq<PairPkg>)
    ensures forall p :: p in FileAll(table, pps) <==> p in table || Asked(pps, p)
    ensures forall p :: p in table ==>
              FileAll(table, pps)[p].(converterPkg := None) == table[p].(converterPkg := None)
    ensures forall p :: p in FileAll(table, pps) && p !in table ==>
              FileAll(table, pps)[p].fn.None? && FileAll(table, pps)[p].pair == p && FileAll(table, pps)[p].mode == 0
    ensures forall p :: Asked(pps, p) ==> FileAll(table, pps)[p].converterPkg.Some?
    ensures forall p :: p in table && !Asked(pps, p) ==> FileAll(table, pps)[p] == table[p]
    decreases |pps|
  {
    if pps != [] {
      FileAllSpec(FilePair(table, pps[0]), pps[1..]);
      forall p ensures Asked(pps, p) <==> pps[0].pair == p || Asked(pps[1..], p) {
        AskedCons(pps, p);
      }
    }
  }

  /** The package a pair ends up with is that of the last entry asking for it. */
  lemma {:induction false} FileAllLastWins(table: ConvTable, pps: seq<PairPkg>, k: nat)
    requires k < |pps| && forall j :: k < j < |pps| ==> pps[j].pair != pps[k].pair
    ensures pps[k].pair in FileAll(table, pps)
    ensures FileAll(table, pps)[pps[k].pair].converterPkg == Some(pps[k].pkg)
    decreases |pps|
  {
    if k == 0 {
      var t1 := FilePair(table, pps[0]);
      FileAllSpec(t1, pps[1..]);
      assert !Asked(pps[1..], pps[0].pair) by {
        forall j | 0 <= j < |pps[1..]| ensures pps[1..][j].pair != pps[0].pair {
          assert pps[1..][j] == pps[j + 1];
        }
      }
    } else {
      forall j | k - 1 < j < |pps[1..]| ensures pps[1..][j].pair != pps[1..][k - 1].pair {
        assert pps[1..][j] == pps[j + 1];
      }
      FileAllLastWins(FilePair(table, pps[0]), pps[1..], k - 1);
    }
  }

  /** Every Type-mode directive asks for both directions between its type and the api type. */
  lemma {:induction false} GenPairsBoth(src: ObjName, gens: seq<ObjGen>, k: nat)
    requires k < |gens| && gens[k].mode == TypeMode
    ensures exists i :: 0 <= i < |GenPairs(src, gens)| && GenPairs(src, gens)[i].pair == ConvPair(true, src, gens[k].obj)
    ensures exists i :: 0 <= i < |GenPairs(src, gens)| && GenPairs(src, gens)[i].pair == ConvPair(true, gens[k].obj, src)
  {
    if k == 0 {
      assert GenPairs(src, gens)[0].pair == ConvPair(true, src, gens[0].obj);
      assert GenPairs(src, gens)[1].pair == ConvPair(true, gens[0].obj, src);
    } else {
      GenPairsBoth(src, gens[1..], k - 1);
      var n := |GenPairs(src, gens)| - |GenPairs(src, gens[1..])|;
      var rest := GenPairs(src, gens[1..]);
      var i :| 0 <= i < |rest| && rest[i].pair == ConvPair(true, src, gens[k].obj);
      var i' :| 0 <= i' < |rest| && rest[i'].pair == ConvPair(true, gens[k].obj, src);
      assert GenPairs(src, gens)[n + i] == rest[i];
      assert GenPairs(src, gens)[n + i'] == rest[i'];
    }
  }

  /** The state Generate keeps across its steps: the table of conversion pairs and the notes on functions. */
  class Generator {
    var convPairs: ConvTable
    var notes: seq<Note>

    constructor ()
      ensures convPairs == map[] && notes == []
    {
      convPairs := map[];
      notes := [];
    }

    /** The collection loop of Generate: a fresh table, then every candidate function in order. */
    method CollectCustomFuncs(pkgPairs: map<(string, string), nat>, objMaps: seq<ObjMap>, cs: seq<Candidate>)
      returns (err: Option<TableError>)
      requires forall k :: 0 <= k < |cs| ==> cs[k].owner < |objMaps|
      modifies this
      ensures match CollectAll(pkgPairs, objMaps, cs)
              case Err(e) => err == Some(e)
              case Ok(st) => err.None? && convPairs == st.0 && notes == old(notes) + st.1
    {
      convPairs := map[];
      var added: seq<Note> := [];
      for i := 0 to |cs|
        invariant CollectAll(pkgPairs, objMaps, cs[..i]) == Ok((convPairs, added))
        invariant notes == old(notes)
      {
        assert cs[..i + 1][..i] == cs[..i];
        var r := CollectOne(pkgPairs, objMaps, convPairs, added, cs[i]);
        if r.Err? {
          CollectErrPersists(pkgPairs, objMaps, cs, i + 1);
          return Some(r.error);
        }
        convPairs, added := r.value.0, r.value.1;
      }
      assert cs[..|cs|] == cs;
      notes := notes + added;
      return None;
    }

    /** prepareConverts: files both directions of every Type-mode directive of the listed objects. */
    method PrepareConverts(objMap: ObjMap, list: seq<ObjName>)
      requires forall k :: 0 <= k < |list| ==> list[k] in objMap
      modifies this`convPairs
      ensures convPairs == FileAll(old(convPairs), ListPairs(objMap, list))
    {
      for i := 0 to |list|
        invariant FileAll(convPairs, ListPairs(objMap, list[i..])) == FileAll(old(convPairs), ListPairs(objMap, list))
      {
        var src := list[i];
        var gens := objMap[src];
        var later := ListPairs(objMap, list[i + 1..]);
        ListPairsAt(objMap, list, i);
        assert gens[0..] == gens;
        for j := 0 to |gens|
          invariant FileAll(convPairs, GenPairs(src, gens[j..]) + later) == FileAll(old(convPairs), ListPairs(objMap, list))
        {
          var g := gens[j];
          PrepareStep(convPairs, src, gens, j, later);
          if g.mode == TypeMode {
            var p0 := PairPkg(NamedPair(Named(src), Named(g.obj)), g.convPkg);
            var p1 := PairPkg(NamedPair(Named(g.obj), Named(src)), g.convPkg);
            FileAllTwo(convPairs, p0, p1);
            convPairs := FilePair(convPairs, p0);
            convPairs := FilePair(convPairs, p1);
          }
        }
        assert GenPairs(src, gens[|gens|..]) + later == later;
      }
    }
  }
}
