/**
 * prepareListObject of plugin/plugin.go: the api objects that have at least
 * one generation directive, collected from a map (whose iteration order Go
 * leaves unspecified) and then sorted by package path, then by name.
 */
module Ordering {

  import opened Strs
  import opened GoTypes
  import opened Pairs
  import opened TypeNames
  import opened Table

  /** The comparator handed to sort.Slice: package path first, then name. */
  predicate ObjLess(a: ObjName, b: ObjName)
  {
    Less(a.pkg, b.pkg) || (a.pkg == b.pkg && Less(a.name, b.name))
  }

  /** "Not after": the order the sort leaves adjacent elements in. */
  predicate ObjLe(a: ObjName, b: ObjName)
  {
    !ObjLess(b, a)
  }

  lemma ObjLessIrreflexive(a: ObjName)
    ensures !ObjLess(a, a)
  {
    LessIrreflexive(a.pkg);
    LessIrreflexive(a.name);
  }

  lemma ObjLessAsymmetric(a: ObjName, b: ObjName)
    ensures ObjLess(a, b) ==> !ObjLess(b, a)
  {
    LessAsymmetric(a.pkg, b.pkg);
    LessAsymmetric(b.pkg, a.pkg);
    LessAsymmetric(a.name, b.name);
    LessIrreflexive(a.pkg);
  }

  /** Two different objects are always ordered one way or the other. */
  lemma ObjLessTrichotomy(a: ObjName, b: ObjName)
    ensures a == b || ObjLess(a, b) || ObjLess(b, a)
  {
    LessTrichotomy(a.pkg, b.pkg);
    LessTrichotomy(a.name, b.name);
  }

  lemma ObjLessTransitive(a: ObjName, b: ObjName, c: ObjName)
    requires ObjLess(a, b) && ObjLess(b, c)
    ensures ObjLess(a, c)
  {
    if Less(a.pkg, b.pkg) && Less(b.pkg, c.pkg) {
      LessTransitive(a.pkg, b.pkg, c.pkg);
    } else if Less(a.name, b.name) && Less(b.name, c.name) {
      LessTransitive(a.name, b.name, c.name);
    }
  }

  /** Every element comes strictly before every later one. */
  predicate StrictlySorted(s: seq<ObjName>)
  {
    forall p, q :: 0 <= p < q < |s| ==> ObjLess(s[p], s[q])
  }

  /** Neighbours are in order (possibly equal). */
  predicate AdjacentSorted(s: seq<ObjName>)
  {
    forall k :: 0 < k < |s| ==> ObjLe(s[k - 1], s[k])
  }

  /** The objects prepareListObject keeps: those with at least one generation directive. */
  ghost function Selected(objMap: ObjMap): set<ObjName>
  {
    set k | k in objMap && |objMap[k]| != 0
  }

  /** Two equal neighbours occur at least twice. */
  lemma EqualNeighbours(s: seq<ObjName>, k: nat)
    requires 0 < k < |s| && s[k - 1] == s[k]
    ensures multiset(s)[s[k]] >= 2
  {
    assert s == s[..k - 1] + [s[k - 1], s[k]] + s[k + 1..];
  }

  /**
   * A sequence sorted on neighbours, whose elements are all different, is
   * strictly sorted: the comparator is a strict total order.
   */
  lemma {:induction false} DistinctAdjacentSorted(s: seq<ObjName>)
    requires AdjacentSorted(s)
    requires forall x :: multiset(s)[x] <= 1
    ensures StrictlySorted(s)
    decreases |s|
  {
    if |s| >= 2 {
      var t := s[1..];
      assert s == [s[0]] + t;
      assert forall x :: multiset(t)[x] <= multiset(s)[x];
      DistinctAdjacentSorted(t);
      if s[0] == s[1] {
        EqualNeighbours(s, 1);
        assert false;
      }
      ObjLessTrichotomy(s[0], s[1]);
      forall q | 1 < q < |s|
        ensures ObjLess(s[0], s[q])
      {
        assert ObjLess(t[0], t[q - 1]);
        ObjLessTransitive(s[0], s[1], s[q]);
      }
    }
  }

  /** With the same first element, a later element of `s` is a later element of `t`. */
  lemma OneLater(s: seq<ObjName>, t: seq<ObjName>, x: ObjName)
    requires StrictlySorted(s) && StrictlySorted(t)
    requires forall y :: y in s <==> y in t
    requires s != [] && t != [] && s[0] == t[0]
    ensures x in s[1..] ==> x in t[1..]
  {
    if x in s[1..] {
      var p :| 1 <= p < |s| && s[p] == x;
      ObjLessIrreflexive(x);
      assert x in t;
      var r :| 0 <= r < |t| && t[r] == x;
      assert t[1..][r - 1] == x;
    }
  }

  /** The first element of a strictly sorted list comes no later than any element of it. */
  lemma FirstNotAfter(s: seq<ObjName>, t: seq<ObjName>)
    requires StrictlySorted(t) && t != []
    requires s != [] && s[0] in t
    ensures !ObjLess(s[0], t[0])
  {
    var p :| 0 <= p < |t| && t[p] == s[0];
    if p == 0 {
      ObjLessIrreflexive(s[0]);
    } else {
      ObjLessAsymmetric(t[0], t[p]);
    }
  }

  /**
   * The order is deterministic: two strictly sorted lists holding the same
   * objects are the same list, whatever order the map yielded them in.
   */
  lemma {:induction false} StrictlySortedUnique(s: seq<ObjName>, t: seq<ObjName>)
    requires StrictlySorted(s) && StrictlySorted(t)
    requires forall x :: x in s <==> x in t
    ensures s == t
    decreases |s|
  {
    if s != [] {
      assert s[0] in s;
    }
    if t != [] {
      assert t[0] in t;
    }
    if s != [] && t != [] {
      FirstNotAfter(s, t);
      FirstNotAfter(t, s);
      ObjLessTrichotomy(s[0], t[0]);
      forall x
        ensures x in s[1..] <==> x in t[1..]
      {
        OneLater(s, t, x);
        OneLater(t, s, x);
      }
      StrictlySortedUnique(s[1..], t[1..]);
      assert s == [s[0]] + s[1..] && t == [t[0]] + t[1..];
    }
  }

  /** Swaps two neighbours of `a`. */
  method SwapDown(a: array<ObjName>, j: nat)
    requires 0 < j < a.Length
    modifies a
    ensures a[j - 1] == old(a[j]) && a[j] == old(a[j - 1])
    ensures forall k :: 0 <= k < a.Length && k != j && k != j - 1 ==> a[k] == old(a[k])
    ensures multiset(a[..]) == multiset(old(a[..]))
  {
    a[j], a[j - 1] := a[j - 1], a[j];
  }

  /** One pass of the insertion sort: moves a[i] down past every element after it in the order. */
  method InsertDown(a: array<ObjName>, i: nat)
    requires i < a.Length
    requires forall k :: 0 < k < i ==> ObjLe(a[k - 1], a[k])
    modifies a
    ensures forall k :: 0 < k <= i ==> ObjLe(a[k - 1], a[k])
    ensures multiset(a[..]) == multiset(old(a[..]))
  {
    var j := i;
    while j > 0 && ObjLess(a[j], a[j - 1])
      invariant 0 <= j <= i
      invariant forall k :: 0 < k <= i && k != j ==> ObjLe(a[k - 1], a[k])
      invariant 0 < j < i ==> ObjLe(a[j - 1], a[j + 1])
      invariant multiset(a[..]) == multiset(old(a[..]))
    {
      ObjLessAsymmetric(a[j], a[j - 1]);
      SwapDown(a, j);
      j := j - 1;
    }
  }

  /** The sort.Slice call: an in-place insertion sort by the comparator. */
  method SortObjects(a: array<ObjName>)
    modifies a
    ensures AdjacentSorted(a[..])
    ensures multiset(a[..]) == multiset(old(a[..]))
  {
    for i := 0 to a.Length
      invariant forall k :: 0 < k < i ==> ObjLe(a[k - 1], a[k])
      invariant multiset(a[..]) == multiset(old(a[..]))
    {
      InsertDown(a, i);
    }
  }

  /**
   * prepareListObject: exactly the objects with at least one generation
   * directive, strictly ordered by package path, then name.
   */
  method PrepareListObject(objMap: ObjMap) returns (list: seq<ObjName>)
    ensures StrictlySorted(list)
    ensures forall k :: k in list <==> k in objMap && |objMap[k]| != 0
    ensures forall k :: 0 <= k < |list| ==> list[k] in objMap
  {
    var collected := CollectSelected(objMap);
    var a := new ObjName[|collected|](i requires 0 <= i < |collected| => collected[i]);
    assert a[..] == collected;
    SortObjects(a);
    list := a[..];
    DistinctAdjacentSorted(list);
    forall k
      ensures k in list <==> k in Selected(objMap)
    {
      assert k in list <==> k in multiset(list);
    }
  }

  /** The map walk of prepareListObject: each object with a directive, once, in map order. */
  method CollectSelected(objMap: ObjMap) returns (collected: seq<ObjName>)
    ensures multiset(collected) == multiset(Selected(objMap))
  {
    collected := [];
    var remaining := objMap.Keys;
    while remaining != {}
      invariant remaining <= objMap.Keys
      invariant multiset(collected) == multiset(Selected(objMap) - remaining)
      decreases |remaining|
    {
      var k :| k in remaining;
      if |objMap[k]| != 0 {
        assert Selected(objMap) - (remaining - {k}) == (Selected(objMap) - remaining) + {k};
        collected := collected + [k];
      } else {
        assert Selected(objMap) - (remaining - {k}) == Selected(objMap) - remaining;
      }
      remaining := remaining - {k};
    }
  }

  // ---------------------------------------------------- the last loop of Generate

  /** The objects of each package's list are keys of that package's map. */
  predicate ListsIn(objMaps: seq<ObjMap>, lists: seq<seq<ObjName>>)
  {
    |lists| == |objMaps| && forall i, k :: 0 <= i < |lists| && 0 <= k < |lists[i]| ==> lists[i][k] in objMaps[i]
  }

  /** The pairs every generating package asks for, package by package. */
  function AllPairs(objMaps: seq<ObjMap>, lists: seq<seq<ObjName>>): seq<PairPkg>
    requires ListsIn(objMaps, lists)
    decreases |lists|
  {
    if lists == [] then []
    else
      var n := |lists| - 1;
      AllPairs(objMaps[..n], lists[..n]) + ListPairs(objMaps[n], lists[n])
  }

  lemma AskedAppend(a: seq<PairPkg>, b: seq<PairPkg>, p: ConvPair)
    ensures Asked(a + b, p) <==> Asked(a, p) || Asked(b, p)
  {
    if Asked(a, p) {
      var k :| 0 <= k < |a| && a[k].pair == p;
      assert (a + b)[k] == a[k];
    }
    if Asked(b, p) {
      var k :| 0 <= k < |b| && b[k].pair == p;
      assert (a + b)[|a| + k] == b[k];
    }
    if Asked(a + b, p) {
      var k :| 0 <= k < |a + b| && (a + b)[k].pair == p;
      if k < |a| {
        assert a[k] == (a + b)[k];
      } else {
        assert b[k - |a|] == (a + b)[k];
      }
    }
  }

  /** A listed object asks for the pairs of its own directives. */
  lemma {:induction false} ListPairsAsk(objMap: ObjMap, list: seq<ObjName>, j: nat, p: ConvPair)
    requires forall k :: 0 <= k < |list| ==> list[k] in objMap
    requires j < |list| && Asked(GenPairs(list[j], objMap[list[j]]), p)
    ensures Asked(ListPairs(objMap, list), p)
    decreases j
  {
    AskedAppend(GenPairs(list[0], objMap[list[0]]), ListPairs(objMap, list[1..]), p);
    if j > 0 {
      assert list[1..][j - 1] == list[j];
      ListPairsAsk(objMap, list[1..], j - 1, p);
    }
  }

  /** A package's listed objects ask for their pairs in the pairs of all packages. */
  lemma {:induction false} AllPairsAsk(objMaps: seq<ObjMap>, lists: seq<seq<ObjName>>, i: nat, p: ConvPair)
    requires ListsIn(objMaps, lists)
    requires i < |lists| && Asked(ListPairs(objMaps[i], lists[i]), p)
    ensures Asked(AllPairs(objMaps, lists), p)
    decreases |lists|
  {
    var n := |lists| - 1;
    AskedAppend(AllPairs(objMaps[..n], lists[..n]), ListPairs(objMaps[n], lists[n]), p);
    if i < n {
      AllPairsAsk(objMaps[..n], lists[..n], i, p);
    }
  }

  /**
   * After the last loop of Generate, every Type-mode directive of a listed
   * object has a generated package in both directions, and every custom
   * function filed before keeps its function and its mode.
   */
  lemma PreparedTable(before: ConvTable, objMaps: seq<ObjMap>, lists: seq<seq<ObjName>>, i: nat, j: nat, k: nat)
    requires ListsIn(objMaps, lists)
    requires i < |lists| && j < |lists[i]|
    requires k < |objMaps[i][lists[i][j]]| && objMaps[i][lists[i][j]][k].mode == TypeMode
    ensures var after, src, obj := FileAll(before, AllPairs(objMaps, lists)), lists[i][j], objMaps[i][lists[i][j]][k].obj;
            && ConvPair(true, src, obj) in after && after[ConvPair(true, src, obj)].converterPkg.Some?
            && ConvPair(true, obj, src) in after && after[ConvPair(true, obj, src)].converterPkg.Some?
    ensures var after := FileAll(before, AllPairs(objMaps, lists));
            forall p :: p in before ==> p in after && after[p].fn == before[p].fn && after[p].mode == before[p].mode
  {
    var src, gens := lists[i][j], objMaps[i][lists[i][j]];
    var all := AllPairs(objMaps, lists);
    GenPairsBoth(src, gens, k);
    var there := ConvPair(true, src, gens[k].obj);
    var back := ConvPair(true, gens[k].obj, src);
    ListPairsAsk(objMaps[i], lists[i], j, there);
    ListPairsAsk(objMaps[i], lists[i], j, back);
    AllPairsAsk(objMaps, lists, i, there);
    AllPairsAsk(objMaps, lists, i, back);
    FileAllSpec(before, all);
  }

  /** Each list holds exactly the types of its package that carry a directive, in order. */
  ghost predicate ListsPrepared(objMaps: seq<ObjMap>, lists: seq<seq<ObjName>>)
    requires |lists| <= |objMaps|
  {
    && (forall m :: 0 <= m < |lists| ==> StrictlySorted(lists[m]))
    && (forall m, k :: 0 <= m < |lists| ==> (k in lists[m] <==> k in objMaps[m] && |objMaps[m][k]| != 0))
  }

  /** Appending the list of package `i` extends the asked pairs by that package's pairs. */
  lemma AllPairsSnoc(objMaps: seq<ObjMap>, lists: seq<seq<ObjName>>, i: nat, list: seq<ObjName>)
    requires i < |objMaps| && ListsIn(objMaps[..i], lists)
    requires forall k :: 0 <= k < |list| ==> list[k] in objMaps[i]
    ensures ListsIn(objMaps[..i + 1], lists + [list])
    ensures AllPairs(objMaps[..i + 1], lists + [list]) == AllPairs(objMaps[..i], lists) + ListPairs(objMaps[i], list)
  {
    var ms, ls := objMaps[..i + 1], lists + [list];
    forall m, k | 0 <= m < |ls| && 0 <= k < |ls[m]|
      ensures ls[m][k] in ms[m]
    {
      if m < i {
        assert ls[m] == lists[m] && ms[m] == objMaps[..i][m];
      } else {
        assert ls[m] == list && ms[m] == objMaps[i];
      }
    }
    assert ListsIn(ms, ls);
    assert ms[..i] == objMaps[..i] && ls[..i] == lists;
  }

  /** Filing the pairs of package `i` after those of the packages before it. */
  lemma PrepareAllStep(t0: ConvTable, cur: ConvTable,
                       objMaps: seq<ObjMap>, lists: seq<seq<ObjName>>, i: nat, list: seq<ObjName>)
    requires i < |objMaps| && ListsIn(objMaps[..i], lists)
    requires forall k :: 0 <= k < |list| ==> list[k] in objMaps[i]
    requires cur == FileAll(t0, AllPairs(objMaps[..i], lists))
    ensures ListsIn(objMaps[..i + 1], lists + [list])
    ensures FileAll(cur, ListPairs(objMaps[i], list)) == FileAll(t0, AllPairs(objMaps[..i + 1], lists + [list]))
  {
    AllPairsSnoc(objMaps, lists, i, list);
    FileAllAppend(t0, AllPairs(objMaps[..i], lists), ListPairs(objMaps[i], list));
  }

  /** The per-package preparation facts extend by one package. */
  lemma ListsPreparedSnoc(objMaps: seq<ObjMap>, lists: seq<seq<ObjName>>, list: seq<ObjName>)
    requires |lists| < |objMaps| && ListsPrepared(objMaps, lists)
    requires StrictlySorted(list)
    requires forall k :: k in list <==> k in objMaps[|lists|] && |objMaps[|lists|][k]| != 0
    ensures ListsPrepared(objMaps, lists + [list])
  {
    var ls := lists + [list];
    forall m | 0 <= m < |ls|
      ensures StrictlySorted(ls[m])
    {
      if m < |lists| {
        assert ls[m] == lists[m];
      } else {
        assert ls[m] == list;
      }
    }
    forall m, k | 0 <= m < |ls|
      ensures k in ls[m] <==> k in objMaps[m] && |objMaps[m][k]| != 0
    {
      if m < |lists| {
        assert ls[m] == lists[m];
      } else {
        assert ls[m] == list;
      }
    }
  }

  /**
   * The last loop of Generate: each generating package lists its objects,
   * then files the pairs they ask for in the shared table.
   */
  method PrepareAll(gen: Generator, objMaps: seq<ObjMap>) returns (lists: seq<seq<ObjName>>)
    modifies gen`convPairs
    ensures ListsIn(objMaps, lists)
    ensures ListsPrepared(objMaps, lists)
    ensures gen.convPairs == FileAll(old(gen.convPairs), AllPairs(objMaps, lists))
  {
    lists := [];
    for i := 0 to |objMaps|
      invariant ListsIn(objMaps[..i], lists)
      invariant ListsPrepared(objMaps, lists)
      invariant gen.convPairs == FileAll(old(gen.convPairs), AllPairs(objMaps[..i], lists))
    {
      var list := PrepareListObject(objMaps[i]);
      PrepareAllStep(old(gen.convPairs), gen.convPairs, objMaps, lists, i, list);
      ListsPreparedSnoc(objMaps, lists, list);
      gen.PrepareConverts(objMaps[i], list);
      lists := lists + [list];
    }
    assert objMaps[..|objMaps|] == objMaps;
  }
}
