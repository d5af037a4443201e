/**
 * The field lists plugin/plugin.go builds for each generated conversion:
 * matchField, contains, validateEmbedded and the field loops of
 * generateConvertTypeImpl, generateCreate and generateUpdate.
 */
module Fields {

  import opened Wrappers
  import opened GoTypes

  /** fieldConvert: an output field, the input field of the same name if any, and whether it is an identifier. */
  datatype FieldConvert = FieldConvert(arg: Option<Var>, out: Var, isIdentifier: bool)

  // ---------------------------------------------------- matchField, contains

  /** The first field called `name`, if there is one. */
  function MatchOf(fields: seq<Var>, name: string): (r: Option<Var>)
    ensures r.None? <==> forall k :: 0 <= k < |fields| ==> fields[k].name != name
    ensures r.Some? ==> exists i :: 0 <= i < |fields| && fields[i] == r.value && r.value.name == name
                                    && forall j :: 0 <= j < i ==> fields[j].name != name
  {
    if fields == [] then None
    else if fields[0].name == name then Some(fields[0])
    else
      var r := MatchOf(fields[1..], name);
      assert r.Some? ==> exists i :: 0 <= i < |fields| && fields[i] == r.value && r.value.name == name
                                     && forall j :: 0 <= j < i ==> fields[j].name != name by {
        if r.Some? {
          var i :| 0 <= i < |fields[1..]| && fields[1..][i] == r.value && r.value.name == name
                   && forall j :: 0 <= j < i ==> fields[1..][j].name != name;
          assert forall j :: 0 <= j < i + 1 ==> fields[j].name != name by {
            forall j | 0 <= j < i + 1 ensures fields[j].name != name {
              if j > 0 { assert fields[j] == fields[1..][j - 1]; }
            }
          }
        }
      }
      r
  }

  /** matchField: the field of `fields` with the name of `base`. */
  method MatchField(base: Var, fields: seq<Var>) returns (r: Option<Var>)
    ensures r == MatchOf(fields, base.name)
  {
    for i := 0 to |fields|
      invariant MatchOf(fields, base.name) == MatchOf(fields[i..], base.name)
    {
      if fields[i].name == base.name {
        return Some(fields[i]);
      }
      assert fields[i..][1..] == fields[i + 1..];
    }
    return None;
  }

  /** contains: whether `item` is one of `ss`. */
  method Contains(ss: seq<string>, item: string) returns (b: bool)
    ensures b <==> item in ss
  {
    for i := 0 to |ss|
      invariant item !in ss[..i]
    {
      if ss[i] == item {
        return true;
      }
      assert ss[..i + 1] == ss[..i] + [ss[i]];
    }
    assert ss[..|ss|] == ss;
    return false;
  }

  // ---------------------------------------------------- validateEmbedded

  /** An embedded field, possibly behind a pointer, of the named type `target`. */
  predicate EmbedsType(f: Var, target: ObjName)
  {
    f.embedded && Same(SkipPointer(f.typ), Named(target))
  }

  /** The first field of `fields` that embeds `target`. */
  function FirstEmbedding(fields: seq<Var>, target: ObjName): (r: Option<Var>)
    ensures r.None? <==> forall k :: 0 <= k < |fields| ==> !EmbedsType(fields[k], target)
    ensures r.Some? ==> r.value in fields && EmbedsType(r.value, target)
  {
    if fields == [] then None
    else if EmbedsType(fields[0], target) then Some(fields[0])
    else FirstEmbedding(fields[1..], target)
  }

  /** The result of validateEmbedded: the input field embedding the output type, or the reverse. */
  datatype Embedding = Embedding(arg: Option<Var>, out: Option<Var>)

  /**
   * validateEmbedded: an input field embedding the output type is looked for
   * first; only without one is an output field embedding the input type.
   */
  function EmbeddingOf(u: Universe, inObj: ObjName, outObj: ObjName): (r: Embedding)
    requires IsStruct(u, inObj) && IsStruct(u, outObj)
    ensures !(r.arg.Some? && r.out.Some?)
    ensures r.arg.Some? ==> r.arg.value in StructOf(u, inObj) && EmbedsType(r.arg.value, outObj)
    ensures r.out.Some? ==> r.out.value in StructOf(u, outObj) && EmbedsType(r.out.value, inObj)
  {
    match FirstEmbedding(StructOf(u, inObj), outObj)
    case Some(f) => Embedding(Some(f), None)
    case None => Embedding(None, FirstEmbedding(StructOf(u, outObj), inObj))
  }

  method FindEmbedding(fields: seq<Var>, target: ObjName) returns (r: Option<Var>)
    ensures r == FirstEmbedding(fields, target)
  {
    for i := 0 to |fields|
      invariant FirstEmbedding(fields, target) == FirstEmbedding(fields[i..], target)
    {
      if fields[i].embedded && SkipPointer(fields[i].typ) == Named(target) {
        return Some(fields[i]);
      }
      assert fields[i..][1..] == fields[i + 1..];
    }
    return None;
  }

  method ValidateEmbedded(u: Universe, inObj: ObjName, outObj: ObjName) returns (r: Embedding)
    requires IsStruct(u, inObj) && IsStruct(u, outObj)
    ensures r == EmbeddingOf(u, inObj, outObj)
  {
    var inField := FindEmbedding(StructOf(u, inObj), outObj);
    if inField.Some? {
      return Embedding(inField, None);
    }
    var outField := FindEmbedding(StructOf(u, outObj), inObj);
    return Embedding(None, outField);
  }

  // ---------------------------------------------------- generateConvertTypeImpl

  /**
   * The field list of a Type-mode conversion, before the embedded-input rule:
   * every output field with its name match, except the embedded output field
   * when nothing matches it.
   */
  function TypeFieldList(outs: seq<Var>, ins: seq<Var>, embeddedOut: Option<Var>): (r: seq<FieldConvert>)
    ensures |r| <= |outs|
  {
    if outs == [] then []
    else
      var o := outs[|outs| - 1];
      var m := MatchOf(ins, o.name);
      TypeFieldList(outs[..|outs| - 1], ins, embeddedOut)
        + (if m.Some? || embeddedOut != Some(o) then [FieldConvert(m, o, false)] else [])
  }

  /** generateConvertTypeImpl: the fields and the embedding the conversion from `inObj` to `outObj` is rendered with. */
  function TypeFields(u: Universe, inObj: ObjName, outObj: ObjName): (Embedding, seq<FieldConvert>)
    requires IsStruct(u, inObj) && IsStruct(u, outObj)
  {
    var e := EmbeddingOf(u, inObj, outObj);
    (e, if e.arg.Some? then [] else TypeFieldList(StructOf(u, outObj), StructOf(u, inObj), e.out))
  }

  method GenerateConvertTypeImpl(u: Universe, inObj: ObjName, outObj: ObjName)
    returns (embedding: Embedding, fields: seq<FieldConvert>)
    requires IsStruct(u, inObj) && IsStruct(u, outObj)
    ensures (embedding, fields) == TypeFields(u, inObj, outObj)
  {
    var inSt, outSt := StructOf(u, inObj), StructOf(u, outObj);
    fields := [];
    embedding := ValidateEmbedded(u, inObj, outObj);
    for i := 0 to |outSt|
      invariant fields == TypeFieldList(outSt[..i], inSt, embedding.out)
    {
      var outField := outSt[i];
      var inField := MatchField(outField, inSt);
      assert outSt[..i + 1][..i] == outSt[..i];
      if inField.Some? || embedding.out != Some(outField) {
        fields := fields + [FieldConvert(inField, outField, false)];
      }
    }
    assert outSt[..|outSt|] == outSt;
    if embedding.arg.Some? {
      fields := [];
    }
  }

  /** Every listed field is paired with the first input field of its name, and none is an identifier. */
  lemma {:induction false} TypeFieldListPairs(outs: seq<Var>, ins: seq<Var>, e: Option<Var>)
    ensures forall k :: 0 <= k < |TypeFieldList(outs, ins, e)| ==>
              var f := TypeFieldList(outs, ins, e)[k];
              f.out in outs && f.arg == MatchOf(ins, f.out.name) && !f.isIdentifier
  {
    if outs != [] {
      TypeFieldListPairs(outs[..|outs| - 1], ins, e);
    }
  }

  /** Without an embedded output field, every output field is listed, in order. */
  lemma {:induction false} TypeFieldListAll(outs: seq<Var>, ins: seq<Var>)
    ensures |TypeFieldList(outs, ins, None)| == |outs|
    ensures forall k :: 0 <= k < |outs| ==> TypeFieldList(outs, ins, None)[k].out == outs[k]
  {
    if outs != [] {
      TypeFieldListAll(outs[..|outs| - 1], ins);
    }
  }

  /**
   * An embedded output field that no input field matches by name is the one
   * field dropped: the others stay, in order.
   */
  lemma {:induction false} TypeFieldListDropsEmbedded(outs: seq<Var>, ins: seq<Var>, e: Var)
    requires MatchOf(ins, e.name).None?
    ensures TypeFieldList(outs, ins, Some(e)) == TypeFieldList(Without(outs, e), ins, None)
  {
    if outs != [] {
      var init, o := outs[..|outs| - 1], outs[|outs| - 1];
      TypeFieldListDropsEmbedded(init, ins, e);
      WithoutSnoc(init, o, e);
      assert outs == init + [o];
      assert Without(outs, e) == Without(init, e) + (if o == e then [] else [o]);
      assert TypeFieldList(outs, ins, Some(e)) == TypeFieldList(init, ins, Some(e))
        + (if MatchOf(ins, o.name).Some? || Some(e) != Some(o) then [FieldConvert(MatchOf(ins, o.name), o, false)] else []);
      if o != e {
        var w := Without(init, e) + [o];
        assert w[..|w| - 1] == Without(init, e) && w[|w| - 1] == o;
        assert TypeFieldList(w, ins, None) == TypeFieldList(Without(init, e), ins, None) + [FieldConvert(MatchOf(ins, o.name), o, false)];
      } else {
        assert Without(outs, e) == Without(init, e);
        assert TypeFieldList(outs, ins, Some(e)) == TypeFieldList(init, ins, Some(e));
      }
    }
  }

  /** `xs` without the elements equal to `e`. */
  function Without(xs: seq<Var>, e: Var): (r: seq<Var>)
    ensures e !in r && |r| <= |xs|
  {
    if xs == [] then []
    else Without(xs[..|xs| - 1], e) + (if xs[|xs| - 1] == e then [] else [xs[|xs| - 1]])
  }

  lemma WithoutSnoc(xs: seq<Var>, x: Var, e: Var)
    ensures Without(xs + [x], e) == Without(xs, e) + (if x == e then [] else [x])
  {
    assert (xs + [x])[..|xs + [x]| - 1] == xs;
  }

  /** An embedded input field leaves no field list at all. */
  lemma TypeFieldsEmbeddedArg(u: Universe, inObj: ObjName, outObj: ObjName)
    requires IsStruct(u, inObj) && IsStruct(u, outObj)
    requires FirstEmbedding(StructOf(u, inObj), outObj).Some?
    ensures TypeFields(u, inObj, outObj).1 == []
    ensures TypeFields(u, inObj, outObj).0.out.None?
  {
  }

  // ---------------------------------------------------- generateCreate

  /** The first `i` fields generateCreate produces: each output field with its namesake. */
  predicate CreatedUpTo(fields: seq<FieldConvert>, argSt: seq<Var>, outSt: seq<Var>, i: nat)
  {
    i <= |outSt| && |fields| == i
    && forall k :: 0 <= k < i ==> fields[k] == FieldConvert(MatchOf(argSt, outSt[k].name), outSt[k], false)
  }

  lemma CreatedUpToStep(fields: seq<FieldConvert>, argSt: seq<Var>, outSt: seq<Var>, i: nat)
    requires CreatedUpTo(fields, argSt, outSt, i) && i < |outSt|
    ensures CreatedUpTo(fields + [FieldConvert(MatchOf(argSt, outSt[i].name), outSt[i], false)], argSt, outSt, i + 1)
  {
  }

  /** generateCreate: every output field, in order, with the argument field of the same name. */
  method GenerateCreate(u: Universe, argObj: ObjName, outObj: ObjName) returns (fields: seq<FieldConvert>)
    requires IsStruct(u, argObj) && IsStruct(u, outObj)
    ensures |fields| == |StructOf(u, outObj)|
    ensures forall k :: 0 <= k < |fields| ==>
              fields[k] == FieldConvert(MatchOf(StructOf(u, argObj), StructOf(u, outObj)[k].name), StructOf(u, outObj)[k], false)
  {
    var outSt, argSt := StructOf(u, outObj), StructOf(u, argObj);
    fields := [];
    for i := 0 to |outSt|
      invariant CreatedUpTo(fields, argSt, outSt, i)
    {
      var argField := MatchField(outSt[i], argSt);
      CreatedUpToStep(fields, argSt, outSt, i);
      fields := fields + [FieldConvert(argField, outSt[i], false)];
    }
  }

  // ---------------------------------------------------- generateUpdate

  datatype UpdateError = IdentifierNotFound(arg: string, identifiers: seq<string>)

  /** The number of output fields whose name is one of the identifiers. */
  function IdentCount(outs: seq<Var>, identifiers: seq<string>): (n: nat)
    ensures n <= |outs|
  {
    if outs == [] then 0
    else IdentCount(outs[..|outs| - 1], identifiers) + (if outs[|outs| - 1].name in identifiers then 1 else 0)
  }

  /**
   * generateUpdate: every output field with the argument field of the same
   * name, marked as an identifier exactly when its name is one of the
   * identifiers; unless as many fields are marked as there are identifiers,
   * "identifier not found".
   */
  method GenerateUpdate(u: Universe, argObj: ObjName, outObj: ObjName, identifiers: seq<string>)
    returns (r: Result<seq<FieldConvert>, UpdateError>)
    requires IsStruct(u, argObj) && IsStruct(u, outObj)
    ensures r.Err? <==> IdentCount(StructOf(u, outObj), identifiers) != |identifiers|
    ensures r.Err? ==> r.error == IdentifierNotFound(argObj.name, identifiers)
    ensures r.Ok? ==> |r.value| == |StructOf(u, outObj)|
    ensures r.Ok? ==> forall k :: 0 <= k < |r.value| ==>
              var o := StructOf(u, outObj)[k];
              r.value[k] == FieldConvert(MatchOf(StructOf(u, argObj), o.name), o, o.name in identifiers)
  {
    var outSt, argSt := StructOf(u, outObj), StructOf(u, argObj);
    var fields := [];
    var identCount := 0;
    for i := 0 to |outSt|
      invariant |fields| == i
      invariant identCount == IdentCount(outSt[..i], identifiers)
      invariant forall k :: 0 <= k < i ==>
                  fields[k] == FieldConvert(MatchOf(argSt, outSt[k].name), outSt[k], outSt[k].name in identifiers)
    {
      var outField := outSt[i];
      var argField := MatchField(outField, argSt);
      var isIdentifier := Contains(identifiers, outField.name);
      assert outSt[..i + 1][..i] == outSt[..i];
      if isIdentifier {
        identCount := identCount + 1;
      }
      fields := fields + [FieldConvert(argField, outField, isIdentifier)];
    }
    assert outSt[..|outSt|] == outSt;
    if identCount != |identifiers| {
      return Err(IdentifierNotFound(argObj.name, identifiers));
    }
    return Ok(fields);
  }

  /** The names of a list of fields, as a set. */
  function NameSet(fields: seq<Var>): (r: set<string>)
    ensures forall x :: x in r <==> exists k :: 0 <= k < |fields| && fields[k].name == x
  {
    if fields == [] then {}
    else
      var init := fields[..|fields| - 1];
      assert forall k :: 0 <= k < |init| ==> init[k] == fields[k];
      NameSet(init) + {fields[|fields| - 1].name}
  }

  /** The elements of a list of strings, as a set. */
  function SetOf(xs: seq<string>): set<string>
  {
    set x | x in xs
  }

  /** With distinct field names, the identifier count is the number of identifiers that name a field. */
  lemma {:induction false} IdentCountNames(outs: seq<Var>, identifiers: seq<string>)
    requires forall i, j :: 0 <= i < j < |outs| ==> outs[i].name != outs[j].name
    ensures IdentCount(outs, identifiers) == |NameSet(outs) * SetOf(identifiers)|
  {
    if outs != [] {
      var init, o := outs[..|outs| - 1], outs[|outs| - 1];
      LastNameFresh(outs);
      IdentCountNames(init, identifiers);
      AddOneCount(NameSet(init), o.name, SetOf(identifiers));
    }
  }

  /** With distinct field names, the last name is not among the others, which stay distinct. */
  lemma LastNameFresh(outs: seq<Var>)
    requires outs != []
    requires forall i, j :: 0 <= i < j < |outs| ==> outs[i].name != outs[j].name
    ensures outs[|outs| - 1].name !in NameSet(outs[..|outs| - 1])
    ensures var init := outs[..|outs| - 1]; forall i, j :: 0 <= i < j < |init| ==> init[i].name != init[j].name
  {
    var init := outs[..|outs| - 1];
    assert forall k :: 0 <= k < |init| ==> init[k] == outs[k];
    forall k | 0 <= k < |init| ensures init[k].name != outs[|outs| - 1].name {
      assert init[k] == outs[k];
    }
  }

  /** Adding a fresh name to a set of names adds one to its meet with the identifiers exactly when it is one. */
  lemma AddOneCount(a: set<string>, x: string, ids: set<string>)
    requires x !in a
    ensures |(a + {x}) * ids| == |a * ids| + (if x in ids then 1 else 0)
  {
    if x in ids {
      assert (a + {x}) * ids == (a * ids) + {x};
    } else {
      assert (a + {x}) * ids == a * ids;
    }
  }

  /**
   * For a struct with distinct field names and distinct identifiers, the
   * update succeeds exactly when every identifier names an output field.
   */
  lemma UpdateSucceedsIff(outs: seq<Var>, identifiers: seq<string>)
    requires forall i, j :: 0 <= i < j < |outs| ==> outs[i].name != outs[j].name
    requires forall i, j :: 0 <= i < j < |identifiers| ==> identifiers[i] != identifiers[j]
    ensures IdentCount(outs, identifiers) == |identifiers| <==>
              forall id :: id in identifiers ==> exists k :: 0 <= k < |outs| && outs[k].name == id
  {
    IdentCountNames(outs, identifiers);
    var names := NameSet(outs);
    var ids := SetOf(identifiers);
    DistinctCard(identifiers);
    assert |ids| == |ids - names| + |names * ids|;
    if forall id :: id in identifiers ==> exists k :: 0 <= k < |outs| && outs[k].name == id {
      assert ids - names == {};
    } else {
      var id :| id in identifiers && !exists k :: 0 <= k < |outs| && outs[k].name == id;
      assert id in ids - names;
    }
  }

  /** A sequence without repetitions has as many distinct elements as entries. */
  lemma {:induction false} DistinctCard(xs: seq<string>)
    requires forall i, j :: 0 <= i < j < |xs| ==> xs[i] != xs[j]
    ensures |SetOf(xs)| == |xs|
  {
    if xs != [] {
      DistinctCard(xs[1..]);
      assert SetOf(xs) == {xs[0]} + SetOf(xs[1..]);
      assert xs[0] !in SetOf(xs[1..]) by {
        forall k | 0 <= k < |xs[1..]| ensures xs[1..][k] != xs[0] {
          assert xs[1..][k] == xs[k + 1];
        }
      }
    }
  }

  /** A repeated identifier can never be satisfied: the update always fails. */
  lemma RepeatedIdentifierFails(outs: seq<Var>, id: string)
    requires forall i, j :: 0 <= i < j < |outs| ==> outs[i].name != outs[j].name
    ensures IdentCount(outs, [id, id]) != 2
  {
    IdentCountNames(outs, [id, id]);
    var names := NameSet(outs);
    assert SetOf([id, id]) == {id};
    if id in names {
      assert names * {id} == {id};
    } else {
      assert names * {id} == {};
    }
  }
}
