/**
 * The per-field decisions of plugin/template.go: which expression the
 * generated code assigns to each output field (renderFieldValue for the Type
 * and Create modes, renderFieldApply for the Update mode), the delegation to a
 * conversion filed in the table (renderCustomConversion and
 * renderCustomConversion0), the basic-type conversion (renderSimpleConversion
 * and checkBasicType), the "Null*" Apply check with its cache
 * (checkApplicable), and the embedded-struct copy (renderEmbeddedConvert).
 * The generated text itself is not modelled: each decision is a Strategy.
 */
module Render {

  import opened Wrappers
  import opened Util
  import opened GoTypes
  import opened Pairs
  import opened Fields
  import opened Table

  /**
   * What the template writes for one output field. `source` and `field` name
   * the value read (`<source>.<field>`); the three kinds that keep the output
   * field write `out.<field>` back.
   */
  datatype Strategy =
    | Identifier(field: string)
    | NoChange(field: string)
    | SimpleAssign(source: string, field: string)
    | ApplyChange(source: string, field: string, outField: string)
    | CustomConversion(isPlural: bool, arg: ObjName, out: ObjName, converterPkg: string, source: string, field: string)
    | NoConverterPackage(fn: Option<ObjName>, arg: ObjName, out: ObjName)
    | SimpleConversion(to: Type, source: string, field: string)
    | TypesDoNotMatch(field: string)

  /** The comment left in lastComment once the field is rendered. */
  function Comment(s: Strategy): string
  {
    match s
    case Identifier(_) => "// identifier"
    case NoChange(_) => "// no change"
    case SimpleAssign(_, _) => "// simple assign"
    case ApplyChange(_, _, _) => "// apply change"
    case CustomConversion(_, _, _, _, _, _) => ""
    case NoConverterPackage(_, _, _) => ""
    case SimpleConversion(_, _, _) => "// simple conversion"
    case TypesDoNotMatch(_) => "// types do not match"
  }

  /** The strategies that write the output field back unchanged. */
  predicate KeepsOut(s: Strategy)
  {
    s.Identifier? || s.NoChange? || s.TypesDoNotMatch?
  }

  // ---------------------------------------------------- basic conversions

  /**
   * checkBasicType: the basic type a type stands for, through its named type.
   * go/types never gives a named type as an underlying type, so the loop of
   * the source takes exactly one step.
   */
  function BasicOf(u: Universe, t: Type): (r: Option<BasicKind>)
    ensures r.Some? <==> Underlying(u, t).Basic?
    ensures r.Some? ==> Underlying(u, t) == Basic(r.value)
  {
    var under := Underlying(u, t);
    if under.Basic? then Some(under.kind) else None
  }

  /**
   * Two basic types a Go conversion `T(x)` is generated between: the same
   * Kind() (so `byte` and `uint8` too), or two numeric kinds.
   */
  predicate Convertible(a: BasicKind, b: BasicKind)
  {
    KindOf(a) == KindOf(b) || (IsNumeric(a) && IsNumeric(b))
  }

  /**
   * renderSimpleConversion: a conversion to the output type when both types
   * stand for basic types of the same kind or of two numeric kinds.
   */
  function SimpleConversionOf(u: Universe, prefix: string, arg: Var, out: Var): (r: Option<Strategy>)
    ensures r.Some? <==>
              exists a, b :: Underlying(u, arg.typ) == Basic(a) && Underlying(u, out.typ) == Basic(b) && Convertible(a, b)
    ensures r.Some? ==> r.value == SimpleConversion(out.typ, prefix, arg.name)
  {
    var a, b := BasicOf(u, arg.typ), BasicOf(u, out.typ);
    if a.Some? && b.Some? && Convertible(a.value, b.value) then Some(SimpleConversion(out.typ, prefix, arg.name)) else None
  }

  // ---------------------------------------------------- custom conversions

  /**
   * renderCustomConversion0: the call of the generated conversion for the
   * entry, or the panic when no generated package converts between the two
   * types.
   */
  function Delegate(isPlural: bool, a: ObjName, o: ObjName, conv: ConversionFunc, source: string, field: string): (r: Strategy)
    ensures r.NoConverterPackage? <==> conv.converterPkg.None?
    ensures r.NoConverterPackage? ==> r == NoConverterPackage(conv.fn, a, o)
    ensures r.CustomConversion? ==>
              r == CustomConversion(isPlural, a, o, conv.converterPkg.value, source, field)
    ensures r.CustomConversion? || r.NoConverterPackage?
  {
    if conv.converterPkg.None? then NoConverterPackage(conv.fn, a, o)
    else CustomConversion(isPlural, a, o, conv.converterPkg.value, source, field)
  }

  /** A pair valid and filed in the table. */
  predicate FiledPair(table: ConvTable, p: ConvPair)
  {
    p.valid && p in table
  }

  /** The pair renderCustomConversion looks up: the slice-of-pointers pair when valid, else the pointer pair. */
  function PairUsed(u: Universe, arg: Var, out: Var): (r: ConvPair)
    ensures r.valid ==> r == SlicePair(u, arg.typ, out.typ).0 || r == PointerPair(arg.typ, out.typ).0
    ensures SlicePair(u, arg.typ, out.typ).0.valid ==> r == SlicePair(u, arg.typ, out.typ).0
  {
    if SlicePair(u, arg.typ, out.typ).0.valid then SlicePair(u, arg.typ, out.typ).0 else PointerPair(arg.typ, out.typ).0
  }

  /**
   * renderCustomConversion: the slice-of-pointers pair is tried before the
   * pointer pair; a valid pair without an entry gives nothing, so the caller
   * moves on to the next strategy.
   */
  function CustomOf(u: Universe, table: ConvTable, prefix: string, arg: Var, out: Var): (r: Option<Strategy>)
    ensures r.None? <==>
              !FiledPair(table, SlicePair(u, arg.typ, out.typ).0) && !FiledPair(table, PointerPair(arg.typ, out.typ).0)
    ensures r.Some? ==> r.value.CustomConversion? || r.value.NoConverterPackage?
    ensures r.Some? ==>
              r.value == Delegate(SlicePair(u, arg.typ, out.typ).0.valid, PairUsed(u, arg, out).arg, PairUsed(u, arg, out).out,
                                  table[PairUsed(u, arg, out)], prefix, arg.name)
    ensures r.Some? ==>
              var p := ConvPair(true, r.value.arg, r.value.out);
              && p == PairUsed(u, arg, out)
              && p in table
              && (r.value.NoConverterPackage? <==> table[p].converterPkg.None?)
              && (r.value.NoConverterPackage? ==> r.value.fn == table[p].fn)
              && (r.value.CustomConversion? ==> Some(r.value.converterPkg) == table[p].converterPkg)
    ensures r.Some? && r.value.CustomConversion? ==>
              (r.value.isPlural <==> SlicePair(u, arg.typ, out.typ).0.valid)
  {
    SliceAndPointerExclusive(u, arg.typ, out.typ);
    var sp := SlicePair(u, arg.typ, out.typ).0;
    var pp := PointerPair(arg.typ, out.typ).0;
    if sp.valid then
      if sp in table then Some(Delegate(true, sp.arg, sp.out, table[sp], prefix, arg.name)) else None
    else if pp.valid then
      if pp in table then Some(Delegate(false, pp.arg, pp.out, table[pp], prefix, arg.name)) else None
    else None
  }

  /** The steps renderFieldValue and renderFieldApply share after their own: custom, basic, mismatch. */
  function Converted(u: Universe, table: ConvTable, prefix: string, arg: Var, out: Var): (r: Strategy)
    ensures CustomOf(u, table, prefix, arg, out).Some? ==> r == CustomOf(u, table, prefix, arg, out).value
    ensures CustomOf(u, table, prefix, arg, out).None? && SimpleConversionOf(u, prefix, arg, out).Some? ==>
              r == SimpleConversionOf(u, prefix, arg, out).value
    ensures r.TypesDoNotMatch? <==>
              CustomOf(u, table, prefix, arg, out).None? && SimpleConversionOf(u, prefix, arg, out).None?
    ensures r.TypesDoNotMatch? ==> r.field == out.name
  {
    match CustomOf(u, table, prefix, arg, out)
    case Some(s) => s
    case None =>
      match SimpleConversionOf(u, prefix, arg, out)
      case Some(s) => s
      case None => TypesDoNotMatch(out.name)
  }

  // ---------------------------------------------------- field strategies

  /** checkApplicable without its cache: a "Null*" type with an Apply method. */
  predicate Applicable(u: Universe, obj: ObjName)
  {
    HasPrefixCamel(obj.name, "Null") && "Apply" in Methods(u, obj)
  }

  /**
   * renderFieldValue: no input field keeps the output; compatible types are
   * assigned; then a filed conversion, a basic conversion, or a mismatch
   * that keeps the output.
   */
  function FieldValue(u: Universe, table: ConvTable, prefix: string, f: FieldConvert): (r: Strategy)
    ensures r.NoChange? <==> f.arg.None?
    ensures r.SimpleAssign? <==> f.arg.Some? && Compatible(f.arg.value.typ, f.out.typ)
    ensures r.SimpleAssign? ==> r == SimpleAssign(prefix, f.arg.value.name)
    ensures KeepsOut(r) ==> r.field == f.out.name
    ensures !r.Identifier? && !r.ApplyChange?
  {
    if f.arg.None? then NoChange(f.out.name)
    else if Compatible(f.arg.value.typ, f.out.typ) then SimpleAssign(prefix, f.arg.value.name)
    else Converted(u, table, prefix, f.arg.value, f.out)
  }

  /**
   * renderFieldApply: an identifier always keeps the output; otherwise the
   * steps of renderFieldValue, with the "Null*" Apply step after the
   * compatibility check, and a simple assignment that reads the output
   * field's name from `arg`.
   */
  function FieldApply(u: Universe, table: ConvTable, prefix: string, f: FieldConvert): (r: Strategy)
    ensures r.Identifier? <==> f.isIdentifier
    ensures r.ApplyChange? <==>
              && !f.isIdentifier && f.arg.Some? && !Compatible(f.arg.value.typ, f.out.typ)
              && f.arg.value.typ.Named? && Applicable(u, f.arg.value.typ.obj)
    ensures r.ApplyChange? ==> r == ApplyChange(prefix, f.arg.value.name, f.out.name)
    ensures KeepsOut(r) ==> r.field == f.out.name
  {
    if f.isIdentifier then Identifier(f.out.name)
    else if f.arg.None? then NoChange(f.out.name)
    else if Compatible(f.arg.value.typ, f.out.typ) then SimpleAssign("arg", f.out.name)
    else if f.arg.value.typ.Named? && Applicable(u, f.arg.value.typ.obj) then ApplyChange(prefix, f.arg.value.name, f.out.name)
    else Converted(u, table, prefix, f.arg.value, f.out)
  }

  /**
   * Away from identifiers and Apply types, the Update mode decides exactly as
   * the other modes, except that a simple assignment reads `arg.<out name>`.
   */
  lemma FieldApplyAsValue(u: Universe, table: ConvTable, prefix: string, f: FieldConvert)
    requires !f.isIdentifier
    requires !(f.arg.Some? && f.arg.value.typ.Named? && Applicable(u, f.arg.value.typ.obj))
    ensures FieldApply(u, table, prefix, f) ==
              if FieldValue(u, table, prefix, f).SimpleAssign? then SimpleAssign("arg", f.out.name)
              else FieldValue(u, table, prefix, f)
  {
  }

  /**
   * Two fields of basic types (or of named types over them) that are not the
   * same type: a conversion when their kinds allow one, a mismatch otherwise;
   * no table entry can be involved.
   */
  lemma BasicFields(u: Universe, table: ConvTable, prefix: string, f: FieldConvert, a: BasicKind, b: BasicKind)
    requires f.arg.Some? && Underlying(u, f.arg.value.typ) == Basic(a) && Underlying(u, f.out.typ) == Basic(b)
    requires !Compatible(f.arg.value.typ, f.out.typ)
    ensures FieldValue(u, table, prefix, f) ==
              if Convertible(a, b) then SimpleConversion(f.out.typ, prefix, f.arg.value.name)
              else TypesDoNotMatch(f.out.name)
  {
    var arg := f.arg.value;
    assert !SlicePair(u, arg.typ, f.out.typ).0.valid;
    assert !PointerPair(arg.typ, f.out.typ).0.valid;
    assert CustomOf(u, table, prefix, arg, f.out).None?;
  }

  /** Different numeric kinds are converted, e.g. an int32 field into an int64 one. */
  lemma NumericFieldsConvert(u: Universe, table: ConvTable, prefix: string, name: string, a: BasicKind, b: BasicKind)
    requires IsNumeric(a) && IsNumeric(b) && a != b
    ensures FieldValue(u, table, prefix, FieldConvert(Some(Var("", name, Basic(a), false)), Var("", name, Basic(b), false), false))
            == SimpleConversion(Basic(b), prefix, name)
  {
    BasicFields(u, table, prefix, FieldConvert(Some(Var("", name, Basic(a), false)), Var("", name, Basic(b), false), false), a, b);
  }

  /**
   * Slices of two different basic types are neither assigned nor converted:
   * validateCompatible compares the element objects, no pair is made of
   * them, and renderSimpleConversion only handles basic types.
   */
  lemma BasicSlicesDoNotMatch(u: Universe, table: ConvTable, prefix: string, name: string, a: BasicKind, b: BasicKind)
    requires a != b
    ensures FieldValue(u, table, prefix, FieldConvert(Some(Var("", name, Slice(Basic(a)), false)), Var("", name, Slice(Basic(b)), false), false))
            == TypesDoNotMatch(name)
  {
    var arg, out := Var("", name, Slice(Basic(a)), false), Var("", name, Slice(Basic(b)), false);
    assert !SlicePair(u, arg.typ, out.typ).0.valid;
    assert CustomOf(u, table, prefix, arg, out).None?;
  }

  /**
   * `byte` and `uint8` are two basic types of one kind: a scalar field is
   * converted, `uint8(arg.F)`, and a slice field keeps its output.
   */
  lemma ByteAndUint8(u: Universe, table: ConvTable, prefix: string, name: string)
    ensures FieldValue(u, table, prefix, FieldConvert(Some(Var("", name, Basic(Byte), false)), Var("", name, Basic(Uint8), false), false))
            == SimpleConversion(Basic(Uint8), prefix, name)
    ensures FieldValue(u, table, prefix, FieldConvert(Some(Var("", name, Slice(Basic(Byte)), false)), Var("", name, Slice(Basic(Uint8)), false), false))
            == TypesDoNotMatch(name)
  {
    NumericFieldsConvert(u, table, prefix, name, Byte, Uint8);
    BasicSlicesDoNotMatch(u, table, prefix, name, Byte, Uint8);
  }

  /**
   * The panic of renderCustomConversion0 once prepareConverts has filed the
   * pairs `pps`: it is only reached through an entry that was in the table
   * before (a custom function), had no generated package, and that no
   * generation directive asked for.
   */
  lemma PanicOnlyForUnaskedCustomPairs(u: Universe, before: ConvTable, pps: seq<PairPkg>, prefix: string, f: FieldConvert)
    ensures var r := FieldValue(u, FileAll(before, pps), prefix, f);
            r.NoConverterPackage? ==>
              var p := ConvPair(true, r.arg, r.out);
              p in before && !Asked(pps, p) && before[p].converterPkg.None? && r.fn == before[p].fn
  {
    FileAllSpec(before, pps);
  }

  /** A pair a Type-mode directive asked for is always delegated, never a panic. */
  lemma AskedPairsDelegate(u: Universe, before: ConvTable, pps: seq<PairPkg>, prefix: string, f: FieldConvert)
    requires f.arg.Some? && !Compatible(f.arg.value.typ, f.out.typ)
    requires PairUsed(u, f.arg.value, f.out).valid && Asked(pps, PairUsed(u, f.arg.value, f.out))
    ensures FieldValue(u, FileAll(before, pps), prefix, f).CustomConversion?
  {
    FileAllSpec(before, pps);
  }

  // ---------------------------------------------------- embedded structs

  /** What renderEmbeddedConvert writes for the embedding found by validateEmbedded. */
  datatype EmbeddedCopy =
    | NoEmbedded
    | FromArgField(field: string, deref: bool)
    | ToOutField(field: string, alloc: Option<Type>)
    | EmbeddedPanic

  /**
   * renderEmbeddedConvert: nothing without an embedding; the whole output is
   * copied from an embedded input field (through its pointer), or the whole
   * input into an embedded output field (allocated first when it is a
   * pointer); both at once panics.
   */
  function EmbeddedConvert(e: Embedding): (r: EmbeddedCopy)
    ensures r.NoEmbedded? <==> e.arg.None? && e.out.None?
    ensures r.EmbeddedPanic? <==> e.arg.Some? && e.out.Some?
    ensures r.FromArgField? ==> e.out.None? && r.field == e.arg.value.name && (r.deref <==> e.arg.value.typ.Pointer?)
    ensures r.ToOutField? ==>
              && e.arg.None? && r.field == e.out.value.name
              && (r.alloc.Some? <==> e.out.value.typ.Pointer?)
              && (r.alloc.Some? ==> e.out.value.typ == Pointer(r.alloc.value))
  {
    match (e.arg, e.out)
    case (None, None) => NoEmbedded
    case (Some(a), None) => FromArgField(a.name, a.typ.Pointer?)
    case (None, Some(o)) => ToOutField(o.name, if o.typ.Pointer? then Some(o.typ.elem) else None)
    case (Some(_), Some(_)) => EmbeddedPanic
  }

  /** The embedding validateEmbedded finds never reaches the panic. */
  lemma ValidatedEmbeddingCopies(u: Universe, inObj: ObjName, outObj: ObjName)
    requires IsStruct(u, inObj) && IsStruct(u, outObj)
    ensures !EmbeddedConvert(EmbeddingOf(u, inObj, outObj)).EmbeddedPanic?
    ensures EmbeddedConvert(EmbeddingOf(u, inObj, outObj)).FromArgField? ==>
              EmbedsType(EmbeddingOf(u, inObj, outObj).arg.value, outObj)
    ensures EmbeddedConvert(EmbeddingOf(u, inObj, outObj)).ToOutField? ==>
              EmbedsType(EmbeddingOf(u, inObj, outObj).out.value, inObj)
  {
  }

  // ---------------------------------------------------- the renderer state

  /**
   * The package-level state the template functions share: the table of
   * conversion pairs and the type universe they read, the comment of the
   * last field rendered, and the cache of checkApplicable.
   */
  class Renderer {
    const universe: Universe
    const table: ConvTable
    var lastComment: string
    var cache: map<ObjName, bool>

    /** Every cached answer is the answer checkApplicable computes. */
    ghost predicate Valid()
      reads this
    {
      forall o :: o in cache ==> cache[o] == Applicable(universe, o)
    }

    constructor (universe: Universe, table: ConvTable)
      ensures this.universe == universe && this.table == table
      ensures lastComment == "" && cache == map[]
      ensures Valid()
    {
      this.universe := universe;
      this.table := table;
      lastComment := "";
      cache := map[];
    }

    /**
     * checkApplicable: a cached answer is returned as is; a name without the
     * "Null" camel prefix is cached as false; a type with an Apply method is
     * cached as true; a "Null*" type without one is false and is not cached.
     */
    method CheckApplicable(obj: ObjName) returns (b: bool)
      requires Valid()
      modifies this`cache
      ensures Valid()
      ensures b == Applicable(universe, obj)
      ensures cache == if obj in old(cache) then old(cache)
                       else if !HasPrefixCamel(obj.name, "Null") then old(cache)[obj := false]
                       else if b then old(cache)[obj := true]
                       else old(cache)
    {
      if obj in cache {
        return cache[obj];
      }
      if !HasPrefixCamel(obj.name, "Null") {
        cache := cache[obj := false];
        return false;
      }
      var methods := Methods(universe, obj);
      for i := 0 to |methods|
        invariant "Apply" !in methods[..i]
        invariant cache == old(cache)
      {
        if methods[i] == "Apply" {
          cache := cache[obj := true];
          return true;
        }
      }
      assert methods[..|methods|] == methods;
      return false;
    }

    /** renderCustomConversion: clears the comment when it delegates, leaves it otherwise. */
    method RenderCustomConversion(arg: Var, out: Var, prefix: string) returns (r: Option<Strategy>)
      modifies this`lastComment
      ensures r == CustomOf(universe, table, prefix, arg, out)
      ensures lastComment == if r.Some? then "" else old(lastComment)
    {
      var sp, argNamed, outNamed := SlicePair(universe, arg.typ, out.typ).0, SlicePair(universe, arg.typ, out.typ).1, SlicePair(universe, arg.typ, out.typ).2;
      if sp.valid {
        if sp !in table {
          return None;
        }
        lastComment := "";
        return Some(Delegate(true, argNamed.value, outNamed.value, table[sp], prefix, arg.name));
      }
      var pp, argPtr, outPtr := PointerPair(arg.typ, out.typ).0, PointerPair(arg.typ, out.typ).1, PointerPair(arg.typ, out.typ).2;
      if pp.valid {
        if pp !in table {
          return None;
        }
        lastComment := "";
        return Some(Delegate(false, argPtr.value, outPtr.value, table[pp], prefix, arg.name));
      }
      return None;
    }

    /** renderSimpleConversion: sets the comment only when it converts. */
    method RenderSimpleConversion(arg: Var, out: Var, prefix: string) returns (r: Option<Strategy>)
      modifies this`lastComment
      ensures r == SimpleConversionOf(universe, prefix, arg, out)
      ensures lastComment == if r.Some? then "// simple conversion" else old(lastComment)
    {
      var inBasic, outBasic := BasicOf(universe, arg.typ), BasicOf(universe, out.typ);
      if inBasic.Some? && outBasic.Some? {
        if KindOf(inBasic.value) == KindOf(outBasic.value) {
          lastComment := "// simple conversion";
          return Some(SimpleConversion(out.typ, prefix, arg.name));
        }
        if IsNumeric(inBasic.value) && IsNumeric(outBasic.value) {
          lastComment := "// simple conversion";
          return Some(SimpleConversion(out.typ, prefix, arg.name));
        }
      }
      return None;
    }

    /** The tail both field renderers share. */
    method RenderConverted(arg: Var, out: Var, prefix: string) returns (r: Strategy)
      modifies this`lastComment
      ensures r == Converted(universe, table, prefix, arg, out)
      ensures lastComment == Comment(r)
    {
      var custom := RenderCustomConversion(arg, out, prefix);
      if custom.Some? {
        return custom.value;
      }
      var simple := RenderSimpleConversion(arg, out, prefix);
      if simple.Some? {
        return simple.value;
      }
      lastComment := "// types do not match";
      return TypesDoNotMatch(out.name);
    }

    /** renderFieldValue, leaving the field's comment in lastComment. */
    method RenderFieldValue(prefix: string, f: FieldConvert) returns (r: Strategy)
      modifies this`lastComment
      ensures r == FieldValue(universe, table, prefix, f)
      ensures lastComment == Comment(r)
    {
      if f.arg.None? {
        lastComment := "// no change";
        return NoChange(f.out.name);
      }
      if Compatible(f.arg.value.typ, f.out.typ) {
        lastComment := "// simple assign";
        return SimpleAssign(prefix, f.arg.value.name);
      }
      r := RenderConverted(f.arg.value, f.out, prefix);
    }

    /** renderFieldApply, leaving the field's comment in lastComment and keeping the cache sound. */
    method RenderFieldApply(prefix: string, f: FieldConvert) returns (r: Strategy)
      requires Valid()
      modifies this`lastComment, this`cache
      ensures Valid()
      ensures r == FieldApply(universe, table, prefix, f)
      ensures lastComment == Comment(r)
      ensures forall o :: o in cache ==> o in old(cache) || (f.arg.Some? && f.arg.value.typ == Named(o))
    {
      if f.isIdentifier {
        lastComment := "// identifier";
        return Identifier(f.out.name);
      }
      if f.arg.None? {
        lastComment := "// no change";
        return NoChange(f.out.name);
      }
      var arg := f.arg.value;
      if Compatible(arg.typ, f.out.typ) {
        lastComment := "// simple assign";
        return SimpleAssign("arg", f.out.name);
      }
      if arg.typ.Named? {
        var applicable := CheckApplicable(arg.typ.obj);
        if applicable {
          lastComment := "// apply change";
          return ApplyChange(prefix, arg.name, f.out.name);
        }
      }
      r := RenderConverted(arg, f.out, prefix);
    }
  }
}
