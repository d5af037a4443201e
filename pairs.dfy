/**
 * How plugin/plugin.go recognises custom conversion functions and derives the
 * type pair a conversion is filed under: validateConvertFunc,
 * validatePtrTypeEquality, validatePointerToNamed,
 * validateSliceToPointerNamed, getPairWithPointer, getPairWithSlice, getPair
 * and validateCompatible.
 */
module Pairs {

  import opened Wrappers
  import opened GoTypes

  /** convPair: a (valid) pair of named types; the zero value is the invalid pair. */
  datatype ConvPair = ConvPair(valid: bool, arg: ObjName, out: ObjName)

  /** The zero value `convPair{}`. */
  function InvalidPair(): ConvPair
  {
    ConvPair(false, ObjName("", ""), ObjName("", ""))
  }

  /** The pair with its sides swapped. */
  function Swap(p: ConvPair): ConvPair
  {
    ConvPair(p.valid, p.out, p.arg)
  }

  // ---------------------------------------------------- signatures

  /** validatePtrTypeEquality: two pointer types to the same element type. */
  predicate PtrTypeEquality(t0: Type, t1: Type)
  {
    t0.Pointer? && t1.Pointer? && Same(t0.elem, t1.elem)
  }

  /** The result of validateConvertFunc: a mode 1-3 with its arg and out parameters, or mode 0. */
  datatype FuncShape = NotRecognized | Recognized(mode: nat, arg: Var, out: Var)

  /**
   * validateConvertFunc: `func(arg) out` is mode 1, `func(arg, out)` mode 2,
   * `func(arg, out *T) *T` mode 3; any other signature is not recognised (the
   * function never reports an error).
   */
  function ConvertFuncShape(f: FuncDecl): (r: FuncShape)
    ensures r.Recognized? ==> 1 <= r.mode <= 3 && |f.params| >= 1 && r.arg == f.params[0]
  {
    var ps, rs := f.params, f.results;
    if |ps| == 1 && |rs| == 1 then Recognized(1, ps[0], rs[0])
    else if |ps| == 2 && |rs| == 0 then Recognized(2, ps[0], ps[1])
    else if |ps| == 2 && |rs| == 1 && PtrTypeEquality(ps[1].typ, rs[0].typ) then Recognized(3, ps[0], ps[1])
    else NotRecognized
  }

  /** The three recognised shapes, each with the parameters it converts between. */
  lemma ConvertFuncShapeIff(f: FuncDecl)
    ensures ConvertFuncShape(f).Recognized? <==>
              (|f.params| == 1 && |f.results| == 1) || (|f.params| == 2 && |f.results| == 0)
              || (|f.params| == 2 && |f.results| == 1 && PtrTypeEquality(f.params[1].typ, f.results[0].typ))
    ensures ConvertFuncShape(f) == Recognized(1, f.params[0], f.results[0]) <== |f.params| == 1 && |f.results| == 1
    ensures ConvertFuncShape(f).Recognized? && ConvertFuncShape(f).mode != 1 ==>
              |f.params| == 2 && ConvertFuncShape(f).out == f.params[1]
    ensures ConvertFuncShape(f).Recognized? && ConvertFuncShape(f).mode == 3 ==>
              f.params[1].typ.Pointer? && f.results[0].typ.Pointer?
              && Same(f.params[1].typ.elem, f.results[0].typ.elem)
  {
  }

  // ---------------------------------------------------- pairs

  /** validatePointerToNamed: `*N` for a named type N gives N. */
  function PointerToNamed(t: Type): (r: Option<ObjName>)
    ensures r.Some? <==> t.Pointer? && t.elem.Named?
    ensures r.Some? ==> t == Pointer(Named(r.value))
  {
    if t.Pointer? && t.elem.Named? then Some(t.elem.obj) else None
  }

  /** validateSliceToPointerNamed: `[]*N`, also through a named slice type, gives N. */
  function SliceToPointerNamed(u: Universe, t: Type): (r: Option<ObjName>)
    ensures r.Some? ==> Underlying(u, t) == Slice(Pointer(Named(r.value)))
    ensures r.None? ==> forall n :: Underlying(u, t) != Slice(Pointer(Named(n)))
  {
    var s := if t.Named? then Underlying(u, t) else t;
    if s.Slice? && s.elem.Pointer? && s.elem.elem.Named? then Some(s.elem.elem.obj) else None
  }

  /** The pair of two optional named types, valid when both are present. */
  function PairOf(a: Option<ObjName>, o: Option<ObjName>): ConvPair
  {
    if a.Some? && o.Some? then ConvPair(true, a.value, o.value) else InvalidPair()
  }

  /** getPairWithPointer: the pair `*A`, `*B` are filed under, with the two named types. */
  function PointerPair(arg: Type, out: Type): (r: (ConvPair, Option<ObjName>, Option<ObjName>))
    ensures r.0.valid <==> (arg.Pointer? && arg.elem.Named? && out.Pointer? && out.elem.Named?)
    ensures r.0.valid ==> arg == Pointer(Named(r.0.arg)) && out == Pointer(Named(r.0.out))
    ensures !r.0.valid ==> r.0 == InvalidPair()
  {
    var a, o := PointerToNamed(arg), PointerToNamed(out);
    (PairOf(a, o), a, o)
  }

  /** getPairWithSlice: the pair `[]*A`, `[]*B` are filed under, with the two named types. */
  function SlicePair(u: Universe, arg: Type, out: Type): (r: (ConvPair, Option<ObjName>, Option<ObjName>))
    ensures r.0.valid ==>
              && Underlying(u, arg) == Slice(Pointer(Named(r.0.arg)))
              && Underlying(u, out) == Slice(Pointer(Named(r.0.out)))
    ensures !r.0.valid ==> r.0 == InvalidPair()
    ensures forall a, o ::
              Underlying(u, arg) == Slice(Pointer(Named(a))) && Underlying(u, out) == Slice(Pointer(Named(o))) ==>
                r.0 == ConvPair(true, a, o)
  {
    var a, o := SliceToPointerNamed(u, arg), SliceToPointerNamed(u, out);
    (PairOf(a, o), a, o)
  }

  /** getPair on the types of two objects: valid exactly for two named types. */
  function NamedPair(arg: Type, out: Type): (r: ConvPair)
    ensures r.valid <==> arg.Named? && out.Named?
    ensures r.valid ==> arg == Named(r.arg) && out == Named(r.out)
    ensures !r.valid ==> r == InvalidPair()
  {
    if arg.Named? && out.Named? then ConvPair(true, arg.obj, out.obj) else InvalidPair()
  }

  /** getPair in the other direction is the swapped pair. */
  lemma NamedPairSwap(arg: Type, out: Type)
    ensures NamedPair(out, arg) == if NamedPair(arg, out).valid then Swap(NamedPair(arg, out)) else InvalidPair()
  {
  }

  /**
   * A slice pair and a pointer pair are never both valid for the same two
   * types, so trying the slice pair first decides nothing by order.
   */
  lemma SliceAndPointerExclusive(u: Universe, arg: Type, out: Type)
    ensures !(SlicePair(u, arg, out).0.valid && PointerPair(arg, out).0.valid)
  {
    if SlicePair(u, arg, out).0.valid {
      assert Underlying(u, arg).Slice?;
    }
  }

  // ---------------------------------------------------- compatibility

  /**
   * validateCompatible: the same type, pointers to the same type, slices of
   * the same type, or slices of pointers to the same type.
   */
  predicate Compatible(arg: Type, out: Type)
  {
    || Same(arg, out)
    || (arg.Pointer? && out.Pointer? && Same(arg.elem, out.elem))
    || (arg.Slice? && out.Slice? && Same(arg.elem, out.elem))
    || (arg.Slice? && out.Slice? && arg.elem.Pointer? && out.elem.Pointer? && Same(arg.elem.elem, out.elem.elem))
  }

  /** Compatibility does not depend on the direction of the conversion. */
  lemma CompatibleSymmetric(arg: Type, out: Type)
    ensures Compatible(arg, out) <==> Compatible(out, arg)
  {
  }

  /**
   * A field of a named or basic type is compatible with one of the same type,
   * also behind a pointer, a slice or a slice of pointers.
   */
  lemma CompatibleSameElement(t: Type)
    requires t.Named? || t.Basic?
    ensures Compatible(t, t)
    ensures Compatible(Pointer(t), Pointer(t))
    ensures Compatible(Slice(t), Slice(t))
    ensures Compatible(Slice(Pointer(t)), Slice(Pointer(t)))
  {
  }

  /**
   * A pointer or slice pair reached after the compatibility check always
   * relates two different named types.
   */
  lemma IncompatiblePairsDiffer(u: Universe, arg: Type, out: Type)
    requires !Compatible(arg, out)
    ensures PointerPair(arg, out).0.valid ==> PointerPair(arg, out).0.arg != PointerPair(arg, out).0.out
    ensures SlicePair(u, arg, out).0.valid && arg.Slice? && out.Slice? ==>
              SlicePair(u, arg, out).0.arg != SlicePair(u, arg, out).0.out
  {
  }
}
