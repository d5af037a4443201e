/**
 * The part of Go's type-checker object model (go/types) that the plugin
 * inspects: named types by their declaring object, pointer, slice, basic and
 * struct types, struct fields, function signatures, and the declarations that
 * give a named type its underlying type and its methods.
 */
module GoTypes {

  /** A package-level object: its package path and its name (objNameDecl). */
  datatype ObjName = ObjName(pkg: string, name: string)

  /**
   * The typed basic types, one per *types.Basic object of the universe
   * scope. `byte` and `rune` are objects of their own, apart from `uint8`
   * and `int32`, although their kinds are those of `uint8` and `int32`.
   */
  datatype BasicKind =
    | Bool
    | Int | Int8 | Int16 | Int32 | Int64
    | Uint | Uint8 | Uint16 | Uint32 | Uint64 | Uintptr
    | Float32 | Float64
    | Complex64 | Complex128
    | String
    | UnsafePointer
    | Byte | Rune

  /** types.Basic.Kind(): types.Byte is types.Uint8 and types.Rune is types.Int32. */
  function KindOf(k: BasicKind): (r: BasicKind)
    ensures !r.Byte? && !r.Rune?
    ensures r != k <==> k.Byte? || k.Rune?
  {
    match k
    case Byte => Uint8
    case Rune => Int32
    case _ => k
  }

  /** types.IsNumeric: integer, floating-point and complex kinds. */
  predicate IsNumeric(k: BasicKind)
  {
    !(k.Bool? || k.String? || k.UnsafePointer?)
  }

  /** types.Type. A named type refers to its declaration through the universe. */
  datatype Type =
    | Named(obj: ObjName)
    | Pointer(elem: Type)
    | Slice(elem: Type)
    | Basic(kind: BasicKind)
    | Struct(fields: seq<Var>)
    | OtherType

  /** types.Var: a struct field or a parameter, with the package that declares it. */
  datatype Var = Var(pkg: string, name: string, typ: Type, embedded: bool)

  /** The declaration of a named type: its underlying type and the names of its methods. */
  datatype TypeDecl = TypeDecl(under: Type, methods: seq<string>)

  /** Every named type the plugin can see, by declaring object. */
  type Universe = map<ObjName, TypeDecl>

  /** A package-level function: its package, name, whether it has a receiver, and its signature. */
  datatype FuncDecl = FuncDecl(pkg: string, name: string, isMethod: bool, params: seq<Var>, results: seq<Var>)

  /** Type.Underlying(): a named type's declared underlying type; every other type is its own. */
  function Underlying(u: Universe, t: Type): Type
  {
    if t.Named? then (if t.obj in u then u[t.obj].under else OtherType) else t
  }

  /** The methods declared on a named type. */
  function Methods(u: Universe, obj: ObjName): seq<string>
  {
    if obj in u then u[obj].methods else []
  }

  /**
   * `==` on types.Type values, which compares pointers: a named type is one
   * object per declaration and a basic type one object per BasicKind value
   * (so `byte` is not `uint8`), while every pointer, slice or struct type
   * written in a declaration is an object of its own, equal to no type from
   * another declaration.
   */
  predicate Same(t: Type, t': Type)
  {
    (t.Named? && t'.Named? && t.obj == t'.obj) || (t.Basic? && t'.Basic? && t.kind == t'.kind)
  }

  lemma SameSymmetric(t: Type, t': Type)
    ensures Same(t, t') <==> Same(t', t)
  {
  }

  /** validateStruct: the fields of a type name whose underlying type is a struct. */
  function StructOf(u: Universe, obj: ObjName): (r: seq<Var>)
    requires IsStruct(u, obj)
    ensures Underlying(u, Named(obj)) == Struct(r)
  {
    u[obj].under.fields
  }

  predicate IsStruct(u: Universe, obj: ObjName)
  {
    obj in u && u[obj].under.Struct?
  }

  /** skipPointer: the element of a pointer type, any other type unchanged. */
  function SkipPointer(t: Type): (r: Type)
    ensures t.Pointer? ==> r == t.elem
    ensures !t.Pointer? ==> r == t
  {
    if t.Pointer? then t.elem else t
  }
}
