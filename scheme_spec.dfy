/**
 * The runtime conversion registry of conversion/scheme.go, as values:
 * reflected types, call items, the lookup of a registered function, the two
 * validation scans and the two execution orders. The class in scheme.dfy
 * runs the same steps with loops and is proved equal to these functions.
 */
module SchemeSpec {

  import opened Wrappers

  /** reflect.Type, reduced to the kinds the scheme looks at. */
  datatype RType =
    | Ptr(elem: RType)
    | Slice(elem: RType)
    | Struct(name: string)
    | Basic(name: string)
    | Func(returnsError: bool)

  /** The key of the registry: whether it is a slice conversion, and the two element types. */
  datatype TypePair = TypePair(slice: bool, arg: RType, out: RType)

  /** The four errors of getTypePair. */
  datatype PairError =
    | SecondMustBePointerToSlice
    | MustBeSliceOfPointer
    | MustBePointer
    | BothMustMatch

  /** An error value returned by a registered function or a `func() error` item. */
  datatype Error = Error(code: nat)

  /** A registered ConversionFunc; what it does is not modelled, only its identity. */
  datatype ConvFn = ConvFn(id: nat)

  /**
   * One argument of Convert, ConvertTo or ConvertChain: a value (a pointer or
   * a slice, identified by its address and its dynamic type), a `func()`, or
   * a `func() error` whose result is fixed.
   */
  datatype Item =
    | Val(addr: nat, t: RType)
    | Thunk(id: nat)
    | ThunkErr(id: nat, result: Option<Error>)

  /** The outcome of calling a registered function on two items (opaque code). */
  type Runner = (ConvFn, Item, Item) -> Option<Error>

  type Table = map<TypePair, ConvFn>

  /** The panics of the scheme. */
  datatype Fault =
    | RegisterTooLate
    | InvalidRegistration(err: PairError)
    | NotReady
    | InvalidPair(err: PairError, a: Item, b: Item)
    | NoConversion(a: Item, b: Item)
    | NilConversionCall(a: Item, b: Item)
    | NoConversionAtAll
    | NoConversionEither(a0: Item, b0: Item, a1: Option<Item>, b1: Option<Item>)
    | Ambiguous(chainA: Item, chainB: Item, toA: Item, toB: Item)

  /** A call made while executing, with what it returned. */
  datatype Effect =
    | CalledThunk(item: Item, result: Option<Error>)
    | Converted(fn: ConvFn, arg: Item, out: Item, result: Option<Error>)

  /** Either the operation returned (nil or an error), or it panicked. */
  datatype Outcome = Returned(err: Option<Error>) | Panicked(fault: Fault)

  datatype Run = Run(outcome: Outcome, trace: seq<Effect>)

  predicate IsFunc(it: Item)
  {
    it.Thunk? || it.ThunkErr?
  }

  /** reflect.TypeOf of an item. */
  function TypeOf(it: Item): RType
  {
    match it
    case Val(_, t) => t
    case Thunk(_) => Func(false)
    case ThunkErr(_, _) => Func(true)
  }

  /**
   * getTypePair: a pointer/pointer pair keys on the two element types; a
   * slice of pointers with a pointer to a slice of pointers keys on the two
   * element types with Slice set; every other shape is an error.
   */
  function GetTypePair(arg: RType, out: RType): (r: Result<TypePair, PairError>)
  {
    if arg.Slice? && out.Slice? then Err(SecondMustBePointerToSlice)
    else if arg.Slice? && out.Ptr? && out.elem.Slice? then
      if arg.elem.Ptr? && out.elem.elem.Ptr? then Ok(TypePair(true, arg.elem.elem, out.elem.elem.elem))
      else Err(MustBeSliceOfPointer)
    else if !arg.Slice? && !out.Slice? then
      if arg.Ptr? && out.Ptr? then Ok(TypePair(false, arg.elem, out.elem))
      else Err(MustBePointer)
    else Err(BothMustMatch)
  }

  /** The two accepted shapes, and only they, give a key. */
  lemma GetTypePairShapes(arg: RType, out: RType)
    ensures GetTypePair(arg, out).Ok? <==>
              (arg.Ptr? && out.Ptr?) ||
              (arg.Slice? && arg.elem.Ptr? && out.Ptr? && out.elem.Slice? && out.elem.elem.Ptr?)
    ensures arg.Ptr? && out.Ptr? ==> GetTypePair(arg, out) == Ok(TypePair(false, arg.elem, out.elem))
    ensures arg.Slice? && out.Slice? ==> GetTypePair(arg, out) == Err(SecondMustBePointerToSlice)
  {
  }

  /** Different argument shapes never share a key: a registration cannot shadow another shape's. */
  lemma GetTypePairInjective(a: RType, b: RType, a': RType, b': RType)
    requires GetTypePair(a, b).Ok? && GetTypePair(a, b) == GetTypePair(a', b')
    ensures a == a' && b == b'
  {
  }

  /** What getConversion finds for a pair of types. */
  datatype Lookup = Found(fn: ConvFn) | NotRegistered | BadPair(err: PairError)

  /** getConversion: a bad shape (a panic in the source), a missing entry (nil), or the function. */
  function GetConversion(table: Table, a: Item, b: Item): (r: Lookup)
    ensures r.Found? <==> GetTypePair(TypeOf(a), TypeOf(b)).Ok? && GetTypePair(TypeOf(a), TypeOf(b)).value in table
    ensures r.Found? ==> r.fn == table[GetTypePair(TypeOf(a), TypeOf(b)).value]
    ensures r.BadPair? <==> GetTypePair(TypeOf(a), TypeOf(b)).Err?
  {
    match GetTypePair(TypeOf(a), TypeOf(b))
    case Err(e) => BadPair(e)
    case Ok(p) => if p in table then Found(table[p]) else NotRegistered
  }

  /** The non-function items, in order. */
  function Values(args: seq<Item>): (vs: seq<Item>)
    ensures |vs| <= |args|
    ensures forall k :: 0 <= k < |vs| ==> !IsFunc(vs[k])
  {
    if args == [] then []
    else (if IsFunc(args[0]) then [] else [args[0]]) + Values(args[1..])
  }

  lemma {:induction false} ValuesAppend(a: seq<Item>, b: seq<Item>)
    ensures Values(a + b) == Values(a) + Values(b)
  {
    if a == [] {
      assert a + b == b;
    } else {
      assert (a + b)[1..] == a[1..] + b;
      ValuesAppend(a[1..], b);
    }
  }

  /** One more item of a prefix adds itself to the values exactly when it is not a function. */
  lemma ValuesStep(args: seq<Item>, i: nat, seen: nat)
    requires i < |args| && seen <= |Values(args)| && Values(args[..i]) == Values(args)[..seen]
    ensures !IsFunc(args[i]) ==> seen < |Values(args)| && Values(args)[seen] == args[i]
    ensures Values(args[..i + 1]) == Values(args)[..if IsFunc(args[i]) then seen else seen + 1]
  {
    var x := args[i];
    var pre, post := args[..i], args[i + 1..];
    assert args[..i + 1] == pre + [x];
    assert args == args[..i + 1] + post;
    ValuesAppend(pre, [x]);
    ValuesAppend(args[..i + 1], post);
    assert [x][1..] == [];
    var one := if IsFunc(x) then [] else [x];
    assert Values([x]) == one;
    var vs := Values(args);
    assert vs == Values(pre) + one + Values(post);
    assert |Values(pre)| == seen;
    assert vs[..|Values(pre) + one|] == Values(pre) + one;
  }

  /** getLastNonFunc: the last non-function item, if any. */
  function LastNonFunc(args: seq<Item>): (r: Option<Item>)
    ensures r.None? <==> Values(args) == []
  {
    var vs := Values(args);
    if vs == [] then None else Some(vs[|vs| - 1])
  }

  /** The pairs checked by the broadcast rule: every value into the last one, the last included. */
  function BroadcastPairs(args: seq<Item>): (ps: seq<(Item, Item)>)
    ensures |ps| == |Values(args)|
  {
    var vs := Values(args);
    seq(|vs|, k requires 0 <= k < |vs| => (vs[k], vs[|vs| - 1]))
  }

  /** The pairs checked by the chain rule: every value into the next one. */
  function ChainPairs(vs: seq<Item>): (ps: seq<(Item, Item)>)
    ensures |ps| == if |vs| == 0 then 0 else |vs| - 1
  {
    if |vs| == 0 then [] else seq(|vs| - 1, k requires 0 <= k < |vs| - 1 => (vs[k], vs[k + 1]))
  }

  /** Index of the first pair that has no registered function (|ps| if every pair has one). */
  function FirstMiss(table: Table, ps: seq<(Item, Item)>): (k: nat)
    ensures k <= |ps|
    ensures forall j :: 0 <= j < k ==> GetConversion(table, ps[j].0, ps[j].1).Found?
    ensures k < |ps| ==> !GetConversion(table, ps[k].0, ps[k].1).Found?
  {
    if ps == [] then 0
    else if !GetConversion(table, ps[0].0, ps[0].1).Found? then 0
    else 1 + FirstMiss(table, ps[1..])
  }

  /** Every one of the first `k` pairs has a registered function. */
  predicate FoundUpTo(table: Table, ps: seq<(Item, Item)>, k: nat)
  {
    k <= |ps| && forall j :: 0 <= j < k ==> GetConversion(table, ps[j].0, ps[j].1).Found?
  }

  lemma FoundUpToStep(table: Table, ps: seq<(Item, Item)>, k: nat)
    requires FoundUpTo(table, ps, k) && k < |ps| && GetConversion(table, ps[k].0, ps[k].1).Found?
    ensures FoundUpTo(table, ps, k + 1)
  {
  }

  /** FirstMiss is the one index before which every pair is registered and at which one is not. */
  lemma FirstMissAt(table: Table, ps: seq<(Item, Item)>, k: nat)
    requires k <= |ps|
    requires forall j :: 0 <= j < k ==> GetConversion(table, ps[j].0, ps[j].1).Found?
    requires k < |ps| ==> !GetConversion(table, ps[k].0, ps[k].1).Found?
    ensures FirstMiss(table, ps) == k
  {
  }

  /** The result of validateConvertTo / validateConvertChain: count and first pair, or a panic. */
  datatype Validation =
    | Validation(count: nat, pairA: Option<Item>, pairB: Option<Item>)
    | ValidationPanic(fault: Fault)

  /**
   * A validation scan over the pairs a rule needs: it stops at the first
   * pair without a function (count 0, that pair) or with an invalid shape
   * (panic); otherwise the count is the number of pairs and the first pair
   * is recorded.
   */
  function Scan(table: Table, ps: seq<(Item, Item)>): (v: Validation)
    ensures v.Validation? ==> (v.pairA.Some? <==> v.pairB.Some?)
    ensures v.Validation? && v.count > 0 ==> v.pairA.Some?
  {
    var k := FirstMiss(table, ps);
    if k == |ps| then
      if k == 0 then Validation(0, None, None) else Validation(k, Some(ps[0].0), Some(ps[0].1))
    else match GetConversion(table, ps[k].0, ps[k].1)
      case BadPair(e) => ValidationPanic(InvalidPair(e, ps[k].0, ps[k].1))
      case _ => Validation(0, Some(ps[k].0), Some(ps[k].1))
  }

  /** validateConvertTo */
  function ValidateTo(table: Table, args: seq<Item>): Validation
  {
    Scan(table, BroadcastPairs(args))
  }

  /** validateConvertChain */
  function ValidateChain(table: Table, args: seq<Item>): Validation
  {
    Scan(table, ChainPairs(Values(args)))
  }

  function Then(trace: seq<Effect>, r: Run): Run
  {
    Run(r.outcome, trace + r.trace)
  }

  lemma ThenThen(a: seq<Effect>, b: seq<Effect>, r: Run)
    ensures Then(a, Then(b, r)) == Then(a + b, r)
  {
    assert a + (b + r.trace) == (a + b) + r.trace;
  }

  /**
   * convertTo on the remaining items, `last` being the last value: functions
   * are called in place, every value other than `last` is converted into
   * `last`, and the first error ends the run.
   */
  function ExecTo(table: Table, items: seq<Item>, last: Option<Item>, run: Runner): Run
    requires last.None? ==> Values(items) == []
  {
    if items == [] then Run(Returned(None), [])
    else
      var it := items[0];
      assert Values(items) == (if IsFunc(it) then [] else [it]) + Values(items[1..]);
      if Some(it) == last then ExecTo(table, items[1..], last, run)
      else match it
        case Thunk(_) => Then([CalledThunk(it, None)], ExecTo(table, items[1..], last, run))
        case ThunkErr(_, res) =>
          if res.Some? then Run(Returned(res), [CalledThunk(it, res)])
          else Then([CalledThunk(it, None)], ExecTo(table, items[1..], last, run))
        case Val(_, _) =>
          match GetConversion(table, it, last.value)
          case BadPair(e) => Run(Panicked(InvalidPair(e, it, last.value)), [])
          case NotRegistered => Run(Panicked(NilConversionCall(it, last.value)), [])
          case Found(fn) =>
            var e := run(fn, it, last.value);
            if e.Some? then Run(Returned(e), [Converted(fn, it, last.value, e)])
            else Then([Converted(fn, it, last.value, None)], ExecTo(table, items[1..], last, run))
  }

  /**
   * convertChain on the remaining items, `prev` being the last value seen:
   * functions are called in place, each value is converted from the
   * previous one, and the first error ends the run.
   */
  function ExecChain(table: Table, items: seq<Item>, prev: Option<Item>, run: Runner): Run
  {
    if items == [] then Run(Returned(None), [])
    else
      var it := items[0];
      match it
      case Thunk(_) => Then([CalledThunk(it, None)], ExecChain(table, items[1..], prev, run))
      case ThunkErr(_, res) =>
        if res.Some? then Run(Returned(res), [CalledThunk(it, res)])
        else Then([CalledThunk(it, None)], ExecChain(table, items[1..], prev, run))
      case Val(_, _) =>
        if prev.None? then ExecChain(table, items[1..], Some(it), run)
        else match GetConversion(table, prev.value, it)
          case BadPair(e) => Run(Panicked(InvalidPair(e, prev.value, it)), [])
          case NotRegistered => Run(Panicked(NilConversionCall(prev.value, it)), [])
          case Found(fn) =>
            var e := run(fn, prev.value, it);
            if e.Some? then Run(Returned(e), [Converted(fn, prev.value, it, e)])
            else Then([Converted(fn, prev.value, it, None)], ExecChain(table, items[1..], Some(it), run))
  }

  /** The panic of ConvertTo/ConvertChain when the validation count is 0. */
  function InvalidMessage(a: Option<Item>, b: Option<Item>): Fault
  {
    if a.Some? && b.Some? then NoConversion(a.value, b.value) else NoConversionAtAll
  }

  /**
   * The panic of Convert when neither rule applies: no pair at all, the same
   * failing pair for both rules, or both failing pairs (a missing second pair
   * is printed as nil).
   */
  function NeitherMessage(a0: Option<Item>, b0: Option<Item>, a1: Option<Item>, b1: Option<Item>): Fault
    requires a0.Some? <==> b0.Some?
  {
    if a0.None? && b0.None? then NoConversionAtAll
    else if a0 == a1 && b0 == b1 then NoConversion(a0.value, b0.value)
    else NoConversionEither(a0.value, b0.value, a1, b1)
  }

  /** Convert: one pair for two items, otherwise the rule the validations pick. */
  function ConvertSpec(table: Table, ready: bool, args: seq<Item>, run: Runner): Run
  {
    if !ready then Run(Panicked(NotReady), [])
    else if |args| == 2 then
      match GetConversion(table, args[0], args[1])
      case BadPair(e) => Run(Panicked(InvalidPair(e, args[0], args[1])), [])
      case NotRegistered => Run(Panicked(NoConversion(args[0], args[1])), [])
      case Found(fn) =>
        var e := run(fn, args[0], args[1]);
        Run(Returned(e), [Converted(fn, args[0], args[1], e)])
    else
      match ValidateChain(table, args)
      case ValidationPanic(f) => Run(Panicked(f), [])
      case Validation(cc, a0, b0) =>
        match ValidateTo(table, args)
        case ValidationPanic(f) => Run(Panicked(f), [])
        case Validation(ct, a1, b1) =>
          if cc == 0 && ct == 0 then Run(Panicked(NeitherMessage(a0, b0, a1, b1)), [])
          else if cc > 1 && ct > 1 then Run(Panicked(Ambiguous(a0.value, b0.value, a1.value, b1.value)), [])
          else if cc != 0 then ExecChain(table, args, None, run)
          else ExecTo(table, args, LastNonFunc(args), run)
  }

  /** ConvertTo: broadcast, after the broadcast validation. */
  function ConvertToSpec(table: Table, ready: bool, args: seq<Item>, run: Runner): Run
  {
    if !ready then Run(Panicked(NotReady), [])
    else match ValidateTo(table, args)
      case ValidationPanic(f) => Run(Panicked(f), [])
      case Validation(c, a, b) =>
        if c == 0 then Run(Panicked(InvalidMessage(a, b)), [])
        else ExecTo(table, args, LastNonFunc(args), run)
  }

  /** ConvertChain: chain execution, after the BROADCAST validation (as the source does). */
  function ConvertChainSpec(table: Table, ready: bool, args: seq<Item>, run: Runner): Run
  {
    if !ready then Run(Panicked(NotReady), [])
    else match ValidateTo(table, args)
      case ValidationPanic(f) => Run(Panicked(f), [])
      case Validation(c, a, b) =>
        if c == 0 then Run(Panicked(InvalidMessage(a, b)), [])
        else ExecChain(table, args, None, run)
  }

  /**
   * ConvertChain as evidently intended: chain execution after the CHAIN
   * validation, so that a chain whose every link is registered runs and one
   * with a missing link is refused before any call.
   */
  function ConvertChainValidated(table: Table, ready: bool, args: seq<Item>, run: Runner): Run
  {
    if !ready then Run(Panicked(NotReady), [])
    else match ValidateChain(table, args)
      case ValidationPanic(f) => Run(Panicked(f), [])
      case Validation(c, a, b) =>
        if c == 0 then Run(Panicked(InvalidMessage(a, b)), [])
        else ExecChain(table, args, None, run)
  }
}
