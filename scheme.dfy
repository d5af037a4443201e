/**
 * Package conversion: the Scheme object of conversion/scheme.go (a table
 * of registered functions and a ready flag, building -> ready) and Build of
 * conversion/conversion.go. Each method runs the source's loop and is proved
 * equal to the matching function of SchemeSpec.
 */
module Conversion {

  import opened Wrappers
  import opened SchemeSpec

  class Scheme {
    var convPairs: Table
    var ready: bool

    /** NewScheme: an empty table, not ready. */
    constructor ()
      ensures convPairs == map[] && !ready
    {
      convPairs := map[];
      ready := false;
    }

    /**
     * Register binds the key of (arg, out) to fn, replacing an earlier
     * binding and leaving every other entry alone; it panics once the scheme
     * is ready, or when the shapes give no key.
     */
    method Register(arg: RType, out: RType, fn: ConvFn) returns (fault: Option<Fault>)
      modifies this
      ensures ready == old(ready)
      ensures old(ready) ==> fault == Some(RegisterTooLate) && convPairs == old(convPairs)
      ensures !old(ready) && GetTypePair(arg, out).Err? ==>
                fault == Some(InvalidRegistration(GetTypePair(arg, out).error)) && convPairs == old(convPairs)
      ensures !old(ready) && GetTypePair(arg, out).Ok? ==>
                fault.None? && convPairs == old(convPairs)[GetTypePair(arg, out).value := fn]
    {
      if ready {
        return Some(RegisterTooLate);
      }
      match GetTypePair(arg, out)
      case Err(e) =>
        return Some(InvalidRegistration(e));
      case Ok(pair) =>
        convPairs := convPairs[pair := fn];
        return None;
    }

    /** ensureReady: panics (NotReady) exactly when the scheme is still being built. */
    method EnsureReady() returns (fault: Option<Fault>)
      ensures fault.Some? <==> !ready
      ensures fault.Some? ==> fault.value == NotReady
    {
      fault := if ready then None else Some(NotReady);
    }

    /**
     * validateConvertTo: every value is checked against the last value, the
     * last against itself too, stopping at the first pair without a function.
     */
    method ValidateConvertTo(args: seq<Item>) returns (v: Validation)
      ensures v == ValidateTo(convPairs, args)
    {
      var table := convPairs;
      var last := GetLastNonFunc(args);
      ghost var vs := Values(args);
      ghost var ps := BroadcastPairs(args);
      var count: nat := 0;
      var pairA: Option<Item> := None;
      var pairB: Option<Item> := None;
      var i := 0;
      while i < |args|
        invariant 0 <= i <= |args|
        invariant count <= |vs| && Values(args[..i]) == vs[..count]
        invariant FoundUpTo(table, ps, count)
        invariant pairA == (if count == 0 then None else Some(ps[0].0))
        invariant pairB == (if count == 0 then None else Some(ps[0].1))
      {
        var arg := args[i];
        ValuesStep(args, i, count);
        if !IsFunc(arg) {
          assert ps[count] == (arg, last.value);
          match GetConversion(table, arg, last.value) {
            case BadPair(e) =>
              FirstMissAt(table, ps, count);
              return ValidationPanic(InvalidPair(e, arg, last.value));
            case NotRegistered =>
              FirstMissAt(table, ps, count);
              return Validation(0, Some(arg), last);
            case Found(_) =>
              if pairA.None? {
                pairA, pairB := Some(arg), last;
              }
              FoundUpToStep(table, ps, count);
              count := count + 1;
          }
        }
        i := i + 1;
      }
      assert args[..i] == args;
      FirstMissAt(table, ps, count);
      return Validation(count, pairA, pairB);
    }

    /**
     * validateConvertChain: every value is checked against the next value,
     * stopping at the first pair without a function.
     */
    method ValidateConvertChain(args: seq<Item>) returns (v: Validation)
      ensures v == ValidateChain(convPairs, args)
    {
      var table := convPairs;
      ghost var vs := Values(args);
      ghost var ps := ChainPairs(vs);
      ghost var seen: nat := 0;
      var prev: Option<Item> := None;
      var count: nat := 0;
      var pairA: Option<Item> := None;
      var pairB: Option<Item> := None;
      var i := 0;
      while i < |args|
        invariant 0 <= i <= |args|
        invariant seen <= |vs| && Values(args[..i]) == vs[..seen]
        invariant count == if seen == 0 then 0 else seen - 1
        invariant prev == if seen == 0 then None else Some(vs[seen - 1])
        invariant FoundUpTo(table, ps, count)
        invariant pairA == (if count == 0 then None else Some(ps[0].0))
        invariant pairB == (if count == 0 then None else Some(ps[0].1))
      {
        var arg := args[i];
        ValuesStep(args, i, seen);
        if !IsFunc(arg) {
          if prev.None? {
            prev := Some(arg);
          } else {
            assert ps[count] == (prev.value, arg);
            match GetConversion(table, prev.value, arg) {
              case BadPair(e) =>
                FirstMissAt(table, ps, count);
                return ValidationPanic(InvalidPair(e, prev.value, arg));
              case NotRegistered =>
                FirstMissAt(table, ps, count);
                return Validation(0, prev, Some(arg));
              case Found(_) =>
                if pairA.None? {
                  pairA, pairB := prev, Some(arg);
                }
                FoundUpToStep(table, ps, count);
                prev := Some(arg);
                count := count + 1;
            }
          }
          seen := seen + 1;
        }
        i := i + 1;
      }
      assert args[..i] == args;
      FirstMissAt(table, ps, count);
      return Validation(count, pairA, pairB);
    }

    /**
     * convertTo: in argument order, call each function item and convert each
     * value other than the last into the last; the first error is returned.
     */
    method RunConvertTo(args: seq<Item>, run: Runner) returns (r: Run)
      ensures r == ExecTo(convPairs, args, LastNonFunc(args), run)
    {
      var last := GetLastNonFunc(args);
      var trace: seq<Effect> := [];
      var i := 0;
      while i < |args|
        invariant 0 <= i <= |args|
        invariant last.None? ==> Values(args[i..]) == []
        invariant ExecTo(convPairs, args, last, run) == Then(trace, ExecTo(convPairs, args[i..], last, run))
      {
        var arg := args[i];
        assert args[i..][1..] == args[i + 1..];
        assert Values(args[i..]) == (if IsFunc(arg) then [] else [arg]) + Values(args[i + 1..]);
        ghost var here := ExecTo(convPairs, args[i..], last, run);
        ghost var tail := ExecTo(convPairs, args[i + 1..], last, run);
        if Some(arg) == last {
          assert here == tail;
          i := i + 1;
          continue;
        }
        match arg {
          case Thunk(_) =>
            assert here == Then([CalledThunk(arg, None)], tail);
            ThenThen(trace, [CalledThunk(arg, None)], tail);
            trace := trace + [CalledThunk(arg, None)];
          case ThunkErr(_, res) =>
            if res.Some? {
              assert here == Run(Returned(res), [CalledThunk(arg, res)]);
              return Run(Returned(res), trace + [CalledThunk(arg, res)]);
            }
            assert here == Then([CalledThunk(arg, None)], tail);
            ThenThen(trace, [CalledThunk(arg, None)], tail);
            trace := trace + [CalledThunk(arg, None)];
          case Val(_, _) =>
            match GetConversion(convPairs, arg, last.value) {
              case BadPair(e) =>
                assert here == Run(Panicked(InvalidPair(e, arg, last.value)), []);
                return Run(Panicked(InvalidPair(e, arg, last.value)), trace);
              case NotRegistered =>
                assert here == Run(Panicked(NilConversionCall(arg, last.value)), []);
                return Run(Panicked(NilConversionCall(arg, last.value)), trace);
              case Found(fn) =>
                var e := run(fn, arg, last.value);
                if e.Some? {
                  assert here == Run(Returned(e), [Converted(fn, arg, last.value, e)]);
                  return Run(Returned(e), trace + [Converted(fn, arg, last.value, e)]);
                }
                assert here == Then([Converted(fn, arg, last.value, None)], tail);
                ThenThen(trace, [Converted(fn, arg, last.value, None)], tail);
                trace := trace + [Converted(fn, arg, last.value, None)];
            }
        }
        i := i + 1;
      }
      assert args[i..] == [];
      return Run(Returned(None), trace);
    }

    /**
     * convertChain: in argument order, call each function item and convert
     * each value into the next; the first error is returned.
     */
    method RunConvertChain(args: seq<Item>, run: Runner) returns (r: Run)
      ensures r == ExecChain(convPairs, args, None, run)
    {
      var prev: Option<Item> := None;
      var trace: seq<Effect> := [];
      var i := 0;
      while i < |args|
        invariant 0 <= i <= |args|
        invariant ExecChain(convPairs, args, None, run) == Then(trace, ExecChain(convPairs, args[i..], prev, run))
      {
        var arg := args[i];
        assert args[i..][1..] == args[i + 1..];
        ghost var here := ExecChain(convPairs, args[i..], prev, run);
        match arg {
          case Thunk(_) =>
            ghost var tail := ExecChain(convPairs, args[i + 1..], prev, run);
            assert here == Then([CalledThunk(arg, None)], tail);
            ThenThen(trace, [CalledThunk(arg, None)], tail);
            trace := trace + [CalledThunk(arg, None)];
          case ThunkErr(_, res) =>
            if res.Some? {
              assert here == Run(Returned(res), [CalledThunk(arg, res)]);
              return Run(Returned(res), trace + [CalledThunk(arg, res)]);
            }
            ghost var tail := ExecChain(convPairs, args[i + 1..], prev, run);
            assert here == Then([CalledThunk(arg, None)], tail);
            ThenThen(trace, [CalledThunk(arg, None)], tail);
            trace := trace + [CalledThunk(arg, None)];
          case Val(_, _) =>
            ghost var tail := ExecChain(convPairs, args[i + 1..], Some(arg), run);
            if prev.Some? {
              match GetConversion(convPairs, prev.value, arg) {
                case BadPair(e) =>
                  assert here == Run(Panicked(InvalidPair(e, prev.value, arg)), []);
                  return Run(Panicked(InvalidPair(e, prev.value, arg)), trace);
                case NotRegistered =>
                  assert here == Run(Panicked(NilConversionCall(prev.value, arg)), []);
                  return Run(Panicked(NilConversionCall(prev.value, arg)), trace);
                case Found(fn) =>
                  var e := run(fn, prev.value, arg);
                  if e.Some? {
                    assert here == Run(Returned(e), [Converted(fn, prev.value, arg, e)]);
                    return Run(Returned(e), trace + [Converted(fn, prev.value, arg, e)]);
                  }
                  assert here == Then([Converted(fn, prev.value, arg, None)], tail);
                  ThenThen(trace, [Converted(fn, prev.value, arg, None)], tail);
                  trace := trace + [Converted(fn, prev.value, arg, None)];
              }
            } else {
              assert here == tail;
            }
            prev := Some(arg);
        }
        i := i + 1;
      }
      assert args[i..] == [];
      return Run(Returned(None), trace);
    }

    /**
     * Convert: with exactly two items, the one registered function; otherwise
     * the chain rule or the broadcast rule, whichever the validations allow,
     * panicking when neither or, ambiguously, both apply to several pairs.
     */
    method Convert(args: seq<Item>, run: Runner) returns (r: Run)
      ensures r == ConvertSpec(convPairs, ready, args, run)
    {
      var notReady := EnsureReady();
      if notReady.Some? {
        return Run(Panicked(notReady.value), []);
      }
      if |args| == 2 {
        var arg, out := args[0], args[1];
        match GetConversion(convPairs, arg, out)
        case BadPair(e) =>
          return Run(Panicked(InvalidPair(e, arg, out)), []);
        case NotRegistered =>
          return Run(Panicked(NoConversion(arg, out)), []);
        case Found(fn) =>
          var e := run(fn, arg, out);
          return Run(Returned(e), [Converted(fn, arg, out, e)]);
      }
      var chain := ValidateConvertChain(args);
      if chain.ValidationPanic? {
        return Run(Panicked(chain.fault), []);
      }
      var to := ValidateConvertTo(args);
      if to.ValidationPanic? {
        return Run(Panicked(to.fault), []);
      }
      var cc, ct := chain.count, to.count;
      if cc == 0 && ct == 0 {
        return Run(Panicked(NeitherMessage(chain.pairA, chain.pairB, to.pairA, to.pairB)), []);
      } else if cc > 1 && ct > 1 {
        return Run(Panicked(Ambiguous(chain.pairA.value, chain.pairB.value, to.pairA.value, to.pairB.value)), []);
      } else if cc != 0 {
        r := RunConvertChain(args, run);
      } else {
        r := RunConvertTo(args, run);
      }
    }

    /** ConvertTo: the broadcast rule, which must validate. */
    method ConvertTo(args: seq<Item>, run: Runner) returns (r: Run)
      ensures r == ConvertToSpec(convPairs, ready, args, run)
    {
      var notReady := EnsureReady();
      if notReady.Some? {
        return Run(Panicked(notReady.value), []);
      }
      var v := ValidateConvertTo(args);
      if v.ValidationPanic? {
        return Run(Panicked(v.fault), []);
      }
      if v.count == 0 {
        return Run(Panicked(InvalidMessage(v.pairA, v.pairB)), []);
      }
      r := RunConvertTo(args, run);
    }

    /** ConvertChain: the chain rule, validated with the broadcast rule as in the source. */
    method ConvertChain(args: seq<Item>, run: Runner) returns (r: Run)
      ensures r == ConvertChainSpec(convPairs, ready, args, run)
    {
      var notReady := EnsureReady();
      if notReady.Some? {
        return Run(Panicked(notReady.value), []);
      }
      var v := ValidateConvertTo(args);
      if v.ValidationPanic? {
        return Run(Panicked(v.fault), []);
      }
      if v.count == 0 {
        return Run(Panicked(InvalidMessage(v.pairA, v.pairB)), []);
      }
      r := RunConvertChain(args, run);
    }
  }

  /** getLastNonFunc: scans from the end for the first non-function item. */
  method GetLastNonFunc(args: seq<Item>) returns (last: Option<Item>)
    ensures last == LastNonFunc(args)
  {
    var i := |args|;
    while i > 0
      invariant 0 <= i <= |args|
      invariant Values(args[i..]) == []
    {
      i := i - 1;
      assert args[i..][1..] == args[i + 1..];
      if !IsFunc(args[i]) {
        ValuesAppend(args[..i], args[i..]);
        assert args == args[..i] + args[i..];
        return Some(args[i]);
      }
    }
    assert args[0..] == args;
    return None;
  }

  /** One Register call made by a registration function. */
  datatype Registration = Registration(arg: RType, out: RType, fn: ConvFn)

  /** The Register calls of the registration functions, in call order. */
  function Flatten(funcs: seq<seq<Registration>>): seq<Registration>
  {
    if funcs == [] then [] else Flatten(funcs[..|funcs| - 1]) + funcs[|funcs| - 1]
  }

  /**
   * The table after registering `regs` in order on a scheme that is still
   * being built, or the panic of the first registration with a bad shape.
   */
  function Bind(table: Table, regs: seq<Registration>): Result<Table, Fault>
  {
    if regs == [] then Ok(table)
    else match Bind(table, regs[..|regs| - 1])
      case Err(f) => Err(f)
      case Ok(t) =>
        var reg := regs[|regs| - 1];
        match GetTypePair(reg.arg, reg.out)
        case Err(e) => Err(InvalidRegistration(e))
        case Ok(p) => Ok(t[p := reg.fn])
  }

  /**
   * Build: a fresh scheme, every registration function run on it in order,
   * then frozen. No registration made here can be too late.
   */
  method Build(funcs: seq<seq<Registration>>) returns (s: Scheme, fault: Option<Fault>)
    ensures fresh(s)
    ensures fault.None? <==> Bind(map[], Flatten(funcs)).Ok?
    ensures fault.None? ==> s.ready && s.convPairs == Bind(map[], Flatten(funcs)).value
    ensures fault.Some? ==> fault == Some(Bind(map[], Flatten(funcs)).error) && fault.value.InvalidRegistration?
  {
    s := new Scheme();
    var i := 0;
    while i < |funcs|
      invariant 0 <= i <= |funcs|
      invariant !s.ready
      invariant Bind(map[], Flatten(funcs[..i])) == Ok(s.convPairs)
    {
      var j;
      fault, j := RegisterEach(s, Flatten(funcs[..i]), funcs[i]);
      if fault.Some? {
        BindStops(Flatten(funcs[..i]) + funcs[i][..j + 1], funcs, i);
        return;
      }
      assert funcs[..i + 1][..i] == funcs[..i];
      i := i + 1;
    }
    assert funcs[..i] == funcs;
    s.ready := true;
    fault := None;
  }

  /**
   * One registration function of Build: its registrations in order, up to
   * the first one that fails (the `j`-th).
   */
  method RegisterEach(s: Scheme, ghost done: seq<Registration>, regs: seq<Registration>)
    returns (fault: Option<Fault>, j: nat)
    requires !s.ready && Bind(map[], done) == Ok(s.convPairs)
    modifies s
    ensures !s.ready
    ensures fault.None? ==> Bind(map[], done + regs) == Ok(s.convPairs)
    ensures fault.Some? ==> j < |regs| && Bind(map[], done + regs[..j + 1]) == Err(fault.value)
                            && fault.value.InvalidRegistration?
  {
    j := 0;
    assert done + regs[..0] == done;
    while j < |regs|
      invariant 0 <= j <= |regs|
      invariant !s.ready
      invariant Bind(map[], done + regs[..j]) == Ok(s.convPairs)
    {
      var reg := regs[j];
      assert (done + regs[..j + 1])[..|done + regs[..j + 1]| - 1] == done + regs[..j];
      fault := s.Register(reg.arg, reg.out, reg.fn);
      if fault.Some? {
        return;
      }
      j := j + 1;
    }
    assert regs[..j] == regs;
    fault := None;
  }

  /** The first failing registration decides the result of the whole sequence. */
  lemma BindStops(done: seq<Registration>, funcs: seq<seq<Registration>>, i: nat)
    requires i < |funcs|
    requires exists j :: 0 <= j <= |funcs[i]| && done == Flatten(funcs[..i]) + funcs[i][..j]
    requires Bind(map[], done).Err?
    ensures Bind(map[], Flatten(funcs)) == Bind(map[], done)
  {
    var j :| 0 <= j <= |funcs[i]| && done == Flatten(funcs[..i]) + funcs[i][..j];
    var rest := funcs[i][j..] + Flatten(funcs[i + 1..]);
    FlattenSplit(funcs, i);
    assert Flatten(funcs) == done + rest;
    BindErrPersists(done, rest);
  }

  lemma {:induction false} FlattenSplit(funcs: seq<seq<Registration>>, i: nat)
    requires i < |funcs|
    ensures Flatten(funcs) == Flatten(funcs[..i]) + funcs[i] + Flatten(funcs[i + 1..])
    decreases |funcs|
  {
    if i == |funcs| - 1 {
      assert funcs[i + 1..] == [];
      assert funcs[..|funcs| - 1] == funcs[..i];
    } else {
      var init := funcs[..|funcs| - 1];
      FlattenSplit(init, i);
      assert init[..i] == funcs[..i] && init[i] == funcs[i];
      assert init[i + 1..] == funcs[i + 1..|funcs| - 1];
      assert funcs[i + 1..][..|funcs[i + 1..]| - 1] == funcs[i + 1..|funcs| - 1];
    }
  }

  lemma {:induction false} BindErrPersists(regs: seq<Registration>, more: seq<Registration>)
    requires Bind(map[], regs).Err?
    ensures Bind(map[], regs + more) == Bind(map[], regs)
    decreases |more|
  {
    if more == [] {
      assert regs + more == regs;
    } else {
      var init := more[..|more| - 1];
      BindErrPersists(regs, init);
      assert (regs + more)[..|regs + more| - 1] == regs + init;
    }
  }
}
