/**
 * What the runtime scheme promises, proved about the functions of
 * SchemeSpec (and hence about the Scheme methods proved equal to them).
 */
module SchemeProps {

  import opened Wrappers
  import opened SchemeSpec
  import opened Conversion

  // ---------------------------------------------------------------- validation

  /**
   * The broadcast validation succeeds (count > 0) exactly when there is a value
   * and every value, the last one included, has a function into the last value;
   * its count is then the number of values and its first pair is (first, last).
   */
  lemma BroadcastValidation(table: Table, args: seq<Item>)
    requires ValidateTo(table, args).Validation?
    ensures var v := ValidateTo(table, args); var vs := Values(args);
      && (v.count > 0 <==> vs != [] && forall k :: 0 <= k < |vs| ==> GetConversion(table, vs[k], vs[|vs| - 1]).Found?)
      && (v.count > 0 ==> v.count == |vs| && v.pairA == Some(vs[0]) && v.pairB == Some(vs[|vs| - 1]))
  {
    var vs := Values(args);
    var ps := BroadcastPairs(args);
    if ValidateTo(table, args).count > 0 {
      assert FirstMiss(table, ps) == |ps|;
      forall k | 0 <= k < |vs| ensures GetConversion(table, vs[k], vs[|vs| - 1]).Found? {
        assert ps[k] == (vs[k], vs[|vs| - 1]);
      }
    }
  }

  /** In particular the last value is checked against itself: without that entry broadcast never validates. */
  lemma BroadcastNeedsSelfPair(table: Table, args: seq<Item>)
    requires Values(args) != []
    requires !GetConversion(table, LastNonFunc(args).value, LastNonFunc(args).value).Found?
    ensures ValidateTo(table, args).ValidationPanic? || ValidateTo(table, args).count == 0
  {
    var ps := BroadcastPairs(args);
    assert !GetConversion(table, ps[|ps| - 1].0, ps[|ps| - 1].1).Found?;
  }

  /**
   * The chain validation succeeds exactly when there are at least two values
   * and each has a function into the next; its count is then the number of
   * adjacent pairs and its first pair is the first two values.
   */
  lemma ChainValidation(table: Table, args: seq<Item>)
    requires ValidateChain(table, args).Validation?
    ensures var v := ValidateChain(table, args); var vs := Values(args);
      && (v.count > 0 <==> |vs| >= 2 && forall k :: 0 <= k < |vs| - 1 ==> GetConversion(table, vs[k], vs[k + 1]).Found?)
      && (v.count > 0 ==> v.count == |vs| - 1 && v.pairA == Some(vs[0]) && v.pairB == Some(vs[1]))
  {
    var vs := Values(args);
    var ps := ChainPairs(vs);
    if ValidateChain(table, args).count > 0 {
      assert FirstMiss(table, ps) == |ps|;
      forall k | 0 <= k < |vs| - 1 ensures GetConversion(table, vs[k], vs[k + 1]).Found? {
        assert ps[k] == (vs[k], vs[k + 1]);
      }
    }
  }

  // ------------------------------------------------- no panic after validation

  /** The values after the first item are the tail of all values (all of them when it is a function). */
  lemma ValuesTail(items: seq<Item>)
    requires items != []
    ensures Values(items) == (if IsFunc(items[0]) then [] else [items[0]]) + Values(items[1..])
    ensures Values(items[1..]) == if IsFunc(items[0]) then Values(items) else Values(items)[1..]
  {
  }

  lemma {:induction false} ExecToNoPanic(table: Table, items: seq<Item>, last: Option<Item>, run: Runner)
    requires last.Some?
    requires forall k :: 0 <= k < |Values(items)| ==> GetConversion(table, Values(items)[k], last.value).Found?
    ensures ExecTo(table, items, last, run).outcome.Returned?
  {
    if items != [] {
      ValuesTail(items);
      var vs := Values(items);
      var rest := Values(items[1..]);
      forall k | 0 <= k < |rest| ensures GetConversion(table, rest[k], last.value).Found? {
        assert rest[k] == vs[if IsFunc(items[0]) then k else k + 1];
      }
      if !IsFunc(items[0]) {
        assert vs[0] == items[0];
      }
      ExecToNoPanic(table, items[1..], last, run);
      ExecToStep(table, items, last, run);
    }
  }

  /** One item of the broadcast: a registered conversion or a function call never panics. */
  lemma ExecToStep(table: Table, items: seq<Item>, last: Option<Item>, run: Runner)
    requires last.Some? && items != []
    requires !IsFunc(items[0]) ==> GetConversion(table, items[0], last.value).Found?
    requires ExecTo(table, items[1..], last, run).outcome.Returned?
    ensures ExecTo(table, items, last, run).outcome.Returned?
  {
  }

  /** Once the broadcast rule validates, executing it calls a registered function for every pair: no panic. */
  lemma BroadcastValidatedRuns(table: Table, args: seq<Item>, run: Runner)
    requires ValidateTo(table, args).Validation? && ValidateTo(table, args).count > 0
    ensures ExecTo(table, args, LastNonFunc(args), run).outcome.Returned?
  {
    BroadcastValidation(table, args);
    ExecToNoPanic(table, args, LastNonFunc(args), run);
  }

  /** The values seen by the chain, starting from the value carried over. */
  function Carried(prev: Option<Item>, items: seq<Item>): seq<Item>
  {
    (if prev.Some? then [prev.value] else []) + Values(items)
  }

  /** Each value of `cs` has a registered function into the next. */
  predicate Linked(table: Table, cs: seq<Item>)
  {
    forall k :: 0 <= k < |cs| - 1 ==> GetConversion(table, cs[k], cs[k + 1]).Found?
  }

  lemma LinkedTail(table: Table, cs: seq<Item>)
    requires cs != [] && Linked(table, cs)
    ensures Linked(table, cs[1..])
  {
    forall k | 0 <= k < |cs| - 2 ensures GetConversion(table, cs[1..][k], cs[1..][k + 1]).Found? {
      assert cs[1..][k] == cs[k + 1] && cs[1..][k + 1] == cs[k + 2];
    }
  }

  /** A linked chain carrying a value links it to the next value item, and stays linked after it. */
  lemma LinkedStep(table: Table, prev: Item, items: seq<Item>)
    requires items != [] && !IsFunc(items[0]) && Linked(table, Carried(Some(prev), items))
    ensures GetConversion(table, prev, items[0]).Found?
    ensures Linked(table, Carried(Some(items[0]), items[1..]))
  {
    var cs := Carried(Some(prev), items);
    ValuesTail(items);
    assert cs == [prev] + Carried(Some(items[0]), items[1..]);
    assert cs[0] == prev && cs[1] == items[0];
    LinkedTail(table, cs);
    assert cs[1..] == Carried(Some(items[0]), items[1..]);
  }

  lemma {:induction false} ExecChainNoPanic(table: Table, items: seq<Item>, prev: Option<Item>, run: Runner)
    requires Linked(table, Carried(prev, items))
    ensures ExecChain(table, items, prev, run).outcome.Returned?
  {
    if items != [] {
      var it := items[0];
      if IsFunc(it) {
        ValuesTail(items);
        assert Carried(prev, items[1..]) == Carried(prev, items);
        ExecChainNoPanic(table, items[1..], prev, run);
      } else if prev.None? {
        ValuesTail(items);
        assert Carried(Some(it), items[1..]) == Carried(prev, items);
        ExecChainNoPanic(table, items[1..], Some(it), run);
      } else {
        LinkedStep(table, prev.value, items);
        ExecChainNoPanic(table, items[1..], Some(it), run);
      }
    }
  }

  /** Once the chain rule validates, executing the chain never panics. */
  lemma ChainValidatedRuns(table: Table, args: seq<Item>, run: Runner)
    requires ValidateChain(table, args).Validation? && ValidateChain(table, args).count > 0
    ensures ExecChain(table, args, None, run).outcome.Returned?
  {
    ChainValidation(table, args);
    assert Carried(None, args) == Values(args);
    assert Linked(table, Carried(None, args));
    ExecChainNoPanic(table, args, None, run);
  }

  // ------------------------------------------------------ the first error wins

  function ResultOf(e: Effect): Option<Error>
  {
    match e
    case CalledThunk(_, r) => r
    case Converted(_, _, _, r) => r
  }

  predicate AllOk(trace: seq<Effect>)
  {
    forall k :: 0 <= k < |trace| ==> ResultOf(trace[k]).None?
  }

  /**
   * A run stops at its first failing call: every call before the last one
   * succeeded, and the run returned an error exactly when its last call
   * returned that error.
   */
  predicate StopsAtFirstError(r: Run)
  {
    && (r.trace != [] ==> AllOk(r.trace[..|r.trace| - 1]))
    && (r.outcome.Panicked? ==> AllOk(r.trace))
    && (r.outcome == Returned(None) ==> AllOk(r.trace))
    && (r.outcome.Returned? && r.outcome.err.Some? ==>
          r.trace != [] && ResultOf(r.trace[|r.trace| - 1]) == r.outcome.err)
  }

  lemma ThenKeepsStop(e: Effect, r: Run)
    requires ResultOf(e).None? && StopsAtFirstError(r)
    ensures StopsAtFirstError(Then([e], r))
  {
    var t := [e] + r.trace;
    if r.trace != [] {
      assert t[..|t| - 1] == [e] + r.trace[..|r.trace| - 1];
    }
  }

  lemma {:induction false} ExecToStopsAtFirstError(table: Table, items: seq<Item>, last: Option<Item>, run: Runner)
    requires last.None? ==> Values(items) == []
    ensures StopsAtFirstError(ExecTo(table, items, last, run))
  {
    if items != [] {
      var it := items[0];
      assert Values(items) == (if IsFunc(it) then [] else [it]) + Values(items[1..]);
      if Some(it) != last {
        if it.Val? {
          match GetConversion(table, it, last.value)
          case Found(fn) =>
            if run(fn, it, last.value).None? {
              ExecToStopsAtFirstError(table, items[1..], last, run);
              ThenKeepsStop(Converted(fn, it, last.value, None), ExecTo(table, items[1..], last, run));
            }
          case _ =>
        } else if it.Thunk? || it.result.None? {
          ExecToStopsAtFirstError(table, items[1..], last, run);
          ThenKeepsStop(CalledThunk(it, None), ExecTo(table, items[1..], last, run));
        }
      } else {
        ExecToStopsAtFirstError(table, items[1..], last, run);
      }
    }
  }

  lemma {:induction false} ExecChainStopsAtFirstError(table: Table, items: seq<Item>, prev: Option<Item>, run: Runner)
    ensures StopsAtFirstError(ExecChain(table, items, prev, run))
  {
    if items != [] {
      var it := items[0];
      if it.Val? {
        if prev.None? {
          ExecChainStopsAtFirstError(table, items[1..], Some(it), run);
        } else {
          match GetConversion(table, prev.value, it)
          case Found(fn) =>
            if run(fn, prev.value, it).None? {
              ExecChainStopsAtFirstError(table, items[1..], Some(it), run);
              ThenKeepsStop(Converted(fn, prev.value, it, None), ExecChain(table, items[1..], Some(it), run));
            }
          case _ =>
        }
      } else if it.Thunk? || it.result.None? {
        ExecChainStopsAtFirstError(table, items[1..], prev, run);
        ThenKeepsStop(CalledThunk(it, None), ExecChain(table, items[1..], prev, run));
      }
    }
  }

  // ------------------------------------------------------------ call order

  /** The (source, target) pairs of the conversions in a trace, in order. */
  function Conversions(trace: seq<Effect>): seq<(Item, Item)>
  {
    if trace == [] then []
    else (if trace[0].Converted? then [(trace[0].arg, trace[0].out)] else []) + Conversions(trace[1..])
  }

  /** The function items called in a trace, in order. */
  function Thunks(trace: seq<Effect>): seq<Item>
  {
    if trace == [] then []
    else (if trace[0].CalledThunk? then [trace[0].item] else []) + Thunks(trace[1..])
  }

  /** The function items of an argument list, in order. */
  function Funcs(items: seq<Item>): seq<Item>
  {
    if items == [] then [] else (if IsFunc(items[0]) then [items[0]] else []) + Funcs(items[1..])
  }

  /** Broadcast targets: every value other than `last`, converted into `last`. */
  function IntoLast(vs: seq<Item>, last: Item): seq<(Item, Item)>
  {
    if vs == [] then [] else (if vs[0] == last then [] else [(vs[0], last)]) + IntoLast(vs[1..], last)
  }

  lemma ConversionsThen(e: Effect, r: Run)
    ensures Conversions(Then([e], r).trace) == Conversions([e]) + Conversions(r.trace)
    ensures Thunks(Then([e], r).trace) == Thunks([e]) + Thunks(r.trace)
  {
    assert ([e] + r.trace)[1..] == r.trace;
  }

  /**
   * A broadcast run that returns nil has called every function item and
   * converted every value other than the last into the last, in argument order.
   */
  lemma {:induction false} BroadcastOrder(table: Table, items: seq<Item>, last: Option<Item>, run: Runner)
    requires last.Some? && !IsFunc(last.value)
    requires ExecTo(table, items, last, run).outcome == Returned(None)
    ensures Conversions(ExecTo(table, items, last, run).trace) == IntoLast(Values(items), last.value)
    ensures Thunks(ExecTo(table, items, last, run).trace) == Funcs(items)
  {
    if items != [] {
      var it := items[0];
      var rest := ExecTo(table, items[1..], last, run);
      ValuesTail(items);
      BroadcastOrder(table, items[1..], last, run);
      if IsFunc(it) {
        ConversionsThen(CalledThunk(it, None), rest);
      } else {
        var vs := Values(items);
        assert vs[0] == it && vs[1..] == Values(items[1..]);
        assert IntoLast(vs, last.value) == (if it == last.value then [] else [(it, last.value)]) + IntoLast(Values(items[1..]), last.value);
        if Some(it) != last {
          var fn := GetConversion(table, it, last.value).fn;
          ConversionsThen(Converted(fn, it, last.value, None), rest);
        }
      }
    }
  }

  lemma ChainPairsCons(p: Item, vs: seq<Item>)
    requires vs != []
    ensures ChainPairs([p] + vs) == [(p, vs[0])] + ChainPairs(vs)
  {
    var l := ChainPairs([p] + vs);
    var r := [(p, vs[0])] + ChainPairs(vs);
    assert |l| == |r|;
    forall k | 0 <= k < |l| ensures l[k] == r[k] {
      if k > 0 {
        assert r[k] == ChainPairs(vs)[k - 1] == (vs[k - 1], vs[k]);
      }
    }
  }

  /**
   * A chain run that returns nil has called every function item and
   * converted each value into the next, in argument order.
   */
  lemma {:induction false} ChainOrder(table: Table, items: seq<Item>, prev: Option<Item>, run: Runner)
    requires ExecChain(table, items, prev, run).outcome == Returned(None)
    ensures Conversions(ExecChain(table, items, prev, run).trace) == ChainPairs(Carried(prev, items))
    ensures Thunks(ExecChain(table, items, prev, run).trace) == Funcs(items)
  {
    if items == [] {
      assert Carried(prev, items) == (if prev.Some? then [prev.value] else []);
    } else {
      var it := items[0];
      assert Values(items) == (if IsFunc(it) then [] else [it]) + Values(items[1..]);
      if IsFunc(it) {
        assert Carried(prev, items[1..]) == Carried(prev, items);
        ChainOrder(table, items[1..], prev, run);
        ConversionsThen(CalledThunk(it, None), ExecChain(table, items[1..], prev, run));
      } else if prev.None? {
        assert Carried(Some(it), items[1..]) == Carried(prev, items);
        ChainOrder(table, items[1..], Some(it), run);
      } else {
        var fn := GetConversion(table, prev.value, it).fn;
        var rest := ExecChain(table, items[1..], Some(it), run);
        ChainOrder(table, items[1..], Some(it), run);
        ConversionsThen(Converted(fn, prev.value, it, None), rest);
        assert Carried(prev, items) == [prev.value] + Carried(Some(it), items[1..]);
        ChainPairsCons(prev.value, Carried(Some(it), items[1..]));
      }
    }
  }

  // ------------------------------------------------------------ dispatch

  /** Nothing runs before the scheme is ready. */
  lemma NotReadyPanics(table: Table, args: seq<Item>, run: Runner)
    ensures ConvertSpec(table, false, args, run) == Run(Panicked(NotReady), [])
    ensures ConvertToSpec(table, false, args, run) == Run(Panicked(NotReady), [])
    ensures ConvertChainSpec(table, false, args, run) == Run(Panicked(NotReady), [])
  {
  }

  /**
   * Two items: the one registered function is called, and its result is
   * returned unchanged; a missing entry or two types with no key panic.
   */
  lemma ConvertPair(table: Table, a: Item, b: Item, run: Runner)
    ensures var r := ConvertSpec(table, true, [a, b], run); var l := GetConversion(table, a, b);
      && (l.Found? ==> r == Run(Returned(run(l.fn, a, b)), [Converted(l.fn, a, b, run(l.fn, a, b))]))
      && (l.NotRegistered? ==> r.outcome == Panicked(NoConversion(a, b)))
      && (l.BadPair? ==> r.outcome == Panicked(InvalidPair(l.err, a, b)))
  {
  }

  /**
   * More or fewer than two items: neither rule → "no conversion"; both
   * rules over several pairs → "ambiguous"; otherwise the chain when it
   * validates, else the broadcast. A run that is not a panic never panics
   * for want of a registered function.
   */
  lemma ConvertDispatch(table: Table, args: seq<Item>, run: Runner)
    requires |args| != 2
    requires ValidateChain(table, args).Validation? && ValidateTo(table, args).Validation?
    ensures var cc := ValidateChain(table, args).count; var ct := ValidateTo(table, args).count;
            var r := ConvertSpec(table, true, args, run);
      && (cc == 0 && ct == 0 ==> r.outcome.Panicked? && (r.outcome.fault.NoConversionAtAll? || r.outcome.fault.NoConversion? || r.outcome.fault.NoConversionEither?))
      && (cc > 1 && ct > 1 ==> r.outcome.Panicked? && r.outcome.fault.Ambiguous?)
      && (cc != 0 && !(cc > 1 && ct > 1) ==> r == ExecChain(table, args, None, run) && r.outcome.Returned?)
      && (cc == 0 && ct != 0 ==> r == ExecTo(table, args, LastNonFunc(args), run) && r.outcome.Returned?)
  {
    var vc, vt := ValidateChain(table, args), ValidateTo(table, args);
    var cc, ct := vc.count, vt.count;
    var r := ConvertSpec(table, true, args, run);
    if cc == 0 && ct == 0 {
      assert r == Run(Panicked(NeitherMessage(vc.pairA, vc.pairB, vt.pairA, vt.pairB)), []);
    } else if cc > 1 && ct > 1 {
      assert r.outcome == Panicked(Ambiguous(vc.pairA.value, vc.pairB.value, vt.pairA.value, vt.pairB.value));
    } else if cc != 0 {
      assert r == ExecChain(table, args, None, run);
      ChainValidatedRuns(table, args, run);
    } else {
      assert r == ExecTo(table, args, LastNonFunc(args), run);
      BroadcastValidatedRuns(table, args, run);
    }
  }

  /**
   * The corrected ConvertChain runs exactly the chains whose every link is
   * registered, and such a run never panics; every other call panics before
   * any function is called.
   */
  lemma ConvertChainValidatedRuns(table: Table, args: seq<Item>, run: Runner)
    requires ValidateChain(table, args).Validation?
    ensures var r := ConvertChainValidated(table, true, args, run); var vs := Values(args);
      && (r.outcome.Returned? <==> |vs| >= 2 && forall k :: 0 <= k < |vs| - 1 ==> GetConversion(table, vs[k], vs[k + 1]).Found?)
      && (r.outcome.Returned? ==> r == ExecChain(table, args, None, run))
      && (r.outcome.Panicked? ==> r.trace == [])
  {
    ChainValidation(table, args);
    if ValidateChain(table, args).count > 0 {
      ChainValidatedRuns(table, args, run);
    }
  }

  // ------------------------------------------------------------ registration

  /** Registration keys of a sequence of Register calls. */
  predicate Binds(reg: Registration, p: TypePair)
  {
    GetTypePair(reg.arg, reg.out) == Ok(p)
  }

  /** When two registrations bind the same pair, the later one wins. */
  lemma {:induction false} BindLaterWins(table: Table, regs: seq<Registration>, i: nat, p: TypePair)
    requires Bind(table, regs).Ok?
    requires i < |regs| && Binds(regs[i], p)
    requires forall j :: i < j < |regs| ==> !Binds(regs[j], p)
    ensures p in Bind(table, regs).value && Bind(table, regs).value[p] == regs[i].fn
    decreases |regs|
  {
    var init := regs[..|regs| - 1];
    if i < |regs| - 1 {
      BindLaterWins(table, init, i, p);
    }
  }

  /** A pair that no registration binds keeps its entry (or its absence). */
  lemma {:induction false} BindLeavesOthers(table: Table, regs: seq<Registration>, p: TypePair)
    requires Bind(table, regs).Ok?
    requires forall j :: 0 <= j < |regs| ==> !Binds(regs[j], p)
    ensures (p in Bind(table, regs).value <==> p in table)
    ensures p in table ==> Bind(table, regs).value[p] == table[p]
    decreases |regs|
  {
    if regs != [] {
      BindLeavesOthers(table, regs[..|regs| - 1], p);
    }
  }

  /** A scheme returned by Build refuses any later registration. */
  method RegisterAfterBuild(funcs: seq<seq<Registration>>, arg: RType, out: RType, fn: ConvFn)
    returns (buildFault: Option<Fault>, late: Option<Fault>)
    ensures buildFault.None? ==> late == Some(RegisterTooLate)
    ensures buildFault.Some? ==> buildFault.value.InvalidRegistration?
  {
    var s;
    s, buildFault := Build(funcs);
    if buildFault.None? {
      late := s.Register(arg, out, fn);
    } else {
      late := None;
    }
  }
}
