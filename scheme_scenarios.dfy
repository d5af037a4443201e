/**
 * Concrete registries for three struct types A, B and C, and what Convert,
 * ConvertChain and the corrected chain validation do on them.
 */
module SchemeScenarios {

  import opened Wrappers
  import opened SchemeSpec
  import opened SchemeProps

  const A: RType := Struct("A")
  const B: RType := Struct("B")
  const C: RType := Struct("C")

  /** `&a`, `&b`, `&c`: three values of types *A, *B, *C. */
  const a: Item := Val(1, Ptr(A))
  const b: Item := Val(2, Ptr(B))
  const c: Item := Val(3, Ptr(C))

  /** A → B and B → C only. */
  function ChainOnly(): Table
  {
    map[TypePair(false, A, B) := ConvFn(1), TypePair(false, B, C) := ConvFn(2)]
  }

  /** A → B, B → C and A → C. */
  function ChainAndDirect(): Table
  {
    ChainOnly()[TypePair(false, A, C) := ConvFn(3)]
  }

  /** A → C, B → C and C → C: everything converts into C, nothing into B. */
  function IntoC(): Table
  {
    map[TypePair(false, A, C) := ConvFn(3), TypePair(false, B, C) := ConvFn(4), TypePair(false, C, C) := ConvFn(5)]
  }

  lemma ValuesOfThree()
    ensures Values([a, b, c]) == [a, b, c]
    ensures LastNonFunc([a, b, c]) == Some(c)
  {
    assert Values([c]) == [c] by { assert [c][1..] == []; }
    assert Values([b, c]) == [b, c] by { assert [b, c][1..] == [c]; }
    assert [a, b, c][1..] == [b, c];
  }

  /**
   * With A → B, B → C and A → C registered, Convert(a, b, c) runs the
   * chain: broadcast does not validate, because C → C is missing.
   */
  lemma ThreeWithoutSelfPairChains(run: Runner)
    ensures ConvertSpec(ChainAndDirect(), true, [a, b, c], run) == ExecChain(ChainAndDirect(), [a, b, c], None, run)
    ensures ConvertSpec(ChainAndDirect(), true, [a, b, c], run).outcome.Returned?
  {
    var t := ChainAndDirect();
    ValuesOfThree();
    BroadcastNeedsSelfPair(t, [a, b, c]);
    ChainLinks(t);
    ConvertDispatch(t, [a, b, c], run);
  }

  lemma ChainLinks(t: Table)
    requires TypePair(false, A, B) in t && TypePair(false, B, C) in t
    ensures ValidateChain(t, [a, b, c]) == Validation(2, Some(a), Some(b))
  {
    ValuesOfThree();
    var ps := ChainPairs([a, b, c]);
    assert ps == [(a, b), (b, c)];
    FirstMissAt(t, ps, 2);
  }

  /** Registering C → C as well makes the same call ambiguous. */
  lemma ThreeWithSelfPairIsAmbiguous(run: Runner)
    ensures var t := ChainAndDirect()[TypePair(false, C, C) := ConvFn(5)];
      ConvertSpec(t, true, [a, b, c], run) == Run(Panicked(Ambiguous(a, b, a, c)), [])
  {
    var t := ChainAndDirect()[TypePair(false, C, C) := ConvFn(5)];
    ValuesOfThree();
    ChainLinks(t);
    var ps := BroadcastPairs([a, b, c]);
    assert ps == [(a, c), (b, c), (c, c)];
    FirstMissAt(t, ps, 3);
  }

  /** Finding, as written: ConvertChain refuses a chain whose every link is registered. */
  lemma ConvertChainRefusesRegisteredChain(run: Runner)
    ensures ValidateChain(ChainOnly(), [a, b, c]) == Validation(2, Some(a), Some(b))
    ensures ConvertChainSpec(ChainOnly(), true, [a, b, c], run) == Run(Panicked(NoConversion(a, c)), [])
  {
    var t := ChainOnly();
    ChainLinks(t);
    ValuesOfThree();
    var ps := BroadcastPairs([a, b, c]);
    assert ps == [(a, c), (b, c), (c, c)];
    FirstMissAt(t, ps, 0);
  }

  /** Finding, as written: ConvertChain accepts a call whose first link is missing, and then calls a nil function. */
  lemma ConvertChainCallsMissingLink(run: Runner)
    ensures ConvertChainSpec(IntoC(), true, [a, b, c], run) == Run(Panicked(NilConversionCall(a, b)), [])
  {
    var t := IntoC();
    ValuesOfThree();
    var ps := BroadcastPairs([a, b, c]);
    assert ps == [(a, c), (b, c), (c, c)];
    FirstMissAt(t, ps, 3);
    assert [a, b, c][1..] == [b, c];
    assert ExecChain(t, [a, b, c], None, run) == ExecChain(t, [b, c], Some(a), run);
    assert GetConversion(t, a, b) == NotRegistered;
  }

  /** Corrected: validating the chain rule accepts the registered chain and runs it. */
  lemma ConvertChainValidatedAccepts(run: Runner)
    ensures ConvertChainValidated(ChainOnly(), true, [a, b, c], run) == ExecChain(ChainOnly(), [a, b, c], None, run)
    ensures ConvertChainValidated(ChainOnly(), true, [a, b, c], run).outcome.Returned?
  {
    var t := ChainOnly();
    ChainLinks(t);
    ChainValidatedRuns(t, [a, b, c], run);
  }

  /** Corrected: validating the chain rule rejects the chain whose first link is missing. */
  lemma ConvertChainValidatedRejects(run: Runner)
    ensures ConvertChainValidated(IntoC(), true, [a, b, c], run) == Run(Panicked(NoConversion(a, b)), [])
  {
    var t := IntoC();
    ValuesOfThree();
    var ps := ChainPairs([a, b, c]);
    assert ps == [(a, b), (b, c)];
    FirstMissAt(t, ps, 0);
  }
}
