/** The stack of types that both the validator and the code generator keep. */
module TypeStack {
  import opened Wasm
  import opened Typing

  /** An entry of the type stack; Any marks the point control does not pass. */
  datatype StackType = Known(ty: Type) | Any

  function KnownTypes(ts: seq<Type>): (ks: seq<StackType>)
    ensures |ks| == |ts| && forall i :: 0 <= i < |ts| ==> ks[i] == Known(ts[i])
  {
    seq(|ts|, i requires 0 <= i < |ts| => Known(ts[i]))
  }

  /** The stack spells out the result of typing: the operand types, or the
      marker alone once control cannot continue. */
  predicate Shows(operands: seq<StackType>, r: Typed) {
    match r
    case Live(ts) => operands == KnownTypes(ts)
    case Dead => operands == [Any]
    case Bad => true
  }

  /** Popping an empty block stack leaves it empty. */
  function Popped(ts: seq<Type>): seq<Type> {
    if |ts| > 0 then Below(ts, 1) else ts
  }

  /** The entries on top are the expected types. */
  predicate TopIs(operands: seq<StackType>, expected: seq<Type>) {
    |expected| <= |operands| && operands[|operands| - |expected|..] == KnownTypes(expected)
  }

  lemma KnownAppend(ts: seq<Type>, us: seq<Type>)
    ensures KnownTypes(ts + us) == KnownTypes(ts) + KnownTypes(us)
  {}

  lemma KnownInjective(ts: seq<Type>, us: seq<Type>)
    requires KnownTypes(ts) == KnownTypes(us)
    ensures ts == us
  {
    forall i | 0 <= i < |ts| ensures ts[i] == us[i] {
      assert KnownTypes(ts)[i] == KnownTypes(us)[i];
    }
  }

  lemma TopKnown(ts: seq<Type>, suffix: seq<Type>)
    ensures TopIs(KnownTypes(ts), suffix) <==> EndsWith(ts, suffix)
    ensures TopIs(KnownTypes(ts), suffix) && |suffix| == |ts| <==> ts == suffix
  {
    if |suffix| <= |ts| {
      assert KnownTypes(ts)[|ts| - |suffix|..] == KnownTypes(ts[|ts| - |suffix|..]);
      if KnownTypes(ts)[|ts| - |suffix|..] == KnownTypes(suffix) {
        KnownInjective(ts[|ts| - |suffix|..], suffix);
      }
      if |suffix| == |ts| {
        assert ts[0..] == ts;
      }
    }
  }
}
