/** The stack heights the code is compiled for are those of the typing. */
module Heights {
  import opened Wasm
  import opened Typing
  import opened Compile

  lemma DeltaOfOperator(s: Scope, e: Instr, ts: seq<Type>)
    requires IsOperator(e) && TypeOperator(s, e, ts).Live?
    ensures |TypeOperator(s, e, ts).types| == |ts| + Delta(s.m, e)
  {
    hide UnarySig, BinarySig, LoadSig, StoreSig, AccessOk;
  }

  lemma DeltaOfCall(s: Scope, e: Instr, ts: seq<Type>)
    requires IsCall(e) && TypeCall(s, e, ts).Live? && (e.CallIndirect? ==> ts != [])
    ensures |TypeCall(s, e, ts).types| == |ts| + Delta(s.m, e)
  {}

  lemma DeltaIsTyped(s: Scope, labels: seq<Typing.Label>, e: Instr, ts: seq<Type>)
    requires TypeInstr(s, labels, e, ts).Live? && (e.CallIndirect? ==> ts != [])
    ensures |TypeInstr(s, labels, e, ts).types| == |ts| + Delta(s.m, e)
  {
    hide BodyOk, TypeCode, TypeOperator, TypeCall;
    if IsOperator(e) {
      DeltaOfOperator(s, e, ts);
    } else if IsCall(e) {
      DeltaOfCall(s, e, ts);
    }
  }

  lemma PlainLive(s: Scope, e: Instr, ts: seq<Type>)
    requires IsPlain(e) && !TypePlain(s, e, ts).Bad?
    ensures TypePlain(s, e, ts).Live?
  {
    hide OperatorSig, AccessOk;
  }

  /** An instruction after which typing goes on is not a terminal one. */
  lemma LiveGoesOn(s: Scope, labels: seq<Typing.Label>, e: Instr, ts: seq<Type>)
    ensures TypeInstr(s, labels, e, ts).Live? ==> !Terminal(e)
    ensures TypeInstr(s, labels, e, ts).Dead? ==> Terminal(e)
  {
    hide BodyOk, TypeCode, OperatorSig, AccessOk;
  }
}
