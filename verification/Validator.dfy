/** The validator (src/validator.c): one mutable type stack and one label stack,
    checked against the type discipline of module Typing. */
module Validator {
  import opened Wasm
  import opened Typing
  import opened TypeStack

  datatype LabelNode = LabelNode(isLoop: bool, sig: seq<Type>, limit: nat)

  function LabelsOf(nodes: seq<LabelNode>): (ls: seq<Label>)
    ensures |ls| == |nodes| && forall i :: 0 <= i < |nodes| ==> ls[i] == Label(nodes[i].isLoop, nodes[i].sig)
  {
    seq(|nodes|, i requires 0 <= i < |nodes| => Label(nodes[i].isLoop, nodes[i].sig))
  }

  lemma OneLabel(node: LabelNode)
    ensures LabelsOf([node]) == [Label(node.isLoop, node.sig)]
  {}

  class Checker {
    const scope: Scope
    var typeStack: seq<StackType>
    var labels: seq<LabelNode>  // innermost last
    var ok: bool                // no error reported so far

    ghost predicate Valid()
      reads this
    {
      |labels| > 0 && labels[|labels| - 1].limit <= |typeStack|
    }

    function Limit(): nat
      requires |labels| > 0
      reads this
    {
      labels[|labels| - 1].limit
    }

    /** The part of the type stack that belongs to the innermost block. */
    function Operands(): seq<StackType>
      requires Valid()
      reads this
    {
      typeStack[Limit()..]
    }

    /** The part that belongs to the enclosing blocks. */
    function Outer(): seq<StackType>
      requires Valid()
      reads this
    {
      typeStack[..Limit()]
    }

    /** The outcome of a check is what typing says. */
    ghost predicate Agrees(r: Typed, wasOk: bool)
      requires Valid()
      reads this
    {
      && (ok <==> wasOk && !r.Bad?)
      && (ok ==> Shows(Operands(), r))
    }

    constructor (scope: Scope)
      ensures this.scope == scope && typeStack == [] && labels == [] && ok
    {
      this.scope := scope;
      typeStack, labels, ok := [], [], true;
    }

    method PushType(t: Type)
      requires Valid()
      modifies this`typeStack
      ensures Valid() && Outer() == old(Outer()) && Operands() == old(Operands()) + [Known(t)]
    {
      typeStack := typeStack + [Known(t)];
    }

    method PushTypes(ts: seq<Type>)
      requires Valid()
      modifies this`typeStack
      ensures Valid() && Outer() == old(Outer()) && Operands() == old(Operands()) + KnownTypes(ts)
    {
      var i := 0;
      while i < |ts|
        invariant 0 <= i <= |ts|
        invariant Valid() && Outer() == old(Outer()) && Operands() == old(Operands()) + KnownTypes(ts[..i])
      {
        PushType(ts[i]);
        i := i + 1;
        assert KnownTypes(ts[..i]) == KnownTypes(ts[..i - 1]) + [Known(ts[i - 1])];
      }
      assert ts[..i] == ts;
    }

    method ResetToAny()
      requires Valid()
      modifies this`typeStack
      ensures Valid() && Outer() == old(Outer()) && Operands() == [Any]
    {
      typeStack := typeStack[..Limit()];
      typeStack := typeStack + [Any];
    }

    /** On underflow an i32 stands in, so that checking can go on. */
    method TopType() returns (t: StackType)
      requires Valid()
      ensures t == if Operands() == [] then Known(I32) else Operands()[|Operands()| - 1]
    {
      t := if |typeStack| > Limit() then typeStack[|typeStack| - 1] else Known(I32);
    }

    method PopType() returns (t: StackType)
      requires Valid()
      modifies this`typeStack
      ensures Valid() && Outer() == old(Outer())
      ensures old(Operands()) == [] ==> Operands() == [] && t == Known(I32)
      ensures old(Operands()) != [] ==> old(Operands()) == Operands() + [t]
    {
      t := TopType();
      if |typeStack| > Limit() {
        typeStack := typeStack[..|typeStack| - 1];
      }
    }

    method CheckStackLimit(expected: nat) returns (enough: bool)
      requires Valid()
      modifies this`ok
      ensures enough <==> expected <= |Operands()|
      ensures ok <==> old(ok) && enough
    {
      enough := expected <= |typeStack| - Limit();
      ok := ok && enough;
    }

    method CheckType(actual: StackType, expected: StackType)
      modifies this`ok
      ensures ok <==> old(ok) && actual == expected
    {
      ok := ok && actual == expected;
    }

    method PopAndCheck1(expected: Type, ghost ts: seq<Type>)
      requires Valid()
      modifies this`typeStack, this`ok
      ensures Valid() && Outer() == old(Outer()) && (ok ==> old(ok))
      ensures old(Operands()) == KnownTypes(ts) ==>
        && (ok <==> old(ok) && EndsWith(ts, [expected]))
        && Operands() == KnownTypes(Popped(ts))
        && Agrees(Rewrite(ts, [expected], []), old(ok))
    {
      var enough := CheckStackLimit(1);
      if enough {
        var actual := PopType();
        CheckType(actual, Known(expected));
        assert |ts| > 0 ==> ts[|ts| - 1..] == [ts[|ts| - 1]];
      }
    }

    method PopAndCheck2(expected1: Type, expected2: Type)
      requires Valid()
      modifies this`typeStack, this`ok
      ensures Valid() && Outer() == old(Outer())
      ensures |old(Operands())| < 2 ==> !ok
      ensures var ops := old(Operands()); |ops| >= 2 ==>
        && Operands() == ops[..|ops| - 2]
        && (ok <==> old(ok) && ops[|ops| - 2] == Known(expected1) && ops[|ops| - 1] == Known(expected2))
    {
      var enough := CheckStackLimit(2);
      if enough {
        var actual2 := PopType();
        var actual1 := PopType();
        CheckType(actual1, Known(expected1));
        CheckType(actual2, Known(expected2));
      }
    }

    method CheckNTypes(expected: seq<Type>)
      requires Valid()
      modifies this`ok
      ensures ok <==> old(ok) && TopIs(Operands(), expected)
    {
      var enough := CheckStackLimit(|expected|);
      if enough {
        var i := 0;
        while i < |expected|
          invariant 0 <= i <= |expected| <= |Operands()|
          invariant ok <==> old(ok) && forall k :: 0 <= k < i ==> Operands()[|Operands()| - |expected| + k] == Known(expected[k])
        {
          CheckType(typeStack[|typeStack| - |expected| + i], Known(expected[i]));
          i := i + 1;
        }
        assert (forall k :: 0 <= k < |expected| ==> Operands()[|Operands()| - |expected| + k] == Known(expected[k]))
          <==> Operands()[|Operands()| - |expected|..] == KnownTypes(expected) by {
          var top := Operands()[|Operands()| - |expected|..];
          assert forall k :: 0 <= k < |expected| ==> top[k] == Operands()[|Operands()| - |expected| + k];
        }
      }
    }

    /** `ts` are the operand types, when the stack has no marker in it. */
    method CheckBr(depth: u32, ghost ts: seq<Type>)
      requires Valid()
      modifies this`ok
      ensures Operands() == KnownTypes(ts) ==> (ok <==> old(ok) && BranchOk(LabelsOf(labels), depth, ts))
      ensures ok ==> old(ok)
    {
      hide TopIs, LabelsOf, KnownTypes;
      if depth < |labels| {
        var node := labels[|labels| - 1 - depth];
        if !node.isLoop {
          CheckNTypes(node.sig);
          TopKnown(ts, node.sig);
        }
      } else {
        ok := false;
      }
    }

    method CheckCall(sig: FuncSig, ghost ts: seq<Type>)
      requires Valid()
      modifies this`typeStack, this`ok
      ensures Valid() && Outer() == old(Outer()) && (ok ==> old(ok))
      ensures old(Operands()) == KnownTypes(ts) ==> Agrees(Rewrite(ts, sig.params, sig.results), old(ok))
    {
      hide TopIs;
      var n := |sig.params|;
      var limit := Limit();
      TopKnown(ts, sig.params);
      if n <= |typeStack| - limit {
        CheckNTypes(sig.params);
        typeStack := typeStack[..|typeStack| - n];
      } else {
        ok := false;
        typeStack := typeStack[..limit];
      }
      PushTypes(sig.results);
      if old(Operands()) == KnownTypes(ts) && EndsWith(ts, sig.params) {
        assert Operands() == KnownTypes(Below(ts, n)) + KnownTypes(sig.results);
        KnownAppend(Below(ts, n), sig.results);
      }
    }

    method CheckStackLimitExact(expected: nat)
      requires Valid()
      modifies this`ok
      ensures ok <==> old(ok) && expected == |Operands()|
    {
      if expected != |typeStack| - Limit() {
        ok := false;
      }
    }

    /** Check a body against the innermost label, then restore the height. */
    method CheckBlock(first: Code)
      requires Valid() && Operands() == []
      modifies this`typeStack, this`labels, this`ok
      ensures Valid() && labels == old(labels) && typeStack == old(typeStack)
      ensures ok <==> old(ok) && BodyOk(scope, LabelsOf(labels), first, labels[|labels| - 1].sig)
      decreases first, 1
    {
      hide TypeCode, TopIs;
      ghost var r := TypeCode(scope, LabelsOf(labels), first, []);
      var checkResult := CheckExprs(first, r);
      if checkResult {
        ghost var ts := if r.Live? then r.types else [];
        TopKnown(ts, labels[|labels| - 1].sig);
        CheckNTypes(labels[|labels| - 1].sig);
        CheckStackLimitExact(|labels[|labels| - 1].sig|);
      }
      typeStack := typeStack[..Limit()];
    }

    /** The loop over the expressions of a body; false once the marker is on top. */
    method CheckExprs(first: Code, ghost r: Typed) returns (checkResult: bool)
      requires Valid() && Operands() == []
      requires r == TypeCode(scope, LabelsOf(labels), first, [])
      modifies this`typeStack, this`labels, this`ok
      ensures Valid() && labels == old(labels) && Outer() == old(typeStack)
      ensures ok <==> old(ok) && !r.Bad?
      ensures ok ==> Shows(Operands(), r) && (checkResult <==> r.Live?)
      decreases first, 0
    {
      hide TypeInstr;
      checkResult := true;
      var expr := first;
      ghost var ts: seq<Type> := [];
      assert KnownTypes(ts) == [];
      while expr != Nil
        invariant Valid() && labels == old(labels) && Outer() == old(typeStack)
        invariant ok ==> old(ok) && Operands() == KnownTypes(ts) && r == TypeCode(scope, LabelsOf(labels), expr, ts)
        invariant old(ok) && !ok ==> r.Bad?
        invariant expr == first || expr < first
        decreases expr
      {
        CheckExpr(expr.head, ts);
        var top := TopType();
        if top == Any {
          checkResult := false;
          break;
        }
        if ok { ts := TypeInstr(scope, LabelsOf(labels), expr.head, ts).types; }
        expr := expr.tail;
      }
    }

    /** Check a body inside a label of its own. */
    method CheckLabelled(isLoop: bool, sig: seq<Type>, first: Code)
      requires Valid()
      modifies this`typeStack, this`labels, this`ok
      ensures Valid() && labels == old(labels) && typeStack == old(typeStack)
      ensures ok <==> old(ok) && BodyOk(scope, LabelsOf(labels) + [Label(isLoop, sig)], first, sig)
      decreases first, 2
    {
      hide TypeCode, BodyOk;
      ghost var before := labels;
      labels := labels + [LabelNode(isLoop, sig, |typeStack|)];
      assert LabelsOf(labels) == LabelsOf(before) + [Label(isLoop, sig)];
      CheckBlock(first);
      labels := labels[..|labels| - 1];
    }

    method CheckOpcode1(t: Type, r: Type, ghost ts: seq<Type>)
      requires Valid()
      modifies this`typeStack, this`ok
      ensures Valid() && Outer() == old(Outer()) && (ok ==> old(ok))
      ensures old(Operands()) == KnownTypes(ts) ==> Agrees(Rewrite(ts, [t], [r]), old(ok))
    {
      PopAndCheck1(t, ts);
      PushType(r);
    }

    method CheckOpcode2(t1: Type, t2: Type, r: Option<Type>, ghost ts: seq<Type>)
      requires Valid()
      modifies this`typeStack, this`ok
      ensures Valid() && Outer() == old(Outer()) && (ok ==> old(ok))
      ensures old(Operands()) == KnownTypes(ts) ==>
        Agrees(Rewrite(ts, [t1, t2], if r.Some? then [r.value] else []), old(ok))
    {
      PopAndCheck2(t1, t2);
      if r.Some? {
        PushType(r.value);
      }
      assert |ts| >= 2 ==> ts[|ts| - 2..] == [ts[|ts| - 2], ts[|ts| - 1]];
    }

    method CheckAccess(align: u32, size: u32)
      modifies this`ok
      ensures ok <==> old(ok) && AccessOk(scope, align, size)
    {
      if !scope.m.hasMemory { ok := false; }
      if align != NATURAL {
        if !PowerOfTwo(align) { ok := false; }
        if align > size { ok := false; }
      }
    }

    /** Numeric and memory operators: the opcode determines the types. */
    method CheckOperator(e: Instr, ghost ts: seq<Type>)
      requires Valid() && (IsOperator(e))
      modifies this`typeStack, this`ok
      ensures Valid() && Outer() == old(Outer()) && (ok ==> old(ok))
      ensures old(Operands()) == KnownTypes(ts) ==> Agrees(TypeOperator(scope, e, ts), old(ok))
    {
      match e
      case Unary(op) =>
        if UnarySig(op).Some? { CheckOpcode1(UnarySig(op).value.0, UnarySig(op).value.1, ts); } else { ok := false; }
      case Binary(op) =>
        if BinarySig(op).Some? {
          CheckOpcode2(BinarySig(op).value.0, BinarySig(op).value.0, Some(BinarySig(op).value.1), ts);
        } else { ok := false; }
      case Load(op, align, _) =>
        if LoadSig(op).Some? {
          CheckAccess(align, LoadSig(op).value.1);
          CheckOpcode1(I32, LoadSig(op).value.0, ts);
        } else { ok := false; }
      case Store(op, align, _) =>
        if StoreSig(op).Some? {
          CheckAccess(align, StoreSig(op).value.1);
          CheckOpcode2(I32, StoreSig(op).value.0, None, ts);
        } else { ok := false; }
    }

    /** Locals and globals. */
    method CheckVariable(e: Instr, ghost ts: seq<Type>)
      requires Valid() && (IsVariable(e))
      modifies this`typeStack, this`ok
      ensures Valid() && Outer() == old(Outer()) && (ok ==> old(ok))
      ensures old(Operands()) == KnownTypes(ts) ==> Agrees(TypeVariable(scope, e, ts), old(ok))
    {
      match e
      case GetLocal(i) => if i < |scope.locals| { PushType(scope.locals[i]); } else { ok := false; }
      case SetLocal(i) =>
        if i >= |scope.locals| { ok := false; }
        PopAndCheck1(if i < |scope.locals| then scope.locals[i] else I32, ts);
      case TeeLocal(i) =>
        if i >= |scope.locals| { ok := false; }
        var enough := CheckStackLimit(1);
        if !enough {  // the source has the test this way round
          var top := TopType();
          CheckType(top, Known(if i < |scope.locals| then scope.locals[i] else I32));
        }
      case GetGlobal(i) => if i < |scope.m.globals| { PushType(scope.m.globals[i].ty); } else { ok := false; }
      case SetGlobal(i) =>
        if i >= |scope.m.globals| { ok := false; }
        PopAndCheck1(if i < |scope.m.globals| then scope.m.globals[i].ty else I32, ts);
    }

    /** Instructions that leave the label stack alone and neither branch nor call. */
    method CheckPlain(e: Instr, ghost ts: seq<Type>)
      requires Valid()
      modifies this`typeStack, this`ok
      ensures Valid() && Outer() == old(Outer()) && (ok ==> old(ok))
      ensures old(Operands()) == KnownTypes(ts) ==> Agrees(TypePlain(scope, e, ts), old(ok))
    {
      hide TypeOperator, TypeVariable, KnownTypes, OperatorSig, AccessOk;
      if e.Const? {
        PushType(e.ty);
      } else if e.CurrentMemory? {
        if !scope.m.hasMemory { ok := false; }
        PushType(I32);
      } else if e.GrowMemory? {
        if !scope.m.hasMemory { ok := false; }
        CheckOpcode1(I32, I32, ts);
      } else if e.Drop? {
        var enough := CheckStackLimit(1);
        if enough {
          var _ := PopType();
        }
      } else if e.Select? {
        CheckSelect(ts);
      } else if IsOperator(e) {
        CheckOperator(e, ts);
      } else if IsVariable(e) {
        CheckVariable(e, ts);
      } else if !e.Nop? {
        ok := false;
      }
    }

    method CheckSelect(ghost ts: seq<Type>)
      requires Valid()
      modifies this`typeStack, this`ok
      ensures Valid() && Outer() == old(Outer()) && (ok ==> old(ok))
      ensures old(Operands()) == KnownTypes(ts) ==> Agrees(TypePlain(scope, Instr.Select, ts), old(ok))
    {
      PopAndCheck1(I32, ts);
      var enough := CheckStackLimit(2);
      if enough {
        CheckChoice();
        if |ts| >= 3 {
          var us := Below(ts, 1);
          assert ts[|ts| - 1..] == [ts[|ts| - 1]];
          assert us[|us| - 1] == us[|us| - 2] ==> us[..|us| - 2] + [us[|us| - 1]] == Below(ts, 2);
        }
      }
    }

    /** The two values a select chooses from. */
    method CheckChoice()
      requires Valid() && |Operands()| >= 2
      modifies this`typeStack, this`ok
      ensures Valid() && Outer() == old(Outer())
      ensures Operands() == old(Operands())[..|old(Operands())| - 2] + [old(Operands())[|old(Operands())| - 1]]
      ensures ok <==> old(ok) && old(Operands())[|old(Operands())| - 1] == old(Operands())[|old(Operands())| - 2]
    {
      var type1 := PopType();
      var type2 := PopType();
      CheckType(type2, type1);
      typeStack := typeStack + [type1];
    }

    /** A function body runs inside the implicit label of its function. */
    method CheckFuncBody(body: Code)
      requires typeStack == [] && labels == []
      modifies this`typeStack, this`labels, this`ok
      ensures typeStack == [] && labels == []
      ensures ok <==> old(ok) && BodyOk(scope, [Label(false, scope.results)], body, scope.results)
    {
      hide BodyOk, KnownTypes, LabelsOf;
      labels := [LabelNode(false, scope.results, 0)];
      OneLabel(labels[0]);
      CheckBlock(body);
      labels := [];
    }

    method CheckExpr(e: Instr, ghost ts: seq<Type>)
      requires Valid()
      modifies this`typeStack, this`labels, this`ok
      ensures Valid() && labels == old(labels) && Outer() == old(Outer()) && (ok ==> old(ok))
      ensures old(Operands()) == KnownTypes(ts) ==> Agrees(TypeInstr(scope, LabelsOf(labels), e, ts), old(ok))
      decreases e, 3
    {
      hide TypeCode, BodyOk, TypeJump, TypeCall, TypePlain;
      if e.Block? || e.Loop? {
        CheckBlockExpr(e, ts);
      } else if e.If? {
        CheckIf(e, ts);
      } else if IsJump(e) {
        CheckBranch(e, ts);
      } else if IsCall(e) {
        CheckCallExpr(e, ts);
      } else {
        CheckPlain(e, ts);
      }
    }

    method CheckBlockExpr(e: Instr, ghost ts: seq<Type>)
      requires Valid() && (e.Block? || e.Loop?)
      modifies this`typeStack, this`labels, this`ok
      ensures Valid() && labels == old(labels) && Outer() == old(Outer()) && (ok ==> old(ok))
      ensures old(Operands()) == KnownTypes(ts) ==> Agrees(TypeInstr(scope, LabelsOf(labels), e, ts), old(ok))
      decreases e, 2
    {
      hide TypeCode, BodyOk, LabelsOf, KnownTypes;
      CheckLabelled(e.Loop?, e.sig, e.body);
      PushTypes(e.sig);
      KnownAppend(ts, e.sig);
    }

    method CheckIf(e: Instr, ghost ts: seq<Type>)
      requires Valid() && e.If?
      modifies this`typeStack, this`labels, this`ok
      ensures Valid() && labels == old(labels) && Outer() == old(Outer()) && (ok ==> old(ok))
      ensures old(Operands()) == KnownTypes(ts) ==> Agrees(TypeInstr(scope, LabelsOf(labels), e, ts), old(ok))
      decreases e, 2
    {
      hide TypeCode, BodyOk, Rewrite, LabelsOf, KnownTypes;
      PopAndCheck1(I32, ts);
      CheckLabelled(false, e.sig, e.thn);
      CheckLabelled(false, e.sig, e.els);
      PushTypes(e.sig);
      KnownAppend(Popped(ts), e.sig);
    }

    method CheckBranch(e: Instr, ghost ts: seq<Type>)
      requires Valid() && IsJump(e)
      modifies this`typeStack, this`ok
      ensures Valid() && labels == old(labels) && Outer() == old(Outer()) && (ok ==> old(ok))
      ensures old(Operands()) == KnownTypes(ts) ==> Agrees(TypeJump(scope, LabelsOf(labels), e, ts), old(ok))
    {
      hide TopIs, TableOk, BranchOk, Rewrite, LabelsOf, KnownTypes;
      match e
      case Br(d) =>
        CheckBr(d, ts);
        ResetToAny();
      case BrIf(d) =>
        PopAndCheck1(I32, ts);
        CheckBr(d, Popped(ts));
      case BrTable(targets, default) =>
        PopAndCheck1(I32, ts);
        CheckTargets(targets, default, Popped(ts));
        ResetToAny();
      case Return =>
        TopKnown(ts, scope.results);
        CheckNTypes(scope.results);
        ResetToAny();
      case Unreachable => ResetToAny();
    }

    method CheckCallExpr(e: Instr, ghost ts: seq<Type>)
      requires Valid() && IsCall(e)
      modifies this`typeStack, this`ok
      ensures Valid() && labels == old(labels) && Outer() == old(Outer()) && (ok ==> old(ok))
      ensures old(Operands()) == KnownTypes(ts) ==> Agrees(TypeCall(scope, e, ts), old(ok))
    {
      hide Rewrite;
      match e
      case Call(f) =>
        if f < |scope.m.funcs| && scope.m.funcs[f].sigIndex < |scope.m.sigs| {
          CheckCall(SigOf(scope.m, f), ts);
        } else {
          ok := false;
        }
      case CallIndirect(i) =>
        if !scope.m.hasTable { ok := false; }
        if i < |scope.m.sigs| {
          var t := PopType();
          CheckType(t, Known(I32));
          CheckCall(scope.m.sigs[i], Popped(ts));
        } else {
          ok := false;
        }
    }

    method CheckTargets(targets: seq<u32>, default: u32, ghost ts: seq<Type>)
      requires Valid()
      modifies this`ok
      ensures Operands() == KnownTypes(ts) ==> (ok <==> old(ok) && TableOk(LabelsOf(labels), targets, default, ts))
      ensures ok ==> old(ok)
    {
      var i := 0;
      while i < |targets|
        invariant 0 <= i <= |targets|
        invariant Operands() == KnownTypes(ts) ==>
          (ok <==> old(ok) && forall k :: 0 <= k < i ==> BranchOk(LabelsOf(labels), targets[k], ts))
        invariant ok ==> old(ok)
      {
        CheckBr(targets[i], ts);
        i := i + 1;
      }
      CheckBr(default, ts);
    }
  }

  method CheckFunc(m: Module, f: nat) returns (ok: bool)
    requires f < |m.funcs| && m.funcs[f].sigIndex < |m.sigs|
    ensures ok <==> FuncOk(m, f)
  {
    hide BodyOk;
    if |SigOf(m, f).results| > 1 {
      return false;
    }
    var checker := new Checker(ScopeOf(m, f));
    checker.CheckFuncBody(m.funcs[f].body);
    return checker.ok;
  }

  /** No error is reported exactly when every body satisfies the type discipline. */
  method CheckModule(m: Module) returns (ok: bool)
    requires ModuleOk(m)
    ensures ok <==> forall f :: 0 <= f < |m.funcs| ==> FuncOk(m, f)
  {
    hide FuncOk;
    ok := true;
    var f := 0;
    while f < |m.funcs|
      invariant 0 <= f <= |m.funcs|
      invariant ok <==> forall g :: 0 <= g < f ==> FuncOk(m, g)
    {
      var fine := CheckFunc(m, f);
      ok := ok && fine;
      f := f + 1;
    }
  }
}
