/** What lies between the validator and the code generator: the sites at which the
    generator asks for more, a fragment that has none, and one body for each check
    that only the generator makes. */
module Gaps {
  import opened Wasm
  import opened Typing

  // ----- where the passes disagree -----

  /** An instruction, with the labels around it and the types on the stack of its
      block. */
  datatype Site = Site(labels: seq<Label>, instr: Instr, types: seq<Type>)

  /** Typing the code comes to the site. */
  predicate Reached(s: Scope, labels: seq<Label>, code: Code, ts: seq<Type>, x: Site)
    decreases code, 0
  {
    match code
    case Nil => false
    case Cons(e, rest) =>
      || x == Site(labels, e, ts)
      || Inside(s, labels, e, x)
      || (TypeInstr(s, labels, e, ts).Live? && Reached(s, labels, rest, TypeInstr(s, labels, e, ts).types, x))
  }

  predicate Inside(s: Scope, labels: seq<Label>, e: Instr, x: Site)
    decreases e, 1
  {
    if e.Block? || e.Loop? then Reached(s, labels + [Label(e.Loop?, e.sig)], e.body, [], x)
    else if e.If? then
      || Reached(s, labels + [Label(false, e.sig)], e.thn, [], x)
      || Reached(s, labels + [Label(false, e.sig)], e.els, [], x)
    else false
  }

  /** What the generator asks of a site and the validator does not: tee_local has the
      type of its local on top, call_indirect has its key in the block, the global
      of set_global is mutable, and a loop that br_table goes to has its results on
      top, although the branch does not take them. */
  predicate Agrees(s: Scope, x: Site) {
    match x.instr
    case TeeLocal(i) => i < |s.locals| ==> EndsWith(x.types, [s.locals[i]])
    case CallIndirect(_) => x.types != []
    case SetGlobal(i) => i < |s.m.globals| ==> s.m.globals[i].mutable
    case BrTable(targets, default) =>
      x.types != [] ==>
        && LoopAgrees(x.labels, default, Below(x.types, 1))
        && forall i :: 0 <= i < |targets| ==> LoopAgrees(x.labels, targets[i], Below(x.types, 1))
    case _ => true
  }

  predicate LoopAgrees(labels: seq<Label>, depth: nat, ts: seq<Type>) {
    depth < |labels| && labels[|labels| - 1 - depth].isLoop ==> EndsWith(ts, labels[|labels| - 1 - depth].sig)
  }

  lemma {:induction false} CodeAgrees(s: Scope, labels: seq<Label>, code: Code, ts: seq<Type>)
    requires !TypeCode(s, labels, code, ts).Bad?
    ensures GenerableCode(s, labels, code, ts) <==> forall x: Site :: Reached(s, labels, code, ts, x) ==> Agrees(s, x)
    decreases code, 0
  {
    hide TypeInstr, Generable, Agrees, Inside;
    if code.Cons? {
      InstrAgrees(s, labels, code.head, ts);
      assert Reached(s, labels, code, ts, Site(labels, code.head, ts));
      forall x: Site | Inside(s, labels, code.head, x) ensures Reached(s, labels, code, ts, x) {}
      var r := TypeInstr(s, labels, code.head, ts);
      if r.Live? {
        CodeAgrees(s, labels, code.tail, r.types);
        forall x: Site | Reached(s, labels, code.tail, r.types, x) ensures Reached(s, labels, code, ts, x) {}
      }
    }
  }

  lemma {:induction false} InstrAgrees(s: Scope, labels: seq<Label>, e: Instr, ts: seq<Type>)
    requires !TypeInstr(s, labels, e, ts).Bad?
    ensures Generable(s, labels, e, ts) <==> Agrees(s, Site(labels, e, ts)) && forall x: Site :: Inside(s, labels, e, x) ==> Agrees(s, x)
    decreases e, 1
  {
    hide TypeCode, GenerableCode, OperatorSig, EndsWith, LoopAgrees, Reached;
    if e.Block? || e.Loop? {
      CodeAgrees(s, labels + [Label(e.Loop?, e.sig)], e.body, []);
    } else if e.If? {
      CodeAgrees(s, labels + [Label(false, e.sig)], e.thn, []);
      CodeAgrees(s, labels + [Label(false, e.sig)], e.els, []);
    } else if e.BrTable? {
      assert ts != [] by { assert EndsWith(ts, [I32]); TopOne(ts, I32); }
      TargetAgrees(labels, e.default, Below(ts, 1));
      forall i | 0 <= i < |e.targets| ensures SigOnTop(labels, e.targets[i], Below(ts, 1)) <==> LoopAgrees(labels, e.targets[i], Below(ts, 1)) {
        assert BranchOk(labels, e.targets[i], Below(ts, 1));
        TargetAgrees(labels, e.targets[i], Below(ts, 1));
      }
    }
  }

  lemma TopOne(ts: seq<Type>, t: Type)
    requires EndsWith(ts, [t])
    ensures ts != []
  {}

  lemma TargetAgrees(labels: seq<Label>, depth: nat, ts: seq<Type>)
    requires BranchOk(labels, depth, ts)
    ensures SigOnTop(labels, depth, ts) <==> LoopAgrees(labels, depth, ts)
  {}

  ghost predicate Agreeing(m: Module, f: nat)
    requires f < |m.funcs| && m.funcs[f].sigIndex < |m.sigs|
  {
    forall x: Site :: Reached(ScopeOf(m, f), [Label(false, SigOf(m, f).results)], m.funcs[f].body, [], x) ==> Agrees(ScopeOf(m, f), x)
  }

  /** A function that the validator accepts is one that the generator accepts if and
      only if at every site of its body the generator gets what it asks for. */
  lemma ValidatedAgrees(m: Module, f: nat)
    requires f < |m.funcs| && m.funcs[f].sigIndex < |m.sigs| && FuncOk(m, f)
    ensures GenerableFunc(m, f) <==> Agreeing(m, f)
  {
    hide TypeCode, GenerableCode, Reached, Agrees;
    CodeAgrees(ScopeOf(m, f), [Label(false, SigOf(m, f).results)], m.funcs[f].body, []);
  }

  // ----- a fragment -----

  /** Instructions on which the two passes cannot disagree: no tee_local, no
      indirect call, no set_global of an immutable global, and no br_table to a
      loop that has a result. */
  predicate Agreed(m: Module, labels: seq<Label>, e: Instr)
    decreases e, 1
  {
    if e.Block? || e.Loop? then AgreedCode(m, labels + [Label(e.Loop?, e.sig)], e.body)
    else if e.If? then
      && AgreedCode(m, labels + [Label(false, e.sig)], e.thn)
      && AgreedCode(m, labels + [Label(false, e.sig)], e.els)
    else if e.BrTable? then
      PlainTarget(labels, e.default) && forall i :: 0 <= i < |e.targets| ==> PlainTarget(labels, e.targets[i])
    else !e.TeeLocal? && !e.CallIndirect? && (e.SetGlobal? && e.global < |m.globals| ==> m.globals[e.global].mutable)
  }

  predicate PlainTarget(labels: seq<Label>, depth: nat) {
    depth < |labels| && labels[|labels| - 1 - depth].isLoop ==> labels[|labels| - 1 - depth].sig == []
  }

  predicate AgreedCode(m: Module, labels: seq<Label>, code: Code)
    decreases code, 0
  {
    match code
    case Nil => true
    case Cons(e, rest) => Agreed(m, labels, e) && AgreedCode(m, labels, rest)
  }

  /** In the fragment they agree at every site. */
  lemma {:induction false} AgreedSite(s: Scope, labels: seq<Label>, code: Code, ts: seq<Type>, x: Site)
    requires AgreedCode(s.m, labels, code) && Reached(s, labels, code, ts, x)
    ensures Agrees(s, x)
    decreases code
  {
    hide TypeInstr, Agrees;
    var e := code.head;
    if x == Site(labels, e, ts) {
      AgreedInstr(s, labels, e, ts);
    } else if Inside(s, labels, e, x) {
      if !e.If? {
        AgreedSite(s, labels + [Label(e.Loop?, e.sig)], e.body, [], x);
      } else if Reached(s, labels + [Label(false, e.sig)], e.thn, [], x) {
        AgreedSite(s, labels + [Label(false, e.sig)], e.thn, [], x);
      } else {
        AgreedSite(s, labels + [Label(false, e.sig)], e.els, [], x);
      }
    } else {
      AgreedSite(s, labels, code.tail, TypeInstr(s, labels, e, ts).types, x);
    }
  }

  lemma AgreedInstr(s: Scope, labels: seq<Label>, e: Instr, ts: seq<Type>)
    requires Agreed(s.m, labels, e)
    ensures Agrees(s, Site(labels, e, ts))
  {
    hide AgreedCode;
    if e.BrTable? && ts != [] {
      var below := Below(ts, 1);
      assert below[|below|..] == [];
    }
  }

  /** There a function the validator accepts is one the generator accepts. */
  lemma ValidatedFunc(m: Module, f: nat)
    requires f < |m.funcs| && m.funcs[f].sigIndex < |m.sigs| && FuncOk(m, f)
    requires AgreedCode(m, [Label(false, SigOf(m, f).results)], m.funcs[f].body)
    ensures GenerableFunc(m, f)
  {
    hide Reached, Agrees, AgreedCode, FuncOk, GenerableFunc;
    ValidatedAgrees(m, f);
    var s, labels := ScopeOf(m, f), [Label(false, SigOf(m, f).results)];
    forall x: Site | Reached(s, labels, m.funcs[f].body, [], x) ensures Agrees(s, x) {
      AgreedSite(s, labels, m.funcs[f].body, [], x);
    }
  }

  // ----- outside the fragment -----

  function OneFunc(params: seq<Type>, body: Code): Module {
    Module([FuncSig(params, [])], [Func(0, [], body)], [GlobalDecl(I32, false)], false, true, [])
  }

  function One(e: Instr): Code { Cons(e, Nil) }

  function Two(e: Instr, e': Instr): Code { Cons(e, One(e')) }

  lemma Consing(s: Scope, labels: seq<Label>, e: Instr, rest: Code, ts: seq<Type>, us: seq<Type>)
    requires TypeInstr(s, labels, e, ts) == Live(us)
    ensures TypeCode(s, labels, Cons(e, rest), ts) == TypeCode(s, labels, rest, us)
    ensures GenerableCode(s, labels, Cons(e, rest), ts) <==> Generable(s, labels, e, ts) && GenerableCode(s, labels, rest, us)
  {
    hide TypeInstr, Generable;
  }

  lemma Ending(s: Scope, labels: seq<Label>, e: Instr, ts: seq<Type>)
    ensures TypeCode(s, labels, One(e), ts) == TypeInstr(s, labels, e, ts)
    ensures GenerableCode(s, labels, One(e), ts) <==> Generable(s, labels, e, ts)
  {
    hide TypeInstr, Generable;
    if TypeInstr(s, labels, e, ts).Live? {
      var us := TypeInstr(s, labels, e, ts).types;
      assert TypeCode(s, labels, Nil, us) == Live(us) && GenerableCode(s, labels, Nil, us);
    }
  }

  lemma ConstTyped(s: Scope, labels: seq<Label>, t: Type)
    ensures TypeInstr(s, labels, Const(t, Bits(0, 0)), []) == Live([t])
  {
    assert [] + [t] == [t];
  }

  lemma DropTyped(s: Scope, labels: seq<Label>, t: Type)
    ensures TypeInstr(s, labels, Drop, [t]) == Live([])
  {
    assert [t][..0] == [];
  }

  /** A function without parameters, locals and results: what the two passes say
      of its body. */
  lemma OnlyFunc(params: seq<Type>, body: Code)
    ensures var m, s := OneFunc(params, body), Scope(OneFunc(params, body), params, []);
      && (FuncOk(m, 0) <==> BodyOk(s, [Label(false, [])], body, []))
      && (GenerableFunc(m, 0) <==> GenerableCode(s, [Label(false, [])], body, []))
  {
    hide BodyOk, GenerableCode;
    assert Expand([]) == [] && params + [] == params;
  }

  /** i32.const 0; set_global 0, where global 0 is immutable. */
  lemma ImmutableGlobal()
    ensures var m := OneFunc([], Two(Const(I32, Bits(0, 0)), SetGlobal(0)));
      FuncOk(m, 0) && Representable(m.funcs[0].body) && !GenerableFunc(m, 0)
  {
    hide TypeCode, GenerableCode, TypeInstr, Generable;
    var e, e' := Const(I32, Bits(0, 0)), SetGlobal(0);
    var s, labels := Scope(OneFunc([], Two(e, e')), [], []), [Label(false, [])];
    OnlyFunc([], Two(e, e'));
    ConstTyped(s, labels, I32);
    SetTyped(s, labels);
    Consing(s, labels, e, One(e'), [], [I32]);
    Ending(s, labels, e', [I32]);
  }

  lemma SetTyped(s: Scope, labels: seq<Label>)
    requires s.m.globals == [GlobalDecl(I32, false)]
    ensures TypeInstr(s, labels, SetGlobal(0), [I32]) == Live([]) && !Generable(s, labels, SetGlobal(0), [I32])
  {
    assert [I32][0..] == [I32] && [I32][..0] + [] == [];
  }

  /** i64.const 0; tee_local 0; drop, where local 0 is an i32. */
  lemma TeeOfAnotherType()
    ensures var m := OneFunc([I32], Cons(Const(I64, Bits(0, 0)), Two(TeeLocal(0), Drop)));
      FuncOk(m, 0) && Representable(m.funcs[0].body) && !GenerableFunc(m, 0)
  {
    hide TypeCode, GenerableCode, TypeInstr, Generable;
    var e, e' := Const(I64, Bits(0, 0)), TeeLocal(0);
    var s, labels := Scope(OneFunc([I32], Cons(e, Two(e', Drop))), [I32], []), [Label(false, [])];
    OnlyFunc([I32], Cons(e, Two(e', Drop)));
    ConstTyped(s, labels, I64);
    TeeTyped(s, labels);
    DropTyped(s, labels, I64);
    Consing(s, labels, e, Two(e', Drop), [], [I64]);
    Consing(s, labels, e', One(Drop), [I64], [I64]);
    Ending(s, labels, Drop, [I64]);
  }

  lemma TeeTyped(s: Scope, labels: seq<Label>)
    requires s.locals == [I32]
    ensures TypeInstr(s, labels, TeeLocal(0), [I64]) == Live([I64]) && !Generable(s, labels, TeeLocal(0), [I64])
  {
    assert [I64][0..][0] == I64;
  }

  /** call_indirect on an empty stack. */
  lemma IndirectOnNothing()
    ensures var m := OneFunc([], One(CallIndirect(0)));
      FuncOk(m, 0) && Representable(m.funcs[0].body) && !GenerableFunc(m, 0)
  {
    hide TypeCode, GenerableCode, TypeInstr, Generable;
    var e := CallIndirect(0);
    var s, labels := Scope(OneFunc([], One(e)), [], []), [Label(false, [])];
    OnlyFunc([], One(e));
    IndirectTyped(s, labels);
    Ending(s, labels, e, []);
  }

  lemma IndirectTyped(s: Scope, labels: seq<Label>)
    requires s.m.hasTable && s.m.sigs == [FuncSig([], [])]
    ensures TypeInstr(s, labels, CallIndirect(0), []) == Live([]) && !Generable(s, labels, CallIndirect(0), [])
  {
    var none: seq<Type> := [];
    assert none[..0] + [] == [] && none[0..] == [];
  }

  /** loop i32; i32.const 0; br_table 0; end; drop: the branch takes no values,
      yet the generator asks for the result of the loop. */
  lemma TableToLoop()
    ensures var body := Two(Const(I32, Bits(0, 0)), BrTable([], 0));
      var m := OneFunc([], Two(Loop([I32], body), Drop));
      FuncOk(m, 0) && Representable(m.funcs[0].body) && !GenerableFunc(m, 0)
  {
    hide TypeCode, GenerableCode, TypeInstr, Generable;
    var e, e' := Const(I32, Bits(0, 0)), BrTable([], 0);
    var loop := Loop([I32], Two(e, e'));
    var s, labels := Scope(OneFunc([], Two(loop, Drop)), [], []), [Label(false, [])];
    var inner := labels + [Label(true, [I32])];
    OnlyFunc([], Two(loop, Drop));
    ConstTyped(s, inner, I32);
    TableTyped(s, inner);
    Consing(s, inner, e, One(e'), [], [I32]);
    Ending(s, inner, e', [I32]);
    LoopTyped(s, labels, Two(e, e'));
    DropTyped(s, labels, I32);
    Consing(s, labels, loop, One(Drop), [], [I32]);
    Ending(s, labels, Drop, [I32]);
  }

  lemma TableTyped(s: Scope, labels: seq<Label>)
    requires |labels| > 0 && labels[|labels| - 1] == Label(true, [I32])
    ensures TypeInstr(s, labels, BrTable([], 0), [I32]) == Dead && !Generable(s, labels, BrTable([], 0), [I32])
  {
    assert [I32][0..] == [I32] && [I32][..0] == [];
    var none: seq<Type> := [];
    assert none[0..] == [] && !SigOnTop(labels, 0, none);
  }

  lemma LoopTyped(s: Scope, labels: seq<Label>, body: Code)
    requires TypeCode(s, labels + [Label(true, [I32])], body, []).Dead?
    ensures TypeInstr(s, labels, Loop([I32], body), []) == Live([I32])
    ensures Generable(s, labels, Loop([I32], body), []) <==> GenerableCode(s, labels + [Label(true, [I32])], body, [])
  {
    hide TypeCode, GenerableCode;
    assert BodyOk(s, labels + [Label(true, [I32])], body, [I32]);
    assert [] + [I32] == [I32];
  }
}
