/** Type safety of the evaluator: a body the validator and the generator both
    accept never goes wrong, and every value it yields has the type the
    validator computed. */
module Safety {
  import opened Wasm
  import opened Semantics
  import opened Typing
  import H = Heights

  /** Every function passes the validator and the generator's own checks. */
  ghost predicate Sound(m: Module) {
    && ModuleOk(m)
    && forall f :: 0 <= f < |m.funcs| ==> SoundFunc(m, f)
  }

  ghost predicate SoundFunc(m: Module, f: nat)
    requires f < |m.funcs| && m.funcs[f].sigIndex < |m.sigs|
  {
    FuncOk(m, f) && Representable(m.funcs[f].body) && GenerableFunc(m, f)
  }

  ghost predicate StoreTyped(m: Module, store: Semantics.Store) {
    |store.globals| == |m.globals| && forall i :: 0 <= i < |m.globals| ==> HasType(store.globals[i], m.globals[i].ty)
  }

  ghost predicate ConfigTyped(s: Scope, ts: seq<Type>, c: Config) {
    HaveTypes(c.locals, s.locals) && HaveTypes(c.stack, ts) && StoreTyped(s.m, c.store)
  }

  ghost predicate ResultTyped(s: Scope, labels: seq<Label>, r: Result, t: Typed) {
    match r
    case Normal(c) => t.Live? && ConfigTyped(s, t.types, c)
    case Branch(d, vals, locals, store) =>
      && d < |labels| && HaveTypes(vals, BranchTypes(labels[|labels| - 1 - d]))
      && HaveTypes(locals, s.locals) && StoreTyped(s.m, store)
    case Returning(vals, store) => EndTyped(vals, s.results) && StoreTyped(s.m, store)
    case Trapped(trap) => !OutOfStack(trap)
    case Wrong => false
    case OutOfFuel => true
  }

  /** Only the interpreter traps for want of room. */
  predicate OutOfStack(trap: Trap) { trap == ValueStackExhausted || trap == CallStackExhausted }

  /** The top values have the given types. */
  ghost predicate EndTyped(vals: seq<Value>, ts: seq<Type>) {
    |ts| <= |vals| && HaveTypes(vals[|vals| - |ts|..], ts)
  }

  ghost predicate CallTyped(m: Module, results: seq<Type>, r: CallResult) {
    match r
    case Returned(vals, store) => HaveTypes(vals, results) && StoreTyped(m, store)
    case CallTrapped(trap) => !OutOfStack(trap)
    case CallWrong => false
    case CallOutOfFuel => true
  }

  ghost predicate ArityOk(labels: seq<Label>, arities: seq<nat>) {
    |arities| == |labels| && forall i :: 0 <= i < |labels| ==> arities[i] == |BranchTypes(labels[i])|
  }

  // ----- sequences of typed values -----

  lemma TypesBelow(vs: seq<Value>, ts: seq<Type>, n: nat)
    requires HaveTypes(vs, ts) && n <= |ts|
    ensures HaveTypes(vs[..|vs| - n], Below(ts, n))
  {}

  lemma TypesAbove(vs: seq<Value>, ts: seq<Type>, us: seq<Type>)
    requires HaveTypes(vs, ts) && EndsWith(ts, us)
    ensures EndTyped(vs, us)
  {
    forall i | 0 <= i < |us| ensures HasType(vs[|vs| - |us|..][i], us[i]) {
      assert ts[|ts| - |us|..][i] == us[i];
    }
  }

  lemma TypesAppend(vs: seq<Value>, ts: seq<Type>, ws: seq<Value>, us: seq<Type>)
    requires HaveTypes(vs, ts) && HaveTypes(ws, us)
    ensures HaveTypes(vs + ws, ts + us)
  {}

  lemma TopTyped(vs: seq<Value>, ts: seq<Type>, t: Type)
    requires HaveTypes(vs, ts) && EndsWith(ts, [t])
    ensures |vs| == |ts| >= 1 && HasType(vs[|vs| - 1], t) && vs[|vs| - 1].ty == t
  {
    assert ts[|ts| - 1..][0] == t;
  }

  lemma TopTwoTyped(vs: seq<Value>, ts: seq<Type>, t1: Type, t2: Type)
    requires HaveTypes(vs, ts) && EndsWith(ts, [t1, t2])
    ensures |vs| == |ts| >= 2 && vs[|vs| - 2].ty == t1 && vs[|vs| - 1].ty == t2
  {
    assert ts[|ts| - 2..][0] == t1 && ts[|ts| - 2..][1] == t2;
  }

  lemma CanonTyped(t: Type, b: Bits)
    ensures HasType(Value(t, Canon(t, b)), t)
  {}

  lemma ZerosTyped(ts: seq<Type>)
    ensures HaveTypes(Zeros(ts), ts)
  {}

  // ----- instructions without control flow -----

  lemma SafePush(s: Scope, labels: seq<Label>, ts: seq<Type>, c: Config, v: Value, t: Type)
    requires ConfigTyped(s, ts, c) && HasType(v, t)
    ensures ResultTyped(s, labels, Semantics.Push(c, v), Live(ts + [t]))
  {
    TypesAppend(c.stack, ts, [v], [t]);
  }

  lemma SafeNumeric(s: Scope, labels: seq<Label>, ts: seq<Type>, c: Config, n: nat, r: Outcome<Bits>, t: Type)
    requires ConfigTyped(s, ts, c) && n <= |ts|
    ensures ResultTyped(s, labels, PushNumeric(r, t, Pop(c, n)), Live(Below(ts, n) + [t]))
  {
    hide HasType;
    TypesBelow(c.stack, ts, n);
    if r.Done? {
      CanonTyped(t, r.value);
      SafePush(s, labels, Below(ts, n), Pop(c, n), Value(t, Canon(t, r.value)), t);
    }
  }

  lemma SafeOperator(num: Numerics, s: Scope, labels: seq<Label>, e: Instr, ts: seq<Type>, c: Config)
    requires IsOperator(e) && TypeOperator(s, e, ts).Live? && ConfigTyped(s, ts, c)
    ensures ResultTyped(s, labels, EvalPlain(num, e, c), TypeOperator(s, e, ts))
  {
    hide HaveTypes, HasType, UnarySig, BinarySig, LoadSig, StoreSig, AccessOk, ResultTyped, StoreTyped, EndsWith;
    match e
    case Unary(op) =>
      var sig := UnarySig(op).value;
      TopTyped(c.stack, ts, sig.0);
      SafeNumeric(s, labels, ts, c, 1, num.unary(op, Operand(c, 1).bits), sig.1);
    case Binary(op) =>
      var sig := BinarySig(op).value;
      TopTwoTyped(c.stack, ts, sig.0, sig.0);
      SafeNumeric(s, labels, ts, c, 2, num.binary(op, Operand(c, 2).bits, Operand(c, 1).bits), sig.1);
    case Load(op, _, offset) =>
      TopTyped(c.stack, ts, I32);
      SafeNumeric(s, labels, ts, c, 1, num.load(op, Operand(c, 1).bits, offset, c.store.mem), LoadSig(op).value.0);
    case Store(op, _, offset) =>
      TopTwoTyped(c.stack, ts, I32, StoreSig(op).value.0);
      SafeStore(s, labels, ts, c, num.store(op, Operand(c, 2).bits, Operand(c, 1).bits, offset, c.store.mem));
  }

  lemma SafeStore(s: Scope, labels: seq<Label>, ts: seq<Type>, c: Config, r: Outcome<Memory>)
    requires ConfigTyped(s, ts, c) && |ts| >= 2
    ensures |c.stack| >= 2
    ensures ResultTyped(s, labels, if r.Done? then Normal(Pop(c, 2).(store := c.store.(mem := r.value))) else Result.Trapped(Numeric(r.cause)),
      Live(Below(ts, 2) + []))
  {
    TypesBelow(c.stack, ts, 2);
    assert Below(ts, 2) + [] == Below(ts, 2);
  }

  lemma SetTyped(vs: seq<Value>, ts: seq<Type>, i: nat, v: Value)
    requires HaveTypes(vs, ts) && i < |ts| && HasType(v, ts[i])
    ensures HaveTypes(vs[i := v], ts) && vs[i].ty == ts[i] && HasType(vs[i], ts[i])
  {}

  lemma SafeVariable(num: Numerics, s: Scope, labels: seq<Label>, e: Instr, ts: seq<Type>, c: Config)
    requires IsVariable(e) && TypeVariable(s, e, ts).Live? && GenerablePlain(s, e, ts) && ConfigTyped(s, ts, c)
    ensures ResultTyped(s, labels, EvalPlain(num, e, c), TypeVariable(s, e, ts))
  {
    hide HasType, EndsWith;
    match e
    case GetLocal(i) => SafePush(s, labels, ts, c, c.locals[i], s.locals[i]);
    case SetLocal(i) =>
      TopTyped(c.stack, ts, s.locals[i]);
      SetTyped(c.locals, s.locals, i, Operand(c, 1));
      TypesBelow(c.stack, ts, 1);
      assert Below(ts, 1) + [] == Below(ts, 1);
    case TeeLocal(i) =>
      TopTyped(c.stack, ts, s.locals[i]);
      SetTyped(c.locals, s.locals, i, Operand(c, 1));
    case GetGlobal(i) => SafePush(s, labels, ts, c, c.store.globals[i], s.m.globals[i].ty);
    case SetGlobal(i) =>
      TopTyped(c.stack, ts, s.m.globals[i].ty);
      assert HasType(c.store.globals[i], s.m.globals[i].ty);
      TypedAs(c.store.globals[i], s.m.globals[i].ty);
      TypesBelow(c.stack, ts, 1);
      assert Below(ts, 1) + [] == Below(ts, 1);
  }

  lemma TypedAs(v: Value, t: Type)
    requires HasType(v, t)
    ensures v.ty == t
  {}

  lemma SafeSelect(num: Numerics, s: Scope, labels: seq<Label>, ts: seq<Type>, c: Config)
    requires TypePlain(s, Select, ts).Live? && ConfigTyped(s, ts, c)
    ensures ResultTyped(s, labels, EvalPlain(num, Select, c), TypePlain(s, Select, ts))
  {
    hide HasType;
    var n := |ts|;
    TypesBelow(c.stack, ts, 3);
    TypedAs(c.stack[n - 1], ts[n - 1]);
    assert Below(ts, 3) + [ts[n - 3]] == Below(ts, 2);
    SafePush(s, labels, Below(ts, 3), Pop(c, 3), if Operand(c, 1).bits.lo != 0 then Operand(c, 3) else Operand(c, 2), ts[n - 3]);
  }

  lemma SafePlain(num: Numerics, s: Scope, labels: seq<Label>, e: Instr, ts: seq<Type>, c: Config)
    requires IsPlain(e) && !e.CurrentMemory? && !e.GrowMemory? && TypePlain(s, e, ts).Live? && GenerablePlain(s, e, ts)
    requires ConfigTyped(s, ts, c)
    ensures ResultTyped(s, labels, EvalPlain(num, e, c), TypePlain(s, e, ts))
  {
    hide HasType, EndsWith, TypeOperator, TypeVariable;
    if IsOperator(e) {
      SafeOperator(num, s, labels, e, ts, c);
    } else if IsVariable(e) {
      SafeVariable(num, s, labels, e, ts, c);
    } else if e.Const? {
      CanonTyped(e.ty, e.bits);
      SafePush(s, labels, ts, c, Value(e.ty, Canon(e.ty, e.bits)), e.ty);
    } else if e.Select? {
      SafeSelect(num, s, labels, ts, c);
    } else if e.Drop? {
      TypesBelow(c.stack, ts, 1);
    }
  }

  // ----- control -----

  lemma SafeBranch(s: Scope, labels: seq<Label>, arities: seq<nat>, depth: nat, ts: seq<Type>, c: Config, t: Typed)
    requires BranchOk(labels, depth, ts) && ConfigTyped(s, ts, c) && ArityOk(labels, arities)
    ensures ResultTyped(s, labels, Jump(arities, depth, c), t)
  {
    hide HasType;
    TypesAbove(c.stack, ts, BranchTypes(labels[|labels| - 1 - depth]));
  }

  lemma SafeJump(s: Scope, labels: seq<Label>, arities: seq<nat>, e: Instr, ts: seq<Type>, c: Config, num: Numerics, fuel: nat)
    requires IsJump(e) && !TypeJump(s, labels, e, ts).Bad? && ConfigTyped(s, ts, c) && ArityOk(labels, arities)
    ensures ResultTyped(s, labels, EvalInstr(num, s.m, arities, fuel, e, c), TypeJump(s, labels, e, ts))
  {
    hide HaveTypes, HasType, EndsWith, BranchOk, StoreTyped, Jump, ArityOk;
    var t := TypeJump(s, labels, e, ts);
    match e
    case Br(d) => SafeBranch(s, labels, arities, d, ts, c, t);
    case BrIf(d) =>
      TopTyped(c.stack, ts, I32);
      TypesBelow(c.stack, ts, 1);
      if Operand(c, 1).bits.lo != 0 { SafeBranch(s, labels, arities, d, Below(ts, 1), Pop(c, 1), t); }
    case BrTable(targets, default) =>
      TopTyped(c.stack, ts, I32);
      TypesBelow(c.stack, ts, 1);
      var key := Operand(c, 1).bits.lo;
      SafeBranch(s, labels, arities, if key < |targets| then targets[key] else default, Below(ts, 1), Pop(c, 1), t);
    case Return => TypesAbove(c.stack, ts, s.results);
    case Unreachable =>
  }

  lemma SafeLeave(s: Scope, labels: seq<Label>, l: Label, ts: seq<Type>, outer: seq<Value>, r: Result, t: Typed)
    requires ResultTyped(s, labels + [l], r, t) && HaveTypes(outer, ts) && (t.Dead? || t == Live(l.sig))
    requires !l.isLoop || (r.Branch? ==> r.depth != 0)
    ensures ResultTyped(s, labels, Leave(r, outer), Live(ts + l.sig))
  {
    hide HasType;
    if r.Normal? {
      TypesAppend(outer, ts, r.cfg.stack, l.sig);
    } else if r.Branch? && r.depth == 0 {
      TypesAppend(outer, ts, r.vals, l.sig);
    }
  }

  lemma SafeCode(num: Numerics, s: Scope, labels: seq<Label>, arities: seq<nat>, fuel: nat, code: Code, ts: seq<Type>, c: Config)
    requires Sound(s.m) && Representable(code) && !TypeCode(s, labels, code, ts).Bad? && GenerableCode(s, labels, code, ts)
    requires ConfigTyped(s, ts, c) && ArityOk(labels, arities)
    ensures ResultTyped(s, labels, EvalCode(num, s.m, arities, fuel, code, c), TypeCode(s, labels, code, ts))
    decreases fuel, 1, code, 0
  {
    hide Sound, RepresentableInstr, TypeInstr, Generable, EvalInstr, ConfigTyped, ArityOk;
    if code == Nil {
    } else {
      var e, rest := code.head, code.tail;
      SafeInstr(num, s, labels, arities, fuel, e, ts, c);
      var r, t := EvalInstr(num, s.m, arities, fuel, e, c), TypeInstr(s, labels, e, ts);
      if r.Normal? {
        SafeCode(num, s, labels, arities, fuel, rest, t.types, r.cfg);
      }
    }
  }

  lemma SafeInstr(num: Numerics, s: Scope, labels: seq<Label>, arities: seq<nat>, fuel: nat, e: Instr, ts: seq<Type>, c: Config)
    requires Sound(s.m) && RepresentableInstr(e) && !TypeInstr(s, labels, e, ts).Bad? && Generable(s, labels, e, ts)
    requires ConfigTyped(s, ts, c) && ArityOk(labels, arities)
    ensures ResultTyped(s, labels, EvalInstr(num, s.m, arities, fuel, e, c), TypeInstr(s, labels, e, ts))
    decreases fuel, 1, e, 1
  {
    hide Sound, ConfigTyped, ArityOk, ResultTyped, EvalPlain, TypePlain, TypeJump, TypeCall, GenerablePlain;
    if IsJump(e) {
      SafeJump(s, labels, arities, e, ts, c, num, fuel);
    } else if e.Block? {
      SafeBlock(num, s, labels, arities, fuel, e, ts, c);
    } else if e.Loop? {
      SafeLoop(num, s, labels, arities, fuel, e, ts, c);
    } else if e.If? {
      SafeIf(num, s, labels, arities, fuel, e, ts, c);
    } else if IsCall(e) {
      SafeCall(num, s, labels, arities, fuel, e, ts, c);
    } else {
      H.PlainLive(s, e, ts);
      SafePlain(num, s, labels, e, ts, c);
    }
  }

  /** A body whose innermost label is `l`, started on an empty operand stack. */
  lemma SafeBody(num: Numerics, s: Scope, labels: seq<Label>, arities: seq<nat>, fuel: nat, body: Code, l: Label, c: Config)
    requires Sound(s.m) && Representable(body) && BodyOk(s, labels + [l], body, l.sig)
    requires GenerableCode(s, labels + [l], body, [])
    requires HaveTypes(c.locals, s.locals) && c.stack == [] && StoreTyped(s.m, c.store) && ArityOk(labels, arities)
    ensures var t := TypeCode(s, labels + [l], body, []);
      && (t.Dead? || t == Live(l.sig))
      && ResultTyped(s, labels + [l], EvalCode(num, s.m, arities + [|BranchTypes(l)|], fuel, body, c), t)
    decreases fuel, 1, body, 1
  {
    hide Sound, Representable, TypeCode, GenerableCode, EvalCode, ResultTyped;
    SafeCode(num, s, labels + [l], arities + [|BranchTypes(l)|], fuel, body, [], c);
  }

  lemma SafeBlock(num: Numerics, s: Scope, labels: seq<Label>, arities: seq<nat>, fuel: nat, e: Instr, ts: seq<Type>, c: Config)
    requires Sound(s.m) && e.Block? && RepresentableInstr(e) && !TypeInstr(s, labels, e, ts).Bad? && Generable(s, labels, e, ts)
    requires ConfigTyped(s, ts, c) && ArityOk(labels, arities)
    ensures ResultTyped(s, labels, EvalInstr(num, s.m, arities, fuel, e, c), TypeInstr(s, labels, e, ts))
    decreases fuel, 1, e, 0
  {
    hide Sound, Representable, TypeCode, GenerableCode, EvalCode, ResultTyped, HaveTypes, Leave, ArityOk;
    var l, inner := Label(false, e.sig), c.(stack := []);
    assert BodyOk(s, labels + [l], e.body, e.sig);
    SafeBody(num, s, labels, arities, fuel, e.body, l, inner);
    SafeLeave(s, labels, l, ts, c.stack, EvalCode(num, s.m, arities + [|e.sig|], fuel, e.body, inner), TypeCode(s, labels + [l], e.body, []));
  }

  lemma SafeLoop(num: Numerics, s: Scope, labels: seq<Label>, arities: seq<nat>, fuel: nat, e: Instr, ts: seq<Type>, c: Config)
    requires Sound(s.m) && e.Loop? && RepresentableInstr(e) && !TypeInstr(s, labels, e, ts).Bad? && Generable(s, labels, e, ts)
    requires ConfigTyped(s, ts, c) && ArityOk(labels, arities)
    ensures ResultTyped(s, labels, EvalInstr(num, s.m, arities, fuel, e, c), TypeInstr(s, labels, e, ts))
    decreases fuel, 1, e, 0
  {
    hide Sound, Representable, TypeCode, GenerableCode, EvalCode, HaveTypes, Leave, ArityOk, StoreTyped;
    var l, inner := Label(true, e.sig), c.(stack := []);
    assert BodyOk(s, labels + [l], e.body, e.sig);
    SafeBody(num, s, labels, arities, fuel, e.body, l, inner);
    var r, t := EvalCode(num, s.m, arities + [0], fuel, e.body, inner), TypeCode(s, labels + [l], e.body, []);
    if r.Branch? && r.depth == 0 {
      if fuel > 0 {
        SafeLoop(num, s, labels, arities, fuel - 1, e, ts, Config(r.locals, c.stack, r.store));
      }
    } else {
      SafeLeave(s, labels, l, ts, c.stack, r, t);
    }
  }

  lemma SafeIf(num: Numerics, s: Scope, labels: seq<Label>, arities: seq<nat>, fuel: nat, e: Instr, ts: seq<Type>, c: Config)
    requires Sound(s.m) && e.If? && RepresentableInstr(e) && !TypeInstr(s, labels, e, ts).Bad? && Generable(s, labels, e, ts)
    requires ConfigTyped(s, ts, c) && ArityOk(labels, arities)
    ensures ResultTyped(s, labels, EvalInstr(num, s.m, arities, fuel, e, c), TypeInstr(s, labels, e, ts))
    decreases fuel, 1, e, 0
  {
    hide Sound, Representable, TypeCode, GenerableCode, EvalCode, ResultTyped, HaveTypes, Leave, ArityOk, EndsWith;
    var l := Label(false, e.sig);
    TopTyped(c.stack, ts, I32);
    TypesBelow(c.stack, ts, 1);
    assert BodyOk(s, labels + [l], e.thn, e.sig) && BodyOk(s, labels + [l], e.els, e.sig);
    var arm := if Operand(c, 1).bits.lo != 0 then e.thn else e.els;
    var outer := Pop(c, 1);
    SafeBody(num, s, labels, arities, fuel, arm, l, outer.(stack := []));
    SafeLeave(s, labels, l, Below(ts, 1), outer.stack, EvalCode(num, s.m, arities + [|e.sig|], fuel, arm, outer.(stack := [])),
      TypeCode(s, labels + [l], arm, []));
  }

  lemma SafeCall(num: Numerics, s: Scope, labels: seq<Label>, arities: seq<nat>, fuel: nat, e: Instr, ts: seq<Type>, c: Config)
    requires Sound(s.m) && IsCall(e) && !TypeInstr(s, labels, e, ts).Bad? && Generable(s, labels, e, ts)
    requires ConfigTyped(s, ts, c)
    ensures ResultTyped(s, labels, EvalInstr(num, s.m, arities, fuel, e, c), TypeInstr(s, labels, e, ts))
    decreases fuel, 1, e, 0
  {
    hide Sound, ResultTyped, HaveTypes, StoreTyped, EndsWith, EvalCall;
    if e.Call? {
      SafeCallAt(num, s, labels, fuel, e.func, ts, c);
    } else {
      assert EndsWith(ts, [I32]) by { EndsWithTop(ts, I32); }
      TopTyped(c.stack, ts, I32);
      TypesBelow(c.stack, ts, 1);
      var d := TableTarget(s.m, e.sigIndex, Operand(c, 1).bits.lo);
      if d.Target? {
        SafeCallAt(num, s, labels, fuel, d.func, Below(ts, 1), Pop(c, 1));
      } else {
        assert ResultTyped(s, labels, Result.Trapped(d.trap), TypeInstr(s, labels, e, ts)) by { TrapTyped(s, labels, d.trap, TypeInstr(s, labels, e, ts)); }
      }
    }
  }

  lemma TrapTyped(s: Scope, labels: seq<Label>, trap: Trap, t: Typed)
    requires !OutOfStack(trap)
    ensures ResultTyped(s, labels, Result.Trapped(trap), t)
  {}

  lemma EndsWithTop(ts: seq<Type>, t: Type)
    requires ts != [] && ts[|ts| - 1] == t
    ensures EndsWith(ts, [t])
  {
    assert ts[|ts| - 1..] == [t];
  }

  lemma SafeCallAt(num: Numerics, s: Scope, labels: seq<Label>, fuel: nat, f: nat, ts: seq<Type>, c: Config)
    requires Sound(s.m) && f < |s.m.funcs| && s.m.funcs[f].sigIndex < |s.m.sigs|
    requires EndsWith(ts, SigOf(s.m, f).params) && ConfigTyped(s, ts, c)
    ensures ResultTyped(s, labels, EvalCall(num, s.m, f, fuel, c), Live(Below(ts, |SigOf(s.m, f).params|) + SigOf(s.m, f).results))
    decreases fuel, 0
  {
    hide Sound, EvalFunc;
    var sig := SigOf(s.m, f);
    var n := |sig.params|;
    TypesAbove(c.stack, ts, sig.params);
    TypesBelow(c.stack, ts, n);
    if fuel > 0 {
      SafeFunc(num, s.m, f, fuel - 1, c.stack[|c.stack| - n..], c.store);
      var r := EvalFunc(num, s.m, f, fuel - 1, c.stack[|c.stack| - n..], c.store);
      if r.Returned? { TypesAppend(Pop(c, n).stack, Below(ts, n), r.vals, sig.results); }
    }
  }

  /** A call of a sound function on well-typed arguments yields well-typed
      results or traps. */
  lemma SafeFunc(num: Numerics, m: Module, f: nat, fuel: nat, args: seq<Value>, store: Semantics.Store)
    requires Sound(m) && f < |m.funcs| && HaveTypes(args, SigOf(m, f).params) && StoreTyped(m, store)
    ensures CallTyped(m, SigOf(m, f).results, EvalFunc(num, m, f, fuel, args, store))
    decreases fuel, 2
  {
    hide EvalCode, HaveTypes, StoreTyped, TypeCode, GenerableCode, Representable, Expand, ArityOk;
    assert SoundFunc(m, f);
    var s, l := ScopeOf(m, f), Label(false, SigOf(m, f).results);
    var decls := m.funcs[f].decls;
    ZerosTyped(Expand(decls));
    TypesAppend(args, SigOf(m, f).params, Zeros(Expand(decls)), Expand(decls));
    var c := Config(args + Zeros(Expand(decls)), [], store);
    assert [] + [l] == [l];
    assert [] + [|l.sig|] == [|l.sig|];
    assert ArityOk([], []) by { NoLabels(); }
    SafeBody(num, s, [], [], fuel, m.funcs[f].body, l, c);
    SafeResults(s, l, EvalCode(num, m, [|l.sig|], fuel, m.funcs[f].body, c), TypeCode(s, [l], m.funcs[f].body, []));
  }

  lemma NoLabels()
    ensures ArityOk([], [])
  {}

  lemma SafeResults(s: Scope, l: Label, r: Result, t: Typed)
    requires ResultTyped(s, [l], r, t) && l == Label(false, s.results) && (t.Dead? || t == Live(l.sig))
    ensures r.Normal? ==> CallTyped(s.m, s.results, Results(|l.sig|, r.cfg.stack, r.cfg.store))
    ensures r.Branch? ==> r.depth == 0 && CallTyped(s.m, s.results, Results(|l.sig|, r.vals, r.store))
    ensures r.Returning? ==> CallTyped(s.m, s.results, Results(|l.sig|, r.vals, r.store))
    ensures !r.Wrong?
  {
    hide HasType;
    if r.Normal? {
      assert r.cfg.stack[0..] == r.cfg.stack;
    } else if r.Branch? {
      assert r.vals[0..] == r.vals;
    }
  }
}
