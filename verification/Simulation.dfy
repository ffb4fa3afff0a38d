/** The emitted bytes do what the tree says: a forward simulation of the
    evaluator by the interpreter, for bodies that are typed and generable. */
module Simulation {
  import opened Wasm
  import opened Assembly
  import opened Semantics
  import opened Machine
  import opened Steps
  import opened Safety
  import Typing
  import C = Compile
  import H = Heights

  /** The istream holds the code of a sound module, compiled at `start` with all
      function entries known. */
  ghost predicate Loaded(env: Env, start: nat) {
    && Sound(env.m) && |env.istream| < INVALID
    && |env.entries| == |env.m.funcs|
    && (forall f :: 0 <= f < |env.entries| ==> env.entries[f] == C.EntryOf(env.m, f, start))
    && (forall f :: 0 <= f < |env.m.funcs| ==> |Expand(env.m.funcs[f].decls)| < 0x1_0000_0000)
    && ItemsAt(env.istream, start, C.CompFuncs(env.m, C.Known(env.m, |env.m.funcs|, start), |env.m.funcs|, start))
  }

  /** A place in a function body: what is in scope, where the labels are, and
      the operands of the enclosing blocks. */
  datatype Site = Site(env: Env, start: nat, s: Typing.Scope, tls: seq<Typing.Label>, labels: seq<C.Label>, k: C.Context,
    outer: seq<Value>, frame: Frame)
  {
    function Arities(): (arities: seq<nat>)
      ensures |arities| == |labels| && forall i :: 0 <= i < |labels| ==> arities[i] == labels[i].arity
    {
      seq(|labels|, i requires 0 <= i < |labels| => labels[i].arity)
    }

    function Vals(c: Config): seq<Value> { c.locals + outer + c.stack }

    function Height(ts: seq<Type>): nat { |s.locals| + |outer| + |ts| }

    function Code(code: Wasm.Code, off: nat, ts: seq<Type>): seq<Item> { C.CompCode(k, labels, code, off, Height(ts)) }

    function Instr(e: Wasm.Instr, off: nat, ts: seq<Type>): seq<Item> { C.CompInstr(k, labels, e, off, Height(ts)) }

    function Eval(fuel: nat, code: Wasm.Code, c: Config): Result { EvalCode(env.num, env.m, Arities(), fuel, code, c) }

    function EvalOne(fuel: nat, e: Wasm.Instr, c: Config): Result { EvalInstr(env.num, env.m, Arities(), fuel, e, c) }
  }

  /** A label names a known place, keeps what a branch to it supplies, and
      restores a height at or below the current block. */
  ghost predicate LabelOk(l: C.Label, t: Typing.Label, low: nat, high: nat) {
    && l.arity == |Typing.BranchTypes(t)| <= 1 && l.target.Some? && l.target.value < INVALID
    && low <= l.limit <= high
  }

  ghost predicate SiteOk(x: Site) {
    && Loaded(x.env, x.start) && x.s.m == x.env.m && |x.s.results| <= 1
    && x.k == C.Context(x.env.m, C.Known(x.env.m, |x.env.m.funcs|, x.start), |x.s.results|)
    && |x.tls| == |x.labels|
    && (forall i :: 0 <= i < |x.labels| ==> LabelOk(x.labels[i], x.tls[i], |x.s.locals|, |x.s.locals| + |x.outer|))
    && x.frame.size <= INVALID && |x.frame.calls| >= x.env.returnDepth
  }

  ghost predicate CodeOk(x: Site, code: Wasm.Code, ts: seq<Type>) {
    && Typing.Representable(code) && !Typing.TypeCode(x.s, x.tls, code, ts).Bad?
    && Typing.GenerableCode(x.s, x.tls, code, ts)
  }

  ghost predicate InstrOk(x: Site, e: Wasm.Instr, ts: seq<Type>) {
    && Typing.RepresentableInstr(e) && !Typing.TypeInstr(x.s, x.tls, e, ts).Bad?
    && Typing.Generable(x.s, x.tls, e, ts)
  }

  /** The machine is at `pc` with the values of the configuration. */
  ghost predicate Ready(x: Site, c: Config, ts: seq<Type>, mc: Machine, pc: nat) {
    ConfigTyped(x.s, ts, c) && At(mc, pc, x.frame, x.Vals(c), c.store)
  }

  /** The last n values. */
  function Last(vs: seq<Value>, n: nat): seq<Value>
    requires n <= |vs|
  {
    vs[|vs| - n..]
  }

  /** A stack is exhausted: the value stack, or the call stack because it has no
      room for the return addresses of as many calls as there is fuel for. */
  ghost predicate Full(env: Env, fr: Frame, c: Conf, fuel: nat) {
    Exhausted(c) || (c == Stopped(CallStackExhausted) && |fr.calls| + fuel > env.callLimit)
  }

  /** After n steps from `mc` the machine has come to the result of evaluation,
      and at none of them has it touched what the frame protects. */
  ghost predicate Reaches(x: Site, mc: Machine, n: nat, r: Result, next: nat, fuel: nat) {
    Stays(x.env, mc, n, x.frame) && Ends(x, mc, n, r, next, fuel, fuel)
  }

  /** Where evaluation ran out of fuel, the machine is still running and has
      taken as many steps as there was fuel. */
  ghost predicate Ends(x: Site, mc: Machine, n: nat, r: Result, next: nat, fuel: nat, depth: nat) {
    var c := Run(x.env, mc, n);
    || Full(x.env, x.frame, c, depth)
    || match r
       case Normal(cfg) => c.Running? && At(c.machine, next, x.frame, x.Vals(cfg), cfg.store)
       case Branch(d, vals, locals, store) =>
         && n >= 1 && d < |x.labels| && C.LabelAt(x.labels, d).target.Some?
         && 0 <= C.LabelAt(x.labels, d).limit <= |locals + x.outer|
         && c.Running?
         && At(c.machine, C.LabelAt(x.labels, d).target.value, x.frame, (locals + x.outer)[..C.LabelAt(x.labels, d).limit] + vals, store)
       case Returning(vals, store) =>
         && |x.s.results| <= |vals| && c.Running?
         && AtReturn(x.env, c.machine, x.frame, Last(vals, |x.s.results|), store)
       case Trapped(trap) => c == Stopped(trap)
       case OutOfFuel => c.Running? && n >= fuel
       case Wrong => false
  }

  /** The machine is about to return these values. */
  ghost predicate AtReturn(env: Env, mc: Machine, fr: Frame, vs: seq<Value>, store: Semantics.Store) {
    mc.pc < |env.istream| && env.istream[mc.pc] == RETURN && At(mc, mc.pc, fr, vs, store)
  }

  // ----- runs in pieces -----

  lemma Chain(x: Site, mc: Machine, n1: nat, n2: nat, r: Result, next: nat, fuel: nat)
    requires Run(x.env, mc, n1).Running? && Stays(x.env, mc, n1, x.frame)
    requires Reaches(x, Run(x.env, mc, n1).machine, n2, r, next, fuel)
    ensures Reaches(x, mc, n1 + n2, r, next, fuel)
  {
    hide At, AtReturn, Run, Stays;
    StaysAdd(x.env, mc, n1, n2, x.frame);
  }

  lemma OneStep(x: Site, mc: Machine, pc: nat, c: Config, fuel: nat)
    requires Keeps(mc, x.frame) && Leads(Step(x.env, mc), pc, x.frame, x.Vals(c), c.store)
    ensures Reaches(x, mc, 1, Normal(c), pc, fuel)
  {
    hide At, Step, Run, Stays, Keeps;
    if Step(x.env, mc).Running? { AtKeeps(Step(x.env, mc).machine, pc, x.frame, x.Vals(c), c.store); }
    StaysOne(x.env, mc, x.frame);
  }

  lemma OneTrap(x: Site, mc: Machine, pc: nat, trap: Trap, fuel: nat)
    requires Keeps(mc, x.frame) && Step(x.env, mc) == Stopped(trap)
    ensures Reaches(x, mc, 1, Result.Trapped(trap), pc, fuel)
  {
    hide At, Step, Run, Stays, Keeps;
    StaysOne(x.env, mc, x.frame);
  }

  lemma NoStep(x: Site, mc: Machine, pc: nat, c: Config, fuel: nat)
    requires At(mc, pc, x.frame, x.Vals(c), c.store)
    ensures Reaches(x, mc, 0, Normal(c), pc, fuel)
  {
    hide At, Stays, Keeps;
    AtKeeps(mc, pc, x.frame, x.Vals(c), c.store);
    StaysNone(x.env, mc, x.frame);
  }

  lemma OneNumeric(x: Site, mc: Machine, pc: nat, c: Config, t: Type, r: Outcome<Bits>, fuel: nat)
    requires Keeps(mc, x.frame) && Computes(Step(x.env, mc), pc, x.frame, x.Vals(c), c.store, t, r)
    ensures Reaches(x, mc, 1, PushNumeric(r, t, c), pc, fuel)
  {
    hide At, Reaches, Step;
    if r.Done? {
      ValsPush(x, c, Value(t, Canon(t, r.value)));
      OneStep(x, mc, pc, c.(stack := c.stack + [Value(t, Canon(t, r.value))]), fuel);
    } else {
      OneTrap(x, mc, pc, Numeric(r.cause), fuel);
    }
  }

  // ----- the values of a configuration -----

  lemma ValsTop(x: Site, c: Config, k: nat)
    requires 1 <= k <= |c.stack|
    ensures k <= |x.Vals(c)| && x.Vals(c)[|x.Vals(c)| - k] == Operand(c, k)
  {}

  lemma ValsPop(x: Site, c: Config, k: nat)
    requires k <= |c.stack|
    ensures k <= |x.Vals(c)| && x.Vals(c)[..|x.Vals(c)| - k] == x.Vals(Pop(c, k))
  {}

  lemma ValsPush(x: Site, c: Config, v: Value)
    ensures x.Vals(c) + [v] == x.Vals(c.(stack := c.stack + [v]))
  {}

  lemma ValsSet(x: Site, c: Config, i: nat, v: Value)
    requires i < |c.locals|
    ensures x.Vals(c)[i := v] == x.Vals(c.(locals := c.locals[i := v]))
    ensures x.Vals(c)[i] == c.locals[i]
  {}

  lemma ValsLength(x: Site, ts: seq<Type>, c: Config)
    requires ConfigTyped(x.s, ts, c)
    ensures |x.Vals(c)| == x.Height(ts) && |c.stack| == |ts| && |c.locals| == |x.s.locals|
  {}

  lemma AtFits(mc: Machine, pc: nat, fr: Frame, vs: seq<Value>, store: Semantics.Store)
    requires At(mc, pc, fr, vs, store)
    ensures |vs| <= fr.size && fr.base + |vs| <= fr.size
  {}

  // ----- instructions without control flow -----

  lemma SimOperator(x: Site, fuel: nat, e: Wasm.Instr, off: nat, ts: seq<Type>, c: Config, mc: Machine) returns (n: nat)
    requires IsOperator(e) && Typing.TypeOperator(x.s, e, ts).Live? && Ready(x, c, ts, mc, off) && x.s.m == x.env.m
    requires ItemsAt(x.env.istream, off, C.CompPlain(e, x.Height(ts)))
    ensures Reaches(x, mc, n, EvalPlain(x.env.num, e, c), off + Size(C.CompPlain(e, x.Height(ts))), fuel)
  {
    hide At, Keeps, Reaches, Computes, HaveTypes, UnarySig, BinarySig, LoadSig, StoreSig, Typing.AccessOk, Typing.EndsWith, Size, Encode,
      StoreTyped, Step, Leads;
    n := 1;
    var vs, num := x.Vals(c), x.env.num;
    OperatorSize(e, x.Height(ts));
    AtKeeps(mc, off, x.frame, x.Vals(c), c.store);
    if e.Unary? {
      TopTyped(c.stack, ts, UnarySig(e.op).value.0);
      ValsTop(x, c, 1);
      ValsPop(x, c, 1);
      StepUnary(x.env, mc, off, x.frame, vs, c.store, e.op);
      OneNumeric(x, mc, off + 1, Pop(c, 1), UnarySig(e.op).value.1, num.unary(e.op, Operand(c, 1).bits), fuel);
    } else if e.Binary? {
      TopTwoTyped(c.stack, ts, BinarySig(e.op).value.0, BinarySig(e.op).value.0);
      ValsTop(x, c, 1);
      ValsTop(x, c, 2);
      ValsPop(x, c, 2);
      StepBinary(x.env, mc, off, x.frame, vs, c.store, e.op);
      OneNumeric(x, mc, off + 1, Pop(c, 2), BinarySig(e.op).value.1, num.binary(e.op, Operand(c, 2).bits, Operand(c, 1).bits), fuel);
    } else if e.Load? {
      TopTyped(c.stack, ts, I32);
      HasMemory(x.s, e);
      ValsTop(x, c, 1);
      ValsPop(x, c, 1);
      StepLoad(x.env, mc, off, x.frame, vs, c.store, e.op, e.offset);
      OneNumeric(x, mc, off + 9, Pop(c, 1), LoadSig(e.op).value.0, num.load(e.op, Operand(c, 1).bits, e.offset, c.store.mem), fuel);
    } else {
      SimStore(x, fuel, e, off, ts, c, mc);
    }
  }

  lemma HasMemory(s: Typing.Scope, e: Wasm.Instr)
    requires (e.Load? || e.Store?) && Typing.OperatorSig(s, e).Some?
    ensures s.m.hasMemory
  {}

  lemma OperatorSize(e: Wasm.Instr, h: int)
    requires IsOperator(e)
    ensures Size(C.CompPlain(e, h)) == if e.Unary? || e.Binary? then 1 else 9
  {
    if e.Load? || e.Store? {
      hide Size;
      C.TripleSize(Op(e.op), Word(0), Word(e.offset));
    } else {
      assert [Op(e.op)][..0] == [];
    }
  }

  lemma SimStore(x: Site, fuel: nat, e: Wasm.Instr, off: nat, ts: seq<Type>, c: Config, mc: Machine)
    requires e.Store? && Typing.TypeOperator(x.s, e, ts).Live? && Ready(x, c, ts, mc, off) && x.s.m == x.env.m
    requires ItemsAt(x.env.istream, off, C.CompPlain(e, x.Height(ts)))
    ensures Reaches(x, mc, 1, EvalPlain(x.env.num, e, c), off + 9, fuel)
  {
    hide At, Keeps, Reaches, HaveTypes, LoadSig, StoreSig, Typing.AccessOk, Typing.EndsWith, Size, Encode, StoreTyped, Step, Leads;
    TopTwoTyped(c.stack, ts, I32, StoreSig(e.op).value.0);
    HasMemory(x.s, e);
    AtKeeps(mc, off, x.frame, x.Vals(c), c.store);
    ValsTop(x, c, 1);
    ValsTop(x, c, 2);
    ValsPop(x, c, 2);
    StepStore(x.env, mc, off, x.frame, x.Vals(c), c.store, e.op, e.offset);
    var r := x.env.num.store(e.op, Operand(c, 2).bits, Operand(c, 1).bits, e.offset, c.store.mem);
    if r.Done? {
      OneStep(x, mc, off + 9, Pop(c, 2).(store := c.store.(mem := r.value)), fuel);
    } else {
      OneTrap(x, mc, off + 9, Numeric(r.cause), fuel);
    }
  }

  lemma SimVariable(x: Site, fuel: nat, e: Wasm.Instr, off: nat, ts: seq<Type>, c: Config, mc: Machine) returns (n: nat)
    requires IsVariable(e) && Typing.TypeVariable(x.s, e, ts).Live? && Typing.GenerablePlain(x.s, e, ts)
    requires Ready(x, c, ts, mc, off) && x.s.m == x.env.m && x.frame.size <= INVALID
    requires ItemsAt(x.env.istream, off, C.CompPlain(e, x.Height(ts)))
    ensures Reaches(x, mc, n, EvalPlain(x.env.num, e, c), off + Size(C.CompPlain(e, x.Height(ts))), fuel)
  {
    hide At, Keeps, Reaches, HasType, Size, Encode, Step, Leads, Typing.EndsWith;
    n := 1;
    var vs, pc := x.Vals(c), off + 5;
    ValsLength(x, ts, c);
    VariableSize(e, x.Height(ts));
    AtKeeps(mc, off, x.frame, x.Vals(c), c.store);
    if e.GetLocal? {
      ValsSet(x, c, e.local, c.locals[e.local]);
      ValsPush(x, c, c.locals[e.local]);
      StepGetLocal(x.env, mc, off, x.frame, vs, c.store, e.local);
      OneStep(x, mc, pc, c.(stack := c.stack + [c.locals[e.local]]), fuel);
    } else if e.SetLocal? {
      var t := x.s.locals[e.local];
      TopTyped(c.stack, ts, t);
      TypedAs(c.locals[e.local], t);
      ValsTop(x, c, 1);
      ValsPop(x, c, 1);
      ValsSet(x, Pop(c, 1), e.local, Operand(c, 1));
      StepSetLocal(x.env, mc, off, x.frame, vs, c.store, e.local);
      OneStep(x, mc, pc, Pop(c, 1).(locals := c.locals[e.local := Operand(c, 1)]), fuel);
    } else if e.TeeLocal? {
      var t := x.s.locals[e.local];
      TopTyped(c.stack, ts, t);
      TypedAs(c.locals[e.local], t);
      ValsTop(x, c, 1);
      ValsSet(x, c, e.local, Operand(c, 1));
      StepTeeLocal(x.env, mc, off, x.frame, vs, c.store, e.local);
      OneStep(x, mc, pc, c.(locals := c.locals[e.local := Operand(c, 1)]), fuel);
    } else {
      SimGlobal(x, fuel, e, off, ts, c, mc);
    }
  }

  lemma VariableSize(e: Wasm.Instr, h: int)
    requires IsVariable(e)
    ensures Size(C.CompPlain(e, h)) == 5
  {
    hide Size;
    C.PairSize(C.CompPlain(e, h)[0], C.CompPlain(e, h)[1]);
    assert C.CompPlain(e, h) == [C.CompPlain(e, h)[0], C.CompPlain(e, h)[1]];
  }

  lemma SimGlobal(x: Site, fuel: nat, e: Wasm.Instr, off: nat, ts: seq<Type>, c: Config, mc: Machine)
    requires (e.GetGlobal? || e.SetGlobal?) && Typing.TypeVariable(x.s, e, ts).Live?
    requires Ready(x, c, ts, mc, off) && x.s.m == x.env.m
    requires ItemsAt(x.env.istream, off, C.CompPlain(e, x.Height(ts)))
    ensures Reaches(x, mc, 1, EvalPlain(x.env.num, e, c), off + 5, fuel)
  {
    hide At, Keeps, Reaches, HasType, Size, Encode, Step, Leads, Typing.EndsWith;
    var vs, pc := x.Vals(c), off + 5;
    AtKeeps(mc, off, x.frame, x.Vals(c), c.store);
    var g := c.store.globals[e.global];
    if e.GetGlobal? {
      ValsPush(x, c, g);
      StepGetGlobal(x.env, mc, off, x.frame, vs, c.store, e.global);
      OneStep(x, mc, pc, c.(stack := c.stack + [g]), fuel);
    } else {
      var t := x.s.m.globals[e.global].ty;
      TopTyped(c.stack, ts, t);
      assert HasType(g, t);
      TypedAs(g, t);
      ValsTop(x, c, 1);
      ValsPop(x, c, 1);
      StepSetGlobal(x.env, mc, off, x.frame, vs, c.store, e.global);
      OneStep(x, mc, pc, Pop(c, 1).(store := c.store.(globals := c.store.globals[e.global := Operand(c, 1)])), fuel);
    }
  }

  lemma SimPlain(x: Site, fuel: nat, e: Wasm.Instr, off: nat, ts: seq<Type>, c: Config, mc: Machine) returns (n: nat)
    requires IsPlain(e) && !e.CurrentMemory? && !e.GrowMemory? && Typing.TypePlain(x.s, e, ts).Live?
    requires Typing.GenerablePlain(x.s, e, ts) && Ready(x, c, ts, mc, off) && x.s.m == x.env.m && x.frame.size <= INVALID
    requires ItemsAt(x.env.istream, off, C.CompPlain(e, x.Height(ts)))
    ensures Reaches(x, mc, n, EvalPlain(x.env.num, e, c), off + Size(C.CompPlain(e, x.Height(ts))), fuel)
  {
    hide At, Keeps, Reaches, HaveTypes, Size, Encode, Step, Leads, Typing.TypeOperator, Typing.TypeVariable, StoreTyped,
      Typing.GenerablePlain, ConfigTyped;
    ValsLength(x, ts, c);
    AtKeeps(mc, off, x.frame, x.Vals(c), c.store);
    n := 1;
    if IsOperator(e) {
      n := SimOperator(x, fuel, e, off, ts, c, mc);
    } else if IsVariable(e) {
      n := SimVariable(x, fuel, e, off, ts, c, mc);
    } else if e.Const? {
      var v := Value(e.ty, Canon(e.ty, e.bits));
      StepConst(x.env, mc, off, x.frame, x.Vals(c), c.store, e.ty, e.bits);
      ValsPush(x, c, v);
      OneStep(x, mc, off + Size(C.CompConst(e.ty, e.bits)), c.(stack := c.stack + [v]), fuel);
    } else if e.Drop? {
      ValsPop(x, c, 1);
      StepDrop(x.env, mc, off, x.frame, x.Vals(c), c.store);
      LeadsAlready(Step(x.env, mc).machine, off + 1, x.frame, x.Vals(Pop(c, 1)), c.store);
      OpSize(DROP);
      OneStep(x, mc, off + 1, Pop(c, 1), fuel);
    } else if e.Select? {
      SimSelect(x, fuel, off, ts, c, mc);
      OpSize(SELECT);
    } else {
      n := 0;
      NoItems();
      NoStep(x, mc, off, c, fuel);
    }
  }

  lemma OpSize(op: u8)
    ensures Size([Op(op)]) == 1
  {
    assert [Op(op)][..0] == [];
  }

  lemma NoItems()
    ensures Size([]) == 0
  {}

  lemma SimSelect(x: Site, fuel: nat, off: nat, ts: seq<Type>, c: Config, mc: Machine)
    requires Typing.TypePlain(x.s, Select, ts).Live? && Ready(x, c, ts, mc, off) && ItemsAt(x.env.istream, off, [Op(SELECT)])
    ensures Reaches(x, mc, 1, EvalPlain(x.env.num, Select, c), off + 1, fuel)
  {
    hide At, Keeps, Reaches, HasType, Size, Encode, Step, Leads, StoreTyped;
    var n := |ts|;
    AtKeeps(mc, off, x.frame, x.Vals(c), c.store);
    TypedAs(c.stack[n - 1], ts[n - 1]);
    ValsTop(x, c, 1);
    ValsTop(x, c, 2);
    ValsTop(x, c, 3);
    ValsPop(x, c, 3);
    var v := if Operand(c, 1).bits.lo != 0 then Operand(c, 3) else Operand(c, 2);
    StepSelect(x.env, mc, off, x.frame, x.Vals(c), c.store);
    ValsPush(x, Pop(c, 3), v);
    OneStep(x, mc, off + 1, Pop(c, 3).(stack := Pop(c, 3).stack + [v]), fuel);
  }

  // ----- jumps -----

  /** What a branch leaves of the values: those below its label, and its own. */
  lemma BranchVals(x: Site, ts: seq<Type>, c: Config, limit: nat, arity: nat)
    requires ConfigTyped(x.s, ts, c) && limit <= |x.s.locals| + |x.outer| && arity <= |ts|
    ensures limit + arity <= x.Height(ts) == |x.Vals(c)| && |c.stack| == |ts| && limit <= |c.locals + x.outer|
    ensures Dropped(x.Vals(c), x.Height(ts) - limit - arity, arity)
      == (c.locals + x.outer)[..limit] + c.stack[|c.stack| - arity..]
  {
    ValsLength(x, ts, c);
    var vs := x.Vals(c);
    assert vs[..limit] == (c.locals + x.outer)[..limit];
    assert vs[|vs| - arity..] == c.stack[|c.stack| - arity..];
  }

  lemma LabelAtOk(x: Site, depth: nat, ts: seq<Type>)
    requires SiteOk(x) && Typing.BranchOk(x.tls, depth, ts)
    ensures depth < |x.labels| && C.LabelAt(x.labels, depth).arity <= |ts| && C.LabelAt(x.labels, depth).arity <= 1
    ensures x.Arities()[|x.labels| - 1 - depth] == C.LabelAt(x.labels, depth).arity
    ensures C.LabelAt(x.labels, depth).target.Some? && C.LabelAt(x.labels, depth).target.value < INVALID
    ensures 0 <= C.LabelAt(x.labels, depth).limit <= |x.s.locals| + |x.outer|
  {
    hide Loaded;
    assert LabelOk(x.labels[|x.labels| - 1 - depth], x.tls[|x.labels| - 1 - depth], |x.s.locals|, |x.s.locals| + |x.outer|);
  }

  lemma SimBranch(x: Site, fuel: nat, depth: nat, off: nat, ts: seq<Type>, c: Config, mc: Machine, next: nat) returns (n: nat)
    requires SiteOk(x) && Typing.BranchOk(x.tls, depth, ts) && Ready(x, c, ts, mc, off)
    requires ItemsAt(x.env.istream, off, C.Jump(x.labels, depth, x.Height(ts)))
    ensures Reaches(x, mc, n, Jump(x.Arities(), depth, c), next, fuel)
  {
    hide At, Keeps, Stays, Run, Step, Size, Encode, C.DropKeep, Dropped, ConfigTyped, SiteOk, Typing.BranchOk;
    LabelAtOk(x, depth, ts);
    var l := C.LabelAt(x.labels, depth);
    BranchVals(x, ts, c, l.limit, l.arity);
    assert x.frame.size <= INVALID by { FrameFits(x); }
    var drop := C.DropKeep(x.Height(ts) - l.limit - l.arity, l.arity);
    SplitAt(x.env.istream, off, drop, [Op(BR), Word(l.target.value)]);
    var n1 := StepDropKeep(x.env, mc, off, x.frame, x.Vals(c), c.store, x.Height(ts) - l.limit - l.arity, l.arity);
    var mc1, vs1 := Run(x.env, mc, n1).machine, Dropped(x.Vals(c), x.Height(ts) - l.limit - l.arity, l.arity);
    StepGoto(x.env, mc1, off + Size(drop), x.frame, vs1, c.store, l.target.value);
    StepStays(x.env, mc1, off + Size(drop), x.frame, vs1, c.store, l.target.value, vs1, c.store);
    StaysAdd(x.env, mc, n1, 1, x.frame);
    n := n1 + 1;
  }

  lemma FrameFits(x: Site)
    requires SiteOk(x)
    ensures x.frame.size <= INVALID && |x.env.istream| < INVALID && x.s.m == x.env.m && |x.s.results| <= 1
    ensures x.k.results == |x.s.results| && |x.frame.calls| >= x.env.returnDepth
  {}

  lemma SimBrIf(x: Site, fuel: nat, depth: u32, off: nat, ts: seq<Type>, c: Config, mc: Machine) returns (n: nat)
    requires SiteOk(x) && Typing.TypeJump(x.s, x.tls, BrIf(depth), ts).Live? && Ready(x, c, ts, mc, off)
    requires ItemsAt(x.env.istream, off, C.CompJump(x.k, x.labels, BrIf(depth), off, x.Height(ts)))
    ensures Reaches(x, mc, n, x.EvalOne(fuel, BrIf(depth), c),
      off + Size(C.CompJump(x.k, x.labels, BrIf(depth), off, x.Height(ts))), fuel)
  {
    hide At, Keeps, Stays, Run, Step, Size, Encode, C.Jump, HaveTypes, StoreTyped, SiteOk, Typing.BranchOk, Typing.EndsWith, Reaches;
    TopTyped(c.stack, ts, I32);
    TypesBelow(c.stack, ts, 1);
    ValsTop(x, c, 1);
    ValsPop(x, c, 1);
    FrameFits(x);
    var jump, us := C.Jump(x.labels, depth, x.Height(ts) - 1), Typing.Below(ts, 1);
    var after := off + 5 + Size(jump);
    var head := [Op(BR_UNLESS), Word(after)];
    C.PairSize(head[0], head[1]);
    SizeAppend(head, jump);
    SplitAt(x.env.istream, off, head, jump);
    StepBrUnless(x.env, mc, off, x.frame, x.Vals(c), c.store, after);
    StepStays(x.env, mc, off, x.frame, x.Vals(c), c.store, if Operand(c, 1).bits.lo != 0 then off + 5 else after, x.Vals(Pop(c, 1)), c.store);
    var mc1 := Run(x.env, mc, 1).machine;
    var n2 := 0;
    if Operand(c, 1).bits.lo != 0 {
      n2 := SimBranch(x, fuel, depth, off + 5, us, Pop(c, 1), mc1, after);
      Chain(x, mc, 1, n2, Semantics.Jump(x.Arities(), depth, Pop(c, 1)), after, fuel);
    } else {
      NoStep(x, mc1, after, Pop(c, 1), fuel);
      Chain(x, mc, 1, n2, Normal(Pop(c, 1)), after, fuel);
    }
    n := 1 + n2;
  }

  lemma {:induction false} EntriesSize(labels: seq<C.Label>, depths: seq<u32>, h: int)
    requires forall i :: 0 <= i < |depths| ==> depths[i] < |labels|
    ensures Size(C.TableEntries(labels, depths, h)) == TABLE_ENTRY_SIZE * |depths|
  {
    if depths == [] {
      NoItems();
    } else {
      hide Size, Encode;
      var front, d := depths[..|depths| - 1], depths[|depths| - 1];
      EntriesSize(labels, front, h);
      var entry := C.TableEntry(labels, d, h);
      C.TripleSize(entry[0], entry[1], entry[2]);
      assert entry == [entry[0], entry[1], entry[2]];
      SizeAppend(C.TableEntries(labels, front, h), entry);
    }
  }

  /** Entry i of a branch table lies i entries behind its start. */
  lemma {:induction false} EntryFound(s: seq<u8>, at: nat, labels: seq<C.Label>, depths: seq<u32>, h: int, i: nat)
    requires forall j :: 0 <= j < |depths| ==> depths[j] < |labels|
    requires ItemsAt(s, at, C.TableEntries(labels, depths, h)) && i < |depths|
    ensures ItemsAt(s, at + TABLE_ENTRY_SIZE * i, C.TableEntry(labels, depths[i], h))
    decreases |depths|
  {
    hide Size, Encode, C.TableEntry;
    var front := depths[..|depths| - 1];
    EntriesSize(labels, front, h);
    SplitAt(s, at, C.TableEntries(labels, front, h), C.TableEntry(labels, depths[|depths| - 1], h));
    if i < |front| { EntryFound(s, at, labels, front, h, i); }
  }

  lemma SimBrTable(x: Site, fuel: nat, e: Wasm.Instr, off: nat, ts: seq<Type>, c: Config, mc: Machine, next: nat)
    requires SiteOk(x) && e.BrTable? && Typing.TypeJump(x.s, x.tls, e, ts).Dead? && Ready(x, c, ts, mc, off)
    requires ItemsAt(x.env.istream, off, C.CompJump(x.k, x.labels, e, off, x.Height(ts)))
    ensures Reaches(x, mc, 1, x.EvalOne(fuel, e, c), next, fuel)
  {
    hide At, Keeps, Run, Step, Size, Encode, C.Jump, C.TableEntries, HaveTypes, StoreTyped, SiteOk, Typing.BranchOk, Typing.EndsWith,
      Dropped, Reaches, Semantics.Jump, C.CompJump, TableTail, EvalInstr, Site.EvalOne;
    TopTyped(c.stack, ts, I32);
    TypesBelow(c.stack, ts, 1);
    ValsTop(x, c, 1);
    ValsPop(x, c, 1);
    var us, all, h := Typing.Below(ts, 1), e.targets + [e.default], x.Height(ts) - 1;
    var key := Operand(c, 1).bits.lo;
    var i := if key < |e.targets| then key else |e.targets|;
    TargetsInScope(x, e, us);
    TableRead(x, e, off, h, i);
    AtFits(mc, off, x.frame, x.Vals(c), c.store);
    EntryFits(x, all[i], us, Pop(c, 1));
    var l := C.LabelAt(x.labels, all[i]);
    StepTable(x.env, mc, off, x.frame, x.Vals(c), c.store, |e.targets|, off + 14,
      TableTail(x, e, h), l.target.value, h - l.limit - l.arity, l.arity);
    AtKeeps(mc, off, x.frame, x.Vals(c), c.store);
    EntryReaches(x, mc, all[i], us, Pop(c, 1), next, fuel);
    EvalTable(x, fuel, e, c);
  }

  /** The branch that a br_table evaluates to. */
  lemma EvalTable(x: Site, fuel: nat, e: Wasm.Instr, c: Config)
    requires e.BrTable? && |c.stack| >= 1 && Operand(c, 1).ty == I32
    ensures var key, n := Operand(c, 1).bits.lo, |e.targets|;
      x.EvalOne(fuel, e, c) == Semantics.Jump(x.Arities(), (e.targets + [e.default])[if key < n then key else n], Pop(c, 1))
  {
    hide Semantics.Jump;
  }

  lemma EntryReaches(x: Site, mc: Machine, d: nat, us: seq<Type>, c: Config, next: nat, fuel: nat)
    requires Keeps(mc, x.frame) && SiteOk(x) && Typing.BranchOk(x.tls, d, us) && ConfigTyped(x.s, us, c) && |x.Vals(c)| < x.frame.size
    requires var l, h := C.LabelAt(x.labels, d), x.Height(us);
      && d < |x.labels| && l.target.Some? && 0 <= h - l.limit - l.arity && h == |x.Vals(c)| && l.limit >= 0
      && Step(x.env, mc).Running?
      && At(Step(x.env, mc).machine, l.target.value, x.frame, Dropped(x.Vals(c), h - l.limit - l.arity, l.arity), c.store)
    ensures Reaches(x, mc, 1, Semantics.Jump(x.Arities(), d, c), next, fuel)
  {
    hide At, Keeps, Stays, Run, Step, HaveTypes, StoreTyped, SiteOk, Typing.BranchOk, Dropped;
    EntryFits(x, d, us, c);
    var l := C.LabelAt(x.labels, d);
    AtKeeps(Step(x.env, mc).machine, l.target.value, x.frame, Dropped(x.Vals(c), x.Height(us) - l.limit - l.arity, l.arity), c.store);
    StaysOne(x.env, mc, x.frame);
  }

  /** The operands of a table entry fit their fields. */
  lemma EntryFits(x: Site, d: nat, us: seq<Type>, c: Config)
    requires SiteOk(x) && Typing.BranchOk(x.tls, d, us) && ConfigTyped(x.s, us, c) && |x.Vals(c)| < x.frame.size
    ensures d < |x.labels|
    ensures var l, h := C.LabelAt(x.labels, d), x.Height(us);
      && h == |x.Vals(c)| && x.Arities()[|x.labels| - 1 - d] == l.arity <= |c.stack| && l.arity <= 1
      && l.target.Some? && l.target.value < INVALID && 0 <= l.limit <= |c.locals + x.outer|
      && 0 <= h - l.limit - l.arity < INVALID
      && Dropped(x.Vals(c), h - l.limit - l.arity, l.arity) == (c.locals + x.outer)[..l.limit] + Last(c.stack, l.arity)
  {
    hide Dropped, Typing.BranchOk, SiteOk, HaveTypes;
    FrameFits(x);
    LabelAtOk(x, d, us);
    var l := C.LabelAt(x.labels, d);
    BranchVals(x, us, c, l.limit, l.arity);
    ValsLength(x, us, c);
  }

  lemma TargetsInScope(x: Site, e: Wasm.Instr, us: seq<Type>)
    requires SiteOk(x) && e.BrTable? && Typing.TableOk(x.tls, e.targets, e.default, us)
    ensures var all := e.targets + [e.default];
      forall j :: 0 <= j < |all| ==> all[j] < |x.labels| && Typing.BranchOk(x.tls, all[j], us)
  {
    hide Loaded, Typing.EndsWith;
  }

  function TableTail(x: Site, e: Wasm.Instr, h: int): seq<Item>
    requires e.BrTable?
  {
    [Op(DATA), Word((|e.targets| + 1) * TABLE_ENTRY_SIZE)] + C.TableEntries(x.labels, e.targets + [e.default], h)
  }

  /** A branch table in the istream: its head, and entry i. */
  lemma TableRead(x: Site, e: Wasm.Instr, off: nat, h: int, i: nat)
    requires SiteOk(x) && e.BrTable? && i <= |e.targets|
    requires forall j :: 0 <= j <= |e.targets| ==> (e.targets + [e.default])[j] < |x.labels|
    requires ItemsAt(x.env.istream, off, C.CompJump(x.k, x.labels, e, off, h + 1))
    ensures off + 14 <= |x.env.istream| && |e.targets| < INVALID && |x.env.istream| < INVALID
    ensures ItemsAt(x.env.istream, off, [Op(BR_TABLE), Word(|e.targets|), Word(off + 14)] + TableTail(x, e, h))
    ensures ItemsAt(x.env.istream, off + 14 + TABLE_ENTRY_SIZE * i, C.TableEntry(x.labels, (e.targets + [e.default])[i], h))
  {
    hide Size, Encode, C.TableEntries, C.TableEntry, SiteOk;
    var all := e.targets + [e.default];
    var w := Word((|e.targets| + 1) * TABLE_ENTRY_SIZE);
    var head, entries := [Op(BR_TABLE), Word(|e.targets|), Word(off + 14), Op(DATA), w], C.TableEntries(x.labels, all, h);
    FrameFits(x);
    HeadSize(|e.targets|, off + 14, w);
    EntriesSize(x.labels, all, h);
    SizeAppend(head, entries);
    SplitAt(x.env.istream, off, head, entries);
    EntryFound(x.env.istream, off + 14, x.labels, all, h, i);
    assert head + entries == [Op(BR_TABLE), Word(|e.targets|), Word(off + 14)] + TableTail(x, e, h);
    InsideStream(x.env.istream, off, head + entries);
  }

  lemma InsideStream(s: seq<u8>, at: nat, items: seq<Item>)
    requires ItemsAt(s, at, items)
    ensures at + Size(items) <= |s|
  {
    hide Size, Encode;
  }

  lemma HeadSize(n: nat, table: int, w: Item)
    requires Width(w) == 4
    ensures Size([Op(BR_TABLE), Word(n), Word(table), Op(DATA), w]) == 14
  {
    hide Size, Encode;
    C.TripleSize(Op(BR_TABLE), Word(n), Word(table));
    C.PairSize(Op(DATA), w);
    SizeAppend([Op(BR_TABLE), Word(n), Word(table)], [Op(DATA), w]);
    assert [Op(BR_TABLE), Word(n), Word(table), Op(DATA), w] == [Op(BR_TABLE), Word(n), Word(table)] + [Op(DATA), w];
  }

  lemma SimReturn(x: Site, fuel: nat, off: nat, ts: seq<Type>, c: Config, mc: Machine, next: nat) returns (n: nat)
    requires SiteOk(x) && Typing.EndsWith(ts, x.s.results) && Ready(x, c, ts, mc, off)
    requires ItemsAt(x.env.istream, off, C.CompJump(x.k, x.labels, Return, off, x.Height(ts)))
    ensures Reaches(x, mc, n, x.EvalOne(fuel, Return, c), next, fuel)
  {
    hide At, Keeps, Stays, Run, Step, Size, Encode, C.DropKeep, Dropped, ConfigTyped, SiteOk, Loaded;
    FrameFits(x);
    var k := |x.s.results|;
    ValsLength(x, ts, c);
    BranchVals(x, ts, c, 0, k);
    assert (c.locals + x.outer)[..0] + Last(c.stack, k) == Last(c.stack, k);
    var drop := C.DropKeep(x.Height(ts) - k, k);
    SplitAt(x.env.istream, off, drop, [Op(RETURN)]);
    n := StepDropKeep(x.env, mc, off, x.frame, x.Vals(c), c.store, x.Height(ts) - k, k);
    ReadOp(x.env.istream, off + Size(drop), RETURN);
    PcOf(Run(x.env, mc, n).machine, off + Size(drop), x.frame, Last(c.stack, k), c.store);
  }

  lemma SimJump(x: Site, fuel: nat, e: Wasm.Instr, off: nat, ts: seq<Type>, c: Config, mc: Machine) returns (n: nat)
    requires SiteOk(x) && IsJump(e) && !Typing.TypeJump(x.s, x.tls, e, ts).Bad? && Ready(x, c, ts, mc, off)
    requires ItemsAt(x.env.istream, off, C.CompJump(x.k, x.labels, e, off, x.Height(ts)))
    ensures Reaches(x, mc, n, x.EvalOne(fuel, e, c), off + Size(C.CompJump(x.k, x.labels, e, off, x.Height(ts))), fuel)
  {
    hide At, Keeps, Size, Encode, Reaches, SiteOk, C.Jump, Typing.BranchOk, Typing.TableOk, Typing.EndsWith, Ready, Run, Step;
    var next := off + Size(C.CompJump(x.k, x.labels, e, off, x.Height(ts)));
    if e.Br? {
      n := SimBranch(x, fuel, e.depth, off, ts, c, mc, next);
    } else if e.BrIf? {
      n := SimBrIf(x, fuel, e.depth, off, ts, c, mc);
    } else if e.BrTable? {
      n := 1;
      SimBrTable(x, fuel, e, off, ts, c, mc, next);
    } else if e.Return? {
      n := SimReturn(x, fuel, off, ts, c, mc, next);
    } else {
      n := 1;
      assert At(mc, off, x.frame, x.Vals(c), c.store) by { ReadyAt(x, c, ts, mc, off); }
      StepUnreachable(x.env, mc, off, x.frame, x.Vals(c), c.store);
      AtKeeps(mc, off, x.frame, x.Vals(c), c.store);
      OneTrap(x, mc, next, UnreachableExecuted, fuel);
    }
  }

  lemma ReadyAt(x: Site, c: Config, ts: seq<Type>, mc: Machine, pc: nat)
    requires Ready(x, c, ts, mc, pc)
    ensures At(mc, pc, x.frame, x.Vals(c), c.store) && ConfigTyped(x.s, ts, c)
  {}

  // ----- blocks -----

  /** The site inside a block: its label is innermost, the operands around it
      are those below. */
  function Inner(x: Site, l: C.Label, t: Typing.Label, operands: seq<Value>): Site {
    x.(tls := x.tls + [t], labels := x.labels + [l], outer := x.outer + operands)
  }

  lemma InnerOk(x: Site, l: C.Label, t: Typing.Label, operands: seq<Value>)
    requires SiteOk(x) && LabelOk(l, t, |x.s.locals|, |x.s.locals| + |x.outer| + |operands|)
    ensures SiteOk(Inner(x, l, t, operands))
    ensures Inner(x, l, t, operands).Arities() == x.Arities() + [l.arity]
  {
    hide Loaded;
    var y := Inner(x, l, t, operands);
    forall i | 0 <= i < |y.labels| ensures LabelOk(y.labels[i], y.tls[i], |x.s.locals|, |x.s.locals| + |y.outer|) {
      if i < |x.labels| {
        assert LabelOk(x.labels[i], x.tls[i], |x.s.locals|, |x.s.locals| + |x.outer|);
      }
    }
  }

  /** Entering a block changes no value. */
  lemma EnterVals(x: Site, l: C.Label, t: Typing.Label, c: Config, ts: seq<Type>, mc: Machine, pc: nat)
    requires Ready(x, c, ts, mc, pc)
    ensures Ready(Inner(x, l, t, c.stack), c.(stack := []), [], mc, pc)
    ensures Inner(x, l, t, c.stack).Height([]) == x.Height(ts)
  {
    hide At;
    var y := Inner(x, l, t, c.stack);
    assert y.Vals(c.(stack := [])) == x.Vals(c);
  }

  /** Leaving a block whose label restores the height it started at. */
  lemma LeaveReaches(x: Site, l: C.Label, t: Typing.Label, operands: seq<Value>, mc: Machine, n: nat, r: Result, end: nat, fuel: nat)
    requires SiteOk(x) && Reaches(Inner(x, l, t, operands), mc, n, r, end, fuel)
    requires l.limit == |x.s.locals| + |x.outer| + |operands| && (r.Branch? && r.depth == 0 ==> l.target == Some(end))
    requires r.Branch? ==> |r.locals| == |x.s.locals|
    ensures Reaches(x, mc, n, Leave(r, operands), end, fuel)
  {
    hide At, Stays, AtReturn, Run, Loaded, Full;
    var y := Inner(x, l, t, operands);
    if Full(x.env, x.frame, Run(x.env, mc, n), fuel) {
    } else if r.Normal? {
      assert y.Vals(r.cfg) == x.Vals(r.cfg.(stack := operands + r.cfg.stack));
    } else if r.Branch? {
      BranchOut(x, y, l, t, operands, r.depth, r.locals, r.vals);
    }
  }

  lemma BranchOut(x: Site, y: Site, l: C.Label, t: Typing.Label, operands: seq<Value>, depth: nat, locals: seq<Value>, vals: seq<Value>)
    requires SiteOk(x) && y == Inner(x, l, t, operands) && depth < |y.labels| && |locals| == |x.s.locals|
    requires l.limit == |x.s.locals| + |x.outer| + |operands| && 0 <= C.LabelAt(y.labels, depth).limit <= |locals + y.outer|
    ensures depth == 0 ==> C.LabelAt(y.labels, depth) == l
    ensures depth == 0 ==> (locals + y.outer)[..l.limit] + vals == locals + x.outer + (operands + vals)
    ensures depth > 0 ==> depth - 1 < |x.labels| && C.LabelAt(y.labels, depth) == C.LabelAt(x.labels, depth - 1)
    ensures depth > 0 ==> 0 <= C.LabelAt(x.labels, depth - 1).limit <= |locals + x.outer|
    ensures depth > 0 ==> (
      (locals + y.outer)[..C.LabelAt(y.labels, depth).limit] == (locals + x.outer)[..C.LabelAt(x.labels, depth - 1).limit])
  {
    hide Loaded;
    if depth > 0 {
      var i := |x.labels| - depth;
      assert LabelOk(x.labels[i], x.tls[i], |x.s.locals|, |x.s.locals| + |x.outer|);
    }
  }

  /** A branch to the innermost label, when that is a loop. */
  lemma LoopReaches(x: Site, l: C.Label, t: Typing.Label, operands: seq<Value>, mc: Machine, n: nat, r: Result, end: nat, fuel: nat)
    requires SiteOk(x) && Reaches(Inner(x, l, t, operands), mc, n, r, end, fuel) && r.Branch? && r.depth == 0 && r.vals == []
    requires l.limit == |x.s.locals| + |x.outer| + |operands| && l.target.Some?
    requires |r.locals| == |x.s.locals| && !Full(x.env, x.frame, Run(x.env, mc, n), fuel)
    ensures n >= 1 && Stays(x.env, mc, n, x.frame) && Run(x.env, mc, n).Running?
    ensures At(Run(x.env, mc, n).machine, l.target.value, x.frame, x.Vals(Config(r.locals, operands, r.store)), r.store)
  {
    hide At, Stays, AtReturn, Run, Loaded, Full;
    var y := Inner(x, l, t, operands);
    BranchOut(x, y, l, t, operands, 0, r.locals, []);
    assert (r.locals + y.outer)[..l.limit] + [] == r.locals + x.outer + operands;
  }

  lemma AritiesOk(x: Site)
    requires SiteOk(x)
    ensures ArityOk(x.tls, x.Arities()) && Sound(x.s.m)
  {
    forall i | 0 <= i < |x.tls| ensures x.Arities()[i] == |Typing.BranchTypes(x.tls[i])| {
      assert LabelOk(x.labels[i], x.tls[i], |x.s.locals|, |x.s.locals| + |x.outer|);
    }
  }

  /** Typing and code of a body that starts with `e`. */
  lemma CodeSplit(x: Site, e: Wasm.Instr, rest: Wasm.Code, off: nat, ts: seq<Type>)
    requires CodeOk(x, Cons(e, rest), ts) && x.k.m == x.s.m
    ensures InstrOk(x, e, ts)
    ensures var t, items := Typing.TypeInstr(x.s, x.tls, e, ts), x.Instr(e, off, ts);
      t.Live? ==> (
        && CodeOk(x, rest, t.types)
        && x.Code(Cons(e, rest), off, ts) == items + x.Code(rest, off + Size(items), t.types))
    ensures !Typing.TypeInstr(x.s, x.tls, e, ts).Live? ==> x.Code(Cons(e, rest), off, ts) == x.Instr(e, off, ts)
  {
    hide Size, C.Delta, Typing.TypeInstr, Typing.Generable, Typing.RepresentableInstr, C.CompInstr, Typing.BranchOk, Typing.EndsWith;
    var t, items := Typing.TypeInstr(x.s, x.tls, e, ts), x.Instr(e, off, ts);
    H.LiveGoesOn(x.s, x.tls, e, ts);
    if t.Live? {
      if e.CallIndirect? { IndirectOperands(x, e, ts); }
      H.DeltaIsTyped(x.s, x.tls, e, ts);
    } else {
      assert rest == Nil;
      assert C.CompCode(x.k, x.labels, rest, off + Size(items), x.Height(ts) + C.Delta(x.k.m, e)) == [];
      assert items + [] == items;
    }
  }

  lemma IndirectOperands(x: Site, e: Wasm.Instr, ts: seq<Type>)
    requires Typing.Generable(x.s, x.tls, e, ts) && e.CallIndirect?
    ensures ts != []
  {}

  lemma SimCode(x: Site, fuel: nat, code: Wasm.Code, off: nat, ts: seq<Type>, c: Config, mc: Machine) returns (n: nat)
    requires SiteOk(x) && CodeOk(x, code, ts) && Ready(x, c, ts, mc, off)
    requires ItemsAt(x.env.istream, off, x.Code(code, off, ts))
    ensures Reaches(x, mc, n, x.Eval(fuel, code, c), off + Size(x.Code(code, off, ts)), fuel)
    decreases fuel, 1, code, 0
  {
    hide At, Stays, Size, Encode, Reaches, SiteOk, CodeOk, InstrOk, ConfigTyped, Run, EvalInstr, C.CompInstr, Site.Instr, ArityOk, Sound;
    if code == Nil {
      n := 0;
      NoItems();
      NoStep(x, mc, off, c, fuel);
    } else {
      var e, rest, items := code.head, code.tail, x.Instr(code.head, off, ts);
      FrameFits(x);
      SameModule(x);
      CodeSplit(x, e, rest, off, ts);
      var t, r := Typing.TypeInstr(x.s, x.tls, e, ts), x.EvalOne(fuel, e, c);
      TypedResult(x, fuel, e, ts, c);
      if t.Live? {
        var tail := x.Code(rest, off + Size(items), t.types);
        SplitAt(x.env.istream, off, items, tail);
        SizeAppend(items, tail);
        n := SimInstr(x, fuel, e, off, ts, c, mc);
        if r.Normal? && !Full(x.env, x.frame, Run(x.env, mc, n), fuel) {
          NormalReady(x, mc, n, r.cfg, t.types, off + Size(items), fuel);
          var mc1 := Run(x.env, mc, n).machine;
          var n2 := SimCode(x, fuel, rest, off + Size(items), t.types, r.cfg, mc1);
          Chain(x, mc, n, n2, x.Eval(fuel, rest, r.cfg), off + Size(items) + Size(tail), fuel);
          n := n + n2;
        } else {
          OtherResult(x, mc, n, r, x.Eval(fuel, code, c), off + Size(items), off + Size(x.Code(code, off, ts)), fuel);
        }
      } else {
        n := SimInstr(x, fuel, e, off, ts, c, mc);
      }
    }
  }

  lemma SameModule(x: Site)
    requires SiteOk(x)
    ensures x.k.m == x.s.m == x.env.m
  {}

  lemma TypedResult(x: Site, fuel: nat, e: Wasm.Instr, ts: seq<Type>, c: Config)
    requires SiteOk(x) && InstrOk(x, e, ts) && ConfigTyped(x.s, ts, c)
    ensures var t, r := Typing.TypeInstr(x.s, x.tls, e, ts), x.EvalOne(fuel, e, c);
      && ResultTyped(x.s, x.tls, r, t) && (r.Normal? ==> t.Live? && ConfigTyped(x.s, t.types, r.cfg))
  {
    hide SiteOk, ConfigTyped, EvalInstr, Typing.TypeInstr, Typing.Generable, Typing.RepresentableInstr, ArityOk, Sound;
    SameModule(x);
    AritiesOk(x);
    SafeInstr(x.env.num, x.s, x.tls, x.Arities(), fuel, e, ts, c);
  }

  lemma NormalReady(x: Site, mc: Machine, n: nat, c: Config, ts: seq<Type>, pc: nat, fuel: nat)
    requires Reaches(x, mc, n, Normal(c), pc, fuel) && !Full(x.env, x.frame, Run(x.env, mc, n), fuel) && ConfigTyped(x.s, ts, c)
    ensures Stays(x.env, mc, n, x.frame) && Run(x.env, mc, n).Running? && Ready(x, c, ts, Run(x.env, mc, n).machine, pc)
  {
    hide At, Stays, Run;
  }

  /** A result that is not normal does not depend on what follows. */
  lemma OtherResult(x: Site, mc: Machine, n: nat, r: Result, r': Result, pc: nat, pc': nat, fuel: nat)
    requires Reaches(x, mc, n, r, pc, fuel) && (!r.Normal? || Full(x.env, x.frame, Run(x.env, mc, n), fuel)) && (!r.Normal? ==> r' == r)
    ensures Reaches(x, mc, n, r', pc', fuel)
  {
    hide At, Stays, Run, AtReturn;
  }

  lemma SimInstr(x: Site, fuel: nat, e: Wasm.Instr, off: nat, ts: seq<Type>, c: Config, mc: Machine) returns (n: nat)
    requires SiteOk(x) && InstrOk(x, e, ts) && Ready(x, c, ts, mc, off)
    requires ItemsAt(x.env.istream, off, x.Instr(e, off, ts))
    ensures Reaches(x, mc, n, x.EvalOne(fuel, e, c), off + Size(x.Instr(e, off, ts)), fuel)
    decreases fuel, 1, e, 2
  {
    hide At, Size, Encode, Reaches, SiteOk, ConfigTyped, Run, EvalPlain, C.CompPlain, C.CompJump, C.CompCall, C.CompBlock, C.CompIf,
      C.CompCode, Typing.TypePlain, Typing.TypeJump, Typing.TypeCall, Typing.GenerablePlain, Ready;
    SameModule(x);
    FrameFits(x);
    if IsJump(e) {
      n := SimJump(x, fuel, e, off, ts, c, mc);
    } else if IsCall(e) {
      n := SimCall(x, fuel, e, off, ts, c, mc);
    } else if e.Block? {
      n := SimBlock(x, fuel, e, off, ts, c, mc);
    } else if e.Loop? {
      n := SimLoop(x, fuel, e, off, ts, c, mc);
    } else if e.If? {
      n := SimIf(x, fuel, e, off, ts, c, mc);
    } else {
      H.PlainLive(x.s, e, ts);
      n := SimPlain(x, fuel, e, off, ts, c, mc);
    }
  }

  lemma BodyInside(x: Site, e: Wasm.Instr, off: nat, ts: seq<Type>)
    requires SiteOk(x) && ItemsAt(x.env.istream, off, x.Instr(e, off, ts))
    ensures off + Size(x.Instr(e, off, ts)) < INVALID
  {
    hide Size, Encode;
    InsideStream(x.env.istream, off, x.Instr(e, off, ts));
  }

  /** What the pieces of a block or loop look like from inside. */
  lemma BlockInside(x: Site, e: Wasm.Instr, off: nat, ts: seq<Type>, operands: seq<Value>) returns (l: C.Label)
    requires SiteOk(x) && (e.Block? || e.Loop?) && InstrOk(x, e, ts) && |operands| == |ts|
    requires ItemsAt(x.env.istream, off, x.Instr(e, off, ts))
    ensures var end, t := off + Size(x.Instr(e, off, ts)), Typing.Label(e.Loop?, e.sig);
      && l == C.ClosedLabel(x.Height(ts), if e.Loop? then 0 else |e.sig|, if e.Loop? then off else end)
      && var y := Inner(x, l, t, operands);
      && SiteOk(y) && y.Arities() == x.Arities() + [if e.Loop? then 0 else |e.sig|]
      && CodeOk(y, e.body, []) && y.Code(e.body, off, []) == x.Instr(e, off, ts)
  {
    hide Size, Encode, C.CompCode, SiteOk, Typing.Representable, Typing.TypeCode, Typing.GenerableCode, Loaded;
    BodyInside(x, e, off, ts);
    var end, t := off + Size(x.Instr(e, off, ts)), Typing.Label(e.Loop?, e.sig);
    l := C.ClosedLabel(x.Height(ts), if e.Loop? then 0 else |e.sig|, if e.Loop? then off else end);
    assert Typing.BodyOk(x.s, x.tls + [t], e.body, e.sig);
    if e.Block? { C.BlockSize(x.k, x.labels, e.body, |e.sig|, off, x.Height(ts)); }
    InnerOk(x, l, t, operands);
  }

  lemma SimBlock(x: Site, fuel: nat, e: Wasm.Instr, off: nat, ts: seq<Type>, c: Config, mc: Machine) returns (n: nat)
    requires SiteOk(x) && e.Block? && InstrOk(x, e, ts) && Ready(x, c, ts, mc, off)
    requires ItemsAt(x.env.istream, off, x.Instr(e, off, ts))
    ensures Reaches(x, mc, n, x.EvalOne(fuel, e, c), off + Size(x.Instr(e, off, ts)), fuel)
    decreases fuel, 1, e, 0
  {
    hide At, Size, Encode, Reaches, SiteOk, CodeOk, InstrOk, Run, EvalCode, C.CompInstr, Site.Instr, Site.Code, ConfigTyped, Leave;
    var end, t, inner := off + Size(x.Instr(e, off, ts)), Typing.Label(false, e.sig), c.(stack := []);
    ValsLength(x, ts, c);
    var l := BlockInside(x, e, off, ts, c.stack);
    var y := Inner(x, l, t, c.stack);
    EnterVals(x, l, t, c, ts, mc, off);
    n := SimCode(y, fuel, e.body, off, [], inner, mc);
    BodyLocals(y, fuel, e.body, [], inner);
    LeaveReaches(x, l, t, c.stack, mc, n, y.Eval(fuel, e.body, inner), end, fuel);
  }

  /** Evaluating a body keeps the number of locals; a branch out of it supplies
      what its label expects. */
  lemma BodyLocals(y: Site, fuel: nat, code: Wasm.Code, ts: seq<Type>, c: Config)
    requires SiteOk(y) && CodeOk(y, code, ts) && ConfigTyped(y.s, ts, c)
    ensures var r := y.Eval(fuel, code, c);
      && ResultTyped(y.s, y.tls, r, Typing.TypeCode(y.s, y.tls, code, ts))
      && (r.Branch? ==> r.depth < |y.tls| && HaveTypes(r.vals, Typing.BranchTypes(y.tls[|y.tls| - 1 - r.depth])))
      && (r.Branch? ==> |r.locals| == |y.s.locals| && ConfigTyped(y.s, [], Config(r.locals, [], r.store)))
  {
    hide SiteOk, EvalCode, Typing.TypeCode, Typing.GenerableCode, Typing.Representable, ArityOk, Sound;
    SameModule(y);
    AritiesOk(y);
    SafeCode(y.env.num, y.s, y.tls, y.Arities(), fuel, code, ts, c);
  }

  lemma SimLoop(x: Site, fuel: nat, e: Wasm.Instr, off: nat, ts: seq<Type>, c: Config, mc: Machine) returns (n: nat)
    requires SiteOk(x) && e.Loop? && InstrOk(x, e, ts) && Ready(x, c, ts, mc, off)
    requires ItemsAt(x.env.istream, off, x.Instr(e, off, ts))
    ensures Reaches(x, mc, n, x.EvalOne(fuel, e, c), off + Size(x.Instr(e, off, ts)), fuel)
    decreases fuel, 1, e, 0
  {
    hide At, Stays, Size, Encode, Reaches, SiteOk, CodeOk, InstrOk, Run, EvalCode, C.CompInstr, Site.Instr, Site.Code, ConfigTyped, Leave;
    var end, t, inner := off + Size(x.Instr(e, off, ts)), Typing.Label(true, e.sig), c.(stack := []);
    ValsLength(x, ts, c);
    var l := BlockInside(x, e, off, ts, c.stack);
    var y := Inner(x, l, t, c.stack);
    EnterVals(x, l, t, c, ts, mc, off);
    n := SimCode(y, fuel, e.body, off, [], inner, mc);
    BodyLocals(y, fuel, e.body, [], inner);
    var r := y.Eval(fuel, e.body, inner);
    if r.Branch? && r.depth == 0 {
      if Full(x.env, x.frame, Run(x.env, mc, n), fuel) {
        ReachesStays(y, mc, n, r, end, fuel);
        Exhausts(x, mc, n, x.EvalOne(fuel, e, c), end, fuel);
      } else {
        LoopReaches(x, l, t, c.stack, mc, n, r, end, fuel);
        var mc1 := Run(x.env, mc, n).machine;
        var again := Config(r.locals, c.stack, r.store);
        if fuel == 0 {
          StillRunning(x, mc, n, end, fuel);
        } else {
          LoopAgain(x, ts, c, r.locals, r.store);
          var n2 := SimLoop(x, fuel - 1, e, off, ts, again, mc1);
          MoreDepth(x, mc1, n2, x.EvalOne(fuel - 1, e, again), end, fuel);
          MoreFuel(x, mc, n, n2, x.EvalOne(fuel - 1, e, again), end, fuel);
          n := n + n2;
        }
      }
    } else {
      LeaveReaches(x, l, t, c.stack, mc, n, r, end, fuel);
    }
  }

  lemma Exhausts(x: Site, mc: Machine, n: nat, r: Result, next: nat, fuel: nat)
    requires Stays(x.env, mc, n, x.frame) && Full(x.env, x.frame, Run(x.env, mc, n), fuel)
    ensures Reaches(x, mc, n, r, next, fuel)
  {
    hide At, Stays, Run, AtReturn, Full;
  }

  lemma ReachesStays(x: Site, mc: Machine, n: nat, r: Result, next: nat, fuel: nat)
    requires Reaches(x, mc, n, r, next, fuel)
    ensures Stays(x.env, mc, n, x.frame)
  {}

  lemma StillRunning(x: Site, mc: Machine, n: nat, next: nat, fuel: nat)
    requires Stays(x.env, mc, n, x.frame) && Run(x.env, mc, n).Running? && n >= fuel
    ensures Reaches(x, mc, n, OutOfFuel, next, fuel)
  {
    hide At, Stays, Run, AtReturn;
  }

  lemma MoreFuel(x: Site, mc: Machine, n1: nat, n2: nat, r: Result, next: nat, fuel: nat)
    requires Run(x.env, mc, n1).Running? && Stays(x.env, mc, n1, x.frame) && n1 >= 1 && fuel >= 1
    requires Stays(x.env, Run(x.env, mc, n1).machine, n2, x.frame) && Ends(x, Run(x.env, mc, n1).machine, n2, r, next, fuel - 1, fuel)
    ensures Reaches(x, mc, n1 + n2, r, next, fuel)
  {
    hide At, AtReturn, Run, Stays;
    StaysAdd(x.env, mc, n1, n2, x.frame);
  }

  lemma MoreDepth(x: Site, mc: Machine, n: nat, r: Result, next: nat, fuel: nat)
    requires fuel >= 1 && Reaches(x, mc, n, r, next, fuel - 1)
    ensures Stays(x.env, mc, n, x.frame) && Ends(x, mc, n, r, next, fuel - 1, fuel)
  {
    hide At, AtReturn, Run, Stays;
  }

  lemma LoopAgain(x: Site, ts: seq<Type>, c: Config, locals: seq<Value>, store: Semantics.Store)
    requires ConfigTyped(x.s, ts, c) && ConfigTyped(x.s, [], Config(locals, [], store))
    ensures ConfigTyped(x.s, ts, Config(locals, c.stack, store))
  {
    hide HaveTypes;
  }

  /** What the pieces of an `if` look like from inside its arms. */
  lemma IfInside(x: Site, e: Wasm.Instr, off: nat, ts: seq<Type>, operands: seq<Value>) returns (l: C.Label, mid: nat)
    requires SiteOk(x) && e.If? && InstrOk(x, e, ts) && |operands| + 1 == |ts|
    requires ItemsAt(x.env.istream, off, x.Instr(e, off, ts))
    ensures var end, t := off + Size(x.Instr(e, off, ts)), Typing.Label(false, e.sig);
      && end < INVALID && mid < INVALID && l == C.ClosedLabel(x.Height(ts) - 1, |e.sig|, end)
      && var y := Inner(x, l, t, operands);
      && SiteOk(y) && y.Arities() == x.Arities() + [|e.sig|] && CodeOk(y, e.thn, []) && CodeOk(y, e.els, [])
      && (!e.hasElse ==> e.els == Nil)
      && IfCode(x.env.istream, off, e.hasElse, mid, end, y.Code(e.thn, off + 5, []), y.Code(e.els, mid, []))
  {
    hide Size, Encode, C.CompCode, SiteOk, Typing.Representable, Typing.TypeCode, Typing.GenerableCode, Loaded, C.EndOfIf, C.ElseOf, IfCode;
    BodyInside(x, e, off, ts);
    var h, end, t := x.Height(ts), off + Size(x.Instr(e, off, ts)), Typing.Label(false, e.sig);
    l := C.ClosedLabel(h - 1, |e.sig|, end);
    assert Typing.BodyOk(x.s, x.tls + [t], e.thn, e.sig) && Typing.BodyOk(x.s, x.tls + [t], e.els, e.sig);
    C.IfEnd(x.k, x.labels, e, off, h);
    InnerOk(x, l, t, operands);
    mid := if e.hasElse then C.ElseOf(x.k, x.labels, e, off, h) else end;
    var y := Inner(x, l, t, operands);
    FrameFits(x);
    IfSplit(x.env.istream, off, e.hasElse, mid, end, y.Code(e.thn, off + 5, []), y.Code(e.els, mid, []));
  }

  /** The layout of an `if` in the istream. */
  ghost predicate IfCode(s: seq<u8>, off: nat, hasElse: bool, mid: nat, end: nat, thn: seq<Item>, els: seq<Item>) {
    && ItemsAt(s, off, [Op(BR_UNLESS), Word(mid)]) && ItemsAt(s, off + 5, thn)
    && (if hasElse then
          && mid == off + 5 + Size(thn) + 5 && mid + Size(els) == end
          && ItemsAt(s, off + 5 + Size(thn), [Op(BR), Word(end)]) && ItemsAt(s, mid, els)
        else mid == end == off + 5 + Size(thn))
  }

  lemma IfSplit(s: seq<u8>, off: nat, hasElse: bool, mid: nat, end: nat, thn: seq<Item>, els: seq<Item>)
    requires hasElse ==> mid == off + 5 + Size(thn) + 5
    requires !hasElse ==> mid == end
    requires var code := if hasElse then [Op(BR_UNLESS), Word(mid)] + thn + [Op(BR), Word(end)] + els else [Op(BR_UNLESS), Word(end)] + thn;
      ItemsAt(s, off, code) && off + Size(code) == end
    ensures IfCode(s, off, hasElse, mid, end, thn, els)
    ensures mid <= |s|
  {
    hide Size, Encode;
    var head, jump := [Op(BR_UNLESS), Word(mid)], [Op(BR), Word(end)];
    C.ArmsSize(thn, els, mid, end);
    C.PairSize(head[0], head[1]);
    C.PairSize(jump[0], jump[1]);
    if hasElse {
      SplitAt(s, off, head + thn + jump, els);
      SplitAt(s, off, head + thn, jump);
      SizeAppend(head, thn);
      SizeAppend(head + thn, jump);
      InsideStream(s, mid, els);
    } else {
      InsideStream(s, off, head + thn);
    }
    SplitAt(s, off, head, thn);
  }

  /** After the first arm the machine jumps over the second. */
  lemma JumpOver(x: Site, mc: Machine, n: nat, r: Result, at: nat, end: u32, fuel: nat) returns (n': nat)
    requires Reaches(x, mc, n, r, at, fuel) && ItemsAt(x.env.istream, at, [Op(BR), Word(end)])
    ensures Reaches(x, mc, n', r, end, fuel)
  {
    hide At, Keeps, Stays, Run, AtReturn, Step, Encode;
    n' := n;
    var c := Run(x.env, mc, n);
    if r.Normal? && !Full(x.env, x.frame, c, fuel) {
      StepGoto(x.env, c.machine, at, x.frame, x.Vals(r.cfg), r.cfg.store, end);
      StepStays(x.env, c.machine, at, x.frame, x.Vals(r.cfg), r.cfg.store, end, x.Vals(r.cfg), r.cfg.store);
      StaysAdd(x.env, mc, n, 1, x.frame);
      n' := n + 1;
    }
  }

  lemma SimIf(x: Site, fuel: nat, e: Wasm.Instr, off: nat, ts: seq<Type>, c: Config, mc: Machine) returns (n: nat)
    requires SiteOk(x) && e.If? && InstrOk(x, e, ts) && Ready(x, c, ts, mc, off)
    requires ItemsAt(x.env.istream, off, x.Instr(e, off, ts))
    ensures Reaches(x, mc, n, x.EvalOne(fuel, e, c), off + Size(x.Instr(e, off, ts)), fuel)
    decreases fuel, 1, e, 1
  {
    hide At, Stays, Size, Encode, Reaches, SiteOk, CodeOk, InstrOk, Run, Step, EvalCode, C.CompInstr, Site.Instr, Site.Code, ConfigTyped,
      Leave, LabelOk, Inner, Ready;
    ReadyAt(x, c, ts, mc, off);
    IfCondition(x, e, ts, c);
    ValsLength(x, ts, c);
    ValsTop(x, c, 1);
    ValsPop(x, c, 1);
    var end, t, us, outer := off + Size(x.Instr(e, off, ts)), Typing.Label(false, e.sig), Typing.Below(ts, 1), Pop(c, 1);
    var l, mid := IfInside(x, e, off, ts, outer.stack);
    var y, inner, first := Inner(x, l, t, outer.stack), outer.(stack := []), Operand(c, 1).bits.lo != 0;
    StepBrUnless(x.env, mc, off, x.frame, x.Vals(c), c.store, mid);
    StepStays(x.env, mc, off, x.frame, x.Vals(c), c.store, if first then off + 5 else mid, x.Vals(outer), c.store);
    var mc1 := Run(x.env, mc, 1).machine;
    ArmReady(x, l, t, outer, us, mc1, if first then off + 5 else mid);
    n := SimArm(x, y, fuel, e, off, mid, end, first, inner, mc1);
    var arm := if first then e.thn else e.els;
    BodyLocals(y, fuel, arm, [], inner);
    LeaveReaches(x, l, t, outer.stack, mc1, n, y.Eval(fuel, arm, inner), end, fuel);
    Chain(x, mc, 1, n, Leave(y.Eval(fuel, arm, inner), outer.stack), end, fuel);
    n := n + 1;
    assert y.env == x.env;
  }

  lemma IfCondition(x: Site, e: Wasm.Instr, ts: seq<Type>, c: Config)
    requires e.If? && InstrOk(x, e, ts) && ConfigTyped(x.s, ts, c)
    ensures |c.stack| == |ts| >= 1 && Operand(c, 1).ty == I32 && ConfigTyped(x.s, Typing.Below(ts, 1), Pop(c, 1))
  {
    hide HaveTypes, Typing.BodyOk, Typing.EndsWith, Typing.Generable;
    TopTyped(c.stack, ts, I32);
    TypesBelow(c.stack, ts, 1);
  }

  lemma ArmReady(x: Site, l: C.Label, t: Typing.Label, c: Config, ts: seq<Type>, mc: Machine, pc: nat)
    requires ConfigTyped(x.s, ts, c) && At(mc, pc, x.frame, x.Vals(c), c.store)
    ensures Ready(Inner(x, l, t, c.stack), c.(stack := []), [], mc, pc)
    ensures ConfigTyped(x.s, [], c.(stack := [])) && Inner(x, l, t, c.stack).s == x.s && Inner(x, l, t, c.stack).env == x.env
  {
    hide At;
    EnterVals(x, l, t, c, ts, mc, pc);
  }

  /** One arm of an `if`, from its start to the end of the `if`. */
  lemma SimArm(x: Site, y: Site, fuel: nat, e: Wasm.Instr, off: nat, mid: nat, end: nat, first: bool, c: Config, mc: Machine)
    returns (n: nat)
    requires SiteOk(y) && e.If? && CodeOk(y, e.thn, []) && CodeOk(y, e.els, []) && (!e.hasElse ==> e.els == Nil)
    requires IfCode(y.env.istream, off, e.hasElse, mid, end, y.Code(e.thn, off + 5, []), y.Code(e.els, mid, []))
    requires Ready(y, c, [], mc, if first then off + 5 else mid) && end < INVALID
    ensures Reaches(y, mc, n, y.Eval(fuel, if first then e.thn else e.els, c), end, fuel)
    decreases fuel, 1, e, 0
  {
    hide At, Size, Encode, Reaches, SiteOk, CodeOk, Run, EvalCode, C.CompCode, ConfigTyped;
    if first {
      n := SimCode(y, fuel, e.thn, off + 5, [], c, mc);
      if e.hasElse {
        n := JumpOver(y, mc, n, y.Eval(fuel, e.thn, c), off + 5 + Size(y.Code(e.thn, off + 5, [])), end, fuel);
      }
    } else if e.hasElse {
      n := SimCode(y, fuel, e.els, mid, [], c, mc);
    } else {
      n := 0;
      NoStep(y, mc, end, c, fuel);
      assert y.Eval(fuel, Nil, c) == Normal(c) by { EvalNil(y, fuel, c); }
    }
  }

  lemma EvalNil(x: Site, fuel: nat, c: Config)
    ensures x.Eval(fuel, Nil, c) == Normal(c)
  {}

  // ----- calls -----

  /** After n steps the machine has done what the call does, and at none of them
      has it touched what the frame protects. */
  ghost predicate CallReaches(env: Env, fr: Frame, mc: Machine, n: nat, r: CallResult, fuel: nat) {
    Stays(env, mc, n, fr) && CallEnds(env, fr, mc, n, r, fuel)
  }

  ghost predicate CallEnds(env: Env, fr: Frame, mc: Machine, n: nat, r: CallResult, fuel: nat) {
    var c := Run(env, mc, n);
    || Full(env, fr, c, fuel)
    || match r
       case Returned(vals, store) => c.Running? && AtReturn(env, c.machine, fr, vals, store)
       case CallTrapped(trap) => c == Stopped(trap)
       case CallOutOfFuel => c.Running? && n >= fuel
       case CallWrong => false
  }

  /** The code of a function is found at its entry. */
  lemma {:induction false} FuncFound(s: seq<u8>, m: Module, n: nat, f: nat, start: nat)
    requires ModuleOk(m) && f < n <= |m.funcs|
    requires ItemsAt(s, start, C.CompFuncs(m, C.Known(m, |m.funcs|, start), n, start))
    ensures ItemsAt(s, C.EntryOf(m, f, start), C.CompFunc(m, C.Known(m, |m.funcs|, start), f, C.EntryOf(m, f, start)))
    decreases n
  {
    hide Size, Encode, C.CompFunc;
    var known := C.Known(m, |m.funcs|, start);
    var front := C.CompFuncs(m, known, n - 1, start);
    SplitAt(s, start, front, C.CompFunc(m, known, n - 1, start + Size(front)));
    C.KnownSize(m, |m.funcs|, n - 1, start);
    if f < n - 1 { FuncFound(s, m, n - 1, f, start); }
  }

  lemma LoadedFunc(env: Env, start: nat, f: nat)
    requires Loaded(env, start) && f < |env.m.funcs|
    ensures ModuleOk(env.m) && env.m.funcs[f].sigIndex < |env.m.sigs| && SoundFunc(env.m, f)
    ensures |env.entries| == |env.m.funcs| && env.entries[f] == C.EntryOf(env.m, f, start) < INVALID
    ensures ItemsAt(env.istream, env.entries[f], C.CompFunc(env.m, C.Known(env.m, |env.m.funcs|, start), f, env.entries[f]))
    ensures |Expand(env.m.funcs[f].decls)| < 0x1_0000_0000 && |env.istream| < INVALID
  {
    hide Size, Encode, C.CompFuncs, C.CompFunc, SoundFunc, Expand, C.EntryOf;
    FuncFound(env.istream, env.m, |env.m.funcs|, f, start);
    InsideStream(env.istream, env.entries[f], C.CompFunc(env.m, C.Known(env.m, |env.m.funcs|, start), f, env.entries[f]));
  }

  /** The machine has entered function f on the given arguments. */
  ghost predicate Entered(env: Env, start: nat, f: nat, args: seq<Value>, store: Semantics.Store, mc: Machine, fr: Frame) {
    && Loaded(env, start) && f < |env.m.funcs| && f < |env.entries| && env.m.funcs[f].sigIndex < |env.m.sigs|
    && HaveTypes(args, SigOf(env.m, f).params) && StoreTyped(env.m, store)
    && At(mc, env.entries[f], fr, args, store)
    && fr.size <= INVALID && |fr.calls| >= env.returnDepth
  }

  /** The site at the start of the body of function f. */
  function BodySite(env: Env, start: nat, f: nat, end: nat, fr: Frame): Site
    requires ModuleOk(env.m) && f < |env.m.funcs|
  {
    var n := |SigOf(env.m, f).results|;
    Site(env, start, Typing.ScopeOf(env.m, f), [Typing.Label(false, SigOf(env.m, f).results)],
      [C.ClosedLabel(|FrameTypes(env.m, f)|, n, end)], C.Context(env.m, C.Known(env.m, |env.m.funcs|, start), n), [], fr)
  }

  /** The layout of a function in the istream. */
  lemma FuncInside(env: Env, start: nat, f: nat, fr: Frame) returns (body: nat, end: nat)
    requires Loaded(env, start) && f < |env.m.funcs| && fr.size <= INVALID && |fr.calls| >= env.returnDepth
    ensures ModuleOk(env.m) && f < |env.entries|
    ensures var m, n, h := env.m, |SigOf(env.m, f).results|, |FrameTypes(env.m, f)|;
      && body == env.entries[f] + Size(C.Prologue(m, f)) && ItemsAt(env.istream, env.entries[f], C.Prologue(m, f))
      && var x := BodySite(env, start, f, end, fr);
      && SiteOk(x) && CodeOk(x, m.funcs[f].body, []) && x.Arities() == [n] && n <= 1
      && x.Height([]) == h && ItemsAt(env.istream, body, x.Code(m.funcs[f].body, body, []))
      && body + Size(x.Code(m.funcs[f].body, body, [])) == end
      && ItemsAt(env.istream, end, C.DropKeep(h, n) + [Op(RETURN)])
  {
    hide Size, Encode, C.CompCode, C.CompBlock, C.Prologue, C.DropKeep, Expand, Typing.TypeCode, Typing.GenerableCode, Typing.Representable, Loaded;
    LoadedFunc(env, start, f);
    var m, sig, h, code := env.m, SigOf(env.m, f), |FrameTypes(env.m, f)|, env.m.funcs[f].body;
    var n, pro := |sig.results|, C.Prologue(m, f);
    var k := C.Context(m, C.Known(m, |m.funcs|, start), n);
    body := env.entries[f] + Size(pro);
    end := C.EndOf(k, [], code, n, body, h);
    var block := C.CompBlock(k, [], code, n, body, h);
    var x := BodySite(env, start, f, end, fr);
    C.BlockSize(k, [], code, n, body, h);
    SplitAt(env.istream, env.entries[f], pro + block, C.DropKeep(h, n) + [Op(RETURN)]);
    SplitAt(env.istream, env.entries[f], pro, block);
    SizeAppend(pro, block);
    InsideStream(env.istream, body, block);
    BlockIs(k, code, n, body, h, end);
    assert Typing.BodyOk(x.s, x.tls, code, sig.results);
  }

  lemma BlockIs(k: C.Context, code: Wasm.Code, n: nat, off: nat, h: nat, end: nat)
    requires end == C.EndOf(k, [], code, n, off, h)
    ensures C.CompBlock(k, [], code, n, off, h) == C.CompCode(k, [C.ClosedLabel(h, n, end)], code, off, h)
  {
    hide C.CompCode, C.EndOf;
    assert [] + [C.ClosedLabel(h, n, end)] == [C.ClosedLabel(h, n, end)];
  }

  /** The prologue allocates the locals, zeroed. */
  lemma SimPrologue(env: Env, start: nat, f: nat, args: seq<Value>, store: Semantics.Store, mc: Machine, fr: Frame) returns (n: nat)
    requires Entered(env, start, f, args, store, mc, fr) && ItemsAt(env.istream, env.entries[f], C.Prologue(env.m, f))
    ensures Stays(env, mc, n, fr)
    ensures Leads(Run(env, mc, n), env.entries[f] + Size(C.Prologue(env.m, f)), fr, args + Zeros(Expand(env.m.funcs[f].decls)), store)
  {
    hide At, Keeps, Stays, Size, Encode, Run, Step, Expand, Loaded, SoundFunc, HaveTypes, StoreTyped, C.CompFunc, Leads;
    LoadedFunc(env, start, f);
    var decls := env.m.funcs[f].decls;
    if decls == [] {
      n := 0;
      AtKeeps(mc, env.entries[f], fr, args, store);
      StaysNone(env, mc, fr);
      NoItems();
      NoDecls();
      assert args + [] == args;
      LeadsAlready(mc, env.entries[f], fr, args, store);
    } else {
      n := 1;
      C.PairSize(Op(ALLOCA), Word(|Expand(decls)|));
      StepAlloca(env, mc, env.entries[f], fr, args, store, Expand(decls));
      StepStays(env, mc, env.entries[f], fr, args, store, env.entries[f] + 5, args + Zeros(Expand(decls)), store);
    }
  }

  lemma LeadsAlready(mc: Machine, pc: nat, fr: Frame, vs: seq<Value>, store: Semantics.Store)
    requires At(mc, pc, fr, vs, store)
    ensures Leads(Running(mc), pc, fr, vs, store)
  {
    hide At;
  }

  lemma NoDecls()
    ensures Expand([]) == [] && Zeros([]) == []
  {}

  /** The epilogue leaves the results where the arguments were. */
  lemma SimEpilogue(env: Env, fr: Frame, mc: Machine, pc: nat, below: seq<Value>, results: seq<Value>, store: Semantics.Store) returns (n: nat)
    requires At(mc, pc, fr, below + results, store) && |results| <= 1 && fr.size <= INVALID
    requires ItemsAt(env.istream, pc, C.DropKeep(|below|, |results|) + [Op(RETURN)])
    ensures Stays(env, mc, n, fr) && Run(env, mc, n).Running? && AtReturn(env, Run(env, mc, n).machine, fr, results, store)
  {
    hide At, Stays, Size, Encode, Run, Step, C.DropKeep;
    var vs, drop := below + results, C.DropKeep(|below|, |results|);
    SplitAt(env.istream, pc, drop, [Op(RETURN)]);
    assert Dropped(vs, |below|, |results|) == results;
    n := StepDropKeep(env, mc, pc, fr, vs, store, |below|, |results|);
    ReadOp(env.istream, pc + Size(drop), RETURN);
    PcOf(Run(env, mc, n).machine, pc + Size(drop), fr, results, store);
  }

  /** A function body that has come to its result still has its epilogue to run. */
  lemma SimEnd(x: Site, mc: Machine, n: nat, r: Result, end: nat, fuel: nat) returns (n': nat)
    requires SiteOk(x) && Reaches(x, mc, n, r, end, fuel) && x.outer == [] && |x.labels| == 1
    requires x.labels[0] == C.ClosedLabel(|x.s.locals|, |x.s.results|, end)
    requires x.tls == [Typing.Label(false, x.s.results)]
    requires ItemsAt(x.env.istream, end, C.DropKeep(|x.s.locals|, |x.s.results|) + [Op(RETURN)])
    requires ResultTyped(x.s, x.tls, r, Typing.Live(x.s.results)) || (ResultTyped(x.s, x.tls, r, Typing.Dead))
    ensures CallReaches(x.env, x.frame, mc, n', BodyResult(r, |x.s.results|), fuel)
  {
    hide At, Stays, Size, Encode, Run, Step, C.DropKeep, Loaded, AtReturn, ItemsAt, StoreTyped, HasType;
    n' := n;
    var c, k := Run(x.env, mc, n), |x.s.results|;
    if Full(x.env, x.frame, c, fuel) {
    } else if r.Normal? {
      assert r.cfg.locals + [] == r.cfg.locals && Last(r.cfg.stack, k) == r.cfg.stack;
      n' := ResultsLeft(x, mc, n, r.cfg.locals, r.cfg.stack, r.cfg.store, end, fuel);
    } else if r.Branch? {
      assert (r.locals + [])[..|x.s.locals|] == r.locals && Last(r.vals, k) == r.vals;
      n' := ResultsLeft(x, mc, n, r.locals, r.vals, r.store, end, fuel);
    }
  }

  lemma ResultsLeft(x: Site, mc: Machine, n: nat, locals: seq<Value>, vals: seq<Value>, store: Semantics.Store, end: nat, fuel: nat)
    returns (n': nat)
    requires Stays(x.env, mc, n, x.frame) && Run(x.env, mc, n).Running? && At(Run(x.env, mc, n).machine, end, x.frame, locals + vals, store)
    requires |locals| == |x.s.locals| && |vals| == |x.s.results| <= 1 && x.frame.size <= INVALID
    requires ItemsAt(x.env.istream, end, C.DropKeep(|x.s.locals|, |x.s.results|) + [Op(RETURN)])
    ensures CallReaches(x.env, x.frame, mc, n', Returned(vals, store), fuel)
  {
    hide At, Stays, Size, Encode, Run, Step, C.DropKeep;
    var n2 := SimEpilogue(x.env, x.frame, Run(x.env, mc, n).machine, end, locals, vals, store);
    StaysAdd(x.env, mc, n, n2, x.frame);
    n' := n + n2;
  }

  /** The result of a call, from the result of its body. */
  function BodyResult(r: Result, n: nat): CallResult {
    match r
    case Normal(c) => Results(n, c.stack, c.store)
    case Branch(d, vals, _, store) => if d == 0 then Results(n, vals, store) else CallWrong
    case Returning(vals, store) => Results(n, vals, store)
    case Trapped(trap) => CallTrapped(trap)
    case OutOfFuel => CallOutOfFuel
    case Wrong => CallWrong
  }

  lemma CallExhausts(env: Env, fr: Frame, mc: Machine, n: nat, r: CallResult, fuel: nat)
    requires Stays(env, mc, n, fr) && Full(env, fr, Run(env, mc, n), fuel)
    ensures CallReaches(env, fr, mc, n, r, fuel)
  {
    hide At, Stays, Run, AtReturn, Full;
  }

  lemma CallChain(env: Env, fr: Frame, mc: Machine, n1: nat, n2: nat, r: CallResult, fuel: nat)
    requires Run(env, mc, n1).Running? && Stays(env, mc, n1, fr) && CallReaches(env, fr, Run(env, mc, n1).machine, n2, r, fuel)
    ensures CallReaches(env, fr, mc, n1 + n2, r, fuel)
  {
    hide At, AtReturn, Run, Stays;
    StaysAdd(env, mc, n1, n2, fr);
  }

  /** A call from its entry to its `return`: the results replace exactly the
      arguments, and everything below them is as it was. */
  lemma SimFunc(env: Env, start: nat, f: nat, fuel: nat, args: seq<Value>, store: Semantics.Store, mc: Machine, fr: Frame) returns (n: nat)
    requires Entered(env, start, f, args, store, mc, fr)
    ensures CallReaches(env, fr, mc, n, EvalFunc(env.num, env.m, f, fuel, args, store), fuel)
    decreases fuel, 2
  {
    hide At, Stays, Size, Encode, Run, Step, C.DropKeep, Loaded, EvalCode, Reaches, SiteOk, CodeOk, C.Prologue, Expand, CallReaches, HaveTypes,
      StoreTyped, ResultTyped, Typing.TypeCode, Site.Code;
    var body, end := FuncInside(env, start, f, fr);
    n := SimPrologue(env, start, f, args, store, mc, fr);
    if Exhausted(Run(env, mc, n)) {
      CallExhausts(env, fr, mc, n, EvalFunc(env.num, env.m, f, fuel, args, store), fuel);
    } else {
      var x, code := BodySite(env, start, f, end, fr), env.m.funcs[f].body;
      var c := Config(args + Zeros(Expand(env.m.funcs[f].decls)), [], store);
      var mc1 := Run(env, mc, n).machine;
      FrameReady(x, f, args, store, mc1, body);
      var n2 := SimCode(x, fuel, code, body, [], c, mc1);
      BodyTyped(x, f, fuel, c);
      n2 := SimEnd(x, mc1, n2, x.Eval(fuel, code, c), end, fuel);
      CallChain(env, fr, mc, n, n2, BodyResult(x.Eval(fuel, code, c), |x.s.results|), fuel);
      EvalFuncIs(env.num, env.m, f, fuel, args, store);
      n := n + n2;
    }
  }

  lemma EvalFuncIs(num: Numerics, m: Module, f: nat, fuel: nat, args: seq<Value>, store: Semantics.Store)
    requires f < |m.funcs| && m.funcs[f].sigIndex < |m.sigs|
    ensures var n := |SigOf(m, f).results|;
      EvalFunc(num, m, f, fuel, args, store)
        == BodyResult(EvalCode(num, m, [n], fuel, m.funcs[f].body, Config(args + Zeros(Expand(m.funcs[f].decls)), [], store)), n)
  {
    hide EvalCode, Expand;
  }

  lemma FrameReady(x: Site, f: nat, args: seq<Value>, store: Semantics.Store, mc: Machine, pc: nat)
    requires ModuleOk(x.env.m) && f < |x.env.m.funcs| && x.s == Typing.ScopeOf(x.env.m, f) && x.outer == []
    requires HaveTypes(args, SigOf(x.env.m, f).params) && StoreTyped(x.env.m, store)
    requires At(mc, pc, x.frame, args + Zeros(Expand(x.env.m.funcs[f].decls)), store)
    ensures Ready(x, Config(args + Zeros(Expand(x.env.m.funcs[f].decls)), [], store), [], mc, pc)
  {
    hide At, Expand;
    var decls := x.env.m.funcs[f].decls;
    ZerosTyped(Expand(decls));
    TypesAppend(args, SigOf(x.env.m, f).params, Zeros(Expand(decls)), Expand(decls));
    var vs := args + Zeros(Expand(decls));
    assert vs + [] + [] == vs;
  }

  lemma BodyTyped(x: Site, f: nat, fuel: nat, c: Config)
    requires ModuleOk(x.env.m) && f < |x.env.m.funcs| && x.s == Typing.ScopeOf(x.env.m, f) && SiteOk(x)
    requires CodeOk(x, x.env.m.funcs[f].body, []) && ConfigTyped(x.s, [], c)
    requires x.tls == [Typing.Label(false, x.s.results)]
    ensures var r := x.Eval(fuel, x.env.m.funcs[f].body, c);
      ResultTyped(x.s, x.tls, r, Typing.Live(x.s.results)) || ResultTyped(x.s, x.tls, r, Typing.Dead)
  {
    hide EvalCode, ConfigTyped, CodeOk, Typing.TypeCode, ResultTyped, Typing.Representable, Typing.GenerableCode, Expand;
    BodyLocals(x, fuel, x.env.m.funcs[f].body, [], c);
    SameModule(x);
    assert SoundFunc(x.env.m, f);
    assert Typing.BodyOk(x.s, x.tls, x.env.m.funcs[f].body, x.s.results);
  }

  /** From the entry of a callee to the instruction after the call. `mc` is the
      caller's state, with the arguments on top. */
  lemma SimCallee(x: Site, fuel: nat, f: nat, ts: seq<Type>, c: Config, mc: Machine, ret: nat, mc1: Machine) returns (n: nat)
    requires SiteOk(x) && f < |x.env.m.funcs| && f < |x.env.entries| && x.env.m.funcs[f].sigIndex < |x.env.m.sigs|
    requires Typing.EndsWith(ts, SigOf(x.env.m, f).params) && ConfigTyped(x.s, ts, c) && At(mc, mc.pc, x.frame, x.Vals(c), c.store)
    requires var k := |SigOf(x.env.m, f).params|;
      && k <= |c.stack| && x.frame.base + |x.Vals(c)| - k <= |mc.cells|
      && At(mc1, x.env.entries[f], CalleeFrame(mc, x.frame, |x.Vals(c)| - k, ret), Last(c.stack, k), c.store)
    ensures var k := |SigOf(x.env.m, f).params|;
      Stays(x.env, mc1, n, x.frame)
      && Ends(x, mc1, n, Resume(EvalFunc(x.env.num, x.env.m, f, fuel, Last(c.stack, k), c.store), Pop(c, k)), ret, fuel, fuel + 1)
    decreases fuel, 3
  {
    hide At, Run, Step, EvalFunc, SiteOk, Typing.EndsWith, HaveTypes, StoreTyped, CallReaches, Reaches, CalleeFrame;
    var k := |SigOf(x.env.m, f).params|;
    var callee, args := CalleeFrame(mc, x.frame, |x.Vals(c)| - k, ret), Last(c.stack, k);
    PcOf(mc, mc.pc, x.frame, x.Vals(c), c.store);
    CalleeEntered(x, f, ts, c, mc, ret, mc1);
    n := SimFunc(x.env, x.start, f, fuel, args, c.store, mc1, callee);
    n := BackInCaller(x, c, mc, k, ret, mc1, n, EvalFunc(x.env.num, x.env.m, f, fuel, args, c.store), fuel);
  }

  /** The callee's results are put where its arguments were. */
  lemma BackInCaller(x: Site, c: Config, mc: Machine, k: nat, ret: nat, mc1: Machine, n: nat, r: CallResult, fuel: nat) returns (n': nat)
    requires SiteOk(x) && At(mc, mc.pc, x.frame, x.Vals(c), c.store)
    requires k <= |c.stack| && x.frame.base + |x.Vals(c)| - k <= |mc.cells|
    requires CallReaches(x.env, CalleeFrame(mc, x.frame, |x.Vals(c)| - k, ret), mc1, n, r, fuel)
    ensures Stays(x.env, mc1, n', x.frame) && Ends(x, mc1, n', Resume(r, Pop(c, k)), ret, fuel, fuel + 1)
  {
    hide At, Stays, Run, Step, SiteOk, CalleeFrame;
    n' := n;
    CalleeDepth(mc, x.frame, |x.Vals(c)| - k, ret);
    FrameBelow(mc, mc.pc, x.frame, x.Vals(c), c.store);
    CalleeStays(x.env, mc, x.frame, |x.Vals(c)| - k, ret, mc1, n);
    if r.Returned? && !Full(x.env, CalleeFrame(mc, x.frame, |x.Vals(c)| - k, ret), Run(x.env, mc1, n), fuel) {
      FrameFits(x);
      var last := Run(x.env, mc1, n).machine;
      StepReturn(x.env, mc, x.frame, x.Vals(c), c.store, k, ret, last, last.pc, r.vals, r.store);
      ValsPop(x, c, k);
      Assoc(c.locals + x.outer, Pop(c, k).stack, r.vals);
      AtKeeps(Step(x.env, last).machine, ret, x.frame, x.Vals(Resume(r, Pop(c, k)).cfg), r.store);
      ReturnKeeps(mc, x.frame, |x.Vals(c)| - k, ret, last, last.pc, r.vals, r.store);
      StaysOne(x.env, last, x.frame);
      StaysAdd(x.env, mc1, n, 1, x.frame);
      n' := n + 1;
    }
  }

  lemma CalleeDepth(mc: Machine, fr: Frame, keep: nat, ret: nat)
    requires fr.base + keep <= |mc.cells|
    ensures |CalleeFrame(mc, fr, keep, ret).calls| == |fr.calls| + 1
  {}

  lemma FrameBelow(mc: Machine, pc: nat, fr: Frame, vs: seq<Value>, store: Semantics.Store)
    requires At(mc, pc, fr, vs, store)
    ensures fr.base <= |mc.cells| && mc.cells[..fr.base] == fr.below
  {}

  lemma ReturnKeeps(mc0: Machine, fr: Frame, keep: nat, ret: nat, mc: Machine, pc: nat, vs: seq<Value>, store: Semantics.Store)
    requires fr.base + keep <= |mc0.cells| && mc0.cells[..fr.base] == fr.below
    requires At(mc, pc, CalleeFrame(mc0, fr, keep, ret), vs, store)
    ensures Keeps(mc, fr)
  {
    hide At, Keeps;
    AtKeeps(mc, pc, CalleeFrame(mc0, fr, keep, ret), vs, store);
    CalleeKeeps(mc0, fr, keep, ret, mc);
  }

  lemma CalleeEntered(x: Site, f: nat, ts: seq<Type>, c: Config, mc: Machine, ret: nat, mc1: Machine)
    requires SiteOk(x) && f < |x.env.m.funcs| && f < |x.env.entries| && x.env.m.funcs[f].sigIndex < |x.env.m.sigs|
    requires Typing.EndsWith(ts, SigOf(x.env.m, f).params) && ConfigTyped(x.s, ts, c) && mc.calls == x.frame.calls
    requires var k := |SigOf(x.env.m, f).params|;
      && k <= |c.stack| && x.frame.base + |x.Vals(c)| - k <= |mc.cells|
      && At(mc1, x.env.entries[f], CalleeFrame(mc, x.frame, |x.Vals(c)| - k, ret), Last(c.stack, k), c.store)
    ensures var k := |SigOf(x.env.m, f).params|;
      Entered(x.env, x.start, f, Last(c.stack, k), c.store, mc1, CalleeFrame(mc, x.frame, |x.Vals(c)| - k, ret))
  {
    hide At, Loaded, HasType;
    TypesAbove(c.stack, ts, SigOf(x.env.m, f).params);
  }

  /** The step that enters the callee, and all that follows it. */
  lemma SimCallFrom(x: Site, fuel: nat, f: nat, ts: seq<Type>, c: Config, mc0: Machine, mc: Machine, ret: nat) returns (n: nat)
    requires SiteOk(x) && f < |x.env.m.funcs| && f < |x.env.entries| && x.env.m.funcs[f].sigIndex < |x.env.m.sigs|
    requires Keeps(mc0, x.frame) && Typing.EndsWith(ts, SigOf(x.env.m, f).params) && ConfigTyped(x.s, ts, c) && At(mc, mc.pc, x.frame, x.Vals(c), c.store)
    requires var k := |SigOf(x.env.m, f).params|;
      && k <= |c.stack| && x.frame.base + |x.Vals(c)| - k <= |mc.cells|
      && (fuel > 0 ==> (
           var callee := CalleeFrame(mc, x.frame, |x.Vals(c)| - k, ret);
           TooDeep(x.env, callee, Step(x.env, mc0)) || Leads(Step(x.env, mc0), x.env.entries[f], callee, Last(c.stack, k), c.store)))
    ensures Reaches(x, mc0, n, EvalCall(x.env.num, x.env.m, f, fuel, c), ret, fuel)
    decreases fuel, 0, 0
  {
    hide At, Keeps, Stays, Run, Step, EvalFunc, SiteOk, Typing.EndsWith, HaveTypes, StoreTyped, Reaches, CalleeFrame;
    var k := |SigOf(x.env.m, f).params|;
    if fuel == 0 {
      n := 0;
      StaysNone(x.env, mc0, x.frame);
      StillRunning(x, mc0, 0, ret, fuel);
    } else {
      n := 1;
      FrameBelow(mc, mc.pc, x.frame, x.Vals(c), c.store);
      if Step(x.env, mc0).Running? {
        ReturnKeeps(mc, x.frame, |x.Vals(c)| - k, ret, Step(x.env, mc0).machine, x.env.entries[f], Last(c.stack, k), c.store);
      }
      StaysOne(x.env, mc0, x.frame);
      var r := Resume(EvalFunc(x.env.num, x.env.m, f, fuel - 1, Last(c.stack, k), c.store), Pop(c, k));
      CalleeDepth(mc, x.frame, |x.Vals(c)| - k, ret);
      if Step(x.env, mc0).Stopped? {
        Exhausts(x, mc0, 1, r, ret, fuel);
      } else {
        var n2 := SimCallee(x, fuel - 1, f, ts, c, mc, ret, Step(x.env, mc0).machine);
        MoreFuel(x, mc0, 1, n2, r, ret, fuel);
        n := 1 + n2;
      }
    }
  }

  lemma CallArgs(x: Site, f: nat, ts: seq<Type>, c: Config)
    requires f < |x.env.m.funcs| && x.env.m.funcs[f].sigIndex < |x.env.m.sigs|
    requires Typing.EndsWith(ts, SigOf(x.env.m, f).params) && ConfigTyped(x.s, ts, c)
    ensures var k := |SigOf(x.env.m, f).params|;
      k <= |c.stack| <= |x.Vals(c)| && Last(x.Vals(c), k) == Last(c.stack, k)
  {}

  lemma SimDirect(x: Site, fuel: nat, e: Wasm.Instr, off: nat, ts: seq<Type>, c: Config, mc: Machine) returns (n: nat)
    requires SiteOk(x) && e.Call? && InstrOk(x, e, ts) && Ready(x, c, ts, mc, off)
    requires ItemsAt(x.env.istream, off, C.CompCall(x.k, e))
    ensures Reaches(x, mc, n, EvalCall(x.env.num, x.env.m, e.func, fuel, c), off + 5, fuel)
    decreases fuel, 0, 1
  {
    hide At, Keeps, Size, Encode, Step, SiteOk, Typing.EndsWith, HaveTypes, StoreTyped, Reaches, Leads, EvalCall, CalleeFrame, ConfigTyped, Typing.Generable;
    var f := e.func;
    SameModule(x);
    SiteFunc(x, f);
    CallArgs(x, f, ts, c);
    AtKeeps(mc, off, x.frame, x.Vals(c), c.store);
    PcOf(mc, off, x.frame, x.Vals(c), c.store);
    StepCall(x.env, mc, off, x.frame, x.Vals(c), c.store, |SigOf(x.env.m, f).params|, x.env.entries[f]);
    n := SimCallFrom(x, fuel, f, ts, c, mc, mc, off + 5);
  }

  lemma SiteFunc(x: Site, f: nat)
    requires SiteOk(x) && f < |x.env.m.funcs|
    ensures |x.env.entries| == |x.env.m.funcs| && x.env.entries[f] < INVALID && x.env.m.funcs[f].sigIndex < |x.env.m.sigs|
    ensures C.EntryItem(x.k, f) == Word(x.env.entries[f])
  {
    hide Size, Encode, C.CompFuncs;
    LoadedFunc(x.env, x.start, f);
  }

  lemma SimIndirect(x: Site, fuel: nat, e: Wasm.Instr, off: nat, ts: seq<Type>, c: Config, mc: Machine) returns (n: nat)
    requires SiteOk(x) && e.CallIndirect? && InstrOk(x, e, ts) && Ready(x, c, ts, mc, off)
    requires ItemsAt(x.env.istream, off, C.CompCall(x.k, e))
    ensures Reaches(x, mc, n, x.EvalOne(fuel, e, c), off + 9, fuel)
    decreases fuel, 0, 1
  {
    hide At, Keeps, Size, Encode, Step, SiteOk, Typing.EndsWith, HaveTypes, StoreTyped, Reaches, Leads, EvalCall, CalleeFrame, ConfigTyped;
    SameModule(x);
    IndirectTyped(x, e, ts, c);
    var sig, us := x.env.m.sigs[e.sigIndex], Typing.Below(ts, 1);
    ValsTop(x, c, 1);
    AtKeeps(mc, off, x.frame, x.Vals(c), c.store);
    ValsPop(x, c, 1);
    SiteEntries(x);
    StepCallIndirect(x.env, mc, off, x.frame, x.Vals(c), c.store, |sig.params|, e.sigIndex);
    var d := TableTarget(x.env.m, e.sigIndex, Operand(c, 1).bits.lo);
    if d.Refused? {
      n := 1;
      OneTrap(x, mc, off + 9, d.trap, fuel);
    } else {
      PcOf(mc, off, x.frame, x.Vals(c), c.store);
      Popped(mc, off, x.frame, x.Vals(c), c.store, 1);
      CallArgs(x, d.func, us, Pop(c, 1));
      FrameSame(mc, Lower(mc, 1), x.frame, |x.Vals(c)| - 1 - |sig.params|, off + 9);
      n := SimCallFrom(x, fuel, d.func, us, Pop(c, 1), mc, Lower(mc, 1), off + 9);
    }
  }

  lemma SiteEntries(x: Site)
    requires SiteOk(x)
    ensures |x.env.entries| == |x.env.m.funcs|
  {}

  lemma IndirectTyped(x: Site, e: Wasm.Instr, ts: seq<Type>, c: Config)
    requires SiteOk(x) && e.CallIndirect? && InstrOk(x, e, ts) && ConfigTyped(x.s, ts, c)
    ensures x.env.m == x.s.m && x.env.m.hasTable && e.sigIndex < |x.env.m.sigs|
    ensures |c.stack| == |ts| >= 1 && Operand(c, 1).ty == I32
    ensures Typing.EndsWith(Typing.Below(ts, 1), x.env.m.sigs[e.sigIndex].params)
    ensures |x.env.m.sigs[e.sigIndex].params| < |ts| && |x.Vals(c)| > |x.env.m.sigs[e.sigIndex].params|
    ensures ConfigTyped(x.s, Typing.Below(ts, 1), Pop(c, 1))
  {
    hide Loaded, HasType;
    EndsWithTop(ts, I32);
    TopTyped(c.stack, ts, I32);
    TypesBelow(c.stack, ts, 1);
  }

  lemma SimCall(x: Site, fuel: nat, e: Wasm.Instr, off: nat, ts: seq<Type>, c: Config, mc: Machine) returns (n: nat)
    requires SiteOk(x) && IsCall(e) && InstrOk(x, e, ts) && Ready(x, c, ts, mc, off)
    requires ItemsAt(x.env.istream, off, x.Instr(e, off, ts))
    ensures Reaches(x, mc, n, x.EvalOne(fuel, e, c), off + Size(x.Instr(e, off, ts)), fuel)
    decreases fuel, 1, e, 0
  {
    hide At, Size, Encode, SiteOk, InstrOk, Ready, Reaches, EvalCall;
    if e.Call? {
      C.PairSize(Op(CALL), C.EntryItem(x.k, e.func));
      n := SimDirect(x, fuel, e, off, ts, c, mc);
    } else {
      C.TripleSize(Op(CALL_INDIRECT), Word(0), Word(e.sigIndex));
      n := SimIndirect(x, fuel, e, off, ts, c, mc);
    }
  }
}
