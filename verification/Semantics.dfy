/** Structured evaluation of expression trees, after sections 4.4.5 to 4.4.7 of the
    WebAssembly Core Specification 1.0: every block runs on an operand stack of
    its own, and a branch carries its values. Fuel bounds loop iterations and
    calls; everything else is structural. */
module Semantics {
  import opened Wasm

  type Memory = seq<u8>

  datatype Store = Store(globals: seq<Value>, mem: Memory)

  datatype NumericTrap =
    | MemoryAccessOutOfBounds
    | IntegerOverflow
    | IntegerDivideByZero
    | InvalidConversionToInteger

  datatype Trap =
    | Numeric(cause: NumericTrap)
    | UndefinedTableIndex
    | UninitializedTableElement
    | UnreachableExecuted
    | IndirectCallSignatureMismatch
    | CallStackExhausted
    | ValueStackExhausted

  datatype Outcome<T> = Done(value: T) | Fails(cause: NumericTrap)

  /** The numeric and memory operators, one function per operand shape, left
      uninterpreted: every theorem holds for all of them. */
  datatype Numerics = Numerics(
    unary: (u8, Bits) -> Outcome<Bits>,
    binary: (u8, Bits, Bits) -> Outcome<Bits>,
    load: (u8, Bits, u32, Memory) -> Outcome<Bits>,
    store: (u8, Bits, Bits, u32, Memory) -> Outcome<Memory>)

  /** What one function activation sees: its locals, the operands of the
      innermost block, and the shared store. */
  datatype Config = Config(locals: seq<Value>, stack: seq<Value>, store: Store)

  datatype Result =
    | Normal(cfg: Config)
    | Branch(depth: nat, vals: seq<Value>, locals: seq<Value>, store: Store)
    | Returning(vals: seq<Value>, store: Store)
    | Trapped(trap: Trap)
    | OutOfFuel
    | Wrong  // ill-typed; a validated body never gets here (module Safety)

  datatype CallResult =
    | Returned(vals: seq<Value>, store: Store)
    | CallTrapped(trap: Trap)
    | CallOutOfFuel
    | CallWrong

  function Push(c: Config, v: Value): Result {
    Normal(c.(stack := c.stack + [v]))
  }

  function Pop(c: Config, n: nat): Config
    requires n <= |c.stack|
  {
    c.(stack := c.stack[..|c.stack| - n])
  }

  /** The k-th operand from the top, counting from 1. */
  function Operand(c: Config, k: nat): Value
    requires 1 <= k <= |c.stack|
  {
    c.stack[|c.stack| - k]
  }

  function PushNumeric(r: Outcome<Bits>, t: Type, c: Config): Result {
    match r
    case Done(b) => Push(c, Value(t, Canon(t, b)))
    case Fails(cause) => Trapped(Numeric(cause))
  }

  /** Instructions without control flow. */
  function EvalPlain(num: Numerics, e: Instr, c: Config): Result {
    match e
    case Const(t, b) => Push(c, Value(t, Canon(t, b)))
    case Unary(op) =>
      if UnarySig(op).Some? && |c.stack| >= 1 && Operand(c, 1).ty == UnarySig(op).value.0 then
        PushNumeric(num.unary(op, Operand(c, 1).bits), UnarySig(op).value.1, Pop(c, 1))
      else Wrong
    case Binary(op) =>
      if BinarySig(op).Some? && |c.stack| >= 2
         && Operand(c, 1).ty == BinarySig(op).value.0 && Operand(c, 2).ty == BinarySig(op).value.0 then
        PushNumeric(num.binary(op, Operand(c, 2).bits, Operand(c, 1).bits), BinarySig(op).value.1, Pop(c, 2))
      else Wrong
    case Load(op, _, offset) =>
      if LoadSig(op).Some? && |c.stack| >= 1 && Operand(c, 1).ty == I32 then
        PushNumeric(num.load(op, Operand(c, 1).bits, offset, c.store.mem), LoadSig(op).value.0, Pop(c, 1))
      else Wrong
    case Store(op, _, offset) =>
      if StoreSig(op).Some? && |c.stack| >= 2 && Operand(c, 2).ty == I32 && Operand(c, 1).ty == StoreSig(op).value.0 then
        match num.store(op, Operand(c, 2).bits, Operand(c, 1).bits, offset, c.store.mem)
        case Done(mem) => Normal(Pop(c, 2).(store := c.store.(mem := mem)))
        case Fails(cause) => Trapped(Numeric(cause))
      else Wrong
    case GetLocal(i) => if i < |c.locals| then Push(c, c.locals[i]) else Wrong
    case SetLocal(i) =>
      if i < |c.locals| && |c.stack| >= 1 && Operand(c, 1).ty == c.locals[i].ty then
        Normal(Pop(c, 1).(locals := c.locals[i := Operand(c, 1)]))
      else Wrong
    case TeeLocal(i) =>
      if i < |c.locals| && |c.stack| >= 1 && Operand(c, 1).ty == c.locals[i].ty then
        Normal(c.(locals := c.locals[i := Operand(c, 1)]))
      else Wrong
    case GetGlobal(i) => if i < |c.store.globals| then Push(c, c.store.globals[i]) else Wrong
    case SetGlobal(i) =>
      if i < |c.store.globals| && |c.stack| >= 1 && Operand(c, 1).ty == c.store.globals[i].ty then
        Normal(Pop(c, 1).(store := c.store.(globals := c.store.globals[i := Operand(c, 1)])))
      else Wrong
    case Drop => if |c.stack| >= 1 then Normal(Pop(c, 1)) else Wrong
    case Select =>
      if |c.stack| >= 3 && Operand(c, 1).ty == I32 then
        Push(Pop(c, 3), if Operand(c, 1).bits.lo != 0 then Operand(c, 3) else Operand(c, 2))
      else Wrong
    case Nop => Normal(c)
    case _ => Wrong
  }

  /** A branch to the label `depth` levels up, taking the top values the label
      expects. `arities` lists the labels in scope, innermost last. */
  function Jump(arities: seq<nat>, depth: nat, c: Config): Result {
    if depth < |arities| && arities[|arities| - 1 - depth] <= |c.stack| then
      Branch(depth, c.stack[|c.stack| - arities[|arities| - 1 - depth]..], c.locals, c.store)
    else Wrong
  }

  /** Leaving a block: a branch to it ends it, a farther branch passes through. */
  function Leave(r: Result, outer: seq<Value>): Result {
    match r
    case Normal(c) => Normal(c.(stack := outer + c.stack))
    case Branch(d, vals, locals, store) =>
      if d == 0 then Normal(Config(locals, outer + vals, store)) else Branch(d - 1, vals, locals, store)
    case _ => r
  }

  /** Continue in the caller once a call has ended. */
  function Resume(r: CallResult, c: Config): Result {
    match r
    case Returned(vals, store) => Normal(Config(c.locals, c.stack + vals, store))
    case CallTrapped(trap) => Trapped(trap)
    case CallOutOfFuel => OutOfFuel
    case CallWrong => Wrong
  }

  /** Which function an indirect call reaches (src/interpreter.c:903-924). */
  function TableTarget(m: Module, sigIndex: nat, key: u32): Dispatch {
    if key >= |m.table| then Refused(UndefinedTableIndex)
    else if m.table[key].None? then Refused(UninitializedTableElement)
    else if !(m.table[key].value < |m.funcs| && m.funcs[m.table[key].value].sigIndex < |m.sigs| && sigIndex < |m.sigs|) then
      Refused(IndirectCallSignatureMismatch)
    else if m.sigs[m.funcs[m.table[key].value].sigIndex] != m.sigs[sigIndex] then Refused(IndirectCallSignatureMismatch)
    else Target(m.table[key].value)
  }

  datatype Dispatch = Target(func: nat) | Refused(trap: Trap)

  function EvalCall(num: Numerics, m: Module, f: nat, fuel: nat, c: Config): Result
    decreases fuel, 0
  {
    if f < |m.funcs| && m.funcs[f].sigIndex < |m.sigs| && |SigOf(m, f).params| <= |c.stack| then
      var n := |SigOf(m, f).params|;
      if fuel == 0 then OutOfFuel
      else Resume(EvalFunc(num, m, f, fuel - 1, c.stack[|c.stack| - n..], c.store), Pop(c, n))
    else Wrong
  }

  function EvalInstr(num: Numerics, m: Module, arities: seq<nat>, fuel: nat, e: Instr, c: Config): Result
    decreases fuel, 1, e
  {
    match e
    case Block(sig, body) =>
      Leave(EvalCode(num, m, arities + [|sig|], fuel, body, c.(stack := [])), c.stack)
    case Loop(sig, body) =>
      var r := EvalCode(num, m, arities + [0], fuel, body, c.(stack := []));
      if r.Branch? && r.depth == 0 then
        if fuel == 0 then OutOfFuel
        else EvalInstr(num, m, arities, fuel - 1, e, Config(r.locals, c.stack, r.store))
      else Leave(r, c.stack)
    case If(sig, thn, _, els) =>
      if |c.stack| >= 1 && Operand(c, 1).ty == I32 then
        var outer := Pop(c, 1);
        if Operand(c, 1).bits.lo != 0 then
          Leave(EvalCode(num, m, arities + [|sig|], fuel, thn, outer.(stack := [])), outer.stack)
        else
          Leave(EvalCode(num, m, arities + [|sig|], fuel, els, outer.(stack := [])), outer.stack)
      else Wrong
    case Br(d) => Jump(arities, d, c)
    case BrIf(d) =>
      if |c.stack| >= 1 && Operand(c, 1).ty == I32 then
        if Operand(c, 1).bits.lo != 0 then Jump(arities, d, Pop(c, 1)) else Normal(Pop(c, 1))
      else Wrong
    case BrTable(targets, default) =>
      if |c.stack| >= 1 && Operand(c, 1).ty == I32 then
        var key := Operand(c, 1).bits.lo;
        Jump(arities, if key < |targets| then targets[key] else default, Pop(c, 1))
      else Wrong
    case Return => Returning(c.stack, c.store)
    case Unreachable => Trapped(UnreachableExecuted)
    case Call(f) => EvalCall(num, m, f, fuel, c)
    case CallIndirect(sigIndex) =>
      if |c.stack| >= 1 && Operand(c, 1).ty == I32 then
        match TableTarget(m, sigIndex, Operand(c, 1).bits.lo)
        case Target(f) => EvalCall(num, m, f, fuel, Pop(c, 1))
        case Refused(trap) => Trapped(trap)
      else Wrong
    case _ => EvalPlain(num, e, c)
  }

  function EvalCode(num: Numerics, m: Module, arities: seq<nat>, fuel: nat, code: Code, c: Config): Result
    decreases fuel, 1, code
  {
    match code
    case Nil => Normal(c)
    case Cons(e, rest) =>
      match EvalInstr(num, m, arities, fuel, e, c)
      case Normal(c') => EvalCode(num, m, arities, fuel, rest, c')
      case r => r
  }

  /** A call: parameters and zeroed locals form the frame; falling off the end,
      branching to the function's own label and `return` all give the results,
      which are the top values of the operand stack. */
  function EvalFunc(num: Numerics, m: Module, f: nat, fuel: nat, args: seq<Value>, store: Store): CallResult
    requires f < |m.funcs| && m.funcs[f].sigIndex < |m.sigs|
    decreases fuel, 2
  {
    var n := |SigOf(m, f).results|;
    var locals := args + Zeros(Expand(m.funcs[f].decls));
    match EvalCode(num, m, [n], fuel, m.funcs[f].body, Config(locals, [], store))
    case Normal(c) => Results(n, c.stack, c.store)
    case Branch(d, vals, _, store') => if d == 0 then Results(n, vals, store') else CallWrong
    case Returning(vals, store') => Results(n, vals, store')
    case Trapped(trap) => CallTrapped(trap)
    case OutOfFuel => CallOutOfFuel
    case Wrong => CallWrong
  }

  function Results(n: nat, stack: seq<Value>, store: Store): CallResult {
    if n <= |stack| then Returned(stack[|stack| - n..], store) else CallWrong
  }

  function Zeros(ts: seq<Type>): (vs: seq<Value>)
    ensures |vs| == |ts| && forall i :: 0 <= i < |vs| ==> vs[i] == Zero(ts[i])
  {
    seq(|ts|, i requires 0 <= i < |ts| => Zero(ts[i]))
  }

  // ----- fuel -----

  /** An evaluation that ends does not depend on the fuel it was given. */
  lemma {:induction false} MoreFuelCode(num: Numerics, m: Module, arities: seq<nat>, a: nat, b: nat, code: Code, c: Config)
    requires a <= b && !EvalCode(num, m, arities, a, code, c).OutOfFuel?
    ensures EvalCode(num, m, arities, b, code, c) == EvalCode(num, m, arities, a, code, c)
    decreases a, 1, code
  {
    hide EvalInstr;
    if code.Cons? {
      MoreFuelInstr(num, m, arities, a, b, code.head, c);
      var r := EvalInstr(num, m, arities, a, code.head, c);
      if r.Normal? { MoreFuelCode(num, m, arities, a, b, code.tail, r.cfg); }
    }
  }

  lemma {:induction false} MoreFuelInstr(num: Numerics, m: Module, arities: seq<nat>, a: nat, b: nat, e: Instr, c: Config)
    requires a <= b && !EvalInstr(num, m, arities, a, e, c).OutOfFuel?
    ensures EvalInstr(num, m, arities, b, e, c) == EvalInstr(num, m, arities, a, e, c)
    decreases a, 1, e
  {
    hide EvalCode, EvalPlain, EvalCall, TableTarget, Jump;
    if e.Block? {
      MoreFuelCode(num, m, arities + [|e.sig|], a, b, e.body, c.(stack := []));
    } else if e.Loop? {
      MoreFuelCode(num, m, arities + [0], a, b, e.body, c.(stack := []));
      var r := EvalCode(num, m, arities + [0], a, e.body, c.(stack := []));
      if r.Branch? && r.depth == 0 { MoreFuelInstr(num, m, arities, a - 1, b - 1, e, Config(r.locals, c.stack, r.store)); }
    } else if e.If? {
      if |c.stack| >= 1 {
        MoreFuelArms(num, m, arities + [|e.sig|], a, b, e, Pop(c, 1).(stack := []), Operand(c, 1).bits.lo != 0);
      }
    } else if e.Call? {
      MoreFuelCall(num, m, e.func, a, b, c);
    } else if e.CallIndirect? {
      if |c.stack| >= 1 {
        var d := TableTarget(m, e.sigIndex, Operand(c, 1).bits.lo);
        if d.Target? && Operand(c, 1).ty == I32 { MoreFuelCall(num, m, d.func, a, b, Pop(c, 1)); }
      }
    }
  }

  lemma MoreFuelArms(num: Numerics, m: Module, arities: seq<nat>, a: nat, b: nat, e: Instr, c: Config, first: bool)
    requires e.If? && a <= b
    ensures var arm := if first then e.thn else e.els;
      !EvalCode(num, m, arities, a, arm, c).OutOfFuel? ==> EvalCode(num, m, arities, b, arm, c) == EvalCode(num, m, arities, a, arm, c)
    decreases a, 1, e, 0
  {
    hide EvalCode;
    if !EvalCode(num, m, arities, a, if first then e.thn else e.els, c).OutOfFuel? {
      MoreFuelCode(num, m, arities, a, b, if first then e.thn else e.els, c);
    }
  }

  lemma MoreFuelCall(num: Numerics, m: Module, f: nat, a: nat, b: nat, c: Config)
    requires a <= b && !EvalCall(num, m, f, a, c).OutOfFuel?
    ensures EvalCall(num, m, f, b, c) == EvalCall(num, m, f, a, c)
    decreases a, 0
  {
    hide EvalFunc;
    if f < |m.funcs| && m.funcs[f].sigIndex < |m.sigs| && |SigOf(m, f).params| <= |c.stack| {
      MoreFuelFunc(num, m, f, a - 1, b - 1, c.stack[|c.stack| - |SigOf(m, f).params|..], c.store);
    }
  }

  lemma MoreFuelFunc(num: Numerics, m: Module, f: nat, a: nat, b: nat, args: seq<Value>, store: Store)
    requires f < |m.funcs| && m.funcs[f].sigIndex < |m.sigs|
    requires a <= b && !EvalFunc(num, m, f, a, args, store).CallOutOfFuel?
    ensures EvalFunc(num, m, f, b, args, store) == EvalFunc(num, m, f, a, args, store)
    decreases a, 2
  {
    hide EvalCode, Expand;
    MoreFuelCode(num, m, [|SigOf(m, f).results|], a, b, m.funcs[f].body, Config(args + Zeros(Expand(m.funcs[f].decls)), [], store));
  }
}
