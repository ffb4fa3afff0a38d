/** A thread of the interpreter (src/interpreter.c): a loop that reads opcodes
    and changes its stacks in place. It takes the steps of module Machine. */
module Interpreter {
  import opened Wasm
  import opened Assembly
  import opened Semantics
  import opened Machine
  import M = Machine

  /** OK, RETURNED, or a trap. */
  datatype Signal = Ok | Left | Trap(trap: Trap)

  class Thread {
    const env: Env
    const valueStack: array<Bits>
    const callStack: array<nat>
    var pc: nat
    var valueStackTop: nat
    var callStackTop: nat
    var globals: seq<Bits>
    var mem: Memory

    ghost predicate Valid()
      reads this`valueStackTop, this`callStackTop
    {
      valueStackTop <= valueStack.Length && callStackTop <= callStack.Length == env.callLimit
    }

    /** The machine this thread is. */
    ghost function State(): Machine
      requires Valid()
      reads this, valueStack, callStack
    {
      Machine(pc, valueStack[..], valueStackTop, callStack[..callStackTop], globals, mem)
    }

    /** The thread has done what the machine does. */
    ghost predicate Did(c: Conf, s: Signal)
      reads this, valueStack, callStack
    {
      match s
      case Ok => Valid() && c == Running(State())
      case Left => Valid() && c == Exited(State())
      case Trap(trap) => c == Stopped(trap)
    }

    /** Empty stacks of the sizes the thread options give. */
    constructor (env: Env, valueStackSize: nat, pc: nat, globals: seq<Bits>, mem: Memory)
      ensures Valid() && fresh(valueStack) && fresh(callStack) && valueStack.Length == valueStackSize && this.env == env
      ensures this.pc == pc && valueStackTop == 0 && callStackTop == 0 && this.globals == globals && this.mem == mem
    {
      this.env := env;
      valueStack := new Bits[valueStackSize];
      callStack := new nat[env.callLimit];
      this.pc, valueStackTop, callStackTop, this.globals, this.mem := pc, 0, 0, globals, mem;
    }

    // ----- operands -----

    method ReadU32() returns (w: u32)
      requires pc + 4 <= |env.istream|
      modifies this`pc
      ensures w == WordAt(env.istream, old(pc)) && pc == old(pc) + 4
    {
      w := WordAt(env.istream, pc);
      pc := pc + 4;
    }

    method ReadU64() returns (b: Bits)
      requires pc + 8 <= |env.istream|
      modifies this`pc
      ensures b == Bits(WordAt(env.istream, old(pc)), WordAt(env.istream, old(pc) + 4)) && pc == old(pc) + 8
    {
      var lo := ReadU32();
      var hi := ReadU32();
      b := Bits(lo, hi);
    }

    // ----- the value stack -----

    method Push(v: Bits) returns (s: Signal)
      requires Valid()
      modifies this`valueStackTop, valueStack
      ensures Did(M.Push(old(State()), v), s)
    {
      if valueStackTop >= valueStack.Length { return Trap(ValueStackExhausted); }
      valueStack[valueStackTop] := v;
      valueStackTop := valueStackTop + 1;
      s := Ok;
    }

    method PushType(t: Type, b: Bits) returns (s: Signal)
      requires Valid()
      modifies this`valueStackTop, valueStack
      ensures Did(M.PushType(old(State()), t, b), s)
    {
      if valueStackTop >= valueStack.Length { return Trap(ValueStackExhausted); }
      valueStack[valueStackTop] := Overwrite(t, b, valueStack[valueStackTop]);
      valueStackTop := valueStackTop + 1;
      s := Ok;
    }

    method PushOutcome(t: Type, r: Outcome<Bits>) returns (s: Signal)
      requires Valid()
      modifies this`valueStackTop, valueStack
      ensures Did(M.PushOutcome(old(State()), t, r), s)
    {
      if r.Fails? { return Trap(Numeric(r.cause)); }
      s := PushType(t, r.value);
    }

    method Pop() returns (v: Bits)
      requires Valid() && valueStackTop >= 1
      modifies this`valueStackTop
      ensures Valid() && v == Pick(old(State()), 1) && State() == Lower(old(State()), 1)
    {
      valueStackTop := valueStackTop - 1;
      v := valueStack[valueStackTop];
    }

    /** PICK as an lvalue. */
    method Poke(depth: nat, v: Bits)
      requires Valid() && 1 <= depth <= valueStackTop
      modifies valueStack
      ensures State() == old(State()).(cells := old(State()).cells[valueStackTop - depth := v])
    {
      valueStack[valueStackTop - depth] := v;
    }

    method DropKeep(drop: nat, keep: nat)
      requires Valid() && M.DropKeep(State(), drop, keep) != Undefined
      modifies this`valueStackTop, valueStack
      ensures Valid() && M.DropKeep(old(State()), drop, keep) == Running(State())
    {
      if keep == 1 {
        Poke(drop + 1, valueStack[valueStackTop - 1]);
      }
      valueStackTop := valueStackTop - drop;
    }

    method Alloca(n: nat) returns (s: Signal)
      requires Valid()
      modifies this`valueStackTop, valueStack
      ensures Did(M.Alloca(old(State()), n), s)
    {
      var oldTop := valueStackTop;
      if oldTop + n >= valueStack.Length { return Trap(ValueStackExhausted); }
      valueStackTop := oldTop + n;
      ZeroCells(oldTop, n);
      s := Ok;
    }

    method ZeroCells(at: nat, n: nat)
      requires at + n <= valueStack.Length
      modifies valueStack
      ensures valueStack[..] == old(valueStack[..])[..at] + Replicate(n, Bits(0, 0)) + old(valueStack[..])[at + n..]
    {
      var i := 0;
      while i < n
        invariant 0 <= i <= n
        invariant forall k :: 0 <= k < valueStack.Length ==>
          valueStack[k] == if at <= k < at + i then Bits(0, 0) else old(valueStack[k])
      {
        valueStack[at + i] := Bits(0, 0);
        i := i + 1;
      }
    }

    // ----- the call stack -----

    /** PUSH_CALL and GOTO. */
    method EnterCall(entry: nat) returns (s: Signal)
      requires Valid()
      modifies this`callStackTop, this`pc, callStack
      ensures Did(M.EnterCall(env, old(State()), entry), s)
    {
      if callStackTop >= callStack.Length { return Trap(CallStackExhausted); }
      callStack[callStackTop] := pc;
      callStackTop := callStackTop + 1;
      pc := entry;
      s := Ok;
    }

    // ----- instructions -----

    /** The state as the instruction sees it once its operands are read. */
    ghost function Past(op: u8): Machine
      requires Valid()
      reads this, valueStack, callStack
    {
      State().(pc := pc + ImmediateSize(op))
    }

    method ExecFlow(op: u8) returns (s: Signal)
      requires Valid() && IsFlow(op) && pc + ImmediateSize(op) <= |env.istream|
      requires M.ExecFlow(env, op, pc, Past(op)) != Undefined
      modifies this`pc, this`valueStackTop, this`callStackTop, valueStack, callStack
      ensures Did(M.ExecFlow(env, op, old(pc), old(Past(op))), s)
    {
      hide WordAt;
      s := Ok;
      if op == BR {
        var target := ReadU32();
        pc := target;
      } else if op == BR_IF || op == BR_UNLESS {
        var target := ReadU32();
        var cond := Pop();
        if (cond.lo != 0) == (op == BR_IF) { pc := target; }
      } else if op == BR_TABLE {
        ExecTable();
      } else if op == RETURN {
        s := ExecReturn();
      } else if op == UNREACHABLE {
        s := Trap(UnreachableExecuted);
      } else if op == CALL {
        var entry := ReadU32();
        s := EnterCall(entry);
      } else if op == CALL_INDIRECT {
        s := ExecIndirect();
      }
    }

    method ExecTable()
      requires Valid() && pc + 8 <= |env.istream|
      requires M.ExecTable(env, pc, Past(BR_TABLE)) != Undefined
      modifies this`pc, this`valueStackTop, valueStack
      ensures Valid() && M.ExecTable(env, old(pc), old(Past(BR_TABLE))) == Running(State())
    {
      hide WordAt;
      var numTargets := ReadU32();
      var tableOffset := ReadU32();
      var key := Pop();
      var keyOffset := (if key.lo >= numTargets then numTargets else key.lo) * TABLE_ENTRY_SIZE;
      var entry := tableOffset + keyOffset;
      DropKeep(WordAt(env.istream, entry + 4), env.istream[entry + 8]);
      pc := WordAt(env.istream, entry);
    }

    method ExecReturn() returns (s: Signal)
      requires Valid() && pc <= |env.istream| && M.ExecFlow(env, RETURN, pc, State()) != Undefined
      modifies this`pc, this`callStackTop
      ensures Did(M.ExecFlow(env, RETURN, old(pc), old(State())), s)
    {
      if callStackTop == env.returnDepth { return Left; }
      callStackTop := callStackTop - 1;
      pc := callStack[callStackTop];
      s := Ok;
    }

    method ExecIndirect() returns (s: Signal)
      requires Valid() && pc + 8 <= |env.istream|
      requires M.ExecIndirect(env, pc, Past(CALL_INDIRECT)) != Undefined
      modifies this`pc, this`valueStackTop, this`callStackTop, callStack
      ensures Did(M.ExecIndirect(env, old(pc), old(Past(CALL_INDIRECT))), s)
    {
      hide WordAt;
      var tableIndex := ReadU32();
      var sigIndex := ReadU32();
      var entryIndex := Pop();
      if entryIndex.lo >= |env.m.table| { return Trap(UndefinedTableIndex); }
      var func := env.m.table[entryIndex.lo];
      if func.None? { return Trap(UninitializedTableElement); }
      if !SignatureMatches(func.value, sigIndex) { return Trap(IndirectCallSignatureMismatch); }
      s := EnterCall(env.entries[func.value]);
    }

    predicate SignatureMatches(f: nat, sigIndex: nat) {
      && f < |env.m.funcs| && env.m.funcs[f].sigIndex < |env.m.sigs| && sigIndex < |env.m.sigs|
      && env.m.sigs[env.m.funcs[f].sigIndex] == env.m.sigs[sigIndex]
    }

    method ExecMove(op: u8) returns (s: Signal)
      requires Valid() && IsMove(op) && pc + ImmediateSize(op) <= |env.istream|
      requires M.ExecMove(env, op, pc, Past(op)) != Undefined
      modifies this`pc, this`valueStackTop, this`globals, valueStack
      ensures Did(M.ExecMove(env, op, old(pc), old(Past(op))), s)
    {
      hide WordAt, M.ExecVariable, M.DropKeep;
      s := Ok;
      if op == I32_CONST || op == F32_CONST {
        var w := ReadU32();
        s := PushType(if op == I32_CONST then I32 else F32, Bits(w, 0));
      } else if op == I64_CONST || op == F64_CONST {
        var b := ReadU64();
        s := PushType(if op == I64_CONST then I64 else F64, b);
      } else if GET_LOCAL <= op <= SET_GLOBAL {
        var i := ReadU32();
        s := ExecVariable(op, i);
      } else if op == DROP {
        var _ := Pop();
      } else if op == SELECT {
        s := ExecSelect();
      } else if op == ALLOCA {
        var n := ReadU32();
        s := Alloca(n);
      } else {
        ExecDropKeep();
      }
    }

    method ExecDropKeep()
      requires Valid() && pc + 5 <= |env.istream|
      requires M.DropKeep(Past(DROP_KEEP), WordAt(env.istream, pc), env.istream[pc + 4]) != Undefined
      modifies this`pc, this`valueStackTop, valueStack
      ensures Valid()
      ensures M.DropKeep(old(Past(DROP_KEEP)), WordAt(env.istream, old(pc)), env.istream[old(pc) + 4]) == Running(State())
    {
      hide WordAt;
      var dropCount := ReadU32();
      var keepCount := env.istream[pc];
      pc := pc + 1;
      DropKeep(dropCount, keepCount);
    }

    method ExecSelect() returns (s: Signal)
      requires Valid() && valueStackTop >= 3
      modifies this`valueStackTop, valueStack
      ensures var mc := old(State());
        Did(M.Push(Lower(mc, 3), if Pick(mc, 1).lo != 0 then Pick(mc, 3) else Pick(mc, 2)), s)
    {
      var cond := Pop();
      var second := Pop();
      var first := Pop();
      s := Push(if cond.lo != 0 then first else second);
    }

    method ExecVariable(op: u8, i: nat) returns (s: Signal)
      requires Valid() && M.ExecVariable(op, i, State()) != Undefined
      modifies this`valueStackTop, this`globals, valueStack
      ensures Did(M.ExecVariable(op, i, old(State())), s)
    {
      s := Ok;
      if op == GET_GLOBAL {
        s := Push(globals[i]);
      } else if op == SET_GLOBAL {
        var v := Pop();
        globals := globals[i := v];
      } else if op == GET_LOCAL {
        s := Push(valueStack[valueStackTop - i]);
      } else if op == SET_LOCAL {
        var v := Pop();
        Poke(i, v);
      } else {
        Poke(i, valueStack[valueStackTop - 1]);
      }
    }

    method ExecOperator(op: u8) returns (s: Signal)
      requires Valid() && pc + ImmediateSize(op) <= |env.istream|
      requires M.ExecOperator(env, op, pc, Past(op)) != Undefined
      modifies this`pc, this`valueStackTop, this`mem, valueStack
      ensures Did(M.ExecOperator(env, op, old(pc), old(Past(op))), s)
    {
      hide UnarySig, BinarySig, WordAt, M.ExecAccess, M.PushOutcome, Canon;
      OperandsOf(op);
      if UnarySig(op).Some? {
        var v := Pop();
        s := PushOutcome(PushedType(op, UnarySig(op).value.1), env.num.unary(op, Canon(UnarySig(op).value.0, v)));
      } else if BinarySig(op).Some? {
        var t := BinarySig(op).value.0;
        var rhs := Pop();
        var lhs := Pop();
        s := PushOutcome(BinarySig(op).value.1, env.num.binary(op, Canon(t, lhs), Canon(t, rhs)));
      } else {
        s := ExecAccess(op);
      }
    }

    lemma OperandsOf(op: u8)
      ensures UnarySig(op).Some? || BinarySig(op).Some? ==> ImmediateSize(op) == 0
    {}

    method ExecAccess(op: u8) returns (s: Signal)
      requires Valid() && 0x28 <= op <= 0x3e && pc + 8 <= |env.istream|
      requires M.ExecAccess(env, op, pc, Past(op)) != Undefined
      modifies this`pc, this`valueStackTop, this`mem, valueStack
      ensures Did(M.ExecAccess(env, op, old(pc), old(Past(op))), s)
    {
      hide LoadSig, StoreSig, WordAt, M.PushOutcome, Canon;
      s := Ok;
      var memoryIndex := ReadU32();
      if LoadSig(op).Some? {
        var base := Pop();
        var offset := ReadU32();
        s := PushOutcome(LoadSig(op).value.0, env.num.load(op, Canon(I32, base), offset, mem));
      } else {
        var value := Pop();
        var base := Pop();
        var offset := ReadU32();
        var r := env.num.store(op, Canon(I32, base), Canon(StoreSig(op).value.0, value), offset, mem);
        if r.Fails? { return Trap(Numeric(r.cause)); }
        mem := r.value;
      }
    }

    /** One round of the loop. */
    method ExecOne() returns (s: Signal)
      requires Valid() && Step(env, State()) != Undefined
      modifies this, valueStack, callStack
      ensures Did(Step(env, old(State())), s)
    {
      hide M.ExecFlow, M.ExecMove, M.ExecOperator;
      var opcode := env.istream[pc];
      pc := pc + 1;
      if IsFlow(opcode) {
        s := ExecFlow(opcode);
      } else if IsMove(opcode) {
        s := ExecMove(opcode);
      } else {
        s := ExecOperator(opcode);
      }
    }

    /** wasm_run_interpreter: at most `n` instructions. A run that the machine
        does not leave undefined is the machine's run. */
    method Run(n: nat) returns (s: Signal)
      requires Valid() && M.Run(env, State(), n) != Undefined
      modifies this, valueStack, callStack
      ensures Did(M.Run(env, old(State()), n), s)
    {
      hide Step;
      s := Ok;
      var i := 0;
      while i < n && s == Ok
        invariant 0 <= i <= n
        invariant s.Ok? ==> Valid() && M.Run(env, old(State()), n) == M.Run(env, State(), n - i)
        invariant !s.Ok? ==> Did(M.Run(env, old(State()), n), s)
        decreases n - i, s == Ok
      {
        s := ExecOne();
        i := i + 1;
      }
    }
  }
}
