/** The interpreter (src/interpreter.c) as a transition function: bytes of the
    istream, an array of untyped cells addressed from its top, and a stack of
    return addresses. */
module Machine {
  import opened Wasm
  import opened Assembly
  import opened Semantics

  /** What no instruction changes. `returnDepth` is the call depth at which
      `return` leaves the interpreter. */
  datatype Env = Env(num: Numerics, m: Module, istream: seq<u8>, entries: seq<nat>, callLimit: nat, returnDepth: nat)

  /** Cells at and above `top` are stale, not absent. */
  datatype Machine = Machine(pc: nat, cells: seq<Bits>, top: nat, calls: seq<nat>, globals: seq<Bits>, mem: Memory)

  datatype Conf =
    | Running(machine: Machine)
    | Exited(machine: Machine)    // RETURNED: left the outermost call
    | Stopped(trap: Trap)
    | Undefined  // an assertion of the interpreter fails or it reads outside its stacks

  /** PICK: the cell `depth` below the top, counting from 1. */
  function Pick(mc: Machine, depth: nat): Bits
    requires 1 <= depth <= mc.top <= |mc.cells|
  {
    mc.cells[mc.top - depth]
  }

  function Lower(mc: Machine, n: nat): Machine
    requires n <= mc.top
  {
    mc.(top := mc.top - n)
  }

  /** PUSH: write a whole cell. */
  function Push(mc: Machine, b: Bits): Conf {
    if mc.top >= |mc.cells| then Stopped(ValueStackExhausted)
    else Running(mc.(cells := mc.cells[mc.top := b], top := mc.top + 1))
  }

  /** PUSH_TYPE: write a cell through the union member of type `t`. */
  function PushType(mc: Machine, t: Type, b: Bits): Conf {
    if mc.top >= |mc.cells| then Stopped(ValueStackExhausted)
    else Running(mc.(cells := mc.cells[mc.top := Overwrite(t, b, mc.cells[mc.top])], top := mc.top + 1))
  }

  function PushOutcome(mc: Machine, t: Type, r: Outcome<Bits>): Conf {
    match r
    case Done(b) => PushType(mc, t, b)
    case Fails(cause) => Stopped(Numeric(cause))
  }

  function DropKeep(mc: Machine, drop: nat, keep: nat): Conf {
    if keep > 1 || drop + keep > mc.top || mc.top > |mc.cells| then Undefined
    else if keep == 1 then
      Running(mc.(cells := mc.cells[mc.top - (drop + 1) := Pick(mc, 1)], top := mc.top - drop))
    else Running(Lower(mc, drop))
  }

  function Goto(mc: Machine, pc: nat): Conf { Running(mc.(pc := pc)) }

  /** PUSH_CALL, then GOTO. */
  function EnterCall(env: Env, mc: Machine, entry: nat): Conf {
    if |mc.calls| >= env.callLimit then Stopped(CallStackExhausted)
    else Running(mc.(calls := mc.calls + [mc.pc], pc := entry))
  }

  /** How many bytes of operands follow an opcode. */
  function ImmediateSize(op: u8): nat {
    if op == BR || op == BR_IF || op == BR_UNLESS || op == I32_CONST || op == F32_CONST
       || GET_LOCAL <= op <= SET_GLOBAL || op == CALL || op == ALLOCA then 4
    else if op == DROP_KEEP then 5
    else if op == I64_CONST || op == F64_CONST || 0x28 <= op <= 0x3e || op == BR_TABLE || op == CALL_INDIRECT then 8
    else 0
  }

  /** Branches, calls and returns; `at` is where the operands are, `mc.pc` what
      follows them. */
  function ExecFlow(env: Env, op: u8, at: nat, mc: Machine): Conf
    requires at + ImmediateSize(op) <= |env.istream|
  {
    if op == BR then Goto(mc, WordAt(env.istream, at))
    else if op == BR_IF || op == BR_UNLESS then
      if !(1 <= mc.top <= |mc.cells|) then Undefined
      else if (Pick(mc, 1).lo != 0) == (op == BR_IF) then Goto(Lower(mc, 1), WordAt(env.istream, at))
      else Running(Lower(mc, 1))
    else if op == BR_TABLE then ExecTable(env, at, mc)
    else if op == RETURN then
      if |mc.calls| == env.returnDepth then Exited(mc)
      else if mc.calls == [] then Undefined
      else Running(mc.(calls := mc.calls[..|mc.calls| - 1], pc := mc.calls[|mc.calls| - 1]))
    else if op == UNREACHABLE then Stopped(UnreachableExecuted)
    else if op == CALL then EnterCall(env, mc, WordAt(env.istream, at))
    else if op == CALL_INDIRECT then ExecIndirect(env, at, mc)
    else if op == NOP then Running(mc)
    else Undefined
  }

  /** The entry of a branch table says where to go and what to drop. */
  function ExecTable(env: Env, at: nat, mc: Machine): Conf
    requires at + 8 <= |env.istream|
  {
    if !(1 <= mc.top <= |mc.cells|) then Undefined
    else
      var num, key := WordAt(env.istream, at), Pick(mc, 1).lo;
      var entry := WordAt(env.istream, at + 4) + (if key >= num then num else key) * TABLE_ENTRY_SIZE;
      if entry + 9 > |env.istream| then Undefined
      else
        match DropKeep(Lower(mc, 1), WordAt(env.istream, entry + 4), env.istream[entry + 8])
        case Running(mc') => Goto(mc', WordAt(env.istream, entry))
        case c => c
  }

  function ExecIndirect(env: Env, at: nat, mc: Machine): Conf
    requires at + 8 <= |env.istream|
  {
    var sigIndex := WordAt(env.istream, at + 4);
    if !env.m.hasTable || WordAt(env.istream, at) != 0 || sigIndex >= |env.m.sigs| || !(1 <= mc.top <= |mc.cells|) then Undefined
    else
      match TableTarget(env.m, sigIndex, Pick(mc, 1).lo)
      case Target(f) => if f < |env.entries| then EnterCall(env, Lower(mc, 1), env.entries[f]) else Undefined
      case Refused(trap) => Stopped(trap)
  }

  /** Instructions that only move cells. */
  function ExecMove(env: Env, op: u8, at: nat, mc: Machine): Conf
    requires at + ImmediateSize(op) <= |env.istream|
  {
    if op == I32_CONST then PushType(mc, I32, Bits(WordAt(env.istream, at), 0))
    else if op == F32_CONST then PushType(mc, F32, Bits(WordAt(env.istream, at), 0))
    else if op == I64_CONST then PushType(mc, I64, Bits(WordAt(env.istream, at), WordAt(env.istream, at + 4)))
    else if op == F64_CONST then PushType(mc, F64, Bits(WordAt(env.istream, at), WordAt(env.istream, at + 4)))
    else if GET_LOCAL <= op <= SET_GLOBAL then ExecVariable(op, WordAt(env.istream, at), mc)
    else if op == DROP then (if mc.top >= 1 then Running(Lower(mc, 1)) else Undefined)
    else if op == SELECT then
      if !(3 <= mc.top <= |mc.cells|) then Undefined
      else Push(Lower(mc, 3), if Pick(mc, 1).lo != 0 then Pick(mc, 3) else Pick(mc, 2))
    else if op == ALLOCA then Alloca(mc, WordAt(env.istream, at))
    else if op == DROP_KEEP then DropKeep(mc, WordAt(env.istream, at), env.istream[at + 4])
    else Undefined
  }

  /** Room for n zeroed cells; the top may not reach the end of the array. */
  function Alloca(mc: Machine, n: nat): Conf {
    if mc.top + n >= |mc.cells| then Stopped(ValueStackExhausted)
    else Running(mc.(cells := mc.cells[..mc.top] + Replicate(n, Bits(0, 0)) + mc.cells[mc.top + n..], top := mc.top + n))
  }

  function ExecVariable(op: u8, i: nat, mc: Machine): Conf {
    if op == GET_GLOBAL then (if i < |mc.globals| then Push(mc, mc.globals[i]) else Undefined)
    else if op == SET_GLOBAL then
      if i < |mc.globals| && 1 <= mc.top <= |mc.cells| then
        Running(Lower(mc, 1).(globals := mc.globals[i := Pick(mc, 1)]))
      else Undefined
    else if op == GET_LOCAL then (if 1 <= i <= mc.top <= |mc.cells| then Push(mc, Pick(mc, i)) else Undefined)
    else if op == SET_LOCAL then
      if 1 <= i && i + 1 <= mc.top <= |mc.cells| then
        Running(Lower(mc, 1).(cells := mc.cells[mc.top - 1 - i := Pick(mc, 1)]))
      else Undefined
    else if op == TEE_LOCAL then
      if 1 <= i <= mc.top <= |mc.cells| then Running(mc.(cells := mc.cells[mc.top - i := Pick(mc, 1)])) else Undefined
    else Undefined
  }

  /** i64.eqz pushes its result through the 64-bit member. */
  function PushedType(op: u8, t: Type): Type { if op == 0x50 then I64 else t }

  function ExecOperator(env: Env, op: u8, at: nat, mc: Machine): Conf
    requires at + ImmediateSize(op) <= |env.istream|
  {
    if UnarySig(op).Some? then
      if !(1 <= mc.top <= |mc.cells|) then Undefined
      else PushOutcome(Lower(mc, 1), PushedType(op, UnarySig(op).value.1), env.num.unary(op, Canon(UnarySig(op).value.0, Pick(mc, 1))))
    else if BinarySig(op).Some? then
      if !(2 <= mc.top <= |mc.cells|) then Undefined
      else
        var t := BinarySig(op).value.0;
        PushOutcome(Lower(mc, 2), BinarySig(op).value.1, env.num.binary(op, Canon(t, Pick(mc, 2)), Canon(t, Pick(mc, 1))))
    else if 0x28 <= op <= 0x3e then ExecAccess(env, op, at, mc)
    else Undefined
  }

  function ExecAccess(env: Env, op: u8, at: nat, mc: Machine): Conf
    requires at + 8 <= |env.istream|
  {
    var offset := WordAt(env.istream, at + 4);
    if !env.m.hasMemory || WordAt(env.istream, at) != 0 then Undefined
    else if LoadSig(op).Some? then
      if !(1 <= mc.top <= |mc.cells|) then Undefined
      else PushOutcome(Lower(mc, 1), LoadSig(op).value.0, env.num.load(op, Canon(I32, Pick(mc, 1)), offset, mc.mem))
    else if StoreSig(op).Some? then
      if !(2 <= mc.top <= |mc.cells|) then Undefined
      else
        match env.num.store(op, Canon(I32, Pick(mc, 2)), Canon(StoreSig(op).value.0, Pick(mc, 1)), offset, mc.mem)
        case Done(mem) => Running(Lower(mc, 2).(mem := mem))
        case Fails(cause) => Stopped(Numeric(cause))
    else Undefined
  }

  predicate IsFlow(op: u8) { UNREACHABLE <= op <= CALL_INDIRECT || op == BR_UNLESS }

  predicate IsMove(op: u8) {
    DROP <= op <= SELECT || GET_LOCAL <= op <= SET_GLOBAL || I32_CONST <= op <= F64_CONST || op == ALLOCA || op == DROP_KEEP
  }

  function Exec(env: Env, op: u8, at: nat, mc: Machine): Conf
    requires at + ImmediateSize(op) <= |env.istream|
  {
    if IsFlow(op) then ExecFlow(env, op, at, mc)
    else if IsMove(op) then ExecMove(env, op, at, mc)
    else ExecOperator(env, op, at, mc)
  }

  /** One round of the interpreter's loop. */
  function Step(env: Env, mc: Machine): Conf {
    if mc.pc >= |env.istream| then Undefined
    else
      var op := env.istream[mc.pc];
      var next := mc.pc + 1 + ImmediateSize(op);
      if next > |env.istream| then Undefined
      else Exec(env, op, mc.pc + 1, mc.(pc := next))
  }

  /** At most n rounds. */
  function Run(env: Env, mc: Machine, n: nat): Conf
    decreases n
  {
    if n == 0 then Running(mc)
    else
      match Step(env, mc)
      case Running(mc') => Run(env, mc', n - 1)
      case c => c
  }

  lemma {:induction false} RunAdd(env: Env, mc: Machine, n: nat, k: nat)
    ensures Run(env, mc, n).Running? ==> Run(env, mc, n + k) == Run(env, Run(env, mc, n).machine, k)
    ensures !Run(env, mc, n).Running? ==> Run(env, mc, n + k) == Run(env, mc, n)
    decreases n
  {
    hide Step;
    if n > 0 && Step(env, mc).Running? {
      RunAdd(env, Step(env, mc).machine, n - 1, k);
    }
  }

  lemma RunOne(env: Env, mc: Machine)
    ensures Run(env, mc, 1) == Step(env, mc)
  {
    hide Step;
    var c := Step(env, mc);
    if c.Running? {
      assert Run(env, c.machine, 0) == c;
    }
  }

  /** Whatever a run ends in, a longer run ends in, too. */
  lemma RunEnds(env: Env, mc: Machine, n: nat, k: nat)
    requires !Run(env, mc, n).Running? && !Run(env, mc, k).Running?
    ensures Run(env, mc, n) == Run(env, mc, k)
  {
    if n <= k { RunAdd(env, mc, n, k - n); } else { RunAdd(env, mc, k, n - k); }
  }
}
