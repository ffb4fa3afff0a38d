/** How high the value stack is at every position of the code: the height the
    code generator had when it emitted the byte
    (src/binary-reader-interpreter.c:301-364, 953-965), as a function of the
    program counter, and what one step of the interpreter makes of it. */
module Flow {
  import opened Wasm
  import opened Assembly
  import opened Machine
  import Semantics
  import M = Machine
  import C = Compile

  /** A position where an instruction of function `func` starts, with `height`
      values in the frame. */
  datatype Place = Place(func: nat, height: int)

  type Places = nat -> Option<Place>

  ghost predicate Goes(at: Places, p: nat, f: nat, h: int) { at(p) == Some(Place(f, h)) }

  // ----- the height at a position of compiled code -----

  function HeightInReturn(n: nat, off: nat, h: int, p: nat): Option<int> {
    if p == off + Size(C.DropKeep(h - n, n)) then Some(n) else if p == off then Some(h) else None
  }

  function HeightInBranch(labels: seq<C.Label>, depth: nat, off: nat, h: int, p: nat): Option<int> {
    if depth >= |labels| then None
    else
      var l := C.LabelAt(labels, depth);
      if p == off + Size(C.DropKeep(h - l.limit - l.arity, l.arity)) then Some(l.limit + l.arity)
      else if p == off then Some(h)
      else None
  }

  function HeightInJump(k: C.Context, labels: seq<C.Label>, e: Instr, off: nat, h: int, p: nat): Option<int>
    requires IsJump(e)
  {
    if e.Br? then HeightInBranch(labels, e.depth, off, h, p)
    else if e.Return? then HeightInReturn(k.results, off, h, p)
    else if p == off then Some(h)
    else if e.BrIf? then HeightInBranch(labels, e.depth, off + 5, h - 1, p)
    else None
  }

  function HeightInInstr(k: C.Context, labels: seq<C.Label>, e: Instr, off: nat, h: int, p: nat): Option<int>
    decreases e, 1
  {
    if IsJump(e) then HeightInJump(k, labels, e, off, h, p)
    else if e.Block? then
      HeightInCode(k, labels + [C.ClosedLabel(h, |e.sig|, C.EndOf(k, labels, e.body, |e.sig|, off, h))], e.body, off, h, p)
    else if e.Loop? then HeightInCode(k, labels + [C.ClosedLabel(h, 0, off)], e.body, off, h, p)
    else if e.If? then HeightInIf(k, labels, e, off, h, p)
    else if p == off then Some(h)
    else None
  }

  function HeightInIf(k: C.Context, labels: seq<C.Label>, e: Instr, off: nat, h: int, p: nat): Option<int>
    requires e.If?
    decreases e, 0
  {
    var end := C.EndOfIf(k, labels, e, off, h);
    var inner := labels + [C.ClosedLabel(h - 1, |e.sig|, end)];
    var mid := C.ElseOf(k, labels, e, off, h);
    if p == off then Some(h)
    else if p < off + 5 then None
    else if !e.hasElse || p < mid - 5 then HeightInCode(k, inner, e.thn, off + 5, h - 1, p)
    else if p == mid - 5 then Some(h - 1 + |e.sig|)
    else if p < mid then None
    else HeightInCode(k, inner, e.els, mid, h - 1, p)
  }

  function HeightInCode(k: C.Context, labels: seq<C.Label>, code: Code, off: nat, h: int, p: nat): Option<int>
    decreases code, 0
  {
    match code
    case Nil => None
    case Cons(e, rest) =>
      var size := Size(C.CompInstr(k, labels, e, off, h));
      if p < off + size then HeightInInstr(k, labels, e, off, h, p)
      else HeightInCode(k, labels, rest, off + size, h + C.Delta(k.m, e), p)
  }

  /** A function: its parameters, the room for its locals, its body, and the
      return that ends it. */
  function HeightInFunc(m: Module, entries: seq<Option<nat>>, f: nat, off: nat, p: nat): Option<int>
    requires f < |m.funcs| && m.funcs[f].sigIndex < |m.sigs|
  {
    var n, locals, body := |SigOf(m, f).results|, |FrameTypes(m, f)|, off + Size(C.Prologue(m, f));
    var k := C.Context(m, entries, n);
    var end := C.EndOf(k, [], m.funcs[f].body, n, body, locals);
    if p < body then (if p == off then Some(|SigOf(m, f).params|) else None)
    else if p < end then HeightInCode(k, [C.ClosedLabel(locals, n, end)], m.funcs[f].body, body, locals, p)
    else HeightInReturn(n, end, locals + n, p)
  }

  /** The last of the first n functions that starts at p or before. */
  function FuncAt(m: Module, n: nat, start: nat, p: nat): (f: Option<nat>)
    requires ModuleOk(m) && n <= |m.funcs|
    ensures f.Some? ==> f.value < n && C.EntryOf(m, f.value, start) <= p
  {
    if n == 0 then None
    else if p >= C.EntryOf(m, n - 1, start) then Some(n - 1)
    else FuncAt(m, n - 1, start, p)
  }

  /** The height at a position of the code of a module. */
  function HeightAt(m: Module, start: nat, p: nat): Option<Place>
    requires ModuleOk(m)
  {
    match FuncAt(m, |m.funcs|, start, p)
    case None => None
    case Some(f) =>
      match HeightInFunc(m, C.Known(m, |m.funcs|, start), f, C.EntryOf(m, f, start), p)
      case None => None
      case Some(h) => Some(Place(f, h))
  }

  // ----- what an instruction does to the height -----

  /** How an instruction without control flow changes the height. */
  function Effect(s: seq<u8>, op: u8, at: nat): int
    requires at + ImmediateSize(op) <= |s|
  {
    if I32_CONST <= op <= F64_CONST || op == GET_LOCAL || op == GET_GLOBAL then 1
    else if op == SET_LOCAL || op == SET_GLOBAL || op == DROP then -1
    else if op == TEE_LOCAL then 0
    else if op == SELECT then -2
    else if op == ALLOCA then WordAt(s, at)
    else if op == DROP_KEEP then 0 - WordAt(s, at)
    else if UnarySig(op).Some? then 0
    else if BinarySig(op).Some? then -1
    else if LoadSig(op).Some? then 0
    else -2
  }

  function Params(m: Module, f: nat): nat {
    if f < |m.funcs| && m.funcs[f].sigIndex < |m.sigs| then |SigOf(m, f).params| else 0
  }

  function ResultCount(m: Module, f: nat): nat {
    if f < |m.funcs| && m.funcs[f].sigIndex < |m.sigs| then |SigOf(m, f).results| else 0
  }

  /** Where a branch table entry leads. */
  ghost predicate EntryGoes(env: Env, at: Places, entry: nat, f: nat, h: int) {
    entry + 9 <= |env.istream| ==> Goes(at, WordAt(env.istream, entry), f, h - WordAt(env.istream, entry + 4))
  }

  /** Every position that can come next has the height that the instruction at p
      leaves. */
  ghost predicate Flows(env: Env, at: Places, p: nat, pl: Place) {
    p < |env.istream| &&
    var op := env.istream[p];
    var next, h := p + 1 + ImmediateSize(op), pl.height;
    next <= |env.istream| && (
      if !IsFlow(op) then Goes(at, next, pl.func, h + Effect(env.istream, op, p + 1))
      else if op == BR then Goes(at, WordAt(env.istream, p + 1), pl.func, h)
      else if op == BR_UNLESS then Goes(at, next, pl.func, h - 1) && Goes(at, WordAt(env.istream, p + 1), pl.func, h - 1)
      else if op == BR_TABLE then
        forall i :: 0 <= i <= WordAt(env.istream, p + 1) ==>
          EntryGoes(env, at, WordAt(env.istream, p + 5) + i * TABLE_ENTRY_SIZE, pl.func, h - 1)
      else if op == RETURN then h == ResultCount(env.m, pl.func)
      else if op == CALL then
        exists g :: 0 <= g < |env.entries| && WordAt(env.istream, p + 1) == env.entries[g] && CallGoes(env, at, next, g, pl.func, h)
      else if op == CALL_INDIRECT then
        AnyGoes(env, at, WordAt(env.istream, p + 5), next, pl.func, h - 1)
      else op == UNREACHABLE)
  }

  predicate SameSig(m: Module, g: nat, sigIndex: nat) {
    g < |m.funcs| && m.funcs[g].sigIndex < |m.sigs| && sigIndex < |m.sigs| && m.sigs[m.funcs[g].sigIndex] == m.sigs[sigIndex]
  }

  /** After a call of g its arguments have been replaced by its results. */
  ghost predicate CallGoes(env: Env, at: Places, next: nat, g: nat, f: nat, h: int) {
    Params(env.m, g) <= h && Goes(at, next, f, h - Params(env.m, g) + ResultCount(env.m, g))
  }

  ghost predicate IndirectGoes(env: Env, at: Places, sigIndex: nat, next: nat, g: nat, f: nat, h: int) {
    SameSig(env.m, g, sigIndex) ==> CallGoes(env, at, next, g, f, h)
  }

  ghost predicate AnyGoes(env: Env, at: Places, sigIndex: nat, next: nat, f: nat, h: int) {
    forall g :: 0 <= g < |env.entries| ==> IndirectGoes(env, at, sigIndex, next, g, f, h)
  }

  /** Functions are entered with their parameters on the stack. */
  ghost predicate EntriesGo(env: Env, at: Places) {
    forall g :: 0 <= g < |env.entries| ==> Goes(at, env.entries[g], g, Params(env.m, g))
  }

  ghost predicate AllFlow(env: Env, at: Places) {
    EntriesGo(env, at) && forall p :: PlaceOk(env, at, p)
  }

  ghost predicate PlaceOk(env: Env, at: Places, p: nat) {
    at(p).Some? ==> 0 <= at(p).value.height && (at(p).value.height <= INVALID ==> Flows(env, at, p, at(p).value))
  }

  // ----- the frames of a machine -----

  /** Where the frame of a function starts that was called through these return
      addresses: above the values its callers keep. */
  ghost function BaseOf(at: Places, m: Module, base: int, rets: seq<nat>, f: nat): int
    decreases |rets|
  {
    var n := |rets|;
    if n == 0 then base
    else
      match at(rets[n - 1])
      case None => base
      case Some(pl) => BaseOf(at, m, base, rets[..n - 1], pl.func) + pl.height - ResultCount(m, f)
  }

  /** The return addresses are positions behind calls. */
  ghost predicate Chain(at: Places, m: Module, rets: seq<nat>, f: nat)
    decreases |rets|
  {
    var n := |rets|;
    n > 0 ==>
      && at(rets[n - 1]).Some? && ResultCount(m, f) <= at(rets[n - 1]).value.height
      && Chain(at, m, rets[..n - 1], at(rets[n - 1]).value.func)
  }

  lemma {:induction false} BaseGrows(at: Places, m: Module, base: int, rets: seq<nat>, f: nat)
    requires Chain(at, m, rets, f)
    ensures BaseOf(at, m, base, rets, f) >= base
    decreases |rets|
  {
    var n := |rets|;
    if n > 0 { BaseGrows(at, m, base, rets[..n - 1], at(rets[n - 1]).value.func); }
  }

  /** The machine stands at a position of the code, and its value stack is as high
      as the frames of all active calls and the height at the position say. */
  ghost predicate Level(env: Env, at: Places, base: nat, mc: Machine) {
    && mc.top <= |mc.cells| <= INVALID && env.returnDepth <= |mc.calls| && at(mc.pc).Some?
    && var pl, rets := at(mc.pc).value, mc.calls[env.returnDepth..];
    && 0 <= pl.height && Chain(at, env.m, rets, pl.func)
    && mc.top == BaseOf(at, env.m, base, rets, pl.func) + pl.height
  }

  // ----- one step -----

  lemma MoveEffect(env: Env, op: u8, at: nat, mc: Machine)
    requires at + ImmediateSize(op) <= |env.istream| && IsMove(op) && !IsFlow(op) && mc.top <= |mc.cells|
    requires M.ExecMove(env, op, at, mc).Running?
    ensures var r := M.ExecMove(env, op, at, mc).machine;
      r.pc == mc.pc && r.calls == mc.calls && |r.cells| == |mc.cells| && r.top <= |mc.cells| && r.top == mc.top + Effect(env.istream, op, at)
  {
    hide WordAt, Overwrite, UnarySig, BinarySig, LoadSig, StoreSig;
  }

  lemma OperatorEffect(env: Env, op: u8, at: nat, mc: Machine)
    requires at + ImmediateSize(op) <= |env.istream| && !IsMove(op) && !IsFlow(op) && mc.top <= |mc.cells|
    requires M.ExecOperator(env, op, at, mc).Running?
    ensures var r := M.ExecOperator(env, op, at, mc).machine;
      r.pc == mc.pc && r.calls == mc.calls && |r.cells| == |mc.cells| && r.top <= |mc.cells| && r.top == mc.top + Effect(env.istream, op, at)
  {
    hide WordAt, Overwrite, UnarySig, BinarySig, LoadSig, StoreSig;
  }

  /** The height of the running frame. */
  lemma FrameHeight(env: Env, at: Places, base: nat, mc: Machine)
    requires Level(env, at, base, mc) && AllFlow(env, at) && base >= 0
    ensures Flows(env, at, mc.pc, at(mc.pc).value)
  {
    var pl := at(mc.pc).value;
    BaseGrows(at, env.m, base, mc.calls[env.returnDepth..], pl.func);
    assert PlaceOk(env, at, mc.pc);
  }

  /** Going on inside a frame. */
  lemma LevelInside(env: Env, at: Places, base: nat, mc: Machine, r: Machine, d: int)
    requires Level(env, at, base, mc) && r.calls == mc.calls && |r.cells| == |mc.cells| && r.top <= |r.cells|
    requires Goes(at, r.pc, at(mc.pc).value.func, at(mc.pc).value.height + d) && r.top == mc.top + d
    requires AllFlow(env, at)
    ensures Level(env, at, base, r)
  {
    hide Flows;
    assert PlaceOk(env, at, r.pc);
  }

  /** Entering a function. */
  lemma LevelCalled(env: Env, at: Places, base: nat, mc: Machine, r: Machine, g: nat, next: nat, d: int)
    requires Level(env, at, base, mc) && r.calls == mc.calls + [next] && |r.cells| == |mc.cells| && r.top == mc.top + d <= |r.cells|
    requires g < |env.entries| && r.pc == env.entries[g] && EntriesGo(env, at)
    requires CallGoes(env, at, next, g, at(mc.pc).value.func, at(mc.pc).value.height + d)
    ensures Level(env, at, base, r)
  {
    var before, rets := mc.calls[env.returnDepth..], r.calls[env.returnDepth..];
    assert rets == before + [next] && rets[..|before|] == before;
  }

  lemma LevelReturned(env: Env, at: Places, base: nat, mc: Machine, r: Machine)
    requires Level(env, at, base, mc) && |mc.calls| > env.returnDepth && r.calls == mc.calls[..|mc.calls| - 1]
    requires |r.cells| == |mc.cells| && r.top == mc.top && r.pc == mc.calls[|mc.calls| - 1]
    requires at(mc.pc).value.height == ResultCount(env.m, at(mc.pc).value.func) && AllFlow(env, at)
    ensures Level(env, at, base, r)
  {
    hide Flows;
    assert PlaceOk(env, at, r.pc);
    var n := |mc.calls| - env.returnDepth;
    var rets := mc.calls[env.returnDepth..];
    assert rets[n - 1] == r.pc && rets[..n - 1] == r.calls[env.returnDepth..];
  }

  /** One step keeps the value stack at the height of its position. */
  lemma StepLevel(env: Env, at: Places, base: nat, mc: Machine)
    requires Level(env, at, base, mc) && AllFlow(env, at) && M.Step(env, mc).Running?
    ensures Level(env, at, base, M.Step(env, mc).machine)
  {
    hide Level, AllFlow, Flows, M.ExecFlow, M.ExecMove, M.ExecOperator, WordAt;
    TopInside(env, at, base, mc);
    FrameHeight(env, at, base, mc);
    Known(env, at, mc.pc, at(mc.pc).value);
    var op, next := env.istream[mc.pc], mc.pc + 1 + ImmediateSize(env.istream[mc.pc]);
    var mc', r := mc.(pc := next), M.Step(env, mc).machine;
    if IsFlow(op) {
      FlowLevel(env, at, base, mc);
    } else {
      if IsMove(op) { MoveEffect(env, op, mc.pc + 1, mc'); } else { OperatorEffect(env, op, mc.pc + 1, mc'); }
      LevelInside(env, at, base, mc, r, Effect(env.istream, op, mc.pc + 1));
    }
  }

  lemma Known(env: Env, at: Places, p: nat, pl: Place)
    requires Flows(env, at, p, pl)
    ensures p < |env.istream| && p + 1 + ImmediateSize(env.istream[p]) <= |env.istream|
    ensures var op := env.istream[p];
      !IsFlow(op) ==> Goes(at, p + 1 + ImmediateSize(op), pl.func, pl.height + Effect(env.istream, op, p + 1))
  {
    hide WordAt;
  }

  lemma TopInside(env: Env, at: Places, base: nat, mc: Machine)
    requires Level(env, at, base, mc)
    ensures mc.top <= |mc.cells| && at(mc.pc).Some?
  {}

  lemma FlowLevel(env: Env, at: Places, base: nat, mc: Machine)
    requires Level(env, at, base, mc) && AllFlow(env, at) && mc.pc < |env.istream| && Flows(env, at, mc.pc, at(mc.pc).value)
    requires IsFlow(env.istream[mc.pc]) && M.Step(env, mc).Running?
    ensures Level(env, at, base, M.Step(env, mc).machine)
  {
    hide Level, AllFlow, WordAt, M.ExecTable, M.ExecIndirect, EntryGoes, IndirectGoes, CallGoes;
    TopInside(env, at, base, mc);
    var op, r := env.istream[mc.pc], M.Step(env, mc).machine;
    if op == BR {
      LevelInside(env, at, base, mc, r, 0);
    } else if op == BR_UNLESS {
      LevelInside(env, at, base, mc, r, -1);
    } else if op == BR_TABLE {
      TableLevel(env, at, base, mc);
    } else if op == RETURN {
      Depth(env, at, base, mc);
      LevelReturned(env, at, base, mc, r);
    } else if op == CALL {
      CallLevel(env, at, base, mc);
    } else if op == CALL_INDIRECT {
      IndirectLevel(env, at, base, mc);
    }
  }

  lemma Depth(env: Env, at: Places, base: nat, mc: Machine)
    requires Level(env, at, base, mc)
    ensures env.returnDepth <= |mc.calls|
  {}

  lemma CallLevel(env: Env, at: Places, base: nat, mc: Machine)
    requires Level(env, at, base, mc) && AllFlow(env, at) && mc.pc < |env.istream| && Flows(env, at, mc.pc, at(mc.pc).value)
    requires env.istream[mc.pc] == CALL && M.Step(env, mc).Running?
    ensures Level(env, at, base, M.Step(env, mc).machine)
  {
    hide Level, WordAt, CallGoes, EntriesGo;
    TopInside(env, at, base, mc);
    var next, pl := mc.pc + 5, at(mc.pc).value;
    var g :| 0 <= g < |env.entries| && WordAt(env.istream, mc.pc + 1) == env.entries[g] && CallGoes(env, at, next, g, pl.func, pl.height);
    LevelCalled(env, at, base, mc, M.Step(env, mc).machine, g, next, 0);
  }

  lemma IndirectLevel(env: Env, at: Places, base: nat, mc: Machine)
    requires Level(env, at, base, mc) && AllFlow(env, at) && mc.pc < |env.istream| && Flows(env, at, mc.pc, at(mc.pc).value)
    requires env.istream[mc.pc] == CALL_INDIRECT && M.Step(env, mc).Running?
    ensures Level(env, at, base, M.Step(env, mc).machine)
  {
    hide Level, WordAt, CallGoes, EntriesGo;
    TopInside(env, at, base, mc);
    var next, pl, sig := mc.pc + 9, at(mc.pc).value, WordAt(env.istream, mc.pc + 5);
    var g := Semantics.TableTarget(env.m, sig, M.Pick(mc, 1).lo).func;
    assert IndirectGoes(env, at, sig, next, g, pl.func, pl.height - 1);
    LevelCalled(env, at, base, mc, M.Step(env, mc).machine, g, next, -1);
  }

  lemma TableLevel(env: Env, at: Places, base: nat, mc: Machine)
    requires Level(env, at, base, mc) && AllFlow(env, at) && mc.pc < |env.istream| && Flows(env, at, mc.pc, at(mc.pc).value)
    requires env.istream[mc.pc] == BR_TABLE && M.Step(env, mc).Running?
    ensures Level(env, at, base, M.Step(env, mc).machine)
  {
    hide Level, WordAt, AllFlow;
    TopInside(env, at, base, mc);
    var pl, num, key := at(mc.pc).value, WordAt(env.istream, mc.pc + 1), M.Pick(mc, 1).lo;
    var i: nat := if key >= num then num else key;
    var entry := WordAt(env.istream, mc.pc + 5) + i * TABLE_ENTRY_SIZE;
    assert EntryGoes(env, at, entry, pl.func, pl.height - 1);
    LevelInside(env, at, base, mc, M.Step(env, mc).machine, -1 - WordAt(env.istream, entry + 4));
  }

  /** Whole runs. */
  lemma {:induction false} RunLevel(env: Env, at: Places, base: nat, mc: Machine, n: nat)
    requires Level(env, at, base, mc) && AllFlow(env, at) && M.Run(env, mc, n).Running?
    ensures Level(env, at, base, M.Run(env, mc, n).machine)
    decreases n
  {
    hide Level, AllFlow, M.Step;
    if n > 0 {
      StepLevel(env, at, base, mc);
      RunLevel(env, at, base, M.Step(env, mc).machine, n - 1);
    }
  }
}
