/** The type discipline the validator enforces, stated on values: what every
    instruction does to the operand types of its block. Class Checker (module
    Validator) is proved to compute exactly this. */
module Typing {
  import opened Wasm

  /** A label in scope; `sig` are the results of its block. */
  datatype Label = Label(isLoop: bool, sig: seq<Type>)

  /** The types a branch to the label must supply. */
  function BranchTypes(l: Label): seq<Type> {
    if l.isLoop then [] else l.sig
  }

  datatype Typed =
    | Live(types: seq<Type>)  // operands of the current block afterwards
    | Dead                    // control does not get past the instruction
    | Bad                     // the validator reports an error

  /** What a body sees of its surroundings. */
  datatype Scope = Scope(m: Module, locals: seq<Type>, results: seq<Type>)

  predicate EndsWith(ts: seq<Type>, suffix: seq<Type>) {
    |suffix| <= |ts| && ts[|ts| - |suffix|..] == suffix
  }

  /** The types below the top n. */
  function Below(ts: seq<Type>, n: nat): seq<Type>
    requires n <= |ts|
  {
    ts[..|ts| - n]
  }

  lemma BelowTwice(ts: seq<Type>, a: nat, b: nat)
    requires a + b <= |ts|
    ensures Below(Below(ts, a), b) == Below(ts, a + b)
  {}

  /** Replace the operand types at the top by the result types. */
  function Rewrite(ts: seq<Type>, operands: seq<Type>, results: seq<Type>): Typed {
    if EndsWith(ts, operands) then Live(Below(ts, |operands|) + results) else Bad
  }

  predicate PowerOfTwo(x: u32) {
    x != 0 && ((x as bv32) & ((x - 1) as bv32)) == 0
  }

  /** A memory access: a memory exists, and the alignment is absent or a power of
      two, no larger than the access. */
  predicate AccessOk(s: Scope, align: u32, size: u32) {
    s.m.hasMemory && (align == NATURAL || (PowerOfTwo(align) && align <= size))
  }

  /** Operand types and result types of a numeric or memory operator. */
  function OperatorSig(s: Scope, e: Instr): Option<(seq<Type>, seq<Type>)>
    requires IsOperator(e)
  {
    match e
    case Unary(op) => if UnarySig(op).Some? then Some(([UnarySig(op).value.0], [UnarySig(op).value.1])) else None
    case Binary(op) =>
      if BinarySig(op).Some? then Some(([BinarySig(op).value.0, BinarySig(op).value.0], [BinarySig(op).value.1])) else None
    case Load(op, align, _) =>
      if LoadSig(op).Some? && AccessOk(s, align, LoadSig(op).value.1) then Some(([I32], [LoadSig(op).value.0])) else None
    case Store(op, align, _) =>
      if StoreSig(op).Some? && AccessOk(s, align, StoreSig(op).value.1) then Some(([I32, StoreSig(op).value.0], [])) else None
  }

  function TypeOperator(s: Scope, e: Instr, ts: seq<Type>): Typed
    requires IsOperator(e)
  {
    var sig := OperatorSig(s, e);
    if sig.Some? then Rewrite(ts, sig.value.0, sig.value.1) else Bad
  }

  function TypeVariable(s: Scope, e: Instr, ts: seq<Type>): Typed
    requires IsVariable(e)
  {
    match e
    case GetLocal(i) => if i < |s.locals| then Live(ts + [s.locals[i]]) else Bad
    case SetLocal(i) => if i < |s.locals| then Rewrite(ts, [s.locals[i]], []) else Bad
    // the validator does not compare the operand with the local (src/validator.c:764)
    case TeeLocal(i) => if i < |s.locals| && |ts| >= 1 then Live(ts) else Bad
    case GetGlobal(i) => if i < |s.m.globals| then Live(ts + [s.m.globals[i].ty]) else Bad
    // nor does it look at the mutability of the global (src/validator.c:735-744)
    case SetGlobal(i) => if i < |s.m.globals| then Rewrite(ts, [s.m.globals[i].ty], []) else Bad
  }

  function TypePlain(s: Scope, e: Instr, ts: seq<Type>): Typed {
    if IsOperator(e) then TypeOperator(s, e, ts)
    else if IsVariable(e) then TypeVariable(s, e, ts)
    else if e.Const? then Live(ts + [e.ty])
    else if e.CurrentMemory? then (if s.m.hasMemory then Live(ts + [I32]) else Bad)
    else if e.GrowMemory? then (if s.m.hasMemory then Rewrite(ts, [I32], [I32]) else Bad)
    else if e.Drop? then (if |ts| >= 1 then Live(Below(ts, 1)) else Bad)
    else if e.Select? then
      if |ts| >= 3 && ts[|ts| - 1] == I32 && ts[|ts| - 2] == ts[|ts| - 3] then Live(Below(ts, 2)) else Bad
    else if e.Nop? then Live(ts)
    else Bad
  }

  /** The label `depth` levels up exists and the top types fit it. */
  predicate BranchOk(labels: seq<Label>, depth: nat, ts: seq<Type>) {
    depth < |labels| && EndsWith(ts, BranchTypes(labels[|labels| - 1 - depth]))
  }

  predicate TableOk(labels: seq<Label>, targets: seq<u32>, default: u32, ts: seq<Type>) {
    && BranchOk(labels, default, ts)
    && forall i :: 0 <= i < |targets| ==> BranchOk(labels, targets[i], ts)
  }

  function TypeJump(s: Scope, labels: seq<Label>, e: Instr, ts: seq<Type>): Typed
    requires IsJump(e)
  {
    match e
    case Br(d) => if BranchOk(labels, d, ts) then Dead else Bad
    case BrIf(d) =>
      if EndsWith(ts, [I32]) && BranchOk(labels, d, Below(ts, 1)) then Live(Below(ts, 1)) else Bad
    case BrTable(targets, default) =>
      if EndsWith(ts, [I32]) && TableOk(labels, targets, default, Below(ts, 1)) then Dead else Bad
    case Return => if EndsWith(ts, s.results) then Dead else Bad
    case Unreachable => Dead
  }

  function TypeCall(s: Scope, e: Instr, ts: seq<Type>): Typed
    requires IsCall(e)
  {
    match e
    case Call(f) =>
      if f < |s.m.funcs| && s.m.funcs[f].sigIndex < |s.m.sigs| then
        Rewrite(ts, SigOf(s.m, f).params, SigOf(s.m, f).results)
      else Bad
    case CallIndirect(i) =>
      // an empty block stack counts as an i32 (src/validator.c:332-355, 634)
      if s.m.hasTable && i < |s.m.sigs| && (ts == [] || ts[|ts| - 1] == I32) then
        Rewrite(if ts == [] then ts else Below(ts, 1), s.m.sigs[i].params, s.m.sigs[i].results)
      else Bad
  }

  function TypeInstr(s: Scope, labels: seq<Label>, e: Instr, ts: seq<Type>): Typed
    decreases e, 1
  {
    if IsJump(e) then TypeJump(s, labels, e, ts)
    else if IsCall(e) then TypeCall(s, e, ts)
    else if e.Block? || e.Loop? then
      (if BodyOk(s, labels + [Label(e.Loop?, e.sig)], e.body, e.sig) then Live(ts + e.sig) else Bad)
    else if e.If? then
      if && EndsWith(ts, [I32])
         && BodyOk(s, labels + [Label(false, e.sig)], e.thn, e.sig)
         && BodyOk(s, labels + [Label(false, e.sig)], e.els, e.sig)
      then Live(Below(ts, 1) + e.sig) else Bad
    else TypePlain(s, e, ts)
  }

  /** Checking stops at the first instruction that does not fall through. */
  function TypeCode(s: Scope, labels: seq<Label>, code: Code, ts: seq<Type>): Typed
    decreases code, 0
  {
    match code
    case Nil => Live(ts)
    case Cons(e, rest) =>
      match TypeInstr(s, labels, e, ts)
      case Live(ts') => TypeCode(s, labels, rest, ts')
      case r => r
  }

  /** A block body starts on an empty stack and ends with exactly its results,
      or does not reach its end. */
  predicate BodyOk(s: Scope, labels: seq<Label>, body: Code, sig: seq<Type>)
    decreases body, 1
  {
    var r := TypeCode(s, labels, body, []);
    r.Dead? || r == Live(sig)
  }

  function ScopeOf(m: Module, f: nat): Scope
    requires f < |m.funcs| && m.funcs[f].sigIndex < |m.sigs|
  {
    Scope(m, FrameTypes(m, f), SigOf(m, f).results)
  }

  predicate FuncOk(m: Module, f: nat)
    requires f < |m.funcs| && m.funcs[f].sigIndex < |m.sigs|
  {
    var s := ScopeOf(m, f);
    |s.results| <= 1 && BodyOk(s, [Label(false, s.results)], m.funcs[f].body, s.results)
  }

  // ----- what the code generator demands beyond the validator -----

  /** No instruction follows one that does not fall through, and no block has
      more than one result. The first excludes code the validator never looks
      at; the second is all the binary format can express. */
  predicate Representable(code: Code) {
    match code
    case Nil => true
    case Cons(e, rest) => RepresentableInstr(e) && Representable(rest) && (Terminal(e) ==> rest == Nil)
  }

  predicate RepresentableInstr(e: Instr) {
    match e
    case Block(sig, body) => |sig| <= 1 && Representable(body)
    case Loop(sig, body) => |sig| <= 1 && Representable(body)
    case If(sig, thn, hasElse, els) =>
      |sig| <= 1 && Representable(thn) && Representable(els) && (!hasElse ==> els == Nil)
    case _ => !e.CurrentMemory? && !e.GrowMemory?
  }

  /** The checks the generator makes on a validated instruction that the
      validator does not make. */
  predicate Generable(s: Scope, labels: seq<Label>, e: Instr, ts: seq<Type>)
    decreases e, 1
  {
    if e.Block? || e.Loop? then GenerableCode(s, labels + [Label(e.Loop?, e.sig)], e.body, [])
    else if e.If? then
      && GenerableCode(s, labels + [Label(false, e.sig)], e.thn, [])
      && GenerableCode(s, labels + [Label(false, e.sig)], e.els, [])
    else if e.BrTable? then
      && ts != []
      && SigOnTop(labels, e.default, Below(ts, 1))
      && forall i :: 0 <= i < |e.targets| ==> SigOnTop(labels, e.targets[i], Below(ts, 1))
    else if e.CallIndirect? then ts != []
    else GenerablePlain(s, e, ts)
  }

  predicate GenerablePlain(s: Scope, e: Instr, ts: seq<Type>) {
    match e
    case TeeLocal(i) => i < |s.locals| && EndsWith(ts, [s.locals[i]])
    case SetGlobal(i) => i < |s.m.globals| && s.m.globals[i].mutable
    case _ => true
  }

  /** br_table compares the top types with the results of its targets even
      when a target is a loop (src/binary-reader-interpreter.c:1422). */
  predicate SigOnTop(labels: seq<Label>, depth: nat, ts: seq<Type>) {
    depth < |labels| && EndsWith(ts, labels[|labels| - 1 - depth].sig)
  }

  predicate GenerableCode(s: Scope, labels: seq<Label>, code: Code, ts: seq<Type>)
    decreases code, 0
  {
    match code
    case Nil => true
    case Cons(e, rest) =>
      && Generable(s, labels, e, ts)
      && (var r := TypeInstr(s, labels, e, ts);
          r.Live? ==> GenerableCode(s, labels, rest, r.types))
  }

  predicate GenerableFunc(m: Module, f: nat)
    requires f < |m.funcs| && m.funcs[f].sigIndex < |m.sigs|
  {
    var s := ScopeOf(m, f);
    GenerableCode(s, [Label(false, s.results)], m.funcs[f].body, [])
  }
}
