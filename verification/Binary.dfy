/** Function bodies in the binary format (sections 5.4.1 and 5.5.13 of the
    WebAssembly Core Specification 1.0): what the writer emits for a tree, the
    flat events the reader makes of bytes, and the tree the events describe. */
module Binary {
  import opened Wasm
  import opened Assembly
  import opened Leb128
  import opened Powers

  // ----- encoding -----

  function TypeCode(t: Type): int {
    match t
    case I32 => -1
    case I64 => -2
    case F32 => -3
    case F64 => -4
  }

  const VOID_CODE := -0x40

  /** A signature of more than one type has no encoding; the writer marks it. */
  function SigBytes(sig: seq<Type>): seq<u8> {
    if sig == [] then SignedBytes(VOID_CODE) else if |sig| == 1 then SignedBytes(TypeCode(sig[0])) else [0xff]
  }

  function Log2(x: nat): nat { if x <= 1 then 0 else 1 + Log2(x / 2) }

  function Bits64(b: Bits): u64 { b.lo + 0x1_0000_0000 * b.hi }

  function ConstBytes(t: Type, b: Bits): seq<u8> {
    match t
    case I32 => SignedBytes(Signed32(b.lo))
    case I64 => SignedBytes(Signed64(Bits64(b)))
    case F32 => Bytes(b.lo)
    case F64 => Bytes(b.lo) + Bytes(b.hi)
  }

  function DepthBytes(depths: seq<u32>): seq<u8> {
    if depths == [] then [] else DepthBytes(depths[..|depths| - 1]) + U32Bytes(depths[|depths| - 1])
  }

  /** Instructions that hold no other instructions. */
  function LeafBytes(e: Instr): seq<u8>
    requires !IsNested(e)
  {
    match e
    case Const(t, b) => [ConstOp(t)] + ConstBytes(t, b)
    case Unary(op) => [op]
    case Binary(op) => [op]
    case Load(op, align, offset) => [op, Log2(Alignment(op, align)) % 0x100] + U32Bytes(offset)
    case Store(op, align, offset) => [op, Log2(Alignment(op, align)) % 0x100] + U32Bytes(offset)
    case GetLocal(i) => [GET_LOCAL] + U32Bytes(i)
    case SetLocal(i) => [SET_LOCAL] + U32Bytes(i)
    case TeeLocal(i) => [TEE_LOCAL] + U32Bytes(i)
    case GetGlobal(i) => [GET_GLOBAL] + U32Bytes(i)
    case SetGlobal(i) => [SET_GLOBAL] + U32Bytes(i)
    case CurrentMemory => [CURRENT_MEMORY] + U32Bytes(0)
    case GrowMemory => [GROW_MEMORY] + U32Bytes(0)
    case Drop => [DROP]
    case Select => [SELECT]
    case Nop => [NOP]
    case Unreachable => [UNREACHABLE]
    case Return => [RETURN]
    case Br(d) => [BR] + U32Bytes(d)
    case BrIf(d) => [BR_IF] + U32Bytes(d)
    case BrTable(targets, default) => [BR_TABLE] + U32Bytes(|targets| % 0x1_0000_0000) + DepthBytes(targets) + U32Bytes(default)
    case Call(f) => [CALL] + U32Bytes(f)
    case CallIndirect(i) => [CALL_INDIRECT] + U32Bytes(i) + U32Bytes(0)
  }

  function InstrBytes(e: Instr): seq<u8> {
    match e
    case Block(sig, body) => [BLOCK] + SigBytes(sig) + CodeBytes(body) + [END]
    case Loop(sig, body) => [LOOP] + SigBytes(sig) + CodeBytes(body) + [END]
    case If(sig, thn, hasElse, els) =>
      [IF] + SigBytes(sig) + CodeBytes(thn) + (if hasElse then [ELSE] + CodeBytes(els) else []) + [END]
    case _ => LeafBytes(e)
  }

  function CodeBytes(code: Code): seq<u8> {
    match code
    case Nil => []
    case Cons(e, rest) => InstrBytes(e) + CodeBytes(rest)
  }

  /** The tree with all alignments written out. */
  function Explicit(e: Instr): Instr {
    match e
    case Load(op, align, offset) => Load(op, Alignment(op, align), offset)
    case Store(op, align, offset) => Store(op, Alignment(op, align), offset)
    case Block(sig, body) => Block(sig, ExplicitCode(body))
    case Loop(sig, body) => Loop(sig, ExplicitCode(body))
    case If(sig, thn, hasElse, els) => If(sig, ExplicitCode(thn), hasElse, ExplicitCode(els))
    case _ => e
  }

  function ExplicitCode(code: Code): Code {
    match code
    case Nil => Nil
    case Cons(e, rest) => Cons(Explicit(e), ExplicitCode(rest))
  }

  // ----- decoding into events -----

  datatype Opening = OpenBlock | OpenLoop | OpenIf

  datatype Event =
    | Leaf(e: Instr)
    | Open(kind: Opening, sig: seq<Type>)
    | Else
    | End

  datatype Decoded = Next(event: Event, offset: nat) | Malformed

  /** How many functions and signatures the module has. */
  datatype Limits = Limits(funcs: nat, sigs: nat)

  function DecodeType(code: u32): Option<seq<Type>> {
    var v := Signed32(code);
    if v == -1 then Some([I32])
    else if v == -2 then Some([I64])
    else if v == -3 then Some([F32])
    else if v == -4 then Some([F64])
    else if v == VOID_CODE then Some([])
    else None
  }

  function DecodeOpen(s: seq<u8>, off: nat, end: nat, kind: Opening): (r: Decoded)
    requires end <= |s|
    ensures r.Next? ==> r.offset >= off
  {
    match ReadI32(s, off, end)
    case Failed => Malformed
    case Got(v, n) => if DecodeType(v).Some? then Next(Open(kind, DecodeType(v).value), off + n) else Malformed
  }

  function DecodeConst(s: seq<u8>, off: nat, end: nat, t: Type): (r: Decoded)
    requires end <= |s|
    ensures r.Next? ==> r.offset >= off
  {
    match t
    case I32 =>
      (match ReadI32(s, off, end)
       case Failed => Malformed
       case Got(v, n) => Next(Leaf(Const(I32, Bits(v, 0))), off + n))
    case I64 =>
      (match ReadI64(s, off, end)
       case Failed => Malformed
       case Got(v, n) => Next(Leaf(Const(I64, Bits(v % 0x1_0000_0000, v / 0x1_0000_0000))), off + n))
    case F32 => if off + 4 > end then Malformed else Next(Leaf(Const(F32, Bits(WordAt(s, off), 0))), off + 4)
    case F64 =>
      if off + 8 > end then Malformed else Next(Leaf(Const(F64, Bits(WordAt(s, off), WordAt(s, off + 4)))), off + 8)
  }

  datatype Targets = Targets(depths: seq<u32>, offset: nat) | BadTargets

  function DecodeTargets(s: seq<u8>, off: nat, end: nat, n: nat): (r: Targets)
    requires end <= |s|
    ensures r.Targets? ==> r.offset >= off
    decreases n
  {
    if n == 0 then Targets([], off)
    else
      match DecodeTargets(s, off, end, n - 1)
      case BadTargets => BadTargets
      case Targets(depths, off') =>
        match ReadU32(s, off', end)
        case Failed => BadTargets
        case Got(d, k) => Targets(depths + [d], off' + k)
  }

  function DecodeTable(s: seq<u8>, off: nat, end: nat): (r: Decoded)
    requires end <= |s|
    ensures r.Next? ==> r.offset >= off
  {
    match ReadU32(s, off, end)
    case Failed => Malformed
    case Got(n, k) =>
      match DecodeTargets(s, off + k, end, n)
      case BadTargets => Malformed
      case Targets(depths, off') =>
        match ReadU32(s, off', end)
        case Failed => Malformed
        case Got(d, k') => Next(Leaf(BrTable(depths, d)), off' + k')
  }

  /** 1 << n on 32 bits, as far as the reader can be asked to compute it. */
  function Shifted(n: u32): u32 { if n < 32 then PowBound(n); Pow2(n) else 0 }

  lemma {:induction false} PowBound(n: nat)
    requires n < 32
    ensures Pow2(n) < 0x1_0000_0000
  {
    PowMore(n, 31);
    assert Pow2(31) == 0x8000_0000 by { assert Pow2(8) == 0x100 && Pow2(16) == 0x1_0000 && Pow2(24) == 0x100_0000; }
  }

  function DecodeAccess(s: seq<u8>, off: nat, end: nat, op: u8): (r: Decoded)
    requires end <= |s|
    ensures r.Next? ==> r.offset >= off
  {
    match ReadU32(s, off, end)
    case Failed => Malformed
    case Got(a, k) =>
      match ReadU32(s, off + k, end)
      case Failed => Malformed
      case Got(offset, k') =>
        Next(Leaf(if LoadSig(op).Some? then Load(op, Shifted(a), offset) else Store(op, Shifted(a), offset)), off + k + k')
  }

  /** Instructions whose only operand is an index. */
  predicate TakesIndex(op: u8) { BR <= op <= BR_IF || op == CALL || GET_LOCAL <= op <= SET_GLOBAL }

  function IndexInstr(op: u8, i: u32): Instr
    requires TakesIndex(op)
  {
    if op == BR then Br(i) else if op == BR_IF then BrIf(i) else if op == CALL then Call(i)
    else if op == GET_LOCAL then GetLocal(i) else if op == SET_LOCAL then SetLocal(i) else if op == TEE_LOCAL then TeeLocal(i)
    else if op == GET_GLOBAL then GetGlobal(i) else SetGlobal(i)
  }

  function DecodeIndex(s: seq<u8>, off: nat, end: nat, op: u8, lim: Limits): (r: Decoded)
    requires end <= |s| && TakesIndex(op)
    ensures r.Next? ==> r.offset >= off
  {
    match ReadU32(s, off, end)
    case Failed => Malformed
    case Got(i, k) => if op == CALL && i >= lim.funcs then Malformed else Next(Leaf(IndexInstr(op, i)), off + k)
  }

  function DecodeIndirect(s: seq<u8>, off: nat, end: nat, lim: Limits): (r: Decoded)
    requires end <= |s|
    ensures r.Next? ==> r.offset >= off
  {
    match ReadU32(s, off, end)
    case Failed => Malformed
    case Got(i, k) =>
      if i >= lim.sigs then Malformed
      else
        match ReadU32(s, off + k, end)
        case Failed => Malformed
        case Got(reserved, k') => if reserved != 0 then Malformed else Next(Leaf(CallIndirect(i)), off + k + k')
  }

  function DecodeReserved(s: seq<u8>, off: nat, end: nat, e: Instr): (r: Decoded)
    requires end <= |s|
    ensures r.Next? ==> r.offset >= off
  {
    match ReadU32(s, off, end)
    case Failed => Malformed
    case Got(reserved, k) => if reserved != 0 then Malformed else Next(Leaf(e), off + k)
  }

  /** Instructions without operands. */
  function BareInstr(op: u8): Option<Instr> {
    if op == UNREACHABLE then Some(Unreachable)
    else if op == NOP then Some(Nop)
    else if op == RETURN then Some(Return)
    else if op == DROP then Some(Drop)
    else if op == SELECT then Some(Select)
    else if UnarySig(op).Some? then Some(Unary(op))
    else if BinarySig(op).Some? then Some(Instr.Binary(op))
    else None
  }

  function DecodeOperands(s: seq<u8>, off: nat, end: nat, op: u8, lim: Limits): (r: Decoded)
    requires end <= |s|
    ensures r.Next? ==> r.offset >= off
  {
    if op == BLOCK then DecodeOpen(s, off, end, OpenBlock)
    else if op == LOOP then DecodeOpen(s, off, end, OpenLoop)
    else if op == IF then DecodeOpen(s, off, end, OpenIf)
    else if op == ELSE then Next(Else, off)
    else if op == END then Next(End, off)
    else if op == I32_CONST then DecodeConst(s, off, end, I32)
    else if op == I64_CONST then DecodeConst(s, off, end, I64)
    else if op == F32_CONST then DecodeConst(s, off, end, F32)
    else if op == F64_CONST then DecodeConst(s, off, end, F64)
    else if op == BR_TABLE then DecodeTable(s, off, end)
    else if TakesIndex(op) then DecodeIndex(s, off, end, op, lim)
    else if op == CALL_INDIRECT then DecodeIndirect(s, off, end, lim)
    else if LoadSig(op).Some? || StoreSig(op).Some? then DecodeAccess(s, off, end, op)
    else if op == CURRENT_MEMORY then DecodeReserved(s, off, end, CurrentMemory)
    else if op == GROW_MEMORY then DecodeReserved(s, off, end, GrowMemory)
    else if BareInstr(op).Some? then Next(Leaf(BareInstr(op).value), off)
    else Malformed
  }

  /** One instruction of the stream; `end` is where the section ends. */
  function Decode(s: seq<u8>, off: nat, end: nat, lim: Limits): (r: Decoded)
    requires end <= |s|
    ensures r.Next? ==> r.offset > off
  {
    if off + 1 > end then Malformed else DecodeOperands(s, off + 1, end, s[off], lim)
  }

  // ----- from events to trees -----

  datatype LevelKind = FuncLevel | BlockLevel | LoopLevel | IfLevel | ElseLevel

  /** An open block: the instructions read so far, and the first arm once the
      second has begun. */
  datatype Level = Level(kind: LevelKind, sig: seq<Type>, thn: Code, done: seq<Instr>)

  function ToCode(es: seq<Instr>): Code {
    if es == [] then Nil else Cons(es[0], ToCode(es[1..]))
  }

  function ToSeq(code: Code): seq<Instr> {
    match code
    case Nil => []
    case Cons(e, rest) => [e] + ToSeq(rest)
  }

  function Closed(l: Level): Instr {
    if l.kind == LoopLevel then Loop(l.sig, ToCode(l.done))
    else if l.kind == IfLevel then If(l.sig, ToCode(l.done), false, Nil)
    else if l.kind == ElseLevel then If(l.sig, l.thn, l.done != [], ToCode(l.done))
    else Block(l.sig, ToCode(l.done))
  }

  function LevelOf(kind: Opening): LevelKind {
    match kind
    case OpenBlock => BlockLevel
    case OpenLoop => LoopLevel
    case OpenIf => IfLevel
  }

  /** One more instruction in the innermost block. */
  function Grow(stack: seq<Level>, e: Instr): seq<Level>
    requires stack != []
  {
    var top := |stack| - 1;
    stack[top := stack[top].(done := stack[top].done + [e])]
  }

  /** What an event does to the open blocks; None is an error. */
  function Apply(stack: seq<Level>, event: Event): Option<seq<Level>> {
    if stack == [] then None
    else
      var top := |stack| - 1;
      match event
      case Leaf(e) => Some(Grow(stack, e))
      case Open(kind, sig) => Some(stack + [Level(LevelOf(kind), sig, Nil, [])])
      case Else =>
        if stack[top].kind == IfLevel then
          Some(stack[top := Level(ElseLevel, stack[top].sig, ToCode(stack[top].done), [])])
        else None
      case End => if top == 0 then Some([]) else Some(Grow(stack[..top], Closed(stack[top])))
  }

  /** The tree, with all blocks closed. */
  function Tree(stack: seq<Level>): Code
    requires stack != []
    decreases |stack|
  {
    var top := |stack| - 1;
    if top == 0 then ToCode(stack[0].done) else Tree(Grow(stack[..top], Closed(stack[top])))
  }

  /** A body is read up to `bodyEnd`; the END there is the last byte. */
  function ReadBody(s: seq<u8>, off: nat, bodyEnd: nat, end: nat, lim: Limits, stack: seq<Level>): Option<seq<Level>>
    requires end <= |s|
    decreases bodyEnd - off
  {
    if off >= bodyEnd then None
    else
      var d := Decode(s, off, end, lim);
      if d.Malformed? then None
      else if d.event == End && d.offset == bodyEnd then Some(stack)
      else if Apply(stack, d.event).None? then None
      else ReadBody(s, d.offset, bodyEnd, end, lim, Apply(stack, d.event).value)
  }

  const FUNCTION := [Level(FuncLevel, [], Nil, [])]
}
