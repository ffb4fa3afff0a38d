/** The entities the code generator, the interpreter, the validator and the
    binary writer share: types, opcodes, expression trees and modules. */
module Wasm {
  type u8 = x: int | 0 <= x < 0x100
  type u32 = x: int | 0 <= x < 0x1_0000_0000

  const INVALID: u32 := 0xffff_ffff  // WASM_INVALID_OFFSET and WASM_INVALID_INDEX

  datatype Option<+T> = None | Some(value: T)

  datatype Type = I32 | I64 | F32 | F64

  predicate Is64(t: Type) { t.I64? || t.F64? }

  /** Eight bytes, as the interpreter's value union stores them: the 32-bit
      members of the union overlay `lo` only. */
  datatype Bits = Bits(lo: u32, hi: u32)

  /** What reading a cell through the union member of type `t` yields. */
  function Canon(t: Type, b: Bits): Bits {
    if Is64(t) then b else Bits(b.lo, 0)
  }

  /** What a cell holds after writing `b` through the union member of type `t`:
      a 32-bit write leaves the upper half as it was. */
  function Overwrite(t: Type, b: Bits, cell: Bits): Bits {
    if Is64(t) then b else Bits(b.lo, cell.hi)
  }

  /** A value of the source language: a type and the bits of that type. */
  datatype Value = Value(ty: Type, bits: Bits)

  predicate HasType(v: Value, t: Type) {
    v.ty == t && v.bits == Canon(t, v.bits)
  }

  predicate HaveTypes(vs: seq<Value>, ts: seq<Type>) {
    |vs| == |ts| && forall i :: 0 <= i < |vs| ==> HasType(vs[i], ts[i])
  }

  function Zero(t: Type): Value { Value(t, Bits(0, 0)) }

  // ----- expression trees -----

  /** A linked list of expressions (WasmExpr and its `next` field). */
  datatype Code = Nil | Cons(head: Instr, tail: Code)

  /** Unary and convert expressions are both `Unary`, binary and compare
      expressions both `Binary`: the opcode tells them apart. A block signature
      holds at most one type (see Representable). */
  datatype Instr =
    | Const(ty: Type, bits: Bits)
    | Unary(op: u8)
    | Binary(op: u8)
    | Load(op: u8, align: u32, offset: u32)
    | Store(op: u8, align: u32, offset: u32)
    | GetLocal(local: u32)
    | SetLocal(local: u32)
    | TeeLocal(local: u32)
    | GetGlobal(global: u32)
    | SetGlobal(global: u32)
    | CurrentMemory
    | GrowMemory
    | Drop
    | Select
    | Nop
    | Unreachable
    | Return
    | Br(depth: u32)
    | BrIf(depth: u32)
    | BrTable(targets: seq<u32>, default: u32)
    | Call(func: u32)
    | CallIndirect(sigIndex: u32)
    | Block(sig: seq<Type>, body: Code)
    | Loop(sig: seq<Type>, body: Code)
    | If(sig: seq<Type>, thn: Code, hasElse: bool, els: Code)

  // ----- kinds of instructions -----

  predicate IsOperator(e: Instr) { e.Unary? || e.Binary? || e.Load? || e.Store? }

  predicate IsVariable(e: Instr) { e.GetLocal? || e.SetLocal? || e.TeeLocal? || e.GetGlobal? || e.SetGlobal? }

  predicate IsJump(e: Instr) { e.Br? || e.BrIf? || e.BrTable? || e.Return? || e.Unreachable? }

  predicate IsCall(e: Instr) { e.Call? || e.CallIndirect? }

  predicate IsNested(e: Instr) { e.Block? || e.Loop? || e.If? }

  predicate IsPlain(e: Instr) { !IsJump(e) && !IsCall(e) && !IsNested(e) }

  /** Control never reaches the instruction after one of these. */
  predicate Terminal(e: Instr) { IsJump(e) && !e.BrIf? }

  // ----- opcode tables (src/common.h) -----

  const UNREACHABLE: u8 := 0x00
  const NOP: u8 := 0x01
  const BLOCK: u8 := 0x02
  const LOOP: u8 := 0x03
  const IF: u8 := 0x04
  const ELSE: u8 := 0x05
  const END: u8 := 0x0b
  const BR: u8 := 0x0c
  const BR_IF: u8 := 0x0d
  const BR_TABLE: u8 := 0x0e
  const RETURN: u8 := 0x0f
  const CALL: u8 := 0x10
  const CALL_INDIRECT: u8 := 0x11
  const DROP: u8 := 0x1a
  const SELECT: u8 := 0x1b
  const GET_LOCAL: u8 := 0x20
  const SET_LOCAL: u8 := 0x21
  const TEE_LOCAL: u8 := 0x22
  const GET_GLOBAL: u8 := 0x23
  const SET_GLOBAL: u8 := 0x24
  const CURRENT_MEMORY: u8 := 0x3f
  const GROW_MEMORY: u8 := 0x40
  const I32_CONST: u8 := 0x41
  const I64_CONST: u8 := 0x42
  const F32_CONST: u8 := 0x43
  const F64_CONST: u8 := 0x44
  // opcodes the interpreter adds after the last one of the binary format
  const ALLOCA: u8 := 0xc0
  const BR_UNLESS: u8 := 0xc1
  const DATA: u8 := 0xc3
  const DROP_KEEP: u8 := 0xc4

  const TABLE_ENTRY_SIZE := 9

  function ConstOp(t: Type): u8 {
    match t
    case I32 => I32_CONST
    case I64 => I64_CONST
    case F32 => F32_CONST
    case F64 => F64_CONST
  }

  /** Operand and result type of the one-operand operators (unary, convert). */
  function UnarySig(op: u8): Option<(Type, Type)> {
    if op == 0x45 || 0x67 <= op <= 0x69 then Some((I32, I32))
    else if op == 0x50 || op == 0xa7 then Some((I64, I32))
    else if 0x79 <= op <= 0x7b then Some((I64, I64))
    else if 0x8b <= op <= 0x91 then Some((F32, F32))
    else if 0x99 <= op <= 0x9f then Some((F64, F64))
    else if 0xa8 <= op <= 0xa9 || op == 0xbc then Some((F32, I32))
    else if 0xaa <= op <= 0xab then Some((F64, I32))
    else if 0xac <= op <= 0xad then Some((I32, I64))
    else if 0xae <= op <= 0xaf then Some((F32, I64))
    else if 0xb0 <= op <= 0xb1 || op == 0xbd then Some((F64, I64))
    else if 0xb2 <= op <= 0xb3 || op == 0xbe then Some((I32, F32))
    else if 0xb4 <= op <= 0xb5 then Some((I64, F32))
    else if op == 0xb6 then Some((F64, F32))
    else if 0xb7 <= op <= 0xb8 then Some((I32, F64))
    else if 0xb9 <= op <= 0xba || op == 0xbf then Some((I64, F64))
    else if op == 0xbb then Some((F32, F64))
    else None
  }

  /** Operand and result type of the two-operand operators (binary, compare);
      both operands have the same type. */
  function BinarySig(op: u8): Option<(Type, Type)> {
    if 0x46 <= op <= 0x4f || 0x6a <= op <= 0x78 then Some((I32, I32))
    else if 0x51 <= op <= 0x5a then Some((I64, I32))
    else if 0x5b <= op <= 0x60 then Some((F32, I32))
    else if 0x61 <= op <= 0x66 then Some((F64, I32))
    else if 0x7c <= op <= 0x8a then Some((I64, I64))
    else if 0x92 <= op <= 0x98 then Some((F32, F32))
    else if 0xa0 <= op <= 0xa6 then Some((F64, F64))
    else None
  }

  /** Result type and access size of the load operators. */
  function LoadSig(op: u8): Option<(Type, u32)> {
    if op == 0x28 then Some((I32, 4))
    else if op == 0x29 then Some((I64, 8))
    else if op == 0x2a then Some((F32, 4))
    else if op == 0x2b then Some((F64, 8))
    else if 0x2c <= op <= 0x2d then Some((I32, 1))
    else if 0x2e <= op <= 0x2f then Some((I32, 2))
    else if 0x30 <= op <= 0x31 then Some((I64, 1))
    else if 0x32 <= op <= 0x33 then Some((I64, 2))
    else if 0x34 <= op <= 0x35 then Some((I64, 4))
    else None
  }

  /** Type of the stored value and access size of the store operators. */
  function StoreSig(op: u8): Option<(Type, u32)> {
    if op == 0x36 then Some((I32, 4))
    else if op == 0x37 then Some((I64, 8))
    else if op == 0x38 then Some((F32, 4))
    else if op == 0x39 then Some((F64, 8))
    else if op == 0x3a then Some((I32, 1))
    else if op == 0x3b then Some((I32, 2))
    else if op == 0x3c then Some((I64, 1))
    else if op == 0x3d then Some((I64, 2))
    else if op == 0x3e then Some((I64, 4))
    else None
  }

  /** An access of the alignment of its size: what the text leaves out. */
  const NATURAL: u32 := 0xffff_ffff

  function MemorySize(op: u8): u32 {
    if LoadSig(op).Some? then LoadSig(op).value.1 else if StoreSig(op).Some? then StoreSig(op).value.1 else 0
  }

  /** wasm_get_opcode_alignment */
  function Alignment(op: u8, align: u32): u32 { if align == NATURAL then MemorySize(op) else align }

  // ----- modules -----

  datatype FuncSig = FuncSig(params: seq<Type>, results: seq<Type>)

  /** A run of locals of one type, as the code section declares them. */
  datatype LocalDecl = LocalDecl(count: u32, ty: Type)

  function Replicate<T>(n: nat, x: T): (s: seq<T>)
    ensures |s| == n && forall i :: 0 <= i < n ==> s[i] == x
  {
    seq(n, i => x)
  }

  function Expand(decls: seq<LocalDecl>): seq<Type> {
    if decls == [] then []
    else Expand(decls[..|decls| - 1]) + Replicate(decls[|decls| - 1].count, decls[|decls| - 1].ty)
  }

  datatype Func = Func(sigIndex: nat, decls: seq<LocalDecl>, body: Code)

  datatype GlobalDecl = GlobalDecl(ty: Type, mutable: bool)

  /** A module without imports. `table` holds function indices; None is an
      element that no segment initialised. */
  datatype Module = Module(
    sigs: seq<FuncSig>,
    funcs: seq<Func>,
    globals: seq<GlobalDecl>,
    hasMemory: bool,
    hasTable: bool,
    table: seq<Option<nat>>)

  ghost predicate ModuleOk(m: Module) {
    && (forall f :: 0 <= f < |m.funcs| ==> m.funcs[f].sigIndex < |m.sigs|)
    && (forall i :: 0 <= i < |m.table| && m.table[i].Some? ==> m.table[i].value < |m.funcs|)
  }

  function SigOf(m: Module, f: nat): FuncSig
    requires f < |m.funcs| && m.funcs[f].sigIndex < |m.sigs|
  {
    m.sigs[m.funcs[f].sigIndex]
  }

  /** Types of the parameters and locals of a function, in index order. */
  function FrameTypes(m: Module, f: nat): seq<Type>
    requires f < |m.funcs| && m.funcs[f].sigIndex < |m.sigs|
  {
    SigOf(m, f).params + Expand(m.funcs[f].decls)
  }
}
