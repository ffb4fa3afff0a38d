/** Reading what the writer wrote gives back the tree. */
module RoundTrip {
  import opened Wasm
  import opened Assembly
  import opened Leb128
  import opened Powers
  import opened Binary

  /** Trees the reader can produce: constants of 32 bits have no upper half, the
      alignment is a power of two, opcodes belong to their kind, indices are in
      range, and a second arm that is present is not empty. */
  predicate Plain(e: Instr, lim: Limits)
    requires !IsNested(e)
  {
    match e
    case Const(t, b) => b == Canon(t, b)
    case Unary(op) => UnarySig(op).Some?
    case Binary(op) => BinarySig(op).Some?
    case Load(op, align, _) => LoadSig(op).Some? && IsPow2(align)
    case Store(op, align, _) => StoreSig(op).Some? && IsPow2(align)
    case BrTable(targets, _) => |targets| < 0x1_0000_0000
    case Call(f) => f < lim.funcs
    case CallIndirect(i) => i < lim.sigs
    case _ => true
  }

  /** Only with its alignments written out can a tree come from the reader; the
      bytes are the same. */
  lemma {:induction false} ExplicitBytes(code: Code)
    ensures CodeBytes(ExplicitCode(code)) == CodeBytes(code)
    decreases code, 0
  {
    hide InstrBytes, Explicit;
    if code.Cons? {
      ExplicitInstrBytes(code.head);
      ExplicitBytes(code.tail);
    }
  }

  lemma {:induction false} ExplicitInstrBytes(e: Instr)
    ensures InstrBytes(Explicit(e)) == InstrBytes(e)
    decreases e, 1
  {
    hide U32Bytes, Log2, CodeBytes, ExplicitCode, LoadSig, StoreSig, ConstBytes, DepthBytes, SigBytes;
    if e.Block? || e.Loop? {
      ExplicitBytes(e.body);
    } else if e.If? {
      ExplicitBytes(e.thn);
      ExplicitBytes(e.els);
    } else if e.Load? || e.Store? {
      SizesApart(e.op);
    }
  }

  lemma SizesApart(op: u8)
    ensures MemorySize(op) <= 8
  {}

  /** A tree the reader can produce has nothing left out. */
  lemma {:induction false} ExplicitAlready(code: Code, lim: Limits)
    requires Canonical(code, lim)
    ensures ExplicitCode(code) == code
    decreases code, 0
  {
    if code.Cons? {
      ExplicitInstr(code.head, lim);
      ExplicitAlready(code.tail, lim);
    }
  }

  lemma {:induction false} ExplicitInstr(e: Instr, lim: Limits)
    requires CanonicalInstr(e, lim)
    ensures Explicit(e) == e
    decreases e, 1
  {
    hide Pow2, Log2, LoadSig, StoreSig;
    if e.Block? || e.Loop? {
      ExplicitAlready(e.body, lim);
    } else if e.If? {
      ExplicitAlready(e.thn, lim);
      ExplicitAlready(e.els, lim);
    } else if e.Load? || e.Store? {
      NaturalOdd(e.align);
    }
  }

  lemma NaturalOdd(x: u32)
    requires IsPow2(x)
    ensures x != NATURAL
  {
    assert Log2(x) > 0 ==> x == 2 * Pow2(Log2(x) - 1);
  }

  predicate IsPow2(x: u32) { x == Pow2(Log2(x)) }

  predicate Canonical(code: Code, lim: Limits) {
    match code
    case Nil => true
    case Cons(e, rest) => CanonicalInstr(e, lim) && Canonical(rest, lim)
  }

  predicate CanonicalInstr(e: Instr, lim: Limits) {
    match e
    case Block(sig, body) => |sig| <= 1 && Canonical(body, lim)
    case Loop(sig, body) => |sig| <= 1 && Canonical(body, lim)
    case If(sig, thn, hasElse, els) =>
      |sig| <= 1 && Canonical(thn, lim) && Canonical(els, lim) && (hasElse <==> els != Nil)
    case _ => Plain(e, lim)
  }

  // ----- pieces of the stream -----

  /** Something follows within bounds. */
  ghost predicate Has(s: seq<u8>, off: nat, end: nat, bytes: seq<u8>) {
    BytesAt(s, off, bytes) && off + |bytes| <= end <= |s|
  }

  lemma HasSplit(s: seq<u8>, off: nat, end: nat, a: seq<u8>, b: seq<u8>)
    requires Has(s, off, end, a + b)
    ensures Has(s, off, end, a) && Has(s, off + |a|, end, b)
  {
    SplitBytes(s, off, a, b);
  }

  lemma HasBound(s: seq<u8>, off: nat, end: nat, bytes: seq<u8>)
    requires Has(s, off, end, bytes)
    ensures end <= |s|
  {}

  lemma HasOp(s: seq<u8>, off: nat, end: nat, op: u8, rest: seq<u8>)
    requires Has(s, off, end, [op] + rest)
    ensures off < end && s[off] == op && Has(s, off + 1, end, rest)
  {
    HasSplit(s, off, end, [op], rest);
    assert s[off] == s[off..off + 1][0];
  }

  lemma HasU32(s: seq<u8>, off: nat, end: nat, v: u32)
    requires Has(s, off, end, U32Bytes(v))
    ensures ReadU32(s, off, end) == Got(v, |U32Bytes(v)|)
  {
    hide U32Bytes, ReadU32;
    U32RoundTrip(s, off, end, v);
  }

  lemma HasWord(s: seq<u8>, off: nat, end: nat, w: u32)
    requires Has(s, off, end, Bytes(w))
    ensures WordAt(s, off) == w
  {
    hide Bytes, WordAt;
    assert ItemAt(s, off, Word(w));
    WordItem(s, off, w);
  }

  // ----- leaves -----

  lemma OpcodesOf(op: u8)
    ensures UnarySig(op).Some? || BinarySig(op).Some? ==> op >= 0x45
    ensures LoadSig(op).Some? || StoreSig(op).Some? ==> 0x28 <= op <= 0x3e
    ensures BinarySig(op).Some? ==> UnarySig(op).None?
    ensures StoreSig(op).Some? ==> LoadSig(op).None?
  {}

  /** Which decoder some of the opcodes lead to. */
  lemma DecodeIs(s: seq<u8>, off: nat, end: nat, lim: Limits)
    requires off < end <= |s|
    ensures s[off] == BR_TABLE ==> Decode(s, off, end, lim) == DecodeTable(s, off + 1, end)
    ensures s[off] == CALL_INDIRECT ==> Decode(s, off, end, lim) == DecodeIndirect(s, off + 1, end, lim)
    ensures 0x28 <= s[off] <= 0x3e && (LoadSig(s[off]).Some? || StoreSig(s[off]).Some?) ==>
      Decode(s, off, end, lim) == DecodeAccess(s, off + 1, end, s[off])
  {
    hide LoadSig, StoreSig, UnarySig, BinarySig;
    hide DecodeOpen, DecodeConst, DecodeTable, DecodeIndex, DecodeIndirect, DecodeAccess, DecodeReserved;
  }

  lemma LeafBare(s: seq<u8>, off: nat, end: nat, e: Instr, lim: Limits)
    requires e.Unary? || e.Binary? || e.Drop? || e.Select? || e.Nop? || e.Unreachable? || e.Return?
    requires Plain(e, lim) && Has(s, off, end, LeafBytes(e))
    ensures Decode(s, off, end, lim) == Next(Leaf(e), off + |LeafBytes(e)|)
  {
    hide DecodeOpen, DecodeConst, DecodeTable, DecodeIndex, DecodeIndirect, DecodeAccess, DecodeReserved;
    hide UnarySig, BinarySig, LoadSig, StoreSig;
    var op := LeafBytes(e)[0];
    assert LeafBytes(e) == [op] + [];
    HasOp(s, off, end, op, []);
    OpcodesOf(op);
    BareCodes();
  }

  lemma BareCodes()
    ensures forall op :: (op == DROP || op == SELECT || op == NOP || op == UNREACHABLE || op == RETURN) ==>
      LoadSig(op).None? && StoreSig(op).None?
  {}

  lemma LeafIndex(s: seq<u8>, off: nat, end: nat, op: u8, i: u32, lim: Limits)
    requires TakesIndex(op) && (op == CALL ==> i < lim.funcs) && Has(s, off, end, [op] + U32Bytes(i))
    ensures Decode(s, off, end, lim) == Next(Leaf(IndexInstr(op, i)), off + 1 + |U32Bytes(i)|)
  {
    hide DecodeOpen, DecodeConst, DecodeTable, DecodeIndirect, DecodeAccess, DecodeReserved;
    hide U32Bytes, ReadU32, IndexInstr, UnarySig, BinarySig, LoadSig, StoreSig;
    HasOp(s, off, end, op, U32Bytes(i));
    HasU32(s, off + 1, end, i);
  }

  lemma LeafReserved(s: seq<u8>, off: nat, end: nat, e: Instr, lim: Limits)
    requires (e.CurrentMemory? || e.GrowMemory?) && Has(s, off, end, LeafBytes(e))
    ensures Decode(s, off, end, lim) == Next(Leaf(e), off + |LeafBytes(e)|)
  {
    hide DecodeOpen, DecodeConst, DecodeTable, DecodeIndex, DecodeIndirect, DecodeAccess;
    hide U32Bytes, ReadU32, UnarySig, BinarySig;
    var op := if e.CurrentMemory? then CURRENT_MEMORY else GROW_MEMORY;
    HasOp(s, off, end, op, U32Bytes(0));
    HasU32(s, off + 1, end, 0);
  }

  lemma LeafIndirect(s: seq<u8>, off: nat, end: nat, i: u32, lim: Limits)
    requires i < lim.sigs && Has(s, off, end, LeafBytes(CallIndirect(i)))
    ensures Decode(s, off, end, lim) == Next(Leaf(CallIndirect(i)), off + |LeafBytes(CallIndirect(i))|)
  {
    hide Decode, DecodeIndirect, Has;
    hide U32Bytes, ReadU32, UnarySig, BinarySig, LoadSig, StoreSig;
    var tail := U32Bytes(i) + U32Bytes(0);
    assert LeafBytes(CallIndirect(i)) == [CALL_INDIRECT] + tail;
    HasOp(s, off, end, CALL_INDIRECT, tail);
    DecodeIs(s, off, end, lim);
    IndirectRead(s, off + 1, end, i, lim);
  }

  lemma IndirectRead(s: seq<u8>, off: nat, end: nat, i: u32, lim: Limits)
    requires i < lim.sigs && Has(s, off, end, U32Bytes(i) + U32Bytes(0))
    ensures DecodeIndirect(s, off, end, lim) == Next(Leaf(CallIndirect(i)), off + |U32Bytes(i) + U32Bytes(0)|)
  {
    hide U32Bytes, ReadU32;
    HasSplit(s, off, end, U32Bytes(i), U32Bytes(0));
    HasU32(s, off, end, i);
    HasU32(s, off + |U32Bytes(i)|, end, 0);
  }

  lemma {:induction false} Log2Small(x: nat)
    ensures x == Pow2(Log2(x)) && x < 0x1_0000_0000 ==> Log2(x) < 32
  {
    if x == Pow2(Log2(x)) && Log2(x) >= 32 {
      PowMore(32, Log2(x));
      assert Pow2(32) == 0x1_0000_0000 by {
        assert Pow2(8) == 0x100 && Pow2(16) == 0x1_0000 && Pow2(24) == 0x100_0000;
      }
    }
  }

  lemma LeafAccess(s: seq<u8>, off: nat, end: nat, e: Instr, lim: Limits)
    requires (e.Load? || e.Store?) && Plain(e, lim) && Has(s, off, end, LeafBytes(e))
    ensures Decode(s, off, end, lim) == Next(Leaf(e), off + |LeafBytes(e)|)
  {
    hide Decode, U32Bytes, ReadU32, UnarySig, BinarySig, LoadSig, StoreSig, Pow2, Log2;
    NaturalOdd(e.align);
    OpcodesOf(e.op);
    Log2Small(e.align);
    var a := Log2(e.align);
    ByteIsU32(a);
    var tail := U32Bytes(a) + U32Bytes(e.offset);
    assert LeafBytes(e) == [e.op] + tail;
    HasOp(s, off, end, e.op, tail);
    DecodeIs(s, off, end, lim);
    HasSplit(s, off + 1, end, U32Bytes(a), U32Bytes(e.offset));
    HasU32(s, off + 1, end, a);
    HasU32(s, off + 2, end, e.offset);
  }

  lemma ByteIsU32(a: nat)
    requires a < 0x80
    ensures U32Bytes(a) == [a % 0x100]
  {}

  lemma LeafConst(s: seq<u8>, off: nat, end: nat, e: Instr, lim: Limits)
    requires e.Const? && Plain(e, lim) && Has(s, off, end, LeafBytes(e))
    ensures Decode(s, off, end, lim) == Next(Leaf(e), off + |LeafBytes(e)|)
  {
    hide DecodeOpen, DecodeTable, DecodeIndex, DecodeIndirect, DecodeAccess, DecodeReserved;
    hide SignedBytes, Bytes, ReadI32, ReadI64, WordAt, UnarySig, BinarySig, LoadSig, StoreSig;
    var b := e.bits;
    HasOp(s, off, end, ConstOp(e.ty), ConstBytes(e.ty, b));
    match e.ty
    case I32 => I32RoundTrip(s, off + 1, end, b.lo);
    case I64 => I64RoundTrip(s, off + 1, end, Bits64(b));
    case F32 => HasWord(s, off + 1, end, b.lo);
    case F64 =>
      HasSplit(s, off + 1, end, Bytes(b.lo), Bytes(b.hi));
      HasWord(s, off + 1, end, b.lo);
      HasWord(s, off + 5, end, b.hi);
  }

  lemma {:induction false} TargetsRead(s: seq<u8>, off: nat, end: nat, depths: seq<u32>)
    requires Has(s, off, end, DepthBytes(depths))
    ensures DecodeTargets(s, off, end, |depths|) == Targets(depths, off + |DepthBytes(depths)|)
    decreases |depths|
  {
    hide U32Bytes, ReadU32;
    if depths != [] {
      var front, d := depths[..|depths| - 1], depths[|depths| - 1];
      HasSplit(s, off, end, DepthBytes(front), U32Bytes(d));
      TargetsRead(s, off, end, front);
      HasU32(s, off + |DepthBytes(front)|, end, d);
    }
  }

  lemma TableBytes(e: Instr, lim: Limits)
    requires e.BrTable? && Plain(e, lim)
    ensures |e.targets| < 0x1_0000_0000
    ensures LeafBytes(e) == [BR_TABLE] + (U32Bytes(|e.targets|) + DepthBytes(e.targets) + U32Bytes(e.default))
  {
    hide U32Bytes, DepthBytes;
  }

  lemma LeafTable(s: seq<u8>, off: nat, end: nat, e: Instr, lim: Limits)
    requires e.BrTable? && Plain(e, lim) && Has(s, off, end, LeafBytes(e))
    ensures Decode(s, off, end, lim) == Next(Leaf(e), off + |LeafBytes(e)|)
  {
    hide Decode, Has, LeafBytes, Plain;
    hide U32Bytes, ReadU32, DepthBytes, DecodeTargets, UnarySig, BinarySig, LoadSig, StoreSig;
    TableBytes(e, lim);
    var n, a, b, c := |e.targets|, U32Bytes(|e.targets|), DepthBytes(e.targets), U32Bytes(e.default);
    var tail := a + b + c;
    HasOp(s, off, end, BR_TABLE, tail);
    DecodeIs(s, off, end, lim);
    HasSplit(s, off + 1, end, a + b, c);
    HasSplit(s, off + 1, end, a, b);
    HasU32(s, off + 1, end, n);
    TargetsRead(s, off + 1 + |a|, end, e.targets);
    HasU32(s, off + 1 + |a| + |b|, end, e.default);
  }

  lemma LeafRead(s: seq<u8>, off: nat, end: nat, e: Instr, lim: Limits)
    requires !IsNested(e) && Plain(e, lim) && Has(s, off, end, LeafBytes(e))
    ensures Decode(s, off, end, lim) == Next(Leaf(e), off + |LeafBytes(e)|)
  {
    hide Decode, Has, U32Bytes;
    if e.Const? {
      LeafConst(s, off, end, e, lim);
    } else if e.Load? || e.Store? {
      LeafAccess(s, off, end, e, lim);
    } else if e.BrTable? {
      LeafTable(s, off, end, e, lim);
    } else if e.CallIndirect? {
      LeafIndirect(s, off, end, e.sigIndex, lim);
    } else if e.CurrentMemory? || e.GrowMemory? {
      LeafReserved(s, off, end, e, lim);
    } else if e.Br? || e.BrIf? || e.Call? || e.GetLocal? || e.SetLocal? || e.TeeLocal? || e.GetGlobal? || e.SetGlobal? {
      LeafIndexed(s, off, end, e, lim);
    } else {
      LeafBare(s, off, end, e, lim);
    }
  }

  lemma LeafIndexed(s: seq<u8>, off: nat, end: nat, e: Instr, lim: Limits)
    requires e.Br? || e.BrIf? || e.Call? || e.GetLocal? || e.SetLocal? || e.TeeLocal? || e.GetGlobal? || e.SetGlobal?
    requires Plain(e, lim) && Has(s, off, end, LeafBytes(e))
    ensures Decode(s, off, end, lim) == Next(Leaf(e), off + |LeafBytes(e)|)
  {
    hide Decode, Has, U32Bytes;
    match e
    case Br(d) => LeafIndex(s, off, end, BR, d, lim);
    case BrIf(d) => LeafIndex(s, off, end, BR_IF, d, lim);
    case Call(f) => LeafIndex(s, off, end, CALL, f, lim);
    case GetLocal(i) => LeafIndex(s, off, end, GET_LOCAL, i, lim);
    case SetLocal(i) => LeafIndex(s, off, end, SET_LOCAL, i, lim);
    case TeeLocal(i) => LeafIndex(s, off, end, TEE_LOCAL, i, lim);
    case GetGlobal(i) => LeafIndex(s, off, end, GET_GLOBAL, i, lim);
    case SetGlobal(i) => LeafIndex(s, off, end, SET_GLOBAL, i, lim);
  }

  // ----- block structure -----

  lemma SigRead(s: seq<u8>, off: nat, end: nat, sig: seq<Type>, kind: Opening)
    requires |sig| <= 1 && Has(s, off, end, SigBytes(sig))
    ensures DecodeOpen(s, off, end, kind) == Next(Open(kind, sig), off + |SigBytes(sig)|)
  {
    hide SignedBytes, ReadI32;
    var v := if sig == [] then VOID_CODE else TypeCode(sig[0]);
    var w: u32 := v + 0x1_0000_0000;
    assert Signed32(w) == v;
    I32RoundTrip(s, off, end, w);
    if sig != [] { assert sig == [sig[0]]; }
  }

  lemma OpenRead(s: seq<u8>, off: nat, end: nat, sig: seq<Type>, kind: Opening, lim: Limits)
    requires |sig| <= 1
    requires Has(s, off, end, [if kind == OpenBlock then BLOCK else if kind == OpenLoop then LOOP else IF] + SigBytes(sig))
    ensures Decode(s, off, end, lim) == Next(Open(kind, sig), off + 1 + |SigBytes(sig)|)
  {
    hide SigBytes, DecodeOpen;
    var op := if kind == OpenBlock then BLOCK else if kind == OpenLoop then LOOP else IF;
    HasOp(s, off, end, op, SigBytes(sig));
    SigRead(s, off + 1, end, sig, kind);
  }

  lemma MarkRead(s: seq<u8>, off: nat, end: nat, op: u8, lim: Limits)
    requires (op == END || op == ELSE) && Has(s, off, end, [op])
    ensures Decode(s, off, end, lim) == Next(if op == END then End else Else, off + 1)
  {
    assert [op] == [op] + [];
    HasOp(s, off, end, op, []);
  }

  /** One event, read from the middle of a body. */
  lemma Advance(s: seq<u8>, off: nat, bodyEnd: nat, end: nat, lim: Limits, stack: seq<Level>, event: Event, off': nat)
    requires off < off' < bodyEnd && end <= |s| && Decode(s, off, end, lim) == Next(event, off')
    requires Apply(stack, event).Some?
    ensures ReadBody(s, off, bodyEnd, end, lim, stack) == ReadBody(s, off', bodyEnd, end, lim, Apply(stack, event).value)
  {
    hide Decode, Apply;
  }

  /** One more instruction in the innermost block, several times. */
  function GrowAll(stack: seq<Level>, es: seq<Instr>): seq<Level>
    requires stack != []
  {
    var top := |stack| - 1;
    stack[top := stack[top].(done := stack[top].done + es)]
  }

  /** Reading the bytes of a body adds its instructions to the innermost block. */
  lemma {:induction false} CodeRead(s: seq<u8>, off: nat, bodyEnd: nat, end: nat, lim: Limits, stack: seq<Level>, code: Code)
    requires Canonical(code, lim) && Has(s, off, end, CodeBytes(code)) && off + |CodeBytes(code)| < bodyEnd && stack != []
    ensures ReadBody(s, off, bodyEnd, end, lim, stack)
      == ReadBody(s, off + |CodeBytes(code)|, bodyEnd, end, lim, GrowAll(stack, ToSeq(code)))
    decreases code, 0
  {
    hide ReadBody, CanonicalInstr, InstrBytes, Has;
    if code == Nil {
      assert stack[|stack| - 1].done + [] == stack[|stack| - 1].done;
      assert GrowAll(stack, []) == stack;
    } else {
      var e, rest := code.head, code.tail;
      HasSplit(s, off, end, InstrBytes(e), CodeBytes(rest));
      InstrRead(s, off, bodyEnd, end, lim, stack, e);
      CodeRead(s, off + |InstrBytes(e)|, bodyEnd, end, lim, Grow(stack, e), rest);
      GrowTwice(stack, e, ToSeq(rest));
    }
  }

  lemma GrowTwice(stack: seq<Level>, e: Instr, es: seq<Instr>)
    requires stack != []
    ensures GrowAll(Grow(stack, e), es) == GrowAll(stack, [e] + es)
  {
    Assoc(stack[|stack| - 1].done, [e], es);
  }

  lemma {:induction false} InstrRead(s: seq<u8>, off: nat, bodyEnd: nat, end: nat, lim: Limits, stack: seq<Level>, e: Instr)
    requires CanonicalInstr(e, lim) && Has(s, off, end, InstrBytes(e)) && off + |InstrBytes(e)| < bodyEnd && stack != []
    ensures ReadBody(s, off, bodyEnd, end, lim, stack)
      == ReadBody(s, off + |InstrBytes(e)|, bodyEnd, end, lim, Grow(stack, e))
    decreases e, 3
  {
    hide ReadBody, Has, LeafBytes, Plain, Decode;
    if e.Block? || e.Loop? {
      BlockRead(s, off, bodyEnd, end, lim, stack, e);
    } else if e.If? {
      IfRead(s, off, bodyEnd, end, lim, stack, e);
    } else {
      LeafRead(s, off, end, e, lim);
      LeafSome(e);
      HasBound(s, off, end, LeafBytes(e));
      Advance(s, off, bodyEnd, end, lim, stack, Leaf(e), off + |LeafBytes(e)|);
    }
  }

  lemma LeafSome(e: Instr)
    requires !IsNested(e)
    ensures |LeafBytes(e)| > 0
  {
    hide U32Bytes, ConstBytes, DepthBytes;
  }

  /** A level whose instructions are those of a body, closed again. */
  lemma {:induction false} CodeOfSeq(code: Code)
    ensures ToCode(ToSeq(code)) == code && (ToSeq(code) == [] <==> code == Nil)
  {
    if code.Cons? {
      CodeOfSeq(code.tail);
      assert ToSeq(code)[1..] == ToSeq(code.tail);
    }
  }

  lemma BlockRead(s: seq<u8>, off: nat, bodyEnd: nat, end: nat, lim: Limits, stack: seq<Level>, e: Instr)
    requires (e.Block? || e.Loop?) && CanonicalInstr(e, lim) && stack != []
    requires Has(s, off, end, InstrBytes(e)) && off + |InstrBytes(e)| < bodyEnd
    ensures ReadBody(s, off, bodyEnd, end, lim, stack)
      == ReadBody(s, off + |InstrBytes(e)|, bodyEnd, end, lim, Grow(stack, e))
    decreases e, 0
  {
    hide ReadBody, Has, CodeBytes, SigBytes, Decode, Canonical, Apply, GrowAll, ToCode, ToSeq;
    var kind := if e.Block? then OpenBlock else OpenLoop;
    var head, body := [if e.Block? then BLOCK else LOOP] + SigBytes(e.sig), CodeBytes(e.body);
    HasSplit(s, off, end, head + body, [END]);
    HasSplit(s, off, end, head, body);
    OpenRead(s, off, end, e.sig, kind, lim);
    Opened(stack, kind, e.sig);
    Advance(s, off, bodyEnd, end, lim, stack, Open(kind, e.sig), off + |head|);
    var inner := stack + [Level(LevelOf(kind), e.sig, Nil, [])];
    CodeRead(s, off + |head|, bodyEnd, end, lim, inner, e.body);
    var full := GrowAll(inner, ToSeq(e.body));
    MarkRead(s, off + |head| + |body|, end, END, lim);
    CodeOfSeq(e.body);
    FullLevel(stack, inner[|stack|], ToSeq(e.body));
    Advance(s, off + |head| + |body|, bodyEnd, end, lim, full, End, off + |head| + |body| + 1);
  }

  lemma Opened(stack: seq<Level>, kind: Opening, sig: seq<Type>)
    requires stack != []
    ensures Apply(stack, Open(kind, sig)) == Some(stack + [Level(LevelOf(kind), sig, Nil, [])])
  {}

  lemma FullLevel(stack: seq<Level>, l: Level, es: seq<Instr>)
    requires stack != [] && l.done == []
    ensures var full := GrowAll(stack + [l], es);
      full == stack + [l.(done := es)] && Apply(full, End) == Some(Grow(stack, Closed(l.(done := es))))
  {
    assert [] + es == es;
    var full := GrowAll(stack + [l], es);
    assert full[..|stack|] == stack;
  }

  lemma IfRead(s: seq<u8>, off: nat, bodyEnd: nat, end: nat, lim: Limits, stack: seq<Level>, e: Instr)
    requires e.If? && CanonicalInstr(e, lim) && stack != []
    requires Has(s, off, end, InstrBytes(e)) && off + |InstrBytes(e)| < bodyEnd
    ensures ReadBody(s, off, bodyEnd, end, lim, stack)
      == ReadBody(s, off + |InstrBytes(e)|, bodyEnd, end, lim, Grow(stack, e))
    decreases e, 2
  {
    hide ReadBody, Has, CodeBytes, SigBytes, Decode, Canonical, GrowAll, ToCode, ToSeq;
    var head, thn := [IF] + SigBytes(e.sig), CodeBytes(e.thn);
    var els := if e.hasElse then [ELSE] + CodeBytes(e.els) else [];
    HasSplit(s, off, end, head + thn + els, [END]);
    HasSplit(s, off, end, head + thn, els);
    HasSplit(s, off, end, head, thn);
    OpenRead(s, off, end, e.sig, OpenIf, lim);
    Opened(stack, OpenIf, e.sig);
    Advance(s, off, bodyEnd, end, lim, stack, Open(OpenIf, e.sig), off + |head|);
    var open := Level(IfLevel, e.sig, Nil, []);
    CodeRead(s, off + |head|, bodyEnd, end, lim, stack + [open], e.thn);
    CodeOfSeq(e.thn);
    FullLevel(stack, open, ToSeq(e.thn));
    ArmRead(s, off + |head| + |thn|, bodyEnd, end, lim, stack, e);
  }

  /** From the end of the first arm to the end of the `if`. */
  lemma ArmRead(s: seq<u8>, mid: nat, bodyEnd: nat, end: nat, lim: Limits, stack: seq<Level>, e: Instr)
    requires e.If? && CanonicalInstr(e, lim) && stack != []
    requires var els := if e.hasElse then [ELSE] + CodeBytes(e.els) else [];
      Has(s, mid, end, els) && Has(s, mid + |els|, end, [END]) && mid + |els| + 1 < bodyEnd
    ensures var els := if e.hasElse then [ELSE] + CodeBytes(e.els) else [];
      ReadBody(s, mid, bodyEnd, end, lim, stack + [Level(IfLevel, e.sig, Nil, ToSeq(e.thn))])
        == ReadBody(s, mid + |els| + 1, bodyEnd, end, lim, Grow(stack, e))
    decreases e, 1
  {
    hide ReadBody, Has, CodeBytes, SigBytes, Decode, Canonical;
    var first := Level(IfLevel, e.sig, Nil, ToSeq(e.thn));
    HasBound(s, mid, end, if e.hasElse then [ELSE] + CodeBytes(e.els) else []);
    CodeOfSeq(e.thn);
    CodeOfSeq(e.els);
    if e.hasElse {
      ElseRead(s, mid, bodyEnd, end, lim, stack, e);
    } else {
      FullLevel(stack, first.(done := []), ToSeq(e.thn));
      MarkRead(s, mid, end, END, lim);
      Advance(s, mid, bodyEnd, end, lim, stack + [first], End, mid + 1);
    }
  }

  lemma ElseRead(s: seq<u8>, mid: nat, bodyEnd: nat, end: nat, lim: Limits, stack: seq<Level>, e: Instr)
    requires e.If? && e.hasElse && CanonicalInstr(e, lim) && stack != [] && end <= |s|
    requires Has(s, mid, end, [ELSE] + CodeBytes(e.els)) && Has(s, mid + 1 + |CodeBytes(e.els)|, end, [END])
    requires mid + |CodeBytes(e.els)| + 2 < bodyEnd && ToCode(ToSeq(e.thn)) == e.thn
    requires ToCode(ToSeq(e.els)) == e.els && ToSeq(e.els) != []
    ensures ReadBody(s, mid, bodyEnd, end, lim, stack + [Level(IfLevel, e.sig, Nil, ToSeq(e.thn))])
      == ReadBody(s, mid + |CodeBytes(e.els)| + 2, bodyEnd, end, lim, Grow(stack, e))
    decreases e, 0
  {
    hide ReadBody, Has, CodeBytes, SigBytes, Decode, Canonical, Apply, GrowAll, ToCode, ToSeq;
    var els, first, second := CodeBytes(e.els), Level(IfLevel, e.sig, Nil, ToSeq(e.thn)), Level(ElseLevel, e.sig, e.thn, []);
    HasSplit(s, mid, end, [ELSE], els);
    MarkRead(s, mid, end, ELSE, lim);
    ElseApplied(stack, first, second);
    Advance(s, mid, bodyEnd, end, lim, stack + [first], Else, mid + 1);
    CodeRead(s, mid + 1, bodyEnd, end, lim, stack + [second], e.els);
    FullLevel(stack, second, ToSeq(e.els));
    MarkRead(s, mid + 1 + |els|, end, END, lim);
    Advance(s, mid + 1 + |els|, bodyEnd, end, lim, stack + [second.(done := ToSeq(e.els))], End, mid + 1 + |els| + 1);
  }

  lemma ElseApplied(stack: seq<Level>, first: Level, second: Level)
    requires first.kind == IfLevel && second == Level(ElseLevel, first.sig, ToCode(first.done), [])
    ensures Apply(stack + [first], Else) == Some(stack + [second])
  {
    assert (stack + [first])[|stack| := second] == stack + [second];
  }

  /** A whole function body: its code, and the END that closes it. It is read back
      with its alignments written out. */
  lemma BodyRead(s: seq<u8>, off: nat, bodyEnd: nat, end: nat, lim: Limits, code: Code)
    requires Canonical(ExplicitCode(code), lim) && Has(s, off, end, CodeBytes(code) + [END]) && bodyEnd == off + |CodeBytes(code)| + 1
    ensures var r := ReadBody(s, off, bodyEnd, end, lim, FUNCTION);
      r.Some? && r.value != [] && Tree(r.value) == ExplicitCode(code)
  {
    hide ReadBody, Has, CodeBytes, Decode, Canonical, ExplicitCode;
    var read := ExplicitCode(code);
    ExplicitBytes(code);
    HasSplit(s, off, end, CodeBytes(read), [END]);
    CodeRead(s, off, bodyEnd, end, lim, FUNCTION, read);
    MarkRead(s, off + |CodeBytes(code)|, end, END, lim);
    CodeOfSeq(read);
    assert [] + ToSeq(read) == ToSeq(read);
    LastRead(s, off + |CodeBytes(code)|, bodyEnd, end, lim, GrowAll(FUNCTION, ToSeq(read)));
  }

  lemma LastRead(s: seq<u8>, off: nat, bodyEnd: nat, end: nat, lim: Limits, stack: seq<Level>)
    requires end <= |s| && Decode(s, off, end, lim) == Next(End, bodyEnd)
    ensures ReadBody(s, off, bodyEnd, end, lim, stack) == Some(stack)
  {
    hide Decode;
  }
}
