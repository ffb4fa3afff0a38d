/** Reading a function body (src/binary-reader.c:165-186, 1215-1638): a cursor
    over the bytes of a module, and a loop that turns opcodes into callbacks. */
module BodyReader {
  import opened Wasm
  import opened Assembly
  import opened Leb128
  import opened Binary
  import opened TreeBuilder
  import opened Forest

  class Reader {
    const data: seq<u8>
    const limits: Limits
    const forest: Trees
    const readEnd: nat  // end of the section
    var offset: nat

    ghost predicate Valid() { readEnd <= |data| }

    constructor (data: seq<u8>, limits: Limits, forest: Trees, offset: nat, readEnd: nat)
      requires readEnd <= |data|
      ensures Valid() && this.data == data && this.limits == limits && this.forest == forest
      ensures this.readEnd == readEnd && this.offset == offset
    {
      this.data, this.limits, this.forest, this.readEnd, this.offset := data, limits, forest, readEnd, offset;
    }

    method InU8() returns (ok: bool, value: u8)
      requires Valid()
      modifies this`offset
      ensures ok <==> old(offset) + 1 <= readEnd
      ensures ok ==> value == data[old(offset)] && offset == old(offset) + 1
    {
      ok, value := offset + 1 <= readEnd, 0;
      if ok {
        value := data[offset];
        offset := offset + 1;
      }
    }

    method InU32() returns (ok: bool, value: u32)
      requires Valid()
      modifies this`offset
      ensures ok <==> old(offset) + 4 <= readEnd
      ensures ok ==> value == WordAt(data, old(offset)) && offset == old(offset) + 4
    {
      ok, value := offset + 4 <= readEnd, 0;
      if ok {
        value := WordAt(data, offset);
        offset := offset + 4;
      }
    }

    method InU32Leb128() returns (ok: bool, value: u32)
      requires Valid()
      modifies this`offset
      ensures offset >= old(offset)
      ensures ReadU32(data, old(offset), readEnd) == if ok then Got(value, offset - old(offset)) else Failed
    {
      var r := ReadU32(data, offset, readEnd);
      ok, value := r.Got?, 0;
      if ok {
        value, offset := r.value, offset + r.length;
      }
    }

    method InI32Leb128() returns (ok: bool, value: u32)
      requires Valid()
      modifies this`offset
      ensures offset >= old(offset)
      ensures ReadI32(data, old(offset), readEnd) == if ok then Got(value, offset - old(offset)) else Failed
    {
      var r := ReadI32(data, offset, readEnd);
      ok, value := r.Got?, 0;
      if ok {
        value, offset := r.value, offset + r.length;
      }
    }

    method InI64Leb128() returns (ok: bool, value: u64)
      requires Valid()
      modifies this`offset
      ensures offset >= old(offset)
      ensures ReadI64(data, old(offset), readEnd) == if ok then Got(value, offset - old(offset)) else Failed
    {
      var r := ReadI64(data, offset, readEnd);
      ok, value := r.Got?, 0;
      if ok {
        value, offset := r.value, offset + r.length;
      }
    }

    /** The operands read so far are those of the decoded instruction. */
    ghost predicate Reads(d: Decoded, ok: bool, event: Event)
      reads this`offset
    {
      d == if ok then Next(event, offset) else Malformed
    }

    method ReadOpen(kind: Opening) returns (ok: bool, event: Event)
      requires Valid()
      modifies this`offset
      ensures Reads(DecodeOpen(data, old(offset), readEnd, kind), ok, event)
    {
      hide ReadI32;
      event := Else;
      var value;
      ok, value := InI32Leb128();
      if ok {
        var sig := DecodeType(value);
        ok := sig.Some?;
        if ok { event := Open(kind, sig.value); }
      }
    }

    method ReadConst(t: Type) returns (ok: bool, event: Event)
      requires Valid()
      modifies this`offset
      ensures Reads(DecodeConst(data, old(offset), readEnd, t), ok, event)
    {
      hide ReadI32, ReadI64, WordAt;
      event := Else;
      if t == I32 {
        var value;
        ok, value := InI32Leb128();
        event := Leaf(Const(I32, Bits(value, 0)));
      } else if t == I64 {
        var value;
        ok, value := InI64Leb128();
        event := Leaf(Const(I64, Bits(value % 0x1_0000_0000, value / 0x1_0000_0000)));
      } else if t == F32 {
        var value;
        ok, value := InU32();
        event := Leaf(Const(F32, Bits(value, 0)));
      } else {
        ok, event := ReadDouble();
      }
    }

    method ReadDouble() returns (ok: bool, event: Event)
      requires Valid()
      modifies this`offset
      ensures Reads(DecodeConst(data, old(offset), readEnd, F64), ok, event)
    {
      hide WordAt;
      event := Else;
      ok := offset + 8 <= readEnd;
      if ok {
        var _, lo := InU32();
        var _, hi := InU32();
        event := Leaf(Const(F64, Bits(lo, hi)));
      }
    }

    method ReadTargets(n: nat) returns (ok: bool, depths: seq<u32>)
      requires Valid()
      modifies this`offset
      ensures DecodeTargets(data, old(offset), readEnd, n) == if ok then Targets(depths, offset) else BadTargets
    {
      hide ReadU32;
      ok, depths := true, [];
      var i := 0;
      while i < n && ok
        invariant 0 <= i <= n
        invariant DecodeTargets(data, old(offset), readEnd, i) == if ok then Targets(depths, offset) else BadTargets
        decreases n - i, ok
      {
        var depth;
        ok, depth := InU32Leb128();
        depths := depths + [depth];
        i := i + 1;
      }
      if !ok { BadStays(data, old(offset), readEnd, i, n); }
    }

    method ReadTable() returns (ok: bool, event: Event)
      requires Valid()
      modifies this`offset
      ensures Reads(DecodeTable(data, old(offset), readEnd), ok, event)
    {
      hide ReadU32, DecodeTargets;
      event := Else;
      var n;
      ok, n := InU32Leb128();
      if ok {
        var depths;
        ok, depths := ReadTargets(n);
        if ok {
          var default;
          ok, default := InU32Leb128();
          event := Leaf(BrTable(depths, default));
        }
      }
    }

    method ReadAccess(op: u8) returns (ok: bool, event: Event)
      requires Valid()
      modifies this`offset
      ensures Reads(DecodeAccess(data, old(offset), readEnd, op), ok, event)
    {
      hide ReadU32, LoadSig, Shifted;
      event := Else;
      var alignmentLog2;
      ok, alignmentLog2 := InU32Leb128();
      if ok {
        var memoryOffset;
        ok, memoryOffset := InU32Leb128();
        var align := Shifted(alignmentLog2);
        event := Leaf(if LoadSig(op).Some? then Load(op, align, memoryOffset) else Store(op, align, memoryOffset));
      }
    }

    method ReadIndex(op: u8) returns (ok: bool, event: Event)
      requires Valid() && TakesIndex(op)
      modifies this`offset
      ensures Reads(DecodeIndex(data, old(offset), readEnd, op, limits), ok, event)
    {
      hide ReadU32, IndexInstr;
      event := Else;
      var index;
      ok, index := InU32Leb128();
      ok := ok && !(op == CALL && index >= limits.funcs);
      if ok { event := Leaf(IndexInstr(op, index)); }
    }

    method ReadIndirect() returns (ok: bool, event: Event)
      requires Valid()
      modifies this`offset
      ensures Reads(DecodeIndirect(data, old(offset), readEnd, limits), ok, event)
    {
      hide ReadU32;
      event := Else;
      var sigIndex;
      ok, sigIndex := InU32Leb128();
      ok := ok && sigIndex < limits.sigs;
      if ok {
        var reserved;
        ok, reserved := InU32Leb128();
        ok := ok && reserved == 0;
        event := Leaf(CallIndirect(sigIndex));
      }
    }

    method ReadReserved(e: Instr) returns (ok: bool, event: Event)
      requires Valid()
      modifies this`offset
      ensures Reads(DecodeReserved(data, old(offset), readEnd, e), ok, event)
    {
      hide ReadU32;
      var reserved;
      ok, reserved := InU32Leb128();
      ok := ok && reserved == 0;
      event := Leaf(e);
    }

    /** The operands of an opcode. */
    method ReadOperands(op: u8) returns (ok: bool, event: Event)
      requires Valid()
      modifies this`offset
      ensures Reads(DecodeOperands(data, old(offset), readEnd, op, limits), ok, event)
    {
      hide DecodeOpen, DecodeConst, DecodeTable, DecodeIndex, DecodeIndirect, DecodeAccess, DecodeReserved, BareInstr,
        UnarySig, BinarySig, LoadSig, StoreSig;
      ok, event := true, Else;
      if BLOCK <= op <= IF {
        ok, event := ReadOpen(if op == BLOCK then OpenBlock else if op == LOOP then OpenLoop else OpenIf);
      } else if op == ELSE {
      } else if op == END {
        event := End;
      } else if I32_CONST <= op <= F64_CONST {
        ok, event := ReadConst(if op == I32_CONST then I32 else if op == I64_CONST then I64 else if op == F32_CONST then F32 else F64);
      } else {
        ok, event := ReadOther(op);
      }
    }

    method ReadOther(op: u8) returns (ok: bool, event: Event)
      requires Valid() && !(BLOCK <= op <= IF) && op != ELSE && op != END && !(I32_CONST <= op <= F64_CONST)
      modifies this`offset
      ensures Reads(DecodeOperands(data, old(offset), readEnd, op, limits), ok, event)
    {
      hide DecodeOpen, DecodeConst, DecodeTable, DecodeIndex, DecodeIndirect, DecodeAccess, DecodeReserved, BareInstr,
        UnarySig, BinarySig, LoadSig, StoreSig;
      event := Else;
      if op == BR_TABLE {
        ok, event := ReadTable();
      } else if TakesIndex(op) {
        ok, event := ReadIndex(op);
      } else if op == CALL_INDIRECT {
        ok, event := ReadIndirect();
      } else if LoadSig(op).Some? || StoreSig(op).Some? {
        ok, event := ReadAccess(op);
      } else if op == CURRENT_MEMORY || op == GROW_MEMORY {
        ok, event := ReadReserved(if op == CURRENT_MEMORY then CurrentMemory else GrowMemory);
      } else {
        ok := BareInstr(op).Some?;
        if ok { event := Leaf(BareInstr(op).value); }
      }
    }

    /** read_function_body: the events of the bytes up to `endOffset`, the last of
        which is the END of the function. */
    method ReadFunctionBody(endOffset: nat) returns (a: Answer)
      requires Valid() && forest.Valid() && forest.work != []
      modifies this`offset, forest`open, forest`lost, forest`work, forest.builders
      ensures Sane(old(forest.Labels()))
      ensures var r := ReadBodies(data, old(offset), endOffset, readEnd, limits, old(forest.Labels()));
        Answers(a, r) && (a.Yes? ==> offset == endOffset && forest.Valid() && forest.Labels() == r.all)
    {
      hide Decode, ApplyAll, Trees.Valid, Sane;
      ghost var start := forest.Labels();
      var seenEnd := false;
      a := Yes;
      forest.TopIsLast();
      while offset < endOffset && a.Yes? && !seenEnd
        invariant Valid() && (a.Yes? ==> forest.Valid() && Sane(forest.Labels()) && forest.work != []) && forest.builders == old(forest.builders)
        invariant a.Yes? && !seenEnd ==>
          ReadBodies(data, old(offset), endOffset, readEnd, limits, start) == ReadBodies(data, offset, endOffset, readEnd, limits, forest.Labels())
        invariant seenEnd ==> a.Yes? && offset == endOffset
        invariant seenEnd ==> ReadBodies(data, old(offset), endOffset, readEnd, limits, start) == Goes(forest.Labels())
        invariant !a.Yes? ==> Answers(a, ReadBodies(data, old(offset), endOffset, readEnd, limits, start))
        decreases a.Yes?, endOffset - offset
      {
        var ok, event := ReadEvent();
        if !ok {
          a := No;
        } else if event == End && offset == endOffset {
          seenEnd := true;
        } else {
          a := forest.Notify(event);
        }
      }
      if a.Yes? && !(offset == endOffset && seenEnd) { a := No; }
    }

    method ReadEvent() returns (ok: bool, event: Event)
      requires Valid()
      modifies this`offset
      ensures Reads(Decode(data, old(offset), readEnd, limits), ok, event) && (ok ==> offset > old(offset))
      ensures ok && event.Leaf? ==> !IsNested(event.e)
    {
      hide DecodeOperands;
      event := Else;
      var opcode;
      ok, opcode := InU8();
      if ok {
        ok, event := ReadOperands(opcode);
        LeafOnly(data, old(offset) + 1, readEnd, opcode, limits);
      }
    }
  }

  lemma {:induction false} BadStays(s: seq<u8>, off: nat, end: nat, i: nat, n: nat)
    requires end <= |s| && i <= n && DecodeTargets(s, off, end, i).BadTargets?
    ensures DecodeTargets(s, off, end, n).BadTargets?
    decreases n
  {
    if i < n { BadStays(s, off, end, i, n - 1); }
  }

  /** Blocks are events of their own. */
  lemma LeafOnly(s: seq<u8>, off: nat, end: nat, op: u8, lim: Limits)
    requires end <= |s|
    ensures var d := DecodeOperands(s, off, end, op, lim); d.Next? && d.event.Leaf? ==> !IsNested(d.event.e)
  {
    hide ReadU32, ReadI32, ReadI64, DecodeTargets, UnarySig, BinarySig, LoadSig, StoreSig, WordAt;
  }
}
