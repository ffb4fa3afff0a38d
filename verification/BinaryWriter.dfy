/** The binary writer (src/binary-writer.c): it walks the tree, appends to a
    stream, and patches sizes it did not know, moving what follows them. */
module BinaryWriter {
  import opened Wasm
  import opened Assembly
  import opened Leb128
  import opened Binary
  import opened OutputStream

  // ----- the bytes, built bottom-up -----

  /** Runs of equal types. */
  function Runs(ts: seq<Type>): (runs: seq<LocalDecl>)
    requires |ts| < 0x1_0000_0000
    ensures |runs| <= |ts| && (ts != [] ==> runs != [] && runs[|runs| - 1].ty == ts[|ts| - 1])
    ensures forall i :: 0 <= i < |runs| ==> runs[i].count <= |ts|
  {
    if ts == [] then []
    else
      var front, t := Runs(ts[..|ts| - 1]), ts[|ts| - 1];
      if front != [] && front[|front| - 1].ty == t then
        front[|front| - 1 := LocalDecl(front[|front| - 1].count + 1, t)]
      else front + [LocalDecl(1, t)]
  }

  function RunBytes(runs: seq<LocalDecl>): seq<u8> {
    if runs == [] then []
    else RunBytes(runs[..|runs| - 1]) + (U32Bytes(runs[|runs| - 1].count) + SigBytes([runs[|runs| - 1].ty]))
  }

  function LocalBytes(ts: seq<Type>): seq<u8>
    requires |ts| < 0x1_0000_0000
  {
    U32Bytes(|Runs(ts)|) + RunBytes(Runs(ts))
  }

  datatype FuncBody = FuncBody(locals: seq<Type>, code: Code)

  predicate Writable(f: FuncBody) { |f.locals| < 0x1_0000_0000 }

  function FuncBytes(f: FuncBody): seq<u8>
    requires Writable(f)
  {
    LocalBytes(f.locals) + CodeBytes(f.code) + [END]
  }

  /** A size prefix: minimal, or padded to five bytes. */
  function SizeBytes(canonicalize: bool, n: nat): seq<u8> {
    if canonicalize then U32Bytes(n) else FixedBytes(n % 0x1_0000_0000)
  }

  function Sized(canonicalize: bool, payload: seq<u8>): seq<u8> {
    SizeBytes(canonicalize, |payload|) + payload
  }

  function BodiesBytes(canonicalize: bool, funcs: seq<FuncBody>): seq<u8>
    requires forall i :: 0 <= i < |funcs| ==> Writable(funcs[i])
  {
    if funcs == [] then []
    else BodiesBytes(canonicalize, funcs[..|funcs| - 1]) + Sized(canonicalize, FuncBytes(funcs[|funcs| - 1]))
  }

  const CODE_SECTION: u8 := 10

  function CodeSection(canonicalize: bool, funcs: seq<FuncBody>): seq<u8>
    requires forall i :: 0 <= i < |funcs| ==> Writable(funcs[i])
  {
    [CODE_SECTION] + Sized(canonicalize, U32Bytes(|funcs|) + BodiesBytes(canonicalize, funcs))
  }

  // ----- locals -----

  lemma ExpandSnoc(runs: seq<LocalDecl>, run: LocalDecl)
    ensures Expand(runs + [run]) == Expand(runs) + Replicate(run.count, run.ty)
  {
    assert (runs + [run])[..|runs|] == runs;
  }

  lemma ReplicateSnoc(n: nat, t: Type)
    ensures Replicate(n + 1, t) == Replicate(n, t) + [t]
  {}

  /** The runs expand to the types they were made from. */
  lemma {:induction false} RunsExpand(ts: seq<Type>)
    requires |ts| < 0x1_0000_0000
    ensures Expand(Runs(ts)) == ts
  {
    hide Expand, Replicate;
    if ts == [] {
      NoRuns();
    } else {
      var front, t := ts[..|ts| - 1], ts[|ts| - 1];
      var runs := Runs(front);
      RunsExpand(front);
      if runs != [] && runs[|runs| - 1].ty == t {
        Longer(runs, t);
      } else {
        ExpandSnoc(runs, LocalDecl(1, t));
        assert Replicate(1, t) == [t];
      }
    }
  }

  /** One more in the last run. */
  lemma Longer(runs: seq<LocalDecl>, t: Type)
    requires runs != [] && runs[|runs| - 1].ty == t && runs[|runs| - 1].count + 1 < 0x1_0000_0000
    ensures Expand(runs[|runs| - 1 := LocalDecl(runs[|runs| - 1].count + 1, t)]) == Expand(runs) + [t]
  {
    hide Expand, Replicate;
    var below, last := runs[..|runs| - 1], runs[|runs| - 1];
    assert runs == below + [last] && runs[|runs| - 1 := LocalDecl(last.count + 1, t)] == below + [LocalDecl(last.count + 1, t)];
    ExpandSnoc(below, last);
    ExpandSnoc(below, LocalDecl(last.count + 1, t));
    ReplicateSnoc(last.count, t);
    Assoc(Expand(below), Replicate(last.count, t), [t]);
  }

  lemma NoRuns()
    ensures Expand([]) == []
  {}

  /** Neighbouring runs differ, and none is empty: there are no fewer runs. */
  lemma {:induction false} RunsMaximal(ts: seq<Type>)
    requires |ts| < 0x1_0000_0000
    ensures forall i :: 0 <= i < |Runs(ts)| - 1 ==> Runs(ts)[i].ty != Runs(ts)[i + 1].ty
    ensures forall i :: 0 <= i < |Runs(ts)| ==> Runs(ts)[i].count > 0
  {
    if ts != [] { RunsMaximal(ts[..|ts| - 1]); }
  }

  // ----- writing -----

  class Writer {
    const stream: Stream
    const canonicalize: bool
    var lastSectionOffset: nat
    var lastSectionLebSizeGuess: nat

    constructor (stream: Stream, canonicalize: bool)
      ensures this.stream == stream && this.canonicalize == canonicalize && lastSectionLebSizeGuess == 0
    {
      this.stream, this.canonicalize, lastSectionOffset, lastSectionLebSizeGuess := stream, canonicalize, 0, 0;
    }

    /** `bytes` have been written behind `s`. */
    twostate predicate Wrote(s: seq<u8>, bytes: seq<u8>)
      reads stream, stream.start
    {
      stream.Holds(s + bytes) && (stream.start == old(stream.start) || fresh(stream.start))
    }

    method WriteOpcode(opcode: u8, ghost s: seq<u8>)
      requires stream.Holds(s)
      modifies stream, stream.start
      ensures Wrote(s, [opcode])
    {
      stream.WriteData([opcode], s);
    }

    method WriteU32Leb128(value: u32, ghost s: seq<u8>)
      requires stream.Holds(s)
      modifies stream, stream.start
      ensures Wrote(s, U32Bytes(value))
    {
      hide U32Bytes;
      var data := WriteU32(value);
      stream.WriteData(data, s);
    }

    method WriteSignedLeb128(value: int, ghost s: seq<u8>)
      requires stream.Holds(s)
      modifies stream, stream.start
      ensures Wrote(s, SignedBytes(value))
    {
      hide SignedBytes;
      var data := WriteSigned(value);
      stream.WriteData(data, s);
    }

    method WriteWord(value: u32, ghost s: seq<u8>)
      requires stream.Holds(s)
      modifies stream, stream.start
      ensures Wrote(s, Bytes(value))
    {
      stream.WriteData(Bytes(value), s);
    }

    /** An opcode and an index. */
    method WriteIndexed(opcode: u8, index: u32, ghost s: seq<u8>)
      requires stream.Holds(s)
      modifies stream, stream.start
      ensures Wrote(s, [opcode] + U32Bytes(index))
    {
      hide U32Bytes;
      WriteOpcode(opcode, s);
      WriteU32Leb128(index, s + [opcode]);
      Assoc(s, [opcode], U32Bytes(index));
    }

    method WriteInlineSignature(sig: seq<Type>, ghost s: seq<u8>)
      requires stream.Holds(s)
      modifies stream, stream.start
      ensures Wrote(s, SigBytes(sig))
    {
      hide SignedBytes;
      if sig == [] {
        WriteSignedLeb128(VOID_CODE, s);
      } else if |sig| == 1 {
        WriteSignedLeb128(TypeCode(sig[0]), s);
      } else {
        WriteOpcode(0xff, s);
      }
    }

    method WriteConst(t: Type, b: Bits, ghost s: seq<u8>)
      requires stream.Holds(s)
      modifies stream, stream.start
      ensures Wrote(s, [ConstOp(t)] + ConstBytes(t, b))
    {
      hide SignedBytes, Bytes, ConstOp, Stream.Holds;
      WriteOpcode(ConstOp(t), s);
      ghost var s1 := s + [ConstOp(t)];
      Assoc(s, [ConstOp(t)], ConstBytes(t, b));
      if t == I32 {
        WriteSignedLeb128(Signed32(b.lo), s1);
      } else if t == I64 {
        WriteSignedLeb128(Signed64(Bits64(b)), s1);
      } else if t == F32 {
        WriteWord(b.lo, s1);
      } else {
        WriteWord(b.lo, s1);
        WriteWord(b.hi, s1 + Bytes(b.lo));
        Assoc(s1, Bytes(b.lo), Bytes(b.hi));
      }
    }

    method WriteAccess(opcode: u8, align: u32, offset: u32, ghost s: seq<u8>)
      requires stream.Holds(s)
      modifies stream, stream.start
      ensures Wrote(s, [opcode, Log2(Alignment(opcode, align)) % 0x100] + U32Bytes(offset))
    {
      hide U32Bytes, Log2, Alignment, Stream.Holds;
      WriteOpcode(opcode, s);
      var log := Log2Of(Alignment(opcode, align));
      WriteOpcode(log % 0x100, s + [opcode]);
      ghost var head := [opcode, log % 0x100];
      assert s + [opcode] + [log % 0x100] == s + head;
      WriteU32Leb128(offset, s + head);
      Assoc(s, head, U32Bytes(offset));
    }

    method WriteBrTable(targets: seq<u32>, default: u32, ghost s: seq<u8>)
      requires stream.Holds(s)
      modifies stream, stream.start
      ensures Wrote(s, LeafBytes(BrTable(targets, default)))
    {
      hide U32Bytes, DepthBytes, Stream.Holds;
      var n: u32 := |targets| % 0x1_0000_0000;
      WriteIndexed(BR_TABLE, n, s);
      ghost var s1, head := s + ([BR_TABLE] + U32Bytes(n)), [BR_TABLE] + U32Bytes(n);
      WriteDepths(targets, s1);
      WriteU32Leb128(default, s1 + DepthBytes(targets));
      Assoc(s, head, DepthBytes(targets));
      Assoc(s, head + DepthBytes(targets), U32Bytes(default));
    }

    method WriteDepths(depths: seq<u32>, ghost s: seq<u8>)
      requires stream.Holds(s)
      modifies stream, stream.start
      ensures Wrote(s, DepthBytes(depths))
    {
      hide U32Bytes, Stream.Holds;
      var i := 0;
      assert s + [] == s;
      while i < |depths|
        invariant 0 <= i <= |depths|
        invariant Wrote(s, DepthBytes(depths[..i]))
      {
        WriteU32Leb128(depths[i], s + DepthBytes(depths[..i]));
        assert depths[..i + 1][..i] == depths[..i];
        Assoc(s, DepthBytes(depths[..i]), U32Bytes(depths[i]));
        i := i + 1;
      }
      assert depths[..i] == depths;
    }

    method WriteLeaf(e: Instr, ghost s: seq<u8>)
      requires !IsNested(e) && stream.Holds(s)
      modifies stream, stream.start
      ensures Wrote(s, LeafBytes(e))
    {
      hide U32Bytes, Log2, Alignment, ConstBytes, DepthBytes, Stream.Holds;
      if e.Const? {
        WriteConst(e.ty, e.bits, s);
      } else if e.Unary? || e.Binary? {
        WriteOpcode(e.op, s);
      } else if e.Load? || e.Store? {
        WriteAccess(e.op, e.align, e.offset, s);
      } else if e.BrTable? {
        WriteBrTable(e.targets, e.default, s);
      } else if e.CallIndirect? {
        WriteIndexed(CALL_INDIRECT, e.sigIndex, s);
        WriteU32Leb128(0, s + ([CALL_INDIRECT] + U32Bytes(e.sigIndex)));
        Assoc(s, [CALL_INDIRECT] + U32Bytes(e.sigIndex), U32Bytes(0));
      } else {
        WriteSimple(e, s);
      }
    }

    /** An opcode with at most one index behind it. */
    method WriteSimple(e: Instr, ghost s: seq<u8>)
      requires !IsNested(e) && stream.Holds(s)
      requires !e.Const? && !IsOperator(e) && !e.BrTable? && !e.CallIndirect?
      modifies stream, stream.start
      ensures Wrote(s, LeafBytes(e))
    {
      hide U32Bytes, Stream.Holds;
      if e.GetLocal? {
        WriteIndexed(GET_LOCAL, e.local, s);
      } else if e.SetLocal? {
        WriteIndexed(SET_LOCAL, e.local, s);
      } else if e.TeeLocal? {
        WriteIndexed(TEE_LOCAL, e.local, s);
      } else if e.GetGlobal? {
        WriteIndexed(GET_GLOBAL, e.global, s);
      } else if e.SetGlobal? {
        WriteIndexed(SET_GLOBAL, e.global, s);
      } else if e.Br? {
        WriteIndexed(BR, e.depth, s);
      } else if e.BrIf? {
        WriteIndexed(BR_IF, e.depth, s);
      } else if e.Call? {
        WriteIndexed(CALL, e.func, s);
      } else if e.CurrentMemory? {
        WriteIndexed(CURRENT_MEMORY, 0, s);
      } else if e.GrowMemory? {
        WriteIndexed(GROW_MEMORY, 0, s);
      } else {
        WriteOpcode(if e.Drop? then DROP else if e.Select? then SELECT else if e.Nop? then NOP
          else if e.Unreachable? then UNREACHABLE else RETURN, s);
      }
    }

    /** The head of a block: its opcode and signature. */
    method WriteHead(opcode: u8, sig: seq<Type>, ghost s: seq<u8>)
      requires stream.Holds(s)
      modifies stream, stream.start
      ensures Wrote(s, [opcode] + SigBytes(sig))
    {
      hide SigBytes, Stream.Holds;
      WriteOpcode(opcode, s);
      WriteInlineSignature(sig, s + [opcode]);
      Assoc(s, [opcode], SigBytes(sig));
    }

    method WriteExpr(e: Instr, ghost s: seq<u8>)
      requires stream.Holds(s)
      modifies stream, stream.start
      ensures Wrote(s, InstrBytes(e))
      decreases e, 1
    {
      hide SigBytes, LeafBytes, CodeBytes, Stream.Holds;
      if e.Block? || e.Loop? {
        ghost var head := [if e.Block? then BLOCK else LOOP] + SigBytes(e.sig);
        WriteHead(if e.Block? then BLOCK else LOOP, e.sig, s);
        WriteExprList(e.body, s + head);
        WriteOpcode(END, s + head + CodeBytes(e.body));
        Assoc(s, head, CodeBytes(e.body));
        Assoc(s, head + CodeBytes(e.body), [END]);
      } else if e.If? {
        WriteIf(e, s);
      } else {
        WriteLeaf(e, s);
      }
    }

    method WriteIf(e: Instr, ghost s: seq<u8>)
      requires e.If? && stream.Holds(s)
      modifies stream, stream.start
      ensures Wrote(s, InstrBytes(e))
      decreases e, 0
    {
      hide SigBytes, CodeBytes, Stream.Holds;
      ghost var head := [IF] + SigBytes(e.sig);
      WriteHead(IF, e.sig, s);
      WriteExprList(e.thn, s + head);
      Assoc(s, head, CodeBytes(e.thn));
      ghost var front := head + CodeBytes(e.thn);
      if e.hasElse {
        WriteOpcode(ELSE, s + front);
        WriteExprList(e.els, s + front + [ELSE]);
        Assoc(s + front, [ELSE], CodeBytes(e.els));
        Assoc(s, front, [ELSE] + CodeBytes(e.els));
      } else {
        assert front + [] == front;
      }
      ghost var all := front + if e.hasElse then [ELSE] + CodeBytes(e.els) else [];
      WriteOpcode(END, s + all);
      Assoc(s, all, [END]);
    }

    method WriteExprList(code: Code, ghost s: seq<u8>)
      requires stream.Holds(s)
      modifies stream, stream.start
      ensures Wrote(s, CodeBytes(code))
      decreases code, 0
    {
      hide InstrBytes, Stream.Holds;
      if code == Nil {
        assert s + [] == s;
      } else {
        WriteExpr(code.head, s);
        WriteExprList(code.tail, s + InstrBytes(code.head));
        Assoc(s, InstrBytes(code.head), CodeBytes(code.tail));
      }
    }

    /** write_func_locals: one loop counts the runs, a second writes them. */
    method WriteFuncLocals(localTypes: seq<Type>, ghost s: seq<u8>)
      requires |localTypes| < 0x1_0000_0000 && stream.Holds(s)
      modifies stream, stream.start
      ensures Wrote(s, LocalBytes(localTypes))
    {
      hide U32Bytes, Runs, RunBytes, Stream.Holds;
      if |localTypes| == 0 {
        WriteU32Leb128(0, s);
        NoRunBytes();
        assert U32Bytes(0) + [] == U32Bytes(0);
      } else {
        var localDeclCount := CountRuns(localTypes);
        WriteU32Leb128(localDeclCount, s);
        WriteRuns(localTypes, s + U32Bytes(localDeclCount));
        Assoc(s, U32Bytes(localDeclCount), RunBytes(Runs(localTypes)));
      }
    }

    method WriteRuns(localTypes: seq<Type>, ghost s: seq<u8>)
      requires 0 < |localTypes| < 0x1_0000_0000 && stream.Holds(s)
      modifies stream, stream.start
      ensures Wrote(s, RunBytes(Runs(localTypes)))
    {
      hide U32Bytes, SigBytes, Runs, RunBytes, Stream.Holds;
      var currentType, localTypeCount: u32 := localTypes[0], 1;
      var i := 1;
      ghost var below: seq<LocalDecl> := [];
      NoRunBytes();
      FirstRun(localTypes);
      assert s + [] == s;
      while i <= |localTypes|
        invariant 1 <= i <= |localTypes| + 1
        invariant Wrote(s, RunBytes(below))
        invariant i <= |localTypes| ==> Runs(localTypes[..i]) == below + [LocalDecl(localTypeCount, currentType)]
        invariant i <= |localTypes| ==> localTypeCount <= i
        invariant i > |localTypes| ==> below == Runs(localTypes)
      {
        // one more round than there are types catches the end of the last run
        if i < |localTypes| { NextRun(localTypes, i); }
        if i < |localTypes| && currentType == localTypes[i] {
          localTypeCount := localTypeCount + 1;
        } else {
          assert localTypes[..|localTypes|] == localTypes;
          WriteRun(localTypeCount, currentType, s, below);
          below := below + [LocalDecl(localTypeCount, currentType)];
          localTypeCount := 1;
          if i < |localTypes| { currentType := localTypes[i]; }
        }
        i := i + 1;
      }
    }

    method WriteRun(count: u32, t: Type, ghost s: seq<u8>, ghost below: seq<LocalDecl>)
      requires stream.Holds(s + RunBytes(below))
      modifies stream, stream.start
      ensures Wrote(s, RunBytes(below + [LocalDecl(count, t)]))
    {
      hide U32Bytes, SigBytes, RunBytes, Stream.Holds;
      ghost var s1 := s + RunBytes(below);
      WriteU32Leb128(count, s1);
      WriteInlineSignature([t], s1 + U32Bytes(count));
      Assoc(s1, U32Bytes(count), SigBytes([t]));
      Assoc(s, RunBytes(below), U32Bytes(count) + SigBytes([t]));
      RunBytesSnoc(below, LocalDecl(count, t));
    }

    // ----- sizes -----

    /** Leave room for a size that is not known yet. */
    method WriteU32Leb128Space(lebSizeGuess: nat, ghost s: seq<u8>) returns (result: nat)
      requires stream.Holds(s) && lebSizeGuess <= 5
      modifies stream, stream.start
      ensures result == |s| && Wrote(s, Replicate(if canonicalize then lebSizeGuess else 5, 0))
    {
      result := stream.offset;
      stream.WriteData(Replicate(if canonicalize then lebSizeGuess else 5, 0), s);
    }

    /** Put the size where room was left, moving the payload if the room is too
        small. */
    method WriteFixupU32Leb128Size(offset: nat, lebSizeGuess: nat, ghost s: seq<u8>, ghost payload: seq<u8>)
      requires offset == |s| && lebSizeGuess == 1 && |payload| < 0x1_0000_0000
      requires stream.Holds(s + Replicate(if canonicalize then lebSizeGuess else 5, 0) + payload)
      modifies stream, stream.start
      ensures Wrote(s, Sized(canonicalize, payload))
    {
      hide U32Bytes, FixedBytes;
      if canonicalize {
        FixupCanonical(offset, lebSizeGuess, s, payload);
      } else {
        var size := stream.offset - offset - 5;
        stream.WriteDataAt(offset, FixedBytes(size));
        assert s + (FixedBytes(size) + payload) == Spliced(s + Replicate(5, 0) + payload, offset, FixedBytes(size));
      }
    }

    method FixupCanonical(offset: nat, lebSizeGuess: nat, ghost s: seq<u8>, ghost payload: seq<u8>)
      requires canonicalize && offset == |s| && lebSizeGuess == 1 && |payload| < 0x1_0000_0000
      requires stream.Holds(s + Replicate(lebSizeGuess, 0) + payload)
      modifies stream, stream.start
      ensures Wrote(s, U32Bytes(|payload|) + payload)
    {
      hide U32Bytes, Spliced;
      ghost var before := s + Replicate(lebSizeGuess, 0) + payload;
      var size: u32 := stream.offset - offset - lebSizeGuess;
      var lebSize := SizeU32(size);
      SizeFits(size);
      ghost var moved := MakeRoom(offset, lebSizeGuess, size, lebSize, s, payload);
      var data := WriteU32(size);
      Patched(s, payload, before, moved, U32Bytes(size));
      stream.WriteDataAt(offset, data);
      stream.offset := stream.offset + lebSize - lebSizeGuess;
    }

    /** Move the payload to where it belongs once its size has `lebSize` bytes. */
    method MakeRoom(offset: nat, lebSizeGuess: nat, size: u32, lebSize: nat, ghost s: seq<u8>, ghost payload: seq<u8>)
      returns (ghost moved: seq<u8>)
      requires offset == |s| && lebSizeGuess == 1 && size == |payload| && 1 <= lebSize && (lebSize == 1 || lebSize <= 1 + size)
      requires stream.Holds(s + Replicate(lebSizeGuess, 0) + payload)
      modifies stream`start, stream`size, stream.start
      ensures stream.Valid() && stream.Contents() == moved && (stream.start == old(stream.start) || fresh(stream.start))
      ensures var before := s + Replicate(lebSizeGuess, 0) + payload;
        moved == if lebSize == 1 then before else Spliced(before, offset + lebSize, before[offset + 1..offset + 1 + size])
    {
      hide U32Bytes, Spliced;
      ghost var before := s + Replicate(lebSizeGuess, 0) + payload;
      moved := before;
      if lebSize != lebSizeGuess {
        stream.MoveData(offset + lebSize, offset + lebSizeGuess, size);
        moved := Spliced(before, offset + lebSize, before[offset + 1..offset + 1 + size]);
      }
    }

    // ----- functions and the code section -----

    method WriteFunc(f: FuncBody, ghost s: seq<u8>)
      requires Writable(f) && stream.Holds(s)
      modifies stream, stream.start
      ensures Wrote(s, FuncBytes(f))
    {
      hide LocalBytes, CodeBytes, Stream.Holds;
      WriteFuncLocals(f.locals, s);
      WriteExprList(f.code, s + LocalBytes(f.locals));
      WriteOpcode(END, s + LocalBytes(f.locals) + CodeBytes(f.code));
      Assoc(s, LocalBytes(f.locals), CodeBytes(f.code));
      Assoc(s, LocalBytes(f.locals) + CodeBytes(f.code), [END]);
    }

    /** A function behind its size. */
    method WriteBody(f: FuncBody, ghost s: seq<u8>)
      requires Writable(f) && stream.Holds(s) && |FuncBytes(f)| < 0x1_0000_0000
      modifies stream, stream.start
      ensures Wrote(s, Sized(canonicalize, FuncBytes(f)))
    {
      hide FuncBytes, Sized, Stream.Holds;
      var bodySizeOffset := WriteU32Leb128Space(1, s);
      WriteFunc(f, s + Replicate(if canonicalize then 1 else 5, 0));
      WriteFixupU32Leb128Size(bodySizeOffset, 1, s, FuncBytes(f));
    }

    method BeginKnownSection(sectionCode: u8, lebSizeGuess: nat, ghost s: seq<u8>)
      requires stream.Holds(s) && lebSizeGuess <= 5 && lastSectionLebSizeGuess == 0
      modifies this, stream, stream.start
      ensures lastSectionLebSizeGuess == lebSizeGuess && lastSectionOffset == |s| + 1
      ensures Wrote(s, [sectionCode] + Replicate(if canonicalize then lebSizeGuess else 5, 0))
    {
      WriteOpcode(sectionCode, s);
      lastSectionLebSizeGuess := lebSizeGuess;
      lastSectionOffset := WriteU32Leb128Space(lebSizeGuess, s + [sectionCode]);
      Assoc(s, [sectionCode], Replicate(if canonicalize then lebSizeGuess else 5, 0));
    }

    method EndSection(ghost s: seq<u8>, ghost payload: seq<u8>)
      requires lastSectionLebSizeGuess == 1 && lastSectionOffset == |s| && |payload| < 0x1_0000_0000
      requires stream.Holds(s + Replicate(if canonicalize then 1 else 5, 0) + payload)
      modifies this, stream, stream.start
      ensures lastSectionLebSizeGuess == 0 && Wrote(s, Sized(canonicalize, payload))
    {
      WriteFixupU32Leb128Size(lastSectionOffset, lastSectionLebSizeGuess, s, payload);
      lastSectionLebSizeGuess := 0;
    }

    /** The code section: back-patching, both of the functions and of the section
        around them, gives the bytes built bottom-up. */
    method WriteCodeSection(funcs: seq<FuncBody>, ghost s: seq<u8>)
      requires stream.Holds(s) && lastSectionLebSizeGuess == 0
      requires forall i :: 0 <= i < |funcs| ==> Writable(funcs[i]) && |FuncBytes(funcs[i])| < 0x1_0000_0000
      requires |U32Bytes(|funcs|) + BodiesBytes(canonicalize, funcs)| < 0x1_0000_0000 && |funcs| < 0x1_0000_0000
      modifies this, stream, stream.start
      ensures lastSectionLebSizeGuess == 0 && Wrote(s, CodeSection(canonicalize, funcs))
    {
      hide Sized, FuncBytes, U32Bytes, BodiesBytes, Stream.Holds, Replicate;
      BeginKnownSection(CODE_SECTION, 1, s);
      ghost var room := Replicate(if canonicalize then 1 else 5, 0);
      ghost var s1, n := s + ([CODE_SECTION] + room), U32Bytes(|funcs|);
      WriteU32Leb128(|funcs|, s1);
      WriteBodies(funcs, s1 + n);
      ghost var payload := n + BodiesBytes(canonicalize, funcs);
      Assoc(s1, n, BodiesBytes(canonicalize, funcs));
      Assoc(s, [CODE_SECTION], room);
      EndSection(s + [CODE_SECTION], payload);
      Assoc(s, [CODE_SECTION], Sized(canonicalize, payload));
    }

    method WriteBodies(funcs: seq<FuncBody>, ghost s: seq<u8>)
      requires stream.Holds(s)
      requires forall i :: 0 <= i < |funcs| ==> Writable(funcs[i]) && |FuncBytes(funcs[i])| < 0x1_0000_0000
      modifies stream, stream.start
      ensures Wrote(s, BodiesBytes(canonicalize, funcs))
    {
      hide Sized, FuncBytes, BodiesBytes, Stream.Holds;
      var i := 0;
      NoBodies(canonicalize);
      assert s + [] == s;
      while i < |funcs|
        invariant 0 <= i <= |funcs|
        invariant Wrote(s, BodiesBytes(canonicalize, funcs[..i]))
      {
        WriteBody(funcs[i], s + BodiesBytes(canonicalize, funcs[..i]));
        BodiesSnoc(canonicalize, funcs, i);
        Assoc(s, BodiesBytes(canonicalize, funcs[..i]), Sized(canonicalize, FuncBytes(funcs[i])));
        i := i + 1;
      }
      assert funcs[..i] == funcs;
    }
  }

  lemma NoBodies(canonicalize: bool)
    ensures BodiesBytes(canonicalize, []) == []
  {}

  lemma BodiesSnoc(canonicalize: bool, funcs: seq<FuncBody>, i: nat)
    requires i < |funcs| && forall j :: 0 <= j < |funcs| ==> Writable(funcs[j])
    ensures BodiesBytes(canonicalize, funcs[..i + 1])
      == BodiesBytes(canonicalize, funcs[..i]) + Sized(canonicalize, FuncBytes(funcs[i]))
  {
    hide Sized, FuncBytes;
    assert funcs[..i + 1][..i] == funcs[..i];
  }

  lemma NoRunBytes()
    ensures RunBytes([]) == [] && Runs([]) == []
  {}

  lemma RunBytesSnoc(runs: seq<LocalDecl>, run: LocalDecl)
    ensures RunBytes(runs + [run]) == RunBytes(runs) + (U32Bytes(run.count) + SigBytes([run.ty]))
  {
    hide U32Bytes, SigBytes;
    assert (runs + [run])[..|runs|] == runs;
  }

  lemma FirstRun(ts: seq<Type>)
    requires 0 < |ts| < 0x1_0000_0000
    ensures Runs(ts[..1]) == [LocalDecl(1, ts[0])]
  {
    assert ts[..1][..0] == [];
  }

  lemma NextRun(ts: seq<Type>, i: nat)
    requires 0 < i < |ts| < 0x1_0000_0000
    ensures var runs := Runs(ts[..i]);
      && runs != []
      && Runs(ts[..i + 1]) == (if runs[|runs| - 1].ty == ts[i]
           then runs[..|runs| - 1] + [LocalDecl(runs[|runs| - 1].count + 1, ts[i])] else runs + [LocalDecl(1, ts[i])])
  {
    assert ts[..i + 1][..i] == ts[..i];
  }

  /** The first loop over the locals. */
  method CountRuns(localTypes: seq<Type>) returns (localDeclCount: nat)
    requires 0 < |localTypes| < 0x1_0000_0000
    ensures localDeclCount == |Runs(localTypes)|
  {
    hide Runs;
    var currentType := localTypes[0];
    localDeclCount := 1;
    FirstRun(localTypes);
    var i := 1;
    while i < |localTypes|
      invariant 1 <= i <= |localTypes|
      invariant localDeclCount == |Runs(localTypes[..i])| && currentType == localTypes[i - 1]
    {
      NextRun(localTypes, i);
      LastRun(localTypes[..i]);
      if currentType != localTypes[i] {
        localDeclCount := localDeclCount + 1;
        currentType := localTypes[i];
      }
      i := i + 1;
    }
    assert localTypes[..i] == localTypes;
  }

  lemma LastRun(ts: seq<Type>)
    requires 0 < |ts| < 0x1_0000_0000
    ensures Runs(ts) != [] && Runs(ts)[|Runs(ts)| - 1].ty == ts[|ts| - 1]
  {}

  /** A size too large for one byte belongs to a payload longer than the move. */
  lemma SizeFits(size: u32)
    ensures |U32Bytes(size)| == 1 || (size >= 0x80 && |U32Bytes(size)| <= 5)
  {
    Pows();
    U32Length(size, 5);
  }

  /** Moving the payload and writing its size leaves exactly the two. */
  lemma Patched(s: seq<u8>, payload: seq<u8>, before: seq<u8>, moved: seq<u8>, leb: seq<u8>)
    requires before == s + Replicate(1, 0) + payload && |leb| >= 1 && (|leb| > 1 ==> |leb| <= 1 + |payload|)
    requires moved == if |leb| == 1 then before
      else Spliced(before, |s| + |leb|, before[|s| + 1..|s| + 1 + |payload|])
    ensures Spliced(moved, |s|, leb) == s + (leb + payload)
  {
    assert before[|s| + 1..|s| + 1 + |payload|] == payload;
  }

  method Log2Of(x: u32) returns (result: nat)
    ensures result == Log2(x)
  {
    var rest: nat := x;
    result := 0;
    while rest > 1
      invariant result + Log2(rest) == Log2(x)
    {
      rest := rest / 2;
      result := result + 1;
    }
  }
}
