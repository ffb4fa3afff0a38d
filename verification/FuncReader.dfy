/** One function of the code section (src/binary-reader.c:1932-1958): its size,
    its locals and its body; and what becomes of a function that was written. */
module FuncReader {
  import opened Wasm
  import opened Assembly
  import opened Leb128
  import opened Binary
  import opened RoundTrip
  import opened BinaryWriter
  import opened TreeBuilder
  import opened Forest
  import opened BodyReader

  datatype Decls = Decls(runs: seq<LocalDecl>, offset: nat) | BadDecls

  /** A run of locals: a count and a type that is not void. */
  function DecodeDecl(s: seq<u8>, off: nat, end: nat): (r: Decls)
    requires end <= |s|
    ensures r.Decls? ==> |r.runs| == 1
  {
    match ReadU32(s, off, end)
    case Failed => BadDecls
    case Got(count, k) =>
      match ReadI32(s, off + k, end)
      case Failed => BadDecls
      case Got(v, k') =>
        if DecodeType(v).Some? && DecodeType(v).value != [] then
          Decls([LocalDecl(count, DecodeType(v).value[0])], off + k + k')
        else BadDecls
  }

  function DecodeDecls(s: seq<u8>, off: nat, end: nat, n: nat): Decls
    requires end <= |s|
    decreases n
  {
    if n == 0 then Decls([], off)
    else
      match DecodeDecls(s, off, end, n - 1)
      case BadDecls => BadDecls
      case Decls(runs, off') =>
        match DecodeDecl(s, off', end)
        case BadDecls => BadDecls
        case Decls(run, off'') => Decls(runs + run, off'')
  }

  datatype Header = Header(runs: seq<LocalDecl>, offset: nat, bodyEnd: nat) | BadHeader

  /** The size and the locals. */
  function DecodeHeader(s: seq<u8>, off: nat, end: nat): Header
    requires end <= |s|
  {
    match ReadU32(s, off, end)
    case Failed => BadHeader
    case Got(size, k) =>
      match ReadU32(s, off + k, end)
      case Failed => BadHeader
      case Got(n, k') =>
        match DecodeDecls(s, off + k + k', end, n)
        case BadDecls => BadHeader
        case Decls(runs, off') => Header(runs, off', (off + k + size) % 0x1_0000_0000)
  }

  datatype DecodedFunc = DecodedFunc(body: FuncBody, offset: nat) | BadFunc

  /** A function on its own. */
  function DecodeFunc(s: seq<u8>, off: nat, end: nat, lim: Limits): DecodedFunc
    requires end <= |s|
  {
    match DecodeHeader(s, off, end)
    case BadHeader => BadFunc
    case Header(runs, off', bodyEnd) =>
      var r := ReadBody(s, off', bodyEnd, end, lim, FUNCTION);
      if r.Some? && r.value != [] then DecodedFunc(FuncBody(Expand(runs), Tree(r.value)), bodyEnd) else BadFunc
  }

  datatype NextFunc = NextFunc(locals: seq<Type>, work: seq<Work>, offset: nat) | BadNext | WildNext

  /** A function behind others, of which labels may be left: its own label is
      pushed at the beginning, and one label is popped at the end. */
  function DecodeNext(s: seq<u8>, off: nat, end: nat, lim: Limits, work: seq<Work>): (r: NextFunc)
    requires end <= |s| && AllOk(work)
    ensures r.NextFunc? ==> |r.work| == |work| + 1 && AllOk(r.work)
  {
    match DecodeHeader(s, off, end)
    case BadHeader => BadNext
    case Header(runs, off', bodyEnd) =>
      OkSnoc(work, Working(FUNCTION));
      match ReadBodies(s, off', bodyEnd, end, lim, All(work + [Working(FUNCTION)], false))
      case Refused => BadNext
      case Undefined => WildNext
      case Goes(all) =>
        match ApplyAll(all, End)
        case Goes(all') => NextFunc(Expand(runs), all'.work, bodyEnd)
        case _ => BadNext
  }

  /** The function closes itself early and goes on with blocks that are lost. */
  predicate HollowFunc(s: seq<u8>, off: nat, end: nat, lim: Limits)
    requires end <= |s|
  {
    match DecodeHeader(s, off, end)
    case BadHeader => false
    case Header(_, off', bodyEnd) => Hollow(s, off', bodyEnd, end, lim, FUNCTION)
  }

  /** The blocks a function opens are as many as it closes, the last END aside. */
  predicate Balanced(s: seq<u8>, off: nat, end: nat, lim: Limits)
    requires end <= |s|
  {
    match DecodeHeader(s, off, end)
    case BadHeader => false
    case Header(_, off', bodyEnd) => Opens(s, off', bodyEnd, end, lim) == Ends(s, off', bodyEnd, end, lim)
  }

  /** A function that is accepted on its own is accepted behind others, with the
      same locals and tree, and touches none of them. It leaves no label exactly
      if it is balanced. */
  lemma NextAlone(s: seq<u8>, off: nat, end: nat, lim: Limits, work: seq<Work>) returns (w: Work)
    requires end <= |s| && AllOk(work) && DecodeFunc(s, off, end, lim).DecodedFunc?
    ensures var d := DecodeFunc(s, off, end, lim);
      DecodeNext(s, off, end, lim, work) == NextFunc(d.body.locals, work + [w], d.offset) && WorkOk(w) && CodeOf(w) == d.body.code
    ensures w.Done? <==> Balanced(s, off, end, lim)
  {
    hide DecodeHeader, ReadBody, ReadBodies, Opens, Ends, Expand;
    var h := DecodeHeader(s, off, end);
    var r := ReadBody(s, h.offset, h.bodyEnd, end, lim, FUNCTION).value;
    Within(s, h.offset, h.bodyEnd, end, lim, work, FUNCTION);
    AllClosed(s, h.offset, h.bodyEnd, end, lim);
    var top := |r| - 1;
    w := if top == 0 then Done(Tree(r)) else Working(Grow(r[..top], Closed(r[top])));
    Popped(work, r, w);
  }

  lemma Popped(work: seq<Work>, r: seq<Level>, w: Work)
    requires AllOk(work) && r != []
    requires w == if |r| == 1 then Done(Tree(r)) else Working(Grow(r[..|r| - 1], Closed(r[|r| - 1])))
    ensures AllOk(work + [Working(r)]) && ApplyAll(All(work + [Working(r)], false), End) == Goes(All(work + [w], false))
    ensures WorkOk(w) && CodeOf(w) == Tree(r)
  {
    OkSnoc(work, Working(r));
    TopLast(work, Working(r));
    assert (work + [Working(r)])[|work| := w] == work + [w];
  }

  /** Where no label is left over, it is accepted exactly if it is accepted on its
      own or is hollow; a hollow function leaves no label. */
  lemma NextClean(s: seq<u8>, off: nat, end: nat, lim: Limits, work: seq<Work>)
    requires end <= |s| && NoLabels(work)
    ensures AllOk(work)
    ensures DecodeNext(s, off, end, lim, work).NextFunc? <==> DecodeFunc(s, off, end, lim).DecodedFunc? || HollowFunc(s, off, end, lim)
    ensures HollowFunc(s, off, end, lim) ==> DecodeFunc(s, off, end, lim).BadFunc? && NoLabels(DecodeNext(s, off, end, lim, work).work)
  {
    hide DecodeHeader, ReadBody, ReadBodies, Expand, Tree, Hollow;
    NoneOnTop(work);
    var h := DecodeHeader(s, off, end);
    if h.Header? { FromClean(s, h.offset, h.bodyEnd, end, lim, work, FUNCTION); }
    if DecodeFunc(s, off, end, lim).DecodedFunc? {
      var _ := NextAlone(s, off, end, lim, work);
    } else if h.Header? {
      var all := ReadBodies(s, h.offset, h.bodyEnd, end, lim, All(work + [Working(FUNCTION)], false));
      if all.Goes? { NoneOnTop(all.all.work); }
    }
  }

  // ----- reading what was written -----

  lemma DeclRead(s: seq<u8>, off: nat, end: nat, run: LocalDecl)
    requires Has(s, off, end, U32Bytes(run.count) + SigBytes([run.ty]))
    ensures DecodeDecl(s, off, end) == Decls([run], off + |U32Bytes(run.count)| + |SigBytes([run.ty])|)
  {
    hide U32Bytes, SignedBytes, ReadU32, ReadI32;
    HasSplit(s, off, end, U32Bytes(run.count), SigBytes([run.ty]));
    HasU32(s, off, end, run.count);
    SigRead(s, off + |U32Bytes(run.count)|, end, [run.ty], OpenBlock);
  }

  lemma RunBytesLast(runs: seq<LocalDecl>)
    requires runs != []
    ensures var run := runs[|runs| - 1];
      RunBytes(runs) == RunBytes(runs[..|runs| - 1]) + (U32Bytes(run.count) + SigBytes([run.ty]))
  {
    hide U32Bytes, SigBytes;
  }

  lemma {:induction false} DeclsRead(s: seq<u8>, off: nat, end: nat, runs: seq<LocalDecl>)
    requires Has(s, off, end, RunBytes(runs))
    ensures DecodeDecls(s, off, end, |runs|) == Decls(runs, off + |RunBytes(runs)|)
    decreases |runs|
  {
    hide U32Bytes, SigBytes, DecodeDecl, Has, RunBytes;
    NoRunBytes();
    HasBound(s, off, end, RunBytes(runs));
    if runs != [] {
      var front, run := runs[..|runs| - 1], runs[|runs| - 1];
      assert runs == front + [run];
      RunBytesLast(runs);
      HasSplit(s, off, end, RunBytes(front), U32Bytes(run.count) + SigBytes([run.ty]));
      DeclsRead(s, off, end, front);
      DeclRead(s, off + |RunBytes(front)|, end, run);
    }
  }

  lemma SizeRead(s: seq<u8>, off: nat, end: nat, canonicalize: bool, n: u32)
    requires Has(s, off, end, SizeBytes(canonicalize, n))
    ensures ReadU32(s, off, end) == Got(n, |SizeBytes(canonicalize, n)|)
  {
    hide U32Bytes, FixedBytes, ReadU32;
    if canonicalize { HasU32(s, off, end, n); } else { FixedRoundTrip(s, off, end, n); }
  }

  function ExplicitFunc(f: FuncBody): FuncBody { FuncBody(f.locals, ExplicitCode(f.code)) }

  /** A function that was written, in either size mode, is read back: the same
      local types and the same tree, with its alignments written out. */
  lemma FuncRead(s: seq<u8>, off: nat, end: nat, lim: Limits, canonicalize: bool, f: FuncBody)
    requires Writable(f) && Canonical(ExplicitCode(f.code), lim) && |s| < 0x1_0000_0000
    requires Has(s, off, end, Sized(canonicalize, FuncBytes(f)))
    ensures DecodeFunc(s, off, end, lim) == DecodedFunc(ExplicitFunc(f), off + |Sized(canonicalize, FuncBytes(f))|)
  {
    hide U32Bytes, SizeBytes, RunBytes, Runs, CodeBytes, ReadU32, DecodeDecls, ReadBody, Tree, Expand, Canonical, ExplicitCode;
    var body := FuncBytes(f);
    var size, n, runs, code := SizeBytes(canonicalize, |body|), U32Bytes(|Runs(f.locals)|), RunBytes(Runs(f.locals)), CodeBytes(f.code) + [END];
    HasSplit(s, off, end, size, body);
    SizeRead(s, off, end, canonicalize, |body|);
    var off1 := off + |size|;
    Assoc(n + runs, CodeBytes(f.code), [END]);
    HasSplit(s, off1, end, n + runs, code);
    HasSplit(s, off1, end, n, runs);
    HasU32(s, off1, end, |Runs(f.locals)|);
    DeclsRead(s, off1 + |n|, end, Runs(f.locals));
    RunsExpand(f.locals);
    BodyRead(s, off1 + |n| + |runs|, off1 + |body|, end, lim, f.code);
  }

  /** The reader does not ask that all blocks be closed: `block` and the final
      END are a body, which reads as an empty block. */
  lemma UnclosedAccepted(lim: Limits)
    ensures var s, r := [BLOCK] + SigBytes([]) + [END], ReadBody([BLOCK] + SigBytes([]) + [END], 0, 3, 3, lim, FUNCTION);
      |s| == 3 && r.Some? && |r.value| == 2 && Tree(r.value) == Cons(Block([], Nil), Nil)
  {
    hide Decode;
    var s := [BLOCK] + SigBytes([]) + [END];
    var inner := FUNCTION + [Level(BlockLevel, [], Nil, [])];
    assert SigBytes([]) == [0x40];
    assert s[0..2] == [BLOCK] + SigBytes([]) && s[2..3] == [END];
    OpenRead(s, 0, 3, [], OpenBlock, lim);
    MarkRead(s, 2, 3, END, lim);
    Opened(FUNCTION, OpenBlock, []);
    Advance(s, 0, 3, 3, lim, FUNCTION, Open(OpenBlock, []), 2);
    LastRead(s, 2, 3, 3, lim, inner);
    assert inner[..1] == FUNCTION;
    var closed := Grow(FUNCTION, Block([], Nil));
    assert closed[0].done == [Block([], Nil)] && closed[0].done[1..] == [];
    assert Tree(closed) == ToCode([Block([], Nil)]);
  }

  // ----- the reader's own loop -----

  class Functions {
    const reader: Reader
    var localTypes: seq<Type>  // of the current function

    constructor (reader: Reader)
      ensures this.reader == reader && localTypes == []
    {
      this.reader, localTypes := reader, [];
    }

    method OnLocalDecl(count: u32, t: Type)
      modifies this`localTypes
      ensures localTypes == old(localTypes) + Replicate(count, t)
    {
      var i := 0;
      ghost var before := localTypes;
      assert before + Replicate(0, t) == before;
      while i < count
        invariant 0 <= i <= count && localTypes == before + Replicate(i, t)
      {
        localTypes := localTypes + [t];
        i := i + 1;
        assert Replicate(i, t) == Replicate(i - 1, t) + [t];
      }
    }

    method ReadDecl() returns (ok: bool, ghost run: LocalDecl)
      requires reader.Valid()
      modifies this`localTypes, reader`offset
      ensures DecodeDecl(reader.data, old(reader.offset), reader.readEnd) == if ok then Decls([run], reader.offset) else BadDecls
      ensures ok ==> localTypes == old(localTypes) + Replicate(run.count, run.ty)
    {
      hide ReadU32, ReadI32;
      run := LocalDecl(0, I32);
      var count, code;
      ok, count := reader.InU32Leb128();
      if ok {
        ok, code := reader.InI32Leb128();
        ok := ok && DecodeType(code).Some? && DecodeType(code).value != [];
        if ok {
          run := LocalDecl(count, DecodeType(code).value[0]);
          OnLocalDecl(count, DecodeType(code).value[0]);
        }
      }
    }

    method ReadDecls(n: nat) returns (ok: bool, ghost runs: seq<LocalDecl>)
      requires reader.Valid() && localTypes == []
      modifies this`localTypes, reader`offset
      ensures DecodeDecls(reader.data, old(reader.offset), reader.readEnd, n) == if ok then Decls(runs, reader.offset) else BadDecls
      ensures ok ==> localTypes == Expand(runs)
    {
      hide DecodeDecl, Expand;
      ok, runs := true, [];
      var i := 0;
      NoRuns();
      while i < n && ok
        invariant 0 <= i <= n
        invariant DecodeDecls(reader.data, old(reader.offset), reader.readEnd, i) == if ok then Decls(runs, reader.offset) else BadDecls
        invariant ok ==> localTypes == Expand(runs)
        decreases n - i, ok
      {
        ghost var run;
        ok, run := ReadDecl();
        ExpandSnoc(runs, run);
        runs := runs + [run];
        i := i + 1;
      }
      if !ok { BadDeclsStay(reader.data, old(reader.offset), reader.readEnd, i, n); }
    }

    /** One function of the code section, behind those before it. */
    method ReadFunc() returns (a: Answer)
      requires reader.Valid() && reader.forest.Valid() && !reader.forest.lost
      modifies this`localTypes, reader`offset, reader.forest, reader.forest.builders
      ensures AllOk(old(reader.forest.work))
      ensures var d := DecodeNext(reader.data, old(reader.offset), reader.readEnd, reader.limits, old(reader.forest.work));
        && (a.Yes? <==> d.NextFunc?) && (a.Wild? <==> d.WildNext?)
        && (a.Yes? ==> localTypes == d.locals && reader.offset == d.offset && reader.forest.Valid() && reader.forest.Labels() == All(d.work, false))
      ensures |reader.forest.builders| > 0 && reader.forest.builders[..|reader.forest.builders| - 1] == old(reader.forest.builders)
      ensures fresh(reader.forest.builders[|reader.forest.builders| - 1])
    {
      hide ReadU32, DecodeDecls, ReadBodies, Expand, Trees.Valid, ApplyAll;
      reader.forest.TopIsLast();
      localTypes := [];
      reader.forest.BeginFunctionBody();
      a := No;
      var ok, size, n;
      ok, size := reader.InU32Leb128();
      var bodyEnd := (reader.offset + size) % 0x1_0000_0000;
      if ok {
        ok, n := reader.InU32Leb128();
        if ok {
          ghost var runs;
          ok, runs := ReadDecls(n);
          if ok {
            a := reader.ReadFunctionBody(bodyEnd);
            if a.Yes? { a := reader.forest.Notify(End); }  // end_function_body pops a label, too
          }
        }
      }
    }
  }

  lemma {:induction false} BadDeclsStay(s: seq<u8>, off: nat, end: nat, i: nat, n: nat)
    requires end <= |s| && i <= n && DecodeDecls(s, off, end, i).BadDecls?
    ensures DecodeDecls(s, off, end, n).BadDecls?
    decreases n
  {
    if i < n { BadDeclsStay(s, off, end, i, n - 1); }
  }
}
