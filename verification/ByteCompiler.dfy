/** From the bytes of a code section to the code of a module: the reader drives the
    callbacks of the code generator, function by function
    (src/binary-reader.c:1925-1960). */
module ByteCompiler {
  import opened Wasm
  import opened Assembly
  import opened Leb128
  import opened Binary
  import opened RoundTrip
  import opened BinaryWriter
  import opened FuncReader
  import opened TypeStack
  import opened ByteGenerator
  import Alignments
  import Typing
  import F = Fixups
  import C = Compile
  import G = Generator

  // ----- bodies -----

  /** Writing the alignments out changes nothing for the generator. */
  lemma ExplicitSame(s: G.Snapshot, code: Code)
    ensures s.Compiled(ExplicitCode(code)) == s.Compiled(code) && s.Typed(ExplicitCode(code), []) == s.Typed(code, [])
    ensures s.Generable(ExplicitCode(code), []) == s.Generable(code, []) && Typing.Representable(ExplicitCode(code)) == Typing.Representable(code)
  {
    hide C.CompCode, Typing.TypeCode, Typing.GenerableCode, Typing.Representable, ExplicitCode;
    Alignments.ExplicitCompiled(s.Context(), G.CompileLabels(s.labels), code, s.off, s.height);
    Alignments.ExplicitTyped(s.scope, G.TypingLabels(s.labels), code, []);
    Alignments.ExplicitGenerable(s.scope, G.TypingLabels(s.labels), code, []);
    Alignments.ExplicitRepresentable(code);
  }

  /** The body of a function that was written, whatever alignments it leaves out. */
  method ReadBody(gen: G.Generator, data: seq<u8>, first: nat, bodyEnd: nat, readEnd: nat, lim: Limits, ghost code: Code)
    returns (ok: bool)
    requires gen.Ready([]) && gen.InBlock() && Typing.Representable(code)
    requires !gen.Now().Typed(code, []).Bad? && gen.Room(Size(gen.Now().Compiled(code)))
    requires Canonical(ExplicitCode(code), lim) && Has(data, first, readEnd, CodeBytes(code) + [END]) && bodyEnd == first + |CodeBytes(code)| + 1
    modifies gen
    ensures ok <==> old(gen.Now()).Generable(code, [])
    ensures ok ==> gen.Generated(old(gen.Now()), old(gen.Now()).Compiled(code), old(gen.Now()).Typed(code, []))
  {
    hide G.Generator.Ready, G.Generator.Now, G.Generator.Generated, G.Snapshot.Compiled, G.Snapshot.Typed, G.Snapshot.Generable, Size,
      Typing.Representable, ExplicitCode, Canonical, CodeBytes, Has;
    ExplicitSame(gen.Now(), code);
    ExplicitBytes(code);
    ok := GenerateBody(gen, data, first, bodyEnd, readEnd, lim, ExplicitCode(code));
  }

  // ----- locals -----

  /** Where the k-th run of locals is. */
  lemma {:induction false} RunFound(s: seq<u8>, off: nat, end: nat, runs: seq<LocalDecl>, k: nat)
    requires Has(s, off, end, RunBytes(runs)) && k < |runs|
    ensures Has(s, off + |RunBytes(runs[..k])|, end, U32Bytes(runs[k].count) + SigBytes([runs[k].ty]))
    decreases |runs|
  {
    hide Has, U32Bytes, SigBytes, RunBytes;
    var n := |runs| - 1;
    RunBytesLast(runs);
    HasSplit(s, off, end, RunBytes(runs[..n]), U32Bytes(runs[n].count) + SigBytes([runs[n].ty]));
    if k < n {
      RunFound(s, off, end, runs[..n], k);
      assert runs[..n][..k] == runs[..k];
    }
  }

  lemma RunsNext(runs: seq<LocalDecl>, k: nat)
    requires k < |runs|
    ensures |RunBytes(runs[..k + 1])| == |RunBytes(runs[..k])| + |U32Bytes(runs[k].count)| + |SigBytes([runs[k].ty])|
  {
    hide U32Bytes, SigBytes, RunBytes;
    RunBytesLast(runs[..k + 1]);
    assert runs[..k + 1][..k] == runs[..k];
  }

  /** on_local_decl_count, and a callback for each run. */
  method ReadDecls(gen: G.Generator, f: nat, data: seq<u8>, offset: nat, readEnd: nat, n: nat) returns (next: nat)
    requires f < |gen.m.funcs| && gen.m.funcs[f].sigIndex < |gen.m.sigs| && gen.Valid() && gen.skip == []
    requires gen.paramAndLocalTypes == Wasm.SigOf(gen.m, f).params && gen.typeStack == KnownTypes(gen.paramAndLocalTypes)
    requires gen.results == Wasm.SigOf(gen.m, f).results && gen.localCount == 0
    requires gen.labelStack == [F.Label(F.FuncLabel, gen.results, |gen.typeStack|, INVALID, INVALID)]
    requires n == |gen.m.funcs[f].decls| && Has(data, offset, readEnd, RunBytes(gen.m.funcs[f].decls))
    modifies gen`istream, gen`istreamOffset, gen`items, gen`typeStack, gen`labelStack, gen`paramAndLocalTypes, gen`localDeclCount, gen`localCount
    ensures next == offset + |RunBytes(gen.m.funcs[f].decls)|
    ensures gen.Valid() && gen.skip == [] && gen.paramAndLocalTypes == FrameTypes(gen.m, f) && gen.typeStack == KnownTypes(gen.paramAndLocalTypes)
    ensures gen.items == old(gen.items) + C.Prologue(gen.m, f)
    ensures gen.labelStack == [F.Label(F.FuncLabel, gen.results, |gen.typeStack|, INVALID, INVALID)]
  {
    hide G.Generator.Valid, Expand, KnownTypes, Has, RunBytes, U32Bytes, SigBytes, DecodeDecl;
    ghost var decls := gen.m.funcs[f].decls;
    gen.localDeclCount := n;
    next := offset;
    assert Expand(decls[..0]) == [] by { gen.NoLocals(decls); }
    assert |RunBytes(decls[..0])| == 0 by { NoRunBytes(); assert decls[..0] == []; }
    assert gen.paramAndLocalTypes + [] == gen.paramAndLocalTypes && gen.items + [] == gen.items;
    var k := 0;
    while k < n
      invariant 0 <= k <= n && gen.Declaring(f, k) && next == offset + |RunBytes(decls[..k])|
      invariant gen.items == old(gen.items) + if k == |decls| then C.Prologue(gen.m, f) else []
    {
      RunFound(data, offset, readEnd, decls, k);
      HasBound(data, next, readEnd, U32Bytes(decls[k].count) + SigBytes([decls[k].ty]));
      DeclRead(data, next, readEnd, decls[k]);
      var d := DecodeDecl(data, next, readEnd);
      RunsNext(decls, k);
      next := d.offset;
      gen.OnLocalDecl(k, d.runs[0], f);
      k := k + 1;
    }
    assert decls[..k] == decls;
  }

  // ----- functions -----

  /** What the writer wrote for function f: its declarations are the runs of its
      locals, and its body can be read back. */
  ghost predicate Written(m: Module, f: nat, lim: Limits, locals: seq<Type>)
    requires f < |m.funcs|
  {
    |locals| < 0x1_0000_0000 && m.funcs[f].decls == Runs(locals) && Canonical(ExplicitCode(m.funcs[f].body), lim)
  }

  function Bytes(canonicalize: bool, m: Module, f: nat, locals: seq<Type>): seq<u8>
    requires f < |m.funcs| && |locals| < 0x1_0000_0000
  {
    Sized(canonicalize, FuncBytes(FuncBody(locals, m.funcs[f].body)))
  }

  /** Where the parts of a function are. */
  ghost predicate Parts(s: seq<u8>, end: nat, m: Module, f: nat, off: nat, first: nat, decls: nat, code: nat, bodyEnd: nat)
    requires f < |m.funcs|
  {
    && end <= |s| && off <= first <= bodyEnd < 0x1_0000_0000 && first <= decls && |m.funcs[f].decls| < 0x1_0000_0000
    && ReadU32(s, off, end) == Got(bodyEnd - first, first - off)
    && ReadU32(s, first, end) == Got(|m.funcs[f].decls|, decls - first)
    && Has(s, decls, end, RunBytes(m.funcs[f].decls)) && code == decls + |RunBytes(m.funcs[f].decls)|
    && Has(s, code, end, CodeBytes(m.funcs[f].body) + [END]) && bodyEnd == code + |CodeBytes(m.funcs[f].body)| + 1
  }

  lemma FuncParts(s: seq<u8>, off: nat, end: nat, canonicalize: bool, m: Module, f: nat, locals: seq<Type>, lim: Limits)
    returns (first: nat, decls: nat, code: nat, bodyEnd: nat)
    requires f < |m.funcs| && Written(m, f, lim, locals) && Has(s, off, end, Bytes(canonicalize, m, f, locals)) && |s| < 0x1_0000_0000
    ensures Parts(s, end, m, f, off, first, decls, code, bodyEnd) && bodyEnd == off + |Bytes(canonicalize, m, f, locals)|
  {
    hide U32Bytes, SizeBytes, RunBytes, Runs, CodeBytes, ReadU32, Has, Canonical, ExplicitCode;
    var fb := FuncBody(locals, m.funcs[f].body);
    var body := FuncBytes(fb);
    var size, n, runs, rest := SizeBytes(canonicalize, |body|), U32Bytes(|Runs(locals)|), RunBytes(Runs(locals)), CodeBytes(fb.code) + [END];
    HasSplit(s, off, end, size, body);
    HasInside(s, off + |size|, end, body);
    SizeRead(s, off, end, canonicalize, |body|);
    first := off + |size|;
    Assoc(n + runs, CodeBytes(fb.code), [END]);
    HasSplit(s, first, end, n + runs, rest);
    HasSplit(s, first, end, n, runs);
    HasU32(s, first, end, |Runs(locals)|);
    decls := first + |n|;
    code, bodyEnd := decls + |runs|, first + |body|;
  }

  lemma HasInside(s: seq<u8>, off: nat, end: nat, bytes: seq<u8>)
    requires Has(s, off, end, bytes)
    ensures off + |bytes| <= end <= |s|
  {}

  /** Everything in front of a body. */
  method OpenFunc(gen: G.Generator, f: nat, data: seq<u8>, offset: nat, readEnd: nat, ghost first: nat, ghost decls: nat, ghost code: nat, ghost end: nat)
    returns (next: nat, bodyEnd: nat)
    requires gen.Idle() && f < |gen.m.funcs| == |gen.funcOffsets| && gen.m.funcs[f].sigIndex < |gen.m.sigs|
    requires gen.funcOffsets[f] == INVALID && gen.Room(0) && |Wasm.SigOf(gen.m, f).results| <= 1
    requires Parts(data, readEnd, gen.m, f, offset, first, decls, code, end)
    modifies gen
    ensures next == code && bodyEnd == end
    ensures gen.Ready([]) && gen.InBlock() && gen.Scope() == Typing.ScopeOf(gen.m, f)
    ensures gen.funcOffsets == old(gen.funcOffsets)[f := old(gen.istreamOffset)]
    ensures gen.items == Subst(old(gen.items), FuncRef(f), old(gen.istreamOffset)) + C.Prologue(gen.m, f)
    ensures gen.labelStack == [F.Label(F.FuncLabel, gen.results, |FrameTypes(gen.m, f)|, INVALID, INVALID)]
    ensures |gen.typeStack| == |FrameTypes(gen.m, f)|
    ensures Offsets(gen.items, LabelRef(0)) == Offsets(gen.items, CondRef(0)) == []
  {
    hide G.Generator.Valid, Subst, Expand, ReadU32, Has, RunBytes, CodeBytes;
    var size := ReadU32(data, offset, readEnd);
    var start := offset + size.length;
    bodyEnd := (start + size.value) % 0x1_0000_0000;
    gen.BeginFunctionBody(f);
    var count := ReadU32(data, start, readEnd);
    next := ReadDecls(gen, f, data, start + count.length, readEnd, count.value);
    assert gen.typeStack[|gen.typeStack|..] == [] == KnownTypes([]);
    gen.NothingOpen();
  }

  /** A function that was written becomes the code that its tree is compiled to. */
  method ReadFunc(gen: G.Generator, f: nat, data: seq<u8>, offset: nat, readEnd: nat, lim: Limits, ghost canonicalize: bool, ghost locals: seq<Type>)
    returns (ok: bool, next: nat)
    requires gen.Idle() && f < |gen.m.funcs| == |gen.funcOffsets| && gen.m.funcs[f].sigIndex < |gen.m.sigs| && gen.funcOffsets[f] == INVALID
    requires Typing.FuncOk(gen.m, f) && Typing.Representable(gen.m.funcs[f].body)
    requires gen.Room(Size(C.CompFunc(gen.m, G.KnownEntries(gen.funcOffsets)[f := Some(gen.istreamOffset)], f, gen.istreamOffset)))
    requires Written(gen.m, f, lim, locals) && Has(data, offset, readEnd, Bytes(canonicalize, gen.m, f, locals)) && |data| < 0x1_0000_0000
    modifies gen
    ensures ok <==> Typing.GenerableFunc(gen.m, f)
    ensures ok ==> gen.Idle() && gen.funcOffsets == old(gen.funcOffsets)[f := old(gen.istreamOffset)]
    ensures ok ==> (gen.items == Subst(old(gen.items), FuncRef(f), old(gen.istreamOffset))
      + C.CompFunc(gen.m, G.KnownEntries(gen.funcOffsets), f, old(gen.istreamOffset)))
    ensures next == offset + |Bytes(canonicalize, gen.m, f, locals)|
  {
    hide G.Generator.Valid, G.Generator.Idle, G.Generator.Ready, G.Generator.Generated, G.Nested, C.Prologue, G.Generator.Finished, C.DropKeep, G.Snapshot.Compiled,
      G.Snapshot.Typed, G.Snapshot.Generable, Typing.Representable, Size, Subst, Expand, F.Close, Typing.FuncOk, Typing.GenerableFunc, C.CompFunc,
      G.Generator.FuncOpened, ReadU32, Has, RunBytes, CodeBytes, Bytes, Runs, Canonical, ExplicitCode;
    ghost var first, decls, code, end := FuncParts(data, offset, readEnd, canonicalize, gen.m, f, locals, lim);
    gen.IdleSize();
    assert |Wasm.SigOf(gen.m, f).results| <= 1 by { gen.ResultsOk(f); }
    var at, bodyEnd := OpenFunc(gen, f, data, offset, readEnd, first, decls, code, end);
    next := bodyEnd;
    gen.SnapshotNow([]);
    ghost var s := gen.Now();
    ghost var start := old(gen.istreamOffset);
    SizeAppend(Subst(old(gen.items), FuncRef(f), start), C.Prologue(gen.m, f));
    SubstSize(old(gen.items), FuncRef(f), start);
    assert gen.FuncOpened(s, f, start) by { gen.NowOpened(f, start); }
    assert G.KnownEntries(old(gen.funcOffsets))[f := Some(start)] == G.KnownEntries(gen.funcOffsets);
    gen.FuncSpec(s, f, start);
    ok := ReadBody(gen, data, at, bodyEnd, readEnd, lim, gen.m.funcs[f].body);
    if ok {
      gen.CloseFunc(s, f, start, Subst(old(gen.items), FuncRef(f), start));
      var _ := gen.EndFunctionBody();
    }
  }

  // ----- modules -----

  /** All functions, as the writer has them. */
  function Funcs(m: Module, locals: seq<seq<Type>>, n: nat): (r: seq<FuncBody>)
    requires n <= |m.funcs| && n <= |locals|
    ensures |r| == n && forall i :: 0 <= i < n ==> r[i] == FuncBody(locals[i], m.funcs[i].body)
  {
    seq(n, i requires 0 <= i < n => FuncBody(locals[i], m.funcs[i].body))
  }

  ghost predicate AllWritten(m: Module, lim: Limits, locals: seq<seq<Type>>) {
    |locals| == |m.funcs| < 0x1_0000_0000 && forall f :: 0 <= f < |m.funcs| ==> Written(m, f, lim, locals[f])
  }

  /** The contents of the code section. */
  function SectionBytes(canonicalize: bool, m: Module, locals: seq<seq<Type>>): seq<u8>
    requires |locals| == |m.funcs| && forall f :: 0 <= f < |m.funcs| ==> |locals[f]| < 0x1_0000_0000
  {
    U32Bytes(|m.funcs|) + BodiesBytes(canonicalize, Funcs(m, locals, |m.funcs|))
  }

  /** Where function f is. */
  lemma {:induction false} FuncFound(s: seq<u8>, off: nat, end: nat, canonicalize: bool, funcs: seq<FuncBody>, f: nat)
    requires (forall i :: 0 <= i < |funcs| ==> Writable(funcs[i])) && Has(s, off, end, BodiesBytes(canonicalize, funcs)) && f < |funcs|
    ensures Has(s, off + |BodiesBytes(canonicalize, funcs[..f])|, end, Sized(canonicalize, FuncBytes(funcs[f])))
    ensures |BodiesBytes(canonicalize, funcs[..f + 1])| == |BodiesBytes(canonicalize, funcs[..f])| + |Sized(canonicalize, FuncBytes(funcs[f]))|
    decreases |funcs|
  {
    hide Has, BodiesBytes, Sized, FuncBytes;
    var n := |funcs| - 1;
    BodiesSnoc(canonicalize, funcs, n);
    assert funcs[..n + 1] == funcs;
    HasSplit(s, off, end, BodiesBytes(canonicalize, funcs[..n]), Sized(canonicalize, FuncBytes(funcs[n])));
    if f < n {
      FuncFound(s, off, end, canonicalize, funcs[..n], f);
      assert funcs[..n][..f] == funcs[..f] && funcs[..n][..f + 1] == funcs[..f + 1];
    }
  }

  /** read_code_section, with the code generator behind it: a module that was written
      becomes the code that its trees are compiled to, if they can be. */
  method ReadModule(gen: G.Generator, data: seq<u8>, offset: nat, readEnd: nat, lim: Limits, ghost canonicalize: bool, ghost locals: seq<seq<Type>>,
      ghost prefix: seq<Item>) returns (ok: bool)
    requires gen.Idle() && gen.items == prefix && (forall f :: 0 <= f < |gen.m.funcs| ==> gen.funcOffsets[f] == INVALID)
    requires ModuleOk(gen.m) && (forall r :: Offsets(prefix, r) == [])
    requires forall f :: 0 <= f < |gen.m.funcs| ==> Typing.FuncOk(gen.m, f) && Typing.Representable(gen.m.funcs[f].body)
    requires C.EntryOf(gen.m, |gen.m.funcs|, Size(prefix)) < INVALID
    requires AllWritten(gen.m, lim, locals) && Has(data, offset, readEnd, SectionBytes(canonicalize, gen.m, locals)) && |data| < 0x1_0000_0000
    modifies gen
    ensures ok <==> forall f :: 0 <= f < |gen.m.funcs| ==> Typing.GenerableFunc(gen.m, f)
    ensures ok ==> gen.Compiled(prefix, |gen.m.funcs|)
    ensures ok ==> gen.istream == Encode(prefix + C.CompFuncs(gen.m, C.Known(gen.m, |gen.m.funcs|, Size(prefix)), |gen.m.funcs|, Size(prefix)))
    ensures ok ==> |gen.funcOffsets| == |gen.m.funcs| && forall f :: 0 <= f < |gen.m.funcs| ==> gen.funcOffsets[f] == C.EntryOf(gen.m, f, Size(prefix))
  {
    hide G.Generator.Compiled, Offsets, Encode, Size, Typing.FuncOk, Typing.Representable, Typing.GenerableFunc, C.CompFuncs, Has, ReadU32, BodiesBytes,
      U32Bytes, Written, Sized, FuncBytes;
    ghost var m, n := gen.m, |gen.m.funcs|;
    gen.NothingCompiled(prefix);
    LocalsSmall(m, lim, locals);
    ghost var funcs := Funcs(m, locals, n);
    HasSplit(data, offset, readEnd, U32Bytes(n), BodiesBytes(canonicalize, funcs));
    HasU32(data, offset, readEnd, n);
    HasBound(data, offset, readEnd, U32Bytes(n));
    var count := ReadU32(data, offset, readEnd);
    ghost var first := offset + count.length;
    var at := offset + count.length;
    assert funcs[..0] == [] && |BodiesBytes(canonicalize, [])| == 0 by { NoBodies(canonicalize); }
    ok := true;
    var f := 0;
    while f < count.value && ok
      invariant 0 <= f <= n && at == first + |BodiesBytes(canonicalize, funcs[..f])|
      invariant ok ==> gen.Compiled(prefix, f) && forall g :: 0 <= g < f ==> Typing.GenerableFunc(m, g)
      invariant !ok ==> exists g :: 0 <= g < n && !Typing.GenerableFunc(m, g)
      decreases n - f, ok
    {
      FuncFound(data, first, readEnd, canonicalize, funcs, f);
      ok, at := ReadNextFunc(gen, f, data, at, readEnd, lim, canonicalize, locals[f], prefix);
      f := f + 1;
    }
    if ok { gen.AllCompiled(prefix); }
  }

  lemma LocalsSmall(m: Module, lim: Limits, locals: seq<seq<Type>>)
    requires AllWritten(m, lim, locals)
    ensures forall f :: 0 <= f < |m.funcs| ==> |locals[f]| < 0x1_0000_0000
  {
    hide Canonical, ExplicitCode, Runs;
    forall f | 0 <= f < |m.funcs| ensures |locals[f]| < 0x1_0000_0000 { assert Written(m, f, lim, locals[f]); }
  }

  method ReadNextFunc(gen: G.Generator, f: nat, data: seq<u8>, offset: nat, readEnd: nat, lim: Limits, ghost canonicalize: bool,
      ghost locals: seq<Type>, ghost prefix: seq<Item>) returns (ok: bool, next: nat)
    requires ModuleOk(gen.m) && f < |gen.m.funcs| && gen.Compiled(prefix, f) && (forall r :: Offsets(prefix, r) == [])
    requires Typing.FuncOk(gen.m, f) && Typing.Representable(gen.m.funcs[f].body) && C.EntryOf(gen.m, |gen.m.funcs|, Size(prefix)) < INVALID
    requires Written(gen.m, f, lim, locals) && |data| < 0x1_0000_0000
    requires |locals| < 0x1_0000_0000 && Has(data, offset, readEnd, Sized(canonicalize, FuncBytes(FuncBody(locals, gen.m.funcs[f].body))))
    modifies gen
    ensures ok <==> Typing.GenerableFunc(gen.m, f)
    ensures ok ==> gen.Compiled(prefix, f + 1)
    ensures next == offset + |Sized(canonicalize, FuncBytes(FuncBody(locals, gen.m.funcs[f].body)))|
  {
    hide G.Generator.Idle, Offsets, Encode, Size, Typing.FuncOk, Typing.Representable, Typing.GenerableFunc, C.CompFuncs, C.CompFunc, Subst,
      Has, Sized, FuncBytes, Written;
    ghost var off := gen.istreamOffset;
    gen.NextEntry(prefix, f);
    ok, next := ReadFunc(gen, f, data, offset, readEnd, lim, canonicalize, locals);
    if ok { gen.NextCompiled(prefix, f, off); }
  }
}
