/** From the tree of a module to its results: one tool validates it and writes its
    code section (src/tools/wast2wasm.c:245-282), the other reads the bytes, with the
    code generator behind the reader, and runs a function
    (src/tools/wasm-interp.c:286-370). */
module EndToEnd {
  import opened Wasm
  import opened Assembly
  import opened Leb128
  import opened Semantics
  import opened Machine
  import opened Safety
  import opened Simulation
  import opened Correctness
  import opened Toolchain
  import Room
  import opened RoundTrip
  import OutputStream
  import B = Binary
  import W = BinaryWriter
  import R = FuncReader
  import BC = ByteCompiler
  import Typing
  import Validator
  import G = Generator
  import C = Compile

  function Counts(m: Module): B.Limits { B.Limits(|m.funcs|, |m.sigs|) }

  /** The declarations are the runs of the locals, the bodies can be read back, and
      what is written fits its sizes. */
  ghost predicate Writes(m: Module, locals: seq<seq<Type>>, canonicalize: bool) {
    && BC.AllWritten(m, Counts(m), locals)
    && (forall f :: 0 <= f < |m.funcs| ==> |locals[f]| < 0x1_0000_0000 && |W.FuncBytes(W.FuncBody(locals[f], m.funcs[f].body))| < 0x1_0000_0000)
    && |SectionOf(m, locals, canonicalize)| < 0x1_0000_0000
  }

  /** The code section. */
  function SectionOf(m: Module, locals: seq<seq<Type>>, canonicalize: bool): seq<u8>
    requires |locals| == |m.funcs| && forall f :: 0 <= f < |m.funcs| ==> |locals[f]| < 0x1_0000_0000
  {
    W.CodeSection(canonicalize, BC.Funcs(m, locals, |m.funcs|))
  }

  /** wast2wasm: nothing is written of a module with errors. */
  method ValidateAndWrite(m: Module, locals: seq<seq<Type>>, canonicalize: bool) returns (ok: bool, bytes: seq<u8>)
    requires Fits(m) && Writes(m, locals, canonicalize)
    ensures ok <==> forall f :: 0 <= f < |m.funcs| ==> Typing.FuncOk(m, f)
    ensures ok ==> bytes == SectionOf(m, locals, canonicalize)
  {
    hide Typing.FuncOk, Typing.Representable, Expand, W.FuncBytes, W.BodiesBytes, W.Sized, U32Bytes, BC.Written;
    bytes := [];
    ok := Validator.CheckModule(m);
    if ok {
      var stream := new OutputStream.Stream(1);
      var writer := new W.Writer(stream, canonicalize);
      SectionFits(m, locals, canonicalize);
      writer.WriteCodeSection(BC.Funcs(m, locals, |m.funcs|), []);
      bytes := stream.start[..stream.size];
      assert [] + SectionOf(m, locals, canonicalize) == SectionOf(m, locals, canonicalize);
    }
  }

  lemma SectionFits(m: Module, locals: seq<seq<Type>>, canonicalize: bool)
    requires Writes(m, locals, canonicalize)
    ensures |U32Bytes(|m.funcs|) + W.BodiesBytes(canonicalize, BC.Funcs(m, locals, |m.funcs|))| < 0x1_0000_0000
    ensures SectionOf(m, locals, canonicalize) == [W.CODE_SECTION] + W.Sized(canonicalize, BC.SectionBytes(canonicalize, m, locals))
  {
    hide W.FuncBytes, W.BodiesBytes, U32Bytes, BC.Written, W.SizeBytes;
  }

  /** Where the contents of the section are. */
  lemma ContentsAt(m: Module, locals: seq<seq<Type>>, canonicalize: bool, bytes: seq<u8>)
    requires Writes(m, locals, canonicalize) && bytes == SectionOf(m, locals, canonicalize)
    ensures |bytes| > 0 && ReadU32(bytes, 1, |bytes|).Got?
    ensures Has(bytes, 1 + ReadU32(bytes, 1, |bytes|).length, |bytes|, BC.SectionBytes(canonicalize, m, locals))
  {
    hide W.FuncBytes, W.BodiesBytes, U32Bytes, BC.Written, W.SizeBytes, ReadU32, BC.SectionBytes;
    SectionFits(m, locals, canonicalize);
    var contents := BC.SectionBytes(canonicalize, m, locals);
    var size := W.SizeBytes(canonicalize, |contents|);
    assert bytes[..] == bytes == [W.CODE_SECTION] + (size + contents);
    assert Has(bytes, 0, |bytes|, [W.CODE_SECTION] + (size + contents)) by { assert bytes[0..|bytes|] == bytes; }
    HasSplit(bytes, 0, |bytes|, [W.CODE_SECTION], size + contents);
    HasSplit(bytes, 1, |bytes|, size, contents);
    R.SizeRead(bytes, 1, |bytes|, canonicalize, |contents|);
  }

  /** The code of a module that was written, with the entries of its functions. */
  method ReadCode(m: Module, bytes: seq<u8>, ghost locals: seq<seq<Type>>, ghost canonicalize: bool)
    returns (ok: bool, istream: seq<u8>, entries: seq<nat>)
    requires Fits(m) && Writes(m, locals, canonicalize) && bytes == SectionOf(m, locals, canonicalize)
    requires forall f :: 0 <= f < |m.funcs| ==> Typing.FuncOk(m, f)
    ensures ok <==> forall f :: 0 <= f < |m.funcs| ==> Typing.GenerableFunc(m, f)
    ensures ok ==> |entries| == |m.funcs| && forall env: Env :: env.m == m && env.istream == istream && env.entries == entries ==> Loaded(env, 0)
  {
    hide Typing.FuncOk, Typing.Representable, Typing.GenerableFunc, Expand, C.CompFuncs, Encode, Size, Writes, SectionOf, ReadU32, BC.SectionBytes, BC.AllWritten;
    istream, entries := [], [];
    assert Size([]) == 0 by { NoItems(); }
    ContentsAt(m, locals, canonicalize, bytes);
    WritesIs(m, locals, canonicalize);
    var size := ReadU32(bytes, 1, |bytes|);
    NothingUsed();
    var g := new G.Generator(m, []);
    ok := BC.ReadModule(g, bytes, 1 + size.length, |bytes|, Counts(m), canonicalize, locals, []);
    if ok {
      istream, entries := g.istream, g.funcOffsets;
      forall env: Env | env.m == m && env.istream == istream && env.entries == entries ensures Loaded(env, 0) {
        GeneratedIsLoaded(env, []);
      }
    }
  }

  lemma WritesIs(m: Module, locals: seq<seq<Type>>, canonicalize: bool)
    requires Writes(m, locals, canonicalize)
    ensures BC.AllWritten(m, Counts(m), locals) && |SectionOf(m, locals, canonicalize)| < 0x1_0000_0000
  {}

  /** Both tools, one after the other: what is reported is what evaluating the tree
      says, although the interpreter has seen only the bytes. */
  method WriteAndRun(num: Numerics, m: Module, locals: seq<seq<Type>>, canonicalize: bool, f: nat, args: seq<Value>, globals: seq<Value>,
      mem: Memory, valueStackSize: u32, callStackSize: nat, steps: nat) returns (r: Report)
    requires Fits(m) && Writes(m, locals, canonicalize) && f < |m.funcs| && StoreTyped(m, Semantics.Store(globals, mem))
    requires forall k :: 0 <= k < |args| ==> HasType(args[k], args[k].ty)
    ensures Truthful(num, m, f, args, Semantics.Store(globals, mem), valueStackSize, callStackSize, steps + 1, r)
    ensures r.Mismatched? ==> !HaveTypes(args, SigOf(m, f).params)
    ensures r.Finished? || r.Unfinished? ==> HaveTypes(args, SigOf(m, f).params)
    ensures r.Unfinished? ==>
      exists istream, entries, mc: Machine :: |mc.cells| == valueStackSize
        && Toolchain.StillRunning(Env(num, m, istream, entries, callStackSize, 0), f, args, Semantics.Store(globals, mem), mc, steps)
  {
    hide EvalFunc, Loaded, Room.Highest, StoreTyped, Toolchain.StillRunning, Typing.FuncOk, Typing.GenerableFunc, Typing.Representable, Expand, C.EntryOf, Writes, SectionOf;
    var ok, bytes := ValidateAndWrite(m, locals, canonicalize);
    if !ok { return Invalid; }
    var istream, entries;
    ok, istream, entries := ReadCode(m, bytes, locals, canonicalize);
    if !ok { return Unsupported; }
    r := RunFunction(Env(num, m, istream, entries, callStackSize, 0), f, args, globals, mem, valueStackSize, steps);
  }
}
