/** The one-pass code generator (src/binary-reader-interpreter.c). It appends to
    the istream, keeps a type stack and a label stack, and patches forward
    references once their targets are known. The ghost field `items` is the
    symbolic form of the istream. */
module Generator {
  import opened Wasm
  import opened Assembly
  import opened TypeStack
  import Typing
  import F = Fixups
  import C = Compile
  import H = Heights

  function CompileLabel(l: F.Label): C.Label {
    C.Label(l.limit, if l.labelType == F.LoopLabel then 0 else |l.sig|, if l.offset == INVALID then None else Some(l.offset))
  }

  function CompileLabels(labels: seq<F.Label>): (cs: seq<C.Label>)
    ensures |cs| == |labels| && forall i :: 0 <= i < |labels| ==> cs[i] == CompileLabel(labels[i])
  {
    seq(|labels|, i requires 0 <= i < |labels| => CompileLabel(labels[i]))
  }

  function TypingLabels(labels: seq<F.Label>): (ls: seq<Typing.Label>)
    ensures |ls| == |labels|
    ensures forall i :: 0 <= i < |labels| ==> ls[i] == Typing.Label(labels[i].labelType == F.LoopLabel, labels[i].sig)
  {
    seq(|labels|, i requires 0 <= i < |labels| => Typing.Label(labels[i].labelType == F.LoopLabel, labels[i].sig))
  }

  function KnownEntries(offsets: seq<nat>): (es: seq<Option<nat>>)
    ensures |es| == |offsets|
    ensures forall f :: 0 <= f < |offsets| ==> es[f] == if offsets[f] == INVALID then None else Some(offsets[f])
  {
    seq(|offsets|, f requires 0 <= f < |offsets| => if offsets[f] == INVALID then None else Some(offsets[f]))
  }

  predicate AllKnown(s: seq<StackType>) { forall i :: 0 <= i < |s| ==> s[i].Known? }

  /** The labels of a function body, seen from its innermost block. */
  ghost predicate Nested(labels: seq<F.Label>, numLocals: nat) {
    && |labels| > 0
    && numLocals <= labels[|labels| - 1].limit
    && forall i :: 0 <= i < |labels| ==> |labels[i].sig| <= 1 && labels[i].limit <= labels[|labels| - 1].limit
  }

  /** What the specification needs to know of a generator about to emit code:
      the symbolic code so far, the labels, the types below the current block,
      and what is fixed while a body is read. */
  datatype Snapshot = Snapshot(items: seq<Item>, labels: seq<F.Label>, outer: seq<StackType>,
    scope: Typing.Scope, offsets: seq<nat>, off: nat, height: int)
  {
    function Context(): C.Context { C.Context(scope.m, KnownEntries(offsets), |scope.results|) }

    function Compiled(code: Code): seq<Item> { C.CompCode(Context(), CompileLabels(labels), code, off, height) }

    function CompiledInstr(e: Instr): seq<Item> { C.CompInstr(Context(), CompileLabels(labels), e, off, height) }

    function Typed(code: Code, ts: seq<Type>): Typing.Typed { Typing.TypeCode(scope, TypingLabels(labels), code, ts) }

    function TypedInstr(e: Instr, ts: seq<Type>): Typing.Typed { Typing.TypeInstr(scope, TypingLabels(labels), e, ts) }

    predicate Generable(code: Code, ts: seq<Type>) { Typing.GenerableCode(scope, TypingLabels(labels), code, ts) }

    predicate GenerableInstr(e: Instr, ts: seq<Type>) { Typing.Generable(scope, TypingLabels(labels), e, ts) }

    /** The state after an instruction of the current block. */
    function After(e: Instr): Snapshot {
      this.(items := items + CompiledInstr(e), off := off + Size(CompiledInstr(e)), height := height + C.Delta(scope.m, e))
    }
  }

  class Generator {
    const m: Module
    var istream: seq<u8>
    var istreamOffset: nat
    var typeStack: seq<StackType>
    var labelStack: seq<F.Label>  // innermost last
    var depthFixups: seq<seq<nat>>
    var funcFixups: seq<seq<nat>>
    var funcOffsets: seq<nat>     // entry of each function, or INVALID
    var paramAndLocalTypes: seq<Type>
    var results: seq<Type>        // of the current function
    var localDeclCount: nat
    var localCount: nat
    ghost var items: seq<Item>
    ghost var skip: seq<nat>      // the hole the running callback has left open

    ghost predicate Valid()
      reads this`istream, this`istreamOffset, this`labelStack, this`depthFixups, this`funcFixups, this`funcOffsets, this`items, this`skip
    {
      && istream == Encode(items)
      && istreamOffset == |istream|
      && |funcOffsets| == |m.funcs|
      && F.BranchesTracked(items, labelStack, depthFixups)
      && F.HolesTracked(items, labelStack, skip)
      && F.CallsTracked(items, funcOffsets, funcFixups)
    }

    /** Offsets up to n bytes further on are distinct from the invalid one. */
    predicate Room(n: nat)
      reads this`istreamOffset
    {
      istreamOffset + n < INVALID
    }

    function Scope(): Typing.Scope
      reads this`paramAndLocalTypes, this`results
    {
      Typing.Scope(m, paramAndLocalTypes, results)
    }

    function Context(): C.Context
      reads this`funcOffsets, this`results
    {
      C.Context(m, KnownEntries(funcOffsets), |results|)
    }

    function Limit(): nat
      requires |labelStack| > 0
      reads this`labelStack
    {
      labelStack[|labelStack| - 1].limit
    }

    ghost predicate InBlock()
      reads this`labelStack, this`typeStack
    {
      |labelStack| > 0 && Limit() <= |typeStack|
    }

    function Outer(): seq<StackType>
      requires InBlock()
      reads this`labelStack, this`typeStack
    {
      typeStack[..Limit()]
    }

    function Operands(): seq<StackType>
      requires InBlock()
      reads this`labelStack, this`typeStack
    {
      typeStack[Limit()..]
    }

    /** Control reaches this point with operand types `ts` in the current block. */
    ghost predicate Live(ts: seq<Type>)
      reads this`labelStack, this`typeStack
    {
      InBlock() && AllKnown(Outer()) && Operands() == KnownTypes(ts)
    }

    /** Control does not reach this point. */
    ghost predicate Dead()
      reads this`labelStack, this`typeStack, this`paramAndLocalTypes
    {
      InBlock() && AllKnown(Outer()) && Operands() == [Any] && |paramAndLocalTypes| <= Limit()
    }

    // ----- emitting -----

    method EmitOpcode(op: u8)
      requires Valid()
      modifies this`istream, this`istreamOffset, this`items
      ensures Valid() && items == old(items) + [Op(op)]
    {
      hide Encode, Size, F.BranchesTracked, F.HolesTracked, F.CallsTracked;
      Appended(Op(op));
      istream := istream + [op];
      istreamOffset := istreamOffset + 1;
      items := items + [Op(op)];
    }

    method EmitI8(value: u8)
      requires Valid()
      modifies this`istream, this`istreamOffset, this`items
      ensures Valid() && items == old(items) + [Op(value)]
    {
      EmitOpcode(value);
    }

    method EmitI32(value: int)
      requires Valid()
      modifies this`istream, this`istreamOffset, this`items
      ensures Valid() && items == old(items) + [Word(value)]
    {
      hide Encode, Size, Bytes, F.BranchesTracked, F.HolesTracked, F.CallsTracked;
      Appended(Word(value));
      EmitWord(value);
      items := items + [Word(value)];
    }

    /** The bytes alone, for holes. */
    method EmitWord(value: int)
      requires istreamOffset == |istream|
      modifies this`istream, this`istreamOffset
      ensures istream == old(istream) + Bytes(value) && istreamOffset == |istream|
    {
      istream := istream + Bytes(value);
      istreamOffset := istreamOffset + 4;
    }

    method EmitI32At(offset: nat, value: int)
      requires offset + 4 <= |istream|
      modifies this`istream
      ensures istream == Patch(old(istream), offset, Bytes(value))
    {
      istream := istream[..offset] + Bytes(value) + istream[offset + 4..];
    }

    lemma Appended(i: Item)
      requires Valid() && !i.Use?
      ensures Encode(items + [i]) == Encode(items) + EncodeItem(i)
      ensures F.BranchesTracked(items + [i], labelStack, depthFixups)
      ensures F.HolesTracked(items + [i], labelStack, skip)
      ensures F.CallsTracked(items + [i], funcOffsets, funcFixups)
    {
      hide Encode, Size, F.BranchesTracked, F.HolesTracked, F.CallsTracked;
      SizeSnoc(items, i);
      F.BranchesKept(items, i, labelStack, depthFixups);
      F.HolesKept(items, i, labelStack, skip);
      F.CallsKept(items, i, funcOffsets, funcFixups);
    }

    method EmitDropKeep(drop: nat, keep: nat)
      requires Valid() && keep <= 1
      modifies this`istream, this`istreamOffset, this`items
      ensures Valid() && items == old(items) + C.DropKeep(drop, keep)
    {
      hide Valid;
      if drop > 0 {
        if drop == 1 && keep == 0 {
          EmitOpcode(DROP);
        } else {
          EmitOpcode(DROP_KEEP);
          EmitI32(drop);
          EmitI8(keep);
        }
      }
    }

    /** A branch target; an unknown one is recorded for fixup. */
    method EmitBrOffset(level: nat, offset: nat)
      requires Valid() && level < |labelStack| && labelStack[level].offset == offset
      modifies this`istream, this`istreamOffset, this`items, this`depthFixups
      ensures Valid()
      ensures items == old(items) + [if offset == INVALID then Use(LabelRef(level)) else Word(offset)]
    {
      hide Encode, Size, Bytes, F.BranchesTracked, F.HolesTracked, F.CallsTracked;
      if offset == INVALID {
        depthFixups := F.AddFixup(depthFixups, level, istreamOffset);
        F.BranchAdded(items, level, labelStack, old(depthFixups));
        F.HolesKept(items, Use(LabelRef(level)), labelStack, skip);
        F.CallsKept(items, Use(LabelRef(level)), funcOffsets, funcFixups);
        SizeSnoc(items, Use(LabelRef(level)));
        EmitWord(offset);
        items := items + [Use(LabelRef(level))];
      } else {
        EmitI32(offset);
      }
    }

    function Arity(l: F.Label): nat { if l.labelType != F.LoopLabel then |l.sig| else 0 }

    method EmitBr(level: nat)
      requires Valid() && level < |labelStack| && |labelStack[level].sig| <= 1
      requires |typeStack| >= labelStack[level].limit + Arity(labelStack[level])
      modifies this`istream, this`istreamOffset, this`items, this`depthFixups
      ensures Valid()
      ensures items == old(items) + C.Jump(CompileLabels(labelStack), |labelStack| - 1 - level, |typeStack|)
    {
      hide Valid, C.DropKeep;
      var l := labelStack[level];
      var arity := Arity(l);
      EmitDropKeep(|typeStack| - l.limit - arity, arity);
      EmitOpcode(BR);
      EmitBrOffset(level, l.offset);
    }

    method EmitBrTableOffset(level: nat)
      requires Valid() && level < |labelStack| && |labelStack[level].sig| <= 1
      requires |typeStack| >= labelStack[level].limit + Arity(labelStack[level])
      modifies this`istream, this`istreamOffset, this`items, this`depthFixups
      ensures Valid()
      ensures items == old(items) + C.TableEntry(CompileLabels(labelStack), |labelStack| - 1 - level, |typeStack|)
    {
      hide Valid;
      var l := labelStack[level];
      var arity := Arity(l);
      EmitBrOffset(level, l.offset);
      EmitI32(|typeStack| - l.limit - arity);
      EmitI8(arity);
    }

    /** Overwrite the word at every recorded offset. */
    method PatchEach(fixups: seq<nat>, value: int)
      requires forall i :: 0 <= i < |fixups| ==> fixups[i] + 4 <= |istream|
      modifies this`istream
      ensures istream == PatchAll(old(istream), fixups, Bytes(value))
    {
      hide Bytes;
      var i := 0;
      while i < |fixups|
        invariant 0 <= i <= |fixups|
        invariant |istream| == |old(istream)| && istream == PatchAll(old(istream), fixups[..i], Bytes(value))
      {
        EmitI32At(fixups[i], value);
        i := i + 1;
        assert fixups[..i][..i - 1] == fixups[..i - 1];
      }
      assert fixups[..i] == fixups;
    }

    /** Fill every branch to the innermost label. */
    method FixupTopLabel(offset: nat)
      requires |labelStack| > 0 && |depthFixups| <= |labelStack|
      requires istream == Encode(items)
      requires F.FixupsAt(depthFixups, |labelStack| - 1) == Offsets(items, LabelRef(|labelStack| - 1))
      modifies this`istream, this`depthFixups, this`items
      ensures items == Subst(old(items), LabelRef(|labelStack| - 1), offset) && istream == Encode(items)
      ensures depthFixups == if |old(depthFixups)| == |labelStack| then old(depthFixups)[|labelStack| - 1 := []]
                             else old(depthFixups)
    {
      hide Encode, Size, Bytes, Offsets, Subst;
      var top := |labelStack| - 1;
      PatchIsSubst(items, LabelRef(top), offset);
      items := Subst(items, LabelRef(top), offset);
      if top >= |depthFixups| {
        assert PatchAll(istream, [], Bytes(offset)) == istream;
        return;
      }
      PatchEach(depthFixups[top], offset);
      depthFixups := depthFixups[top := []];
    }

    // ----- the type stack -----

    /** The checks and pushes below do nothing where control cannot reach. */
    predicate TopIsAny()
      reads this`typeStack, this`paramAndLocalTypes
    {
      |typeStack| > |paramAndLocalTypes| && typeStack[|typeStack| - 1] == Any
    }

    lemma LiveTop(ts: seq<Type>)
      requires Live(ts)
      ensures !TopIsAny() && InBlock() && |Operands()| == |ts|
    {
      if |ts| > 0 {
        assert typeStack[|typeStack| - 1] == Operands()[|ts| - 1];
      } else if |typeStack| > 0 {
        assert typeStack[|typeStack| - 1] == Outer()[|typeStack| - 1];
      }
    }

    method CheckTypeStackLimit(expected: nat) returns (ok: bool)
      requires InBlock()
      ensures ok <==> TopIsAny() || expected <= |Operands()|
    {
      ok := TopIsAny() || expected <= |typeStack| - Limit();
    }

    method CheckTypeStackLimitExact(expected: nat) returns (ok: bool)
      requires InBlock()
      ensures ok <==> TopIsAny() || expected == |Operands()|
    {
      ok := TopIsAny() || expected == |typeStack| - Limit();
    }

    method CheckType(expected: Type, actual: StackType) returns (ok: bool)
      ensures ok <==> TopIsAny() || actual == Known(expected)
    {
      ok := TopIsAny() || actual == Known(expected);
    }

    method CheckNTypes(expected: seq<Type>) returns (ok: bool)
      requires InBlock() && |expected| <= 1
      ensures ok <==> TopIsAny() || TopIs(Operands(), expected)
    {
      ok := CheckTypeStackLimit(|expected|);
      if ok && !TopIsAny() {
        var n, i := |expected|, 0;
        while i < n
          invariant 0 <= i <= n
          invariant ok <==> forall k :: 0 <= k < i ==> Operands()[|Operands()| - n + k] == Known(expected[k])
        {
          // the expected types are visited in reverse, which one type cannot show
          var good := CheckType(expected[n - i - 1], typeStack[|typeStack| - n + i]);
          ok := ok && good;
          i := i + 1;
        }
      }
    }

    method CheckLive(expected: seq<Type>, ghost ts: seq<Type>) returns (ok: bool)
      requires Live(ts) && |expected| <= 1
      ensures ok <==> Typing.EndsWith(ts, expected)
    {
      hide TopIs, AllKnown;
      LiveTop(ts);
      TopKnown(ts, expected);
      ok := CheckNTypes(expected);
    }

    method PopType(ghost ts: seq<Type>) returns (t: StackType)
      requires Live(ts) && ts != []
      modifies this`typeStack
      ensures t == Known(ts[|ts| - 1])
      ensures Live(Typing.Below(ts, 1)) && Outer() == old(Outer())
    {
      t := typeStack[|typeStack| - 1];
      assert t == Operands()[|ts| - 1];
      if t != Any {
        typeStack := typeStack[..|typeStack| - 1];
      }
      assert Outer() == old(Outer());
      assert Operands() == old(Operands())[..|ts| - 1];
    }

    method PushType(t: Type)
      modifies this`typeStack
      ensures typeStack == if old(TopIsAny()) then old(typeStack) else old(typeStack) + [Known(t)]
    {
      if !TopIsAny() {
        typeStack := typeStack + [Known(t)];
      }
    }

    method PushTypes(ts: seq<Type>)
      modifies this`typeStack
      ensures typeStack == if old(TopIsAny()) then old(typeStack) else old(typeStack) + KnownTypes(ts)
    {
      if !TopIsAny() {
        var i := 0;
        while i < |ts|
          invariant 0 <= i <= |ts|
          invariant typeStack == old(typeStack) + KnownTypes(ts[..i]) && !TopIsAny()
        {
          PushType(ts[i]);
          i := i + 1;
          assert KnownTypes(ts[..i]) == KnownTypes(ts[..i - 1]) + [Known(ts[i - 1])];
        }
        assert ts[..i] == ts;
      }
    }

    method ResetTypeStackToLimit()
      requires InBlock()
      modifies this`typeStack
      ensures typeStack == old(Outer())
    {
      typeStack := typeStack[..Limit()];
    }

    /** After an instruction that does not fall through. */
    method ResetToAny(ghost ts: seq<Type>)
      requires Live(ts) && |paramAndLocalTypes| <= Limit()
      modifies this`typeStack
      ensures Dead() && Outer() == old(Outer())
    {
      ResetTypeStackToLimit();
      typeStack := typeStack + [Any];
    }

    method PopAndCheck1(expected: Type, ghost ts: seq<Type>) returns (ok: bool)
      requires Live(ts)
      modifies this`typeStack
      ensures ok <==> Typing.EndsWith(ts, [expected])
      ensures Live(Popped(ts)) && Outer() == old(Outer())
    {
      LiveTop(ts);
      ok := TopIsAny();
      if !ok {
        ok := CheckTypeStackLimit(1);
        if ok {
          var actual := PopType(ts);
          LiveTop(Popped(ts));
          ok := CheckType(expected, actual);
          assert ts[|ts| - 1..] == [ts[|ts| - 1]];
        }
      }
    }

    method PopAndCheck2(expected1: Type, expected2: Type, ghost ts: seq<Type>) returns (ok: bool)
      requires Live(ts) && |ts| >= 2
      modifies this`typeStack
      ensures ok <==> Typing.EndsWith(ts, [expected1, expected2])
      ensures Live(Typing.Below(ts, 2)) && Outer() == old(Outer())
    {
      hide Live;
      LiveTop(ts);
      ok := TopIsAny();
      if !ok {
        ok := CheckTypeStackLimit(2);
        if ok {
          var actual2 := PopType(ts);
          var actual1 := PopType(Typing.Below(ts, 1));
          Typing.BelowTwice(ts, 1, 1);
          LiveTop(Typing.Below(ts, 2));
          var ok1 := CheckType(expected1, actual1);
          var ok2 := CheckType(expected2, actual2);
          ok := ok1 && ok2;
          assert ts[|ts| - 2..] == [ts[|ts| - 2], ts[|ts| - 1]];
        }
      }
    }

    method Push(t: Type, ghost ts: seq<Type>)
      requires Live(ts)
      modifies this`typeStack
      ensures Live(ts + [t]) && Outer() == old(Outer())
    {
      LiveTop(ts);
      PushType(t);
      KnownAppend(ts, [t]);
    }

    // ----- callbacks for instructions without control flow -----

    ghost predicate Emitted(before: seq<Item>, code: seq<Item>)
      reads this`istream, this`istreamOffset, this`labelStack, this`depthFixups, this`funcFixups, this`funcOffsets,
        this`items, this`skip
    {
      Valid() && items == before + code
    }

    method CheckOpcode1(t: Type, r: Type, ghost ts: seq<Type>) returns (ok: bool)
      requires Live(ts) && Typing.EndsWith(ts, [t])
      modifies this`typeStack
      ensures ok && Live(Typing.Below(ts, 1) + [r]) && Outer() == old(Outer())
    {
      hide AllKnown;
      ok := PopAndCheck1(t, ts);
      Push(r, Typing.Below(ts, 1));
    }

    method CheckOpcode2(t1: Type, t2: Type, r: Option<Type>, ghost ts: seq<Type>) returns (ok: bool)
      requires Live(ts) && Typing.EndsWith(ts, [t1, t2])
      modifies this`typeStack
      ensures ok && Live(Typing.Below(ts, 2) + if r.Some? then [r.value] else []) && Outer() == old(Outer())
    {
      hide AllKnown;
      ok := PopAndCheck2(t1, t2, ts);
      if r.Some? {
        Push(r.value, Typing.Below(ts, 2));
      } else {
        assert Typing.Below(ts, 2) + [] == Typing.Below(ts, 2);
      }
    }

    method OnOperator(e: Instr, ghost ts: seq<Type>) returns (ok: bool)
      requires Valid() && Live(ts) && IsOperator(e) && Typing.TypeOperator(Scope(), e, ts).Live?
      modifies this`istream, this`istreamOffset, this`items, this`typeStack
      ensures ok && Emitted(old(items), C.CompPlain(e, |old(typeStack)|))
      ensures Live(Typing.TypeOperator(Scope(), e, ts).types) && Outer() == old(Outer())
    {
      hide Valid, Live, AllKnown, UnarySig, BinarySig, LoadSig, StoreSig, Typing.AccessOk;
      match e
      case Unary(op) =>
        ok := CheckOpcode1(UnarySig(op).value.0, UnarySig(op).value.1, ts);
        EmitOpcode(op);
      case Binary(op) =>
        ok := CheckOpcode2(BinarySig(op).value.0, BinarySig(op).value.0, Some(BinarySig(op).value.1), ts);
        EmitOpcode(op);
      case Load(op, _, offset) =>
        ok := CheckOpcode1(I32, LoadSig(op).value.0, ts);
        EmitAccess(op, offset);
      case Store(op, _, offset) =>
        ok := CheckOpcode2(I32, StoreSig(op).value.0, None, ts);
        EmitAccess(op, offset);
    }

    /** Loads and stores name the only memory. */
    method EmitAccess(op: u8, offset: u32)
      requires Valid()
      modifies this`istream, this`istreamOffset, this`items
      ensures Emitted(old(items), [Op(op), Word(0), Word(offset)])
    {
      hide Valid;
      EmitOpcode(op);
      EmitI32(0);
      EmitI32(offset);
    }

    method EmitOpI32(op: u8, value: int)
      requires Valid()
      modifies this`istream, this`istreamOffset, this`items
      ensures Emitted(old(items), [Op(op), Word(value)])
    {
      hide Valid;
      EmitOpcode(op);
      EmitI32(value);
    }

    /** Distance of a parameter or local from the top of the value stack. */
    function TranslateLocalIndex(i: nat): nat
      requires i < |typeStack|
      reads this`typeStack
    {
      |typeStack| - i
    }

    method OnGetLocal(i: u32, ghost ts: seq<Type>)
      requires Valid() && Live(ts) && i < |paramAndLocalTypes| <= Limit()
      modifies this`istream, this`istreamOffset, this`items, this`typeStack
      ensures Emitted(old(items), [Op(GET_LOCAL), Word(|old(typeStack)| - i)])
      ensures Live(ts + [paramAndLocalTypes[i]]) && Outer() == old(Outer())
    {
      hide Valid, AllKnown;
      EmitOpI32(GET_LOCAL, TranslateLocalIndex(i));
      Push(paramAndLocalTypes[i], ts);
    }

    method OnSetLocal(i: u32, ghost ts: seq<Type>) returns (ok: bool)
      requires Valid() && Live(ts) && i < |paramAndLocalTypes| <= Limit()
      requires Typing.EndsWith(ts, [paramAndLocalTypes[i]])
      modifies this`istream, this`istreamOffset, this`items, this`typeStack
      ensures ok && Emitted(old(items), [Op(SET_LOCAL), Word(|old(typeStack)| - 1 - i)])
      ensures Live(Typing.Below(ts, 1)) && Outer() == old(Outer())
    {
      hide Valid, AllKnown;
      ok := PopAndCheck1(paramAndLocalTypes[i], ts);
      EmitOpI32(SET_LOCAL, TranslateLocalIndex(i));
    }

    method OnTeeLocal(i: u32, ghost ts: seq<Type>) returns (ok: bool)
      requires Valid() && Live(ts) && i < |paramAndLocalTypes| <= Limit() && ts != []
      modifies this`istream, this`istreamOffset, this`items, this`typeStack
      ensures ok <==> Typing.EndsWith(ts, [paramAndLocalTypes[i]])
      ensures ok ==> Emitted(old(items), [Op(TEE_LOCAL), Word(|old(typeStack)| - i)])
      ensures typeStack == old(typeStack)
    {
      hide Valid, AllKnown;
      LiveTop(ts);
      assert typeStack[|typeStack| - 1] == Operands()[|ts| - 1];
      assert ts[|ts| - 1..] == [ts[|ts| - 1]];
      ok := CheckType(paramAndLocalTypes[i], typeStack[|typeStack| - 1]);
      if ok {
        EmitOpI32(TEE_LOCAL, TranslateLocalIndex(i));
      }
    }

    method OnGetGlobal(i: u32, ghost ts: seq<Type>)
      requires Valid() && Live(ts) && i < |m.globals|
      modifies this`istream, this`istreamOffset, this`items, this`typeStack
      ensures Emitted(old(items), [Op(GET_GLOBAL), Word(i)])
      ensures Live(ts + [m.globals[i].ty]) && Outer() == old(Outer())
    {
      hide Valid, AllKnown;
      EmitOpI32(GET_GLOBAL, i);
      Push(m.globals[i].ty, ts);
    }

    method OnSetGlobal(i: u32, ghost ts: seq<Type>) returns (ok: bool)
      requires Valid() && Live(ts) && i < |m.globals| && Typing.EndsWith(ts, [m.globals[i].ty])
      modifies this`istream, this`istreamOffset, this`items, this`typeStack
      ensures ok <==> m.globals[i].mutable
      ensures ok ==> Emitted(old(items), [Op(SET_GLOBAL), Word(i)])
      ensures ok ==> Live(Typing.Below(ts, 1)) && Outer() == old(Outer())
    {
      hide Valid, AllKnown;
      ok := m.globals[i].mutable;
      if ok {
        ok := PopAndCheck1(m.globals[i].ty, ts);
        EmitOpI32(SET_GLOBAL, i);
      }
    }

    method OnVariable(e: Instr, ghost ts: seq<Type>) returns (ok: bool)
      requires Valid() && Live(ts) && IsVariable(e) && Typing.TypeVariable(Scope(), e, ts).Live?
      requires |paramAndLocalTypes| <= Limit()
      modifies this`istream, this`istreamOffset, this`items, this`typeStack
      ensures ok <==> Typing.GenerablePlain(Scope(), e, ts)
      ensures ok ==> Emitted(old(items), C.CompPlain(e, |old(typeStack)|))
      ensures ok ==> Live(Typing.TypeVariable(Scope(), e, ts).types) && Outer() == old(Outer())
    {
      hide Valid, Live;
      ok := true;
      match e
      case GetLocal(i) => OnGetLocal(i, ts);
      case SetLocal(i) =>
        ok := OnSetLocal(i, ts);
        assert Typing.Below(ts, 1) + [] == Typing.Below(ts, 1);
      case TeeLocal(i) => ok := OnTeeLocal(i, ts);
      case GetGlobal(i) => OnGetGlobal(i, ts);
      case SetGlobal(i) =>
        ok := OnSetGlobal(i, ts);
        assert ts != [] ==> Typing.Below(ts, 1) + [] == Typing.Below(ts, 1);
    }

    method OnConst(t: Type, b: Bits, ghost ts: seq<Type>)
      requires Valid() && Live(ts)
      modifies this`istream, this`istreamOffset, this`items, this`typeStack
      ensures Emitted(old(items), C.CompConst(t, b)) && Live(ts + [t]) && Outer() == old(Outer())
    {
      hide Valid, Live;
      EmitOpI32(ConstOp(t), b.lo);
      if Is64(t) {
        EmitI32(b.hi);
      }
      Push(t, ts);
    }

    method OnSelect(ghost ts: seq<Type>) returns (ok: bool)
      requires Valid() && Live(ts) && Typing.TypePlain(Scope(), Instr.Select, ts).Live?
      modifies this`istream, this`istreamOffset, this`items, this`typeStack
      ensures ok && Emitted(old(items), [Op(SELECT)])
      ensures Live(Typing.Below(ts, 2)) && Outer() == old(Outer())
    {
      hide Valid, Live;
      assert ts[|ts| - 1..] == [ts[|ts| - 1]];
      ghost var us := Typing.Below(ts, 1);
      ok := PopAndCheck1(I32, ts);
      var right := PopType(us);
      var left := PopType(Typing.Below(us, 1));
      Typing.BelowTwice(ts, 1, 1);
      Typing.BelowTwice(ts, 2, 1);
      LiveTop(Typing.Below(ts, 3));
      var same := CheckType(left.ty, right);
      ok := ok && same;
      EmitOpcode(SELECT);
      Push(left.ty, Typing.Below(ts, 3));
      assert Typing.Below(ts, 3) + [ts[|ts| - 3]] == Typing.Below(ts, 2);
    }

    method OnPlain(e: Instr, ghost ts: seq<Type>) returns (ok: bool)
      requires Valid() && Live(ts) && IsPlain(e) && !e.CurrentMemory? && !e.GrowMemory?
      requires Typing.TypePlain(Scope(), e, ts).Live? && |paramAndLocalTypes| <= Limit()
      modifies this`istream, this`istreamOffset, this`items, this`typeStack
      ensures ok <==> Typing.GenerablePlain(Scope(), e, ts)
      ensures ok ==> Emitted(old(items), C.CompPlain(e, |old(typeStack)|))
      ensures ok ==> Live(Typing.TypePlain(Scope(), e, ts).types) && Outer() == old(Outer())
    {
      hide Valid, Live, Typing.TypeOperator, Typing.TypeVariable;
      ok := true;
      if IsOperator(e) {
        ok := OnOperator(e, ts);
      } else if IsVariable(e) {
        ok := OnVariable(e, ts);
      } else if e.Const? {
        OnConst(e.ty, e.bits, ts);
      } else if e.Drop? {
        EmitOpcode(DROP);
        var _ := PopType(ts);
      } else if e.Select? {
        ok := OnSelect(ts);
      } else {
        assert old(items) + [] == old(items);
      }
    }

    // ----- labels -----

    method PushLabel(labelType: F.LabelType, sig: seq<Type>, offset: nat, fixupOffset: nat)
      modifies this`labelStack
      ensures labelStack == old(labelStack) + [F.Label(labelType, sig, |typeStack|, offset, fixupOffset)]
    {
      labelStack := labelStack + [F.Label(labelType, sig, |typeStack|, offset, fixupOffset)];
    }

    /** Drop the innermost label and the fixup list at its level. */
    method PopLabel()
      requires |labelStack| > 0 && |depthFixups| <= |labelStack|
      modifies this`labelStack, this`depthFixups
      ensures labelStack == old(labelStack)[..|old(labelStack)| - 1]
      ensures depthFixups == if |old(depthFixups)| == |old(labelStack)| then old(depthFixups)[..|labelStack|]
                             else old(depthFixups)
    {
      labelStack := labelStack[..|labelStack| - 1];
      if |depthFixups| > |labelStack| {
        depthFixups := depthFixups[..|labelStack|];
      }
    }

    /** Fill the one place where `r` is used. */
    method FillHole(ghost r: Ref, offset: nat, value: int)
      requires istream == Encode(items) && Offsets(items, r) == [offset]
      modifies this`istream, this`items
      ensures istream == Encode(items) && items == Subst(old(items), r, value) && |istream| == |old(istream)|
    {
      hide Encode, Offsets, Size, Bytes, Subst;
      PatchIsSubst(items, r, value);
      assert [offset][..0] == [];
      EmitI32At(offset, value);
      items := Subst(items, r, value);
    }

    method OnBlock(sig: seq<Type>, ghost ts: seq<Type>)
      requires Valid() && Live(ts) && skip == []
      modifies this`labelStack
      ensures Valid() && Live([]) && Outer() == typeStack
      ensures labelStack == old(labelStack) + [F.Label(F.BlockLabel, sig, |typeStack|, INVALID, INVALID)]
    {
      hide F.BranchesTracked, F.HolesTracked, F.CallsTracked, Encode;
      F.PushKeeps(items, labelStack, F.Label(F.BlockLabel, sig, |typeStack|, INVALID, INVALID), depthFixups);
      WholeKnown(ts);
      PushLabel(F.BlockLabel, sig, INVALID, INVALID);
    }

    method OnLoop(sig: seq<Type>, ghost ts: seq<Type>)
      requires Valid() && Live(ts) && skip == []
      modifies this`labelStack
      ensures Valid() && Live([]) && Outer() == typeStack
      ensures labelStack == old(labelStack) + [F.Label(F.LoopLabel, sig, |typeStack|, istreamOffset, INVALID)]
    {
      hide F.BranchesTracked, F.HolesTracked, F.CallsTracked, Encode;
      F.PushKeeps(items, labelStack, F.Label(F.LoopLabel, sig, |typeStack|, istreamOffset, INVALID), depthFixups);
      WholeKnown(ts);
      PushLabel(F.LoopLabel, sig, istreamOffset, INVALID);
    }

    lemma WholeKnown(ts: seq<Type>)
      requires Live(ts)
      ensures AllKnown(typeStack)
    {
      forall i | 0 <= i < |typeStack| ensures typeStack[i].Known? {
        if i < Limit() {
          assert typeStack[i] == Outer()[i];
        } else {
          assert typeStack[i] == Operands()[i - Limit()];
        }
      }
    }

    /** The operand of the br_unless of an `if`, and the label that fills it. */
    method OpenIf(sig: seq<Type>)
      requires Valid() && skip == []
      modifies this`istream, this`istreamOffset, this`items, this`labelStack
      ensures Valid() && items == old(items) + [Use(CondRef(|old(labelStack)|))]
      ensures labelStack == old(labelStack) + [F.Label(F.IfLabel, sig, |typeStack|, INVALID, |old(istream)|)]
    {
      hide F.BranchesTracked, F.HolesTracked, F.CallsTracked, Encode, Size, Bytes;
      var fixupOffset := istreamOffset;
      ghost var i, l := Use(CondRef(|labelStack|)), F.Label(F.IfLabel, sig, |typeStack|, INVALID, fixupOffset);
      F.BranchesKept(items, i, labelStack, depthFixups);
      F.PushKeeps(items + [i], labelStack, l, depthFixups);
      F.CondAdded(items, labelStack, l);
      F.CallsKept(items, i, funcOffsets, funcFixups);
      SizeSnoc(items, i);
      EmitWord(INVALID);
      items := items + [i];
      PushLabel(F.IfLabel, sig, INVALID, fixupOffset);
    }

    method OnIf(sig: seq<Type>, ghost ts: seq<Type>) returns (ok: bool)
      requires Valid() && Live(ts) && Typing.EndsWith(ts, [I32]) && skip == []
      modifies this`istream, this`istreamOffset, this`items, this`typeStack, this`labelStack
      ensures ok && Valid() && Live([]) && Outer() == typeStack == old(typeStack)[..|old(typeStack)| - 1]
      ensures items == old(items) + [Op(BR_UNLESS)] + [Use(CondRef(|old(labelStack)|))]
      ensures labelStack == old(labelStack) + [F.Label(F.IfLabel, sig, |typeStack|, INVALID, |old(istream)| + 1)]
    {
      hide Valid, AllKnown;
      LiveTop(ts);
      ok := CheckTypeStackLimit(1);
      var isI32 := PopAndCheck1(I32, ts);
      ok := ok && isI32;
      assert typeStack == Outer() + Operands() == old(typeStack)[..|old(typeStack)| - 1];
      WholeKnown(Typing.Below(ts, 1));
      SizeNow();
      EmitOpcode(BR_UNLESS);
      SizeNow();
      OpenIf(sig);
      EnteredTop();
    }

    lemma EnteredTop()
      requires |labelStack| > 0 && Limit() == |typeStack| && AllKnown(typeStack)
      ensures Live([]) && Outer() == typeStack
    {
      assert typeStack[..|typeStack|] == typeStack;
    }

    lemma SizeNow()
      requires Valid()
      ensures |istream| == Size(items) == istreamOffset
    {}

    /** A block has ended: its results are on the stack, or control never got here. */
    ghost predicate Finished(sig: seq<Type>)
      reads this`labelStack, this`typeStack, this`paramAndLocalTypes
    {
      Live(sig) || Dead()
    }

    lemma FinishedTop(sig: seq<Type>)
      requires Finished(sig)
      ensures InBlock() && AllKnown(Outer())
      ensures TopIsAny() || (TopIs(Operands(), sig) && |Operands()| == |sig|)
    {
      if Live(sig) {
        TopKnown(sig, sig);
      }
    }

    method OnElse() returns (ok: bool)
      requires Valid() && skip == []
      requires |labelStack| > 0 && labelStack[|labelStack| - 1].labelType == F.IfLabel
      requires |labelStack[|labelStack| - 1].sig| <= 1 && Finished(labelStack[|labelStack| - 1].sig)
      modifies this`istream, this`istreamOffset, this`items, this`typeStack, this`labelStack
      ensures ok && Valid() && typeStack == old(Outer()) && istreamOffset == old(istreamOffset) + 5
      ensures var top := |old(labelStack)| - 1;
        && items == Subst(old(items) + [Op(BR)] + [Use(ElseRef(top))], CondRef(top), istreamOffset)
        && labelStack == old(labelStack)[top := old(labelStack)[top].(labelType := F.ElseLabel, fixupOffset := |old(istream)| + 1)]
    {
      hide AllKnown, TopIs, Valid, Finished, TopIsAny;
      FinishedTop(labelStack[|labelStack| - 1].sig);
      ok := CheckNTypes(labelStack[|labelStack| - 1].sig);
      typeStack := typeStack[..Limit()];
      SizeNow();
      EmitOpcode(BR);
      SizeNow();
      OpenElse();
    }

    /** The operand of the jump over the `else` arm; the br_unless of the `if`
        goes right behind it. */
    method OpenElse()
      requires Valid() && skip == []
      requires |labelStack| > 0 && labelStack[|labelStack| - 1].labelType == F.IfLabel
      modifies this`istream, this`istreamOffset, this`items, this`labelStack
      ensures Valid() && istreamOffset == old(istreamOffset) + 4
      ensures var top := |old(labelStack)| - 1;
        && items == Subst(old(items) + [Use(ElseRef(top))], CondRef(top), istreamOffset)
        && labelStack == old(labelStack)[top := old(labelStack)[top].(labelType := F.ElseLabel, fixupOffset := |old(istream)|)]
    {
      hide F.BranchesTracked, F.HolesTracked, F.CallsTracked, Encode, Size, Bytes, Subst, Offsets;
      var top := |labelStack| - 1;
      var fixupCondOffset := labelStack[top].fixupOffset;
      ghost var i, before := Use(ElseRef(top)), items;
      var l := labelStack[top].(labelType := F.ElseLabel, fixupOffset := istreamOffset);
      F.BranchesKept(items, i, labelStack, depthFixups);
      F.RelabelKeeps(items + [i], labelStack, top, l, depthFixups);
      F.CallsKept(items, i, funcOffsets, funcFixups);
      F.ElseAdded(items, labelStack, l, istreamOffset + 4);
      F.HolesTop(items, labelStack, []);
      OffsetsSnoc(items, i, CondRef(top));
      SizeSnoc(items, i);
      EmitWord(INVALID);
      items := items + [i];
      F.SubstKeepsBranches(items, CondRef(top), istreamOffset, labelStack[top := l], depthFixups);
      F.SubstKeepsCalls(items, CondRef(top), istreamOffset, funcOffsets, funcFixups);
      FillHole(CondRef(top), fixupCondOffset, istreamOffset);
      labelStack := labelStack[top := l];
    }

    /** The bytes side of ending a block: fill its hole and its branches. */
    method FixupsAtEnd()
      requires Valid() && skip == [] && |labelStack| > 0
      modifies this`istream, this`items, this`depthFixups
      ensures istream == Encode(items) && |istream| == |old(istream)| && items == F.Close(old(items), labelStack, istreamOffset)
      ensures depthFixups == if |old(depthFixups)| == |labelStack| then old(depthFixups)[|labelStack| - 1 := []]
                             else old(depthFixups)
    {
      hide F.BranchesTracked, F.HolesTracked, F.CallsTracked, Encode, Size, Bytes, Subst, Offsets;
      var top := |labelStack| - 1;
      var l := labelStack[top];
      ghost var before, r := items, F.HoleRef(l.labelType, top);
      F.HolesTop(items, labelStack, []);
      F.BranchesTop(items, labelStack, depthFixups);
      SubstSize(items, r, istreamOffset);
      if l.labelType == F.IfLabel || l.labelType == F.ElseLabel {
        FillHole(r, l.fixupOffset, istreamOffset);
      } else {
        SubstNone(items, r, istreamOffset);
      }
      SubstSize(items, LabelRef(top), istreamOffset);
      FixupTopLabel(istreamOffset);
    }

    /** What remains tracked once the innermost label is closed and popped. */
    lemma Closing()
      requires Valid() && skip == [] && |labelStack| > 0
      ensures |depthFixups| <= |labelStack|
      ensures var rest := if |depthFixups| == |labelStack| then depthFixups[..|labelStack| - 1] else depthFixups;
        F.BranchesTracked(F.Close(items, labelStack, istreamOffset), labelStack[..|labelStack| - 1], rest)
      ensures F.HolesTracked(F.Close(items, labelStack, istreamOffset), labelStack[..|labelStack| - 1], [])
      ensures F.CallsTracked(F.Close(items, labelStack, istreamOffset), funcOffsets, funcFixups)
    {
      hide F.BranchesTracked, F.HolesTracked, F.CallsTracked, Encode, F.Close;
      F.BranchesTop(items, labelStack, depthFixups);
      F.HolesClosed(items, labelStack, istreamOffset);
      F.CallsClosed(items, labelStack, istreamOffset, funcOffsets, funcFixups);
      F.BranchesClosed(items, labelStack, istreamOffset, depthFixups,
        if |depthFixups| == |labelStack| then depthFixups[..|labelStack| - 1] else depthFixups);
    }

    method OnEnd() returns (ok: bool)
      requires Valid() && skip == [] && |labelStack| > 0
      requires labelStack[|labelStack| - 1].labelType != F.FuncLabel
      requires |labelStack[|labelStack| - 1].sig| <= 1 && Finished(labelStack[|labelStack| - 1].sig)
      modifies this`istream, this`items, this`typeStack, this`labelStack, this`depthFixups
      ensures ok && Valid() && typeStack == old(Outer()) + KnownTypes(old(labelStack)[|old(labelStack)| - 1].sig)
      ensures labelStack == old(labelStack)[..|old(labelStack)| - 1]
      ensures items == F.Close(old(items), old(labelStack), istreamOffset)
    {
      hide F.BranchesTracked, F.HolesTracked, F.CallsTracked, Encode, F.Close, TopIs, AllKnown, Finished, TopIsAny;
      var sig := labelStack[|labelStack| - 1].sig;
      FinishedTop(sig);
      Closing();
      var typesOk := CheckNTypes(sig);
      var exact := CheckTypeStackLimitExact(|sig|);
      ok := typesOk && exact;
      FixupsAtEnd();
      ResetTypeStackToLimit();
      NotAny();
      PushTypes(sig);
      PopLabel();
    }

    lemma NotAny()
      requires AllKnown(typeStack)
      ensures !TopIsAny()
    {}

    // ----- branches -----

    ghost predicate Nesting()
      reads this`labelStack, this`paramAndLocalTypes
    {
      Nested(labelStack, |paramAndLocalTypes|)
    }

    function Level(depth: nat): nat
      requires depth < |labelStack|
      reads this`labelStack
    {
      |labelStack| - 1 - depth
    }

    /** Enough values for a branch the validator accepted. */
    lemma BranchRoom(depth: nat, ts: seq<Type>)
      requires Live(ts) && Nesting() && Typing.BranchOk(TypingLabels(labelStack), depth, ts)
      ensures depth < |labelStack| && |labelStack[Level(depth)].sig| <= 1
      ensures |typeStack| >= labelStack[Level(depth)].limit + Arity(labelStack[Level(depth)])
      ensures labelStack[Level(depth)].labelType != F.LoopLabel ==> Typing.EndsWith(ts, labelStack[Level(depth)].sig)
    {}

    lemma NestingLimit()
      requires Nesting()
      ensures |labelStack| > 0 && |paramAndLocalTypes| <= Limit()
    {}

    method OnBr(depth: u32, ghost ts: seq<Type>) returns (ok: bool)
      requires Valid() && Live(ts) && Nesting() && Typing.BranchOk(TypingLabels(labelStack), depth, ts)
      modifies this`istream, this`istreamOffset, this`items, this`depthFixups, this`typeStack
      ensures ok && Emitted(old(items), C.Jump(CompileLabels(labelStack), depth, |old(typeStack)|))
      ensures Dead() && Outer() == old(Outer())
    {
      hide Valid, Live, Nesting, C.Jump, Typing.BranchOk, Typing.EndsWith, Dead, Outer, Operands, CompileLabels, TypingLabels, Arity;
      BranchRoom(depth, ts);
      NestingLimit();
      ok := depth < |labelStack|;
      if ok {
        var l := labelStack[Level(depth)];
        if l.labelType != F.LoopLabel {
          ok := CheckLive(l.sig, ts);
        }
        EmitBr(Level(depth));
        ResetToAny(ts);
      }
    }

    /** A hole for the offset of code this callback has yet to emit. */
    method EmitSkip()
      requires Valid() && skip == []
      modifies this`istream, this`istreamOffset, this`items, this`skip
      ensures Valid() && items == old(items) + [Use(SkipRef)] && skip == [|old(istream)|]
    {
      hide F.BranchesTracked, F.HolesTracked, F.CallsTracked, Encode, Size, Bytes;
      F.BranchesKept(items, Use(SkipRef), labelStack, depthFixups);
      F.SkipAdded(items, labelStack);
      F.CallsKept(items, Use(SkipRef), funcOffsets, funcFixups);
      SizeSnoc(items, Use(SkipRef));
      skip := [istreamOffset];
      EmitWord(INVALID);
      items := items + [Use(SkipRef)];
    }

    method FillSkip(offset: nat)
      requires Valid() && skip == [offset]
      modifies this`istream, this`items, this`skip
      ensures Valid() && items == Subst(old(items), SkipRef, istreamOffset) && skip == []
    {
      hide F.BranchesTracked, F.HolesTracked, F.CallsTracked, Encode, Size, Bytes, Subst;
      F.SubstKeepsBranches(items, SkipRef, istreamOffset, labelStack, depthFixups);
      F.SkipFilled(items, istreamOffset, labelStack, skip);
      F.SubstKeepsCalls(items, SkipRef, istreamOffset, funcOffsets, funcFixups);
      assert Offsets(items, SkipRef) == skip by { SkipNow(); }
      FillHole(SkipRef, offset, istreamOffset);
      skip := [];
    }

    lemma SkipNow()
      requires Valid()
      ensures Offsets(items, SkipRef) == skip
    {}

    /** Filling the skip hole leaves what was emitted before it alone. */
    lemma SkipFrame(before: seq<Item>, code: seq<Item>, after: seq<Item>, w: int)
      requires Offsets(before, SkipRef) == []
      requires forall i :: 0 <= i < |code| ==> !code[i].Use?
      ensures Subst(before + code + [Use(SkipRef)] + after, SkipRef, w)
           == before + code + [Word(w)] + Subst(after, SkipRef, w)
    {
      hide Offsets, Subst;
      SubstAppend(before + code + [Use(SkipRef)], after, SkipRef, w);
      SubstAppend(before + code, [Use(SkipRef)], SkipRef, w);
      SubstAppend(before, code, SkipRef, w);
      SubstNone(before, SkipRef, w);
      C.SubstConst(code, SkipRef, w);
      C.SubstPair(Use(SkipRef), Use(SkipRef), SkipRef, w);
      SubstAppend([Use(SkipRef)], [Use(SkipRef)], SkipRef, w);
      C.SubstOne(SkipRef, w);
    }

    method OnBrIf(depth: u32, ghost ts: seq<Type>) returns (ok: bool)
      requires Valid() && Live(ts) && Nesting() && skip == []
      requires Typing.TypeJump(Scope(), TypingLabels(labelStack), BrIf(depth), ts).Live?
      modifies this`istream, this`istreamOffset, this`items, this`depthFixups, this`typeStack, this`skip
      ensures ok && skip == [] && Live(Typing.Below(ts, 1)) && Outer() == old(Outer())
      ensures Emitted(old(items), C.CompJump(Context(), CompileLabels(labelStack), BrIf(depth), |old(istream)|, |old(typeStack)|))
    {
      hide Valid, Live, Nesting, C.Jump, Typing.BranchOk, Size, Outer, Operands, CompileLabels, TypingLabels, Arity;
      ghost var us := Typing.Below(ts, 1);
      HeightOf(ts);
      ok := PopAndCheck1(I32, ts);
      HeightOf(us);
      BranchRoom(depth, us);
      EmitBrIf(depth);
    }

    /** A conditional branch is a br_unless around an unconditional one, which
        can drop values first. */
    method EmitBrIf(depth: u32)
      requires Valid() && skip == [] && depth < |labelStack| && |labelStack[Level(depth)].sig| <= 1
      requires |typeStack| >= labelStack[Level(depth)].limit + Arity(labelStack[Level(depth)])
      modifies this`istream, this`istreamOffset, this`items, this`depthFixups, this`skip
      ensures skip == []
      ensures var jump := C.Jump(CompileLabels(labelStack), depth, |typeStack|);
        Emitted(old(items), [Op(BR_UNLESS), Word(|old(istream)| + 5 + Size(jump))] + jump)
    {
      hide Valid, C.Jump, Size, Subst, Offsets, CompileLabels, Arity;
      ghost var before, jump := items, C.Jump(CompileLabels(labelStack), depth, |typeStack|);
      SizeNow();
      SkipNow();
      EmitOpcode(BR_UNLESS);
      SizeNow();
      var fixupBrOffset := istreamOffset;
      EmitSkip();
      EmitBr(Level(depth));
      SizeNow();
      BrIfSize(before, jump);
      SkipFrame(before, [Op(BR_UNLESS)], jump, istreamOffset);
      C.SubstJump(Context(), CompileLabels(labelStack), depth, |typeStack|, SkipRef, istreamOffset);
      FillSkip(fixupBrOffset);
      assert before + [Op(BR_UNLESS)] + [Word(istreamOffset)] + jump == before + ([Op(BR_UNLESS), Word(istreamOffset)] + jump);
    }

    lemma BrIfSize(before: seq<Item>, jump: seq<Item>)
      ensures Size(before + [Op(BR_UNLESS)]) == Size(before) + 1
      ensures Size(before + [Op(BR_UNLESS)] + [Use(SkipRef)] + jump) == Size(before) + 5 + Size(jump)
    {
      hide Size, Encode;
      SizeAppend(before + [Op(BR_UNLESS)] + [Use(SkipRef)], jump);
      SizeSnoc(before + [Op(BR_UNLESS)], Use(SkipRef));
      SizeSnoc(before, Op(BR_UNLESS));
    }

    lemma HeightOf(ts: seq<Type>)
      requires Live(ts)
      ensures |typeStack| == Limit() + |ts|
    {}

    function BrTableHead(n: nat, tableOffset: Item): seq<Item> {
      [Op(BR_TABLE), Word(n), tableOffset, Op(DATA), Word((n + 1) * TABLE_ENTRY_SIZE)]
    }

    /** Everything before the entries of a branch table. */
    method EmitBrTableHead(n: nat)
      requires Valid() && skip == []
      modifies this`istream, this`istreamOffset, this`items, this`skip
      ensures Emitted(old(items), BrTableHead(n, Word(|old(istream)| + 14))) && skip == []
    {
      hide Valid, Size, Subst, Offsets;
      ghost var before := items;
      SizeNow();
      SkipNow();
      EmitOpcode(BR_TABLE);
      EmitI32(n);
      SizeNow();
      var fixupTableOffset := istreamOffset;
      EmitSkip();
      EmitOpcode(DATA);
      EmitI32((n + 1) * TABLE_ENTRY_SIZE);
      SizeNow();
      ghost var tail := [Op(DATA), Word((n + 1) * TABLE_ENTRY_SIZE)];
      assert items == before + [Op(BR_TABLE), Word(n)] + [Use(SkipRef)] + tail;
      TableHeadSize(before, n);
      SkipFrame(before, [Op(BR_TABLE), Word(n)], tail, istreamOffset);
      C.SubstConst(tail, SkipRef, istreamOffset);
      FillSkip(fixupTableOffset);
      assert before + [Op(BR_TABLE), Word(n)] + [Word(istreamOffset)] + tail == before + BrTableHead(n, Word(istreamOffset));
    }

    lemma TableHeadSize(before: seq<Item>, n: nat)
      ensures Size(before + [Op(BR_TABLE)] + [Word(n)]) == Size(before) + 5
      ensures Size(before + [Op(BR_TABLE), Word(n)] + [Use(SkipRef)] + [Op(DATA), Word((n + 1) * TABLE_ENTRY_SIZE)])
        == Size(before) + 14
    {
      hide Size, Encode;
      var w := Word((n + 1) * TABLE_ENTRY_SIZE);
      var a := before + [Op(BR_TABLE)];
      SizeSnoc(before, Op(BR_TABLE));
      SizeSnoc(a, Word(n));
      SizeSnoc(a + [Word(n)], Use(SkipRef));
      SizeSnoc(a + [Word(n)] + [Use(SkipRef)], Op(DATA));
      SizeSnoc(a + [Word(n)] + [Use(SkipRef)] + [Op(DATA)], w);
      assert before + [Op(BR_TABLE), Word(n)] + [Use(SkipRef)] + [Op(DATA), w]
        == a + [Word(n)] + [Use(SkipRef)] + [Op(DATA)] + [w];
    }

    /** One entry; its types are checked even when the target is a loop. */
    method OnBrTableEntry(depth: u32, ghost ts: seq<Type>) returns (ok: bool)
      requires Valid() && Live(ts) && Nesting() && Typing.BranchOk(TypingLabels(labelStack), depth, ts)
      modifies this`istream, this`istreamOffset, this`items, this`depthFixups
      ensures ok <==> Typing.SigOnTop(TypingLabels(labelStack), depth, ts)
      ensures ok ==> Emitted(old(items), C.TableEntry(CompileLabels(labelStack), depth, |typeStack|))
    {
      hide Valid, Live, Nesting, C.TableEntry, Typing.BranchOk, Typing.EndsWith, CompileLabels, Arity;
      BranchRoom(depth, ts);
      ok := CheckLive(labelStack[Level(depth)].sig, ts);
      if ok {
        EmitBrTableOffset(Level(depth));
      }
    }

    predicate AllOnTop(targets: seq<u32>, default: u32, ts: seq<Type>)
      reads this`labelStack
    {
      && Typing.SigOnTop(TypingLabels(labelStack), default, ts)
      && forall i :: 0 <= i < |targets| ==> Typing.SigOnTop(TypingLabels(labelStack), targets[i], ts)
    }

    method OnBrTable(targets: seq<u32>, default: u32, ghost ts: seq<Type>) returns (ok: bool)
      requires Valid() && Live(ts) && Nesting() && skip == []
      requires Typing.TypeJump(Scope(), TypingLabels(labelStack), BrTable(targets, default), ts).Dead?
      modifies this`istream, this`istreamOffset, this`items, this`depthFixups, this`typeStack, this`skip
      ensures ok <==> Typing.Generable(Scope(), TypingLabels(labelStack), BrTable(targets, default), ts)
      ensures ok ==> skip == [] && Dead() && Outer() == old(Outer())
      ensures ok ==> Emitted(old(items),
        C.CompJump(Context(), CompileLabels(labelStack), BrTable(targets, default), |old(istream)|, |old(typeStack)|))
    {
      hide Valid, Live, Dead, Nesting, Typing.BranchOk, Typing.SigOnTop, C.TableEntries, CompileLabels, TypingLabels,
        Outer, Operands;
      ghost var us := Typing.Below(ts, 1);
      HeightOf(ts);
      ok := PopAndCheck1(I32, ts);
      HeightOf(us);
      NestingLimit();
      ok := EmitBrTable(targets, default, us);
      if ok {
        ResetToAny(us);
      }
    }

    method EmitBrTable(targets: seq<u32>, default: u32, ghost ts: seq<Type>) returns (ok: bool)
      requires Valid() && Live(ts) && Nesting() && skip == []
      requires Typing.TableOk(TypingLabels(labelStack), targets, default, ts)
      modifies this`istream, this`istreamOffset, this`items, this`depthFixups, this`skip
      ensures ok <==> AllOnTop(targets, default, ts)
      ensures skip == []
      ensures ok ==> Emitted(old(items), BrTableHead(|targets|, Word(|old(istream)| + 14))
        + C.TableEntries(CompileLabels(labelStack), targets + [default], |typeStack|))
    {
      hide Valid, Live, Nesting, Typing.TableOk, C.TableEntries, CompileLabels, TypingLabels, BrTableHead, AllOnTop;
      EmitBrTableHead(|targets|);
      ok := EmitBrTableEntries(targets, default, ts);
    }

    method EmitBrTableEntries(targets: seq<u32>, default: u32, ghost ts: seq<Type>) returns (ok: bool)
      requires Valid() && Live(ts) && Nesting() && Typing.TableOk(TypingLabels(labelStack), targets, default, ts)
      modifies this`istream, this`istreamOffset, this`items, this`depthFixups
      ensures ok <==> AllOnTop(targets, default, ts)
      ensures ok ==> Emitted(old(items), C.TableEntries(CompileLabels(labelStack), targets + [default], |typeStack|))
    {
      hide Valid, Live, Nesting, Typing.BranchOk, Typing.SigOnTop, C.TableEntry, CompileLabels, TypingLabels;
      ghost var all := targets + [default];
      var i := 0;
      ok := true;
      assert items + C.TableEntries(CompileLabels(labelStack), [], |typeStack|) == items;
      while i <= |targets| && ok
        invariant 0 <= i <= |targets| + 1
        invariant ok ==> Valid() && items == old(items) + C.TableEntries(CompileLabels(labelStack), all[..i], |typeStack|)
        invariant Live(ts) && Nesting()
        invariant ok ==> forall j :: 0 <= j < i ==> Typing.SigOnTop(TypingLabels(labelStack), all[j], ts)
        invariant !ok ==> exists j :: 0 <= j < |all| && !Typing.SigOnTop(TypingLabels(labelStack), all[j], ts)
        decreases |targets| + 1 - i, ok
      {
        var depth := if i != |targets| then targets[i] else default;
        assert depth == all[i] && all[..i + 1][..i] == all[..i];
        ok := OnBrTableEntry(depth, ts);
        i := i + 1;
      }
      assert all[|targets|] == default && (forall j :: 0 <= j < |targets| ==> all[j] == targets[j]);
      assert ok ==> all[..i] == all;
    }

    /** Drop parameters and locals from under the results. */
    method DropTypesForReturn(arity: nat)
      requires Valid() && !TopIsAny() && arity <= 1 && arity <= |typeStack|
      modifies this`istream, this`istreamOffset, this`items
      ensures Emitted(old(items), C.DropKeep(|typeStack| - arity, arity))
    {
      hide Valid;
      EmitDropKeep(|typeStack| - arity, arity);
    }

    method OnReturn(ghost ts: seq<Type>) returns (ok: bool)
      requires Valid() && Live(ts) && Nesting() && Typing.EndsWith(ts, results) && |results| <= 1
      modifies this`istream, this`istreamOffset, this`items, this`typeStack
      ensures ok && Emitted(old(items), C.DropKeep(|old(typeStack)| - |results|, |results|) + [Op(RETURN)])
      ensures Dead() && Outer() == old(Outer())
    {
      hide Valid, Live, Dead, Nesting, C.DropKeep, Outer, Operands;
      LiveTop(ts);
      HeightOf(ts);
      NestingLimit();
      ok := CheckLive(results, ts);
      DropTypesForReturn(|results|);
      EmitOpcode(RETURN);
      ResetToAny(ts);
    }

    method OnUnreachable(ghost ts: seq<Type>)
      requires Valid() && Live(ts) && Nesting()
      modifies this`istream, this`istreamOffset, this`items, this`typeStack
      ensures Emitted(old(items), [Op(UNREACHABLE)]) && Dead() && Outer() == old(Outer())
    {
      hide Valid, Live, Dead, Nesting, Outer, Operands;
      NestingLimit();
      EmitOpcode(UNREACHABLE);
      ResetToAny(ts);
    }

    /** The type stack shows the outcome of typing in the current block. */
    ghost predicate Reaches(r: Typing.Typed)
      reads this`labelStack, this`typeStack, this`paramAndLocalTypes
    {
      && InBlock()
      && match r
         case Live(ts) => Live(ts)
         case Dead => Dead()
         case Bad => false
    }

    method OnJump(e: Instr, ghost ts: seq<Type>) returns (ok: bool)
      requires Valid() && Live(ts) && Nesting() && skip == [] && |results| <= 1 && IsJump(e)
      requires !Typing.TypeJump(Scope(), TypingLabels(labelStack), e, ts).Bad?
      modifies this`istream, this`istreamOffset, this`items, this`depthFixups, this`typeStack, this`skip
      ensures ok <==> Typing.Generable(Scope(), TypingLabels(labelStack), e, ts)
      ensures ok ==> skip == [] && Reaches(Typing.TypeJump(Scope(), TypingLabels(labelStack), e, ts)) && Outer() == old(Outer())
      ensures ok ==> Emitted(old(items),
        C.CompJump(Context(), CompileLabels(labelStack), e, |old(istream)|, |old(typeStack)|))
    {
      hide Valid, Live, Dead, Nesting, Typing.BranchOk, Typing.TableOk, C.TableEntries, CompileLabels, TypingLabels,
        Outer, Operands, Size;
      if e.BrIf? {
        ok := OnBrIf(e.depth, ts);
        LiveTop(Typing.Below(ts, 1));
      } else {
        ok := OnTerminal(e, ts);
        if ok { DeadIn(); }
      }
    }

    lemma DeadIn()
      requires Dead()
      ensures InBlock()
    {}

    method OnTerminal(e: Instr, ghost ts: seq<Type>) returns (ok: bool)
      requires Valid() && Live(ts) && Nesting() && skip == [] && |results| <= 1 && Terminal(e)
      requires Typing.TypeJump(Scope(), TypingLabels(labelStack), e, ts).Dead?
      modifies this`istream, this`istreamOffset, this`items, this`depthFixups, this`typeStack, this`skip
      ensures ok <==> Typing.Generable(Scope(), TypingLabels(labelStack), e, ts)
      ensures ok ==> skip == [] && Dead() && Outer() == old(Outer())
      ensures ok ==> Emitted(old(items),
        C.CompJump(Context(), CompileLabels(labelStack), e, |old(istream)|, |old(typeStack)|))
    {
      hide Valid, Live, Dead, Nesting, Typing.BranchOk, Typing.TableOk, C.TableEntries, CompileLabels, TypingLabels,
        Outer, Operands, Size;
      if e.Br? {
        ok := OnBr(e.depth, ts);
      } else if e.BrTable? {
        ok := OnBrTable(e.targets, e.default, ts);
      } else if e.Return? {
        ok := OnReturn(ts);
      } else {
        OnUnreachable(ts);
        ok := true;
      }
    }

    // ----- calls -----

    method PopArguments(params: seq<Type>, ghost ts: seq<Type>) returns (ok: bool)
      requires Live(ts) && Typing.EndsWith(ts, params)
      modifies this`typeStack
      ensures ok && Live(Typing.Below(ts, |params|)) && Outer() == old(Outer())
    {
      hide Live, Outer;
      LiveTop(ts);
      ok := true;
      var i := |params|;
      assert Typing.Below(ts, 0) == ts;
      while i > 0
        invariant 0 <= i <= |params|
        invariant ok && InBlock() && Live(Typing.Below(ts, |params| - i)) && Outer() == old(Outer())
      {
        var arg := PopType(Typing.Below(ts, |params| - i));
        Typing.BelowTwice(ts, |params| - i, 1);
        LiveTop(Typing.Below(ts, |params| - i + 1));
        assert ts[|ts| - |params|..][i - 1] == params[i - 1];
        var same := CheckType(params[i - 1], arg);
        ok := ok && same;
        i := i - 1;
      }
    }

    method PushResults(rs: seq<Type>, ghost ts: seq<Type>)
      requires Live(ts)
      modifies this`typeStack
      ensures Live(ts + rs) && Outer() == old(Outer())
    {
      LiveTop(ts);
      PushTypes(rs);
      KnownAppend(ts, rs);
    }

    /** The entry of a function; an unknown one is recorded for fixup. */
    method EmitFuncOffset(f: nat)
      requires Valid() && f < |m.funcs|
      modifies this`istream, this`istreamOffset, this`items, this`funcFixups
      ensures Emitted(old(items), [C.EntryItem(Context(), f)])
    {
      hide F.BranchesTracked, F.HolesTracked, F.CallsTracked, Encode, Size, Bytes;
      if funcOffsets[f] == INVALID {
        funcFixups := F.AddFixup(funcFixups, f, istreamOffset);
        F.BranchesKept(items, Use(FuncRef(f)), labelStack, depthFixups);
        F.HolesKept(items, Use(FuncRef(f)), labelStack, skip);
        F.CallAdded(items, f, funcOffsets, old(funcFixups));
        SizeSnoc(items, Use(FuncRef(f)));
        EmitWord(funcOffsets[f]);
        items := items + [Use(FuncRef(f))];
      } else {
        EmitI32(funcOffsets[f]);
      }
    }

    method OnCall(f: u32, ghost ts: seq<Type>) returns (ok: bool)
      requires Valid() && Live(ts) && f < |m.funcs| && m.funcs[f].sigIndex < |m.sigs|
      requires Typing.EndsWith(ts, SigOf(m, f).params)
      modifies this`istream, this`istreamOffset, this`items, this`funcFixups, this`typeStack
      ensures ok && Emitted(old(items), C.CompCall(Context(), Call(f)))
      ensures Live(Typing.Below(ts, |SigOf(m, f).params|) + SigOf(m, f).results) && Outer() == old(Outer())
    {
      hide Valid, Live, C.EntryItem, Outer, Operands;
      var sig := SigOf(m, f);
      LiveTop(ts);
      ok := CheckTypeStackLimit(|sig.params|);
      var popped := PopArguments(sig.params, ts);
      ok := ok && popped;
      EmitOpcode(CALL);
      EmitFuncOffset(f);
      PushResults(sig.results, Typing.Below(ts, |sig.params|));
    }

    method OnCallIndirect(i: u32, ghost ts: seq<Type>) returns (ok: bool)
      requires Valid() && Live(ts) && i < |m.sigs| && Typing.TypeCall(Scope(), CallIndirect(i), ts).Live?
      modifies this`istream, this`istreamOffset, this`items, this`typeStack
      ensures ok <==> ts != []
      ensures ok ==> Emitted(old(items), C.CompCall(Context(), CallIndirect(i)))
      ensures ok ==> Live(Typing.TypeCall(Scope(), CallIndirect(i), ts).types) && Outer() == old(Outer())
    {
      hide Valid, Live, Outer, Operands;
      assert ts != [] ==> ts[|ts| - 1..] == [ts[|ts| - 1]];
      ok := PopAndCheck1(I32, ts);
      if ok {
        ok := CheckSignature(m.sigs[i], Typing.Below(ts, 1));
        EmitCallIndirect(i);
      }
    }

    method CheckSignature(sig: FuncSig, ghost ts: seq<Type>) returns (ok: bool)
      requires Live(ts) && Typing.EndsWith(ts, sig.params)
      modifies this`typeStack
      ensures ok && Live(Typing.Below(ts, |sig.params|) + sig.results) && Outer() == old(Outer())
    {
      hide Live, Outer, Operands;
      LiveTop(ts);
      ok := CheckTypeStackLimit(|sig.params|);
      var popped := PopArguments(sig.params, ts);
      ok := ok && popped;
      PushResults(sig.results, Typing.Below(ts, |sig.params|));
    }

    method EmitCallIndirect(i: u32)
      requires Valid()
      modifies this`istream, this`istreamOffset, this`items
      ensures Emitted(old(items), C.CompCall(Context(), CallIndirect(i)))
    {
      hide Valid;
      EmitOpcode(CALL_INDIRECT);
      EmitI32(0);
      EmitI32(i);
    }

    // ----- the callbacks in the order the reader makes them -----

    ghost function Now(): Snapshot
      requires InBlock()
      reads this
    {
      Snapshot(items, labelStack, Outer(), Scope(), funcOffsets, istreamOffset, |typeStack|)
    }

    /** Ready for the code of the current block, on operand types `ts`. */
    ghost predicate Ready(ts: seq<Type>)
      reads this
    {
      Valid() && Live(ts) && Nesting() && skip == [] && |results| <= 1
    }

    /** `code` has been emitted since; what surrounds the current block is as it
        was, and the type stack shows `r`. */
    ghost predicate Generated(s: Snapshot, code: seq<Item>, r: Typing.Typed)
      reads this
    {
      && Emitted(s.items, code) && skip == [] && labelStack == s.labels
      && Scope() == s.scope && funcOffsets == s.offsets
      && Reaches(r) && Outer() == s.outer
    }

    method GenerateCode(code: Code, ghost ts: seq<Type>) returns (ok: bool)
      requires Ready(ts) && Typing.Representable(code)
      requires !Now().Typed(code, ts).Bad? && Room(Size(Now().Compiled(code)))
      modifies this
      ensures ok <==> old(Now()).Generable(code, ts)
      ensures ok ==> Generated(old(Now()), old(Now()).Compiled(code), old(Now()).Typed(code, ts))
      decreases code, 0
    {
      hide Ready, Generated, Snapshot.Compiled, Snapshot.Typed, Snapshot.Generable, Snapshot.CompiledInstr,
        Snapshot.TypedInstr, Snapshot.GenerableInstr, Typing.Representable, Size, Now, C.Delta;
      SnapshotNow(ts);
      ghost var s := Now();
      if code == Nil {
        ok := true;
        NilSpec(s, ts);
        NothingGenerated(ts);
      } else {
        var e, rest := code.head, code.tail;
        ConsSpec(s, e, rest, ts);
        ok := GenerateInstr(e, ts);
        if ok && rest != Nil {
          ghost var us := s.TypedInstr(e, ts).types;
          StillReady(s, e, ts, us);
          ok := GenerateCode(rest, us);
          if ok {
            JoinGenerated(s, s.CompiledInstr(e), s.After(e).Compiled(rest), s.Typed(code, ts), s.After(e));
          }
        }
      }
    }

    lemma NilSpec(s: Snapshot, ts: seq<Type>)
      ensures s.Compiled(Nil) == [] && s.Typed(Nil, ts) == Typing.Live(ts) && s.Generable(Nil, ts)
    {}

    /** What compiling and typing say about a body that starts with `e`. */
    lemma ConsSpec(s: Snapshot, e: Instr, rest: Code, ts: seq<Type>)
      requires Typing.Representable(Cons(e, rest)) && !s.Typed(Cons(e, rest), ts).Bad?
      ensures Typing.RepresentableInstr(e) && Typing.Representable(rest) && !s.TypedInstr(e, ts).Bad?
      ensures s.Compiled(Cons(e, rest)) == s.CompiledInstr(e) + s.After(e).Compiled(rest)
      ensures Size(s.Compiled(Cons(e, rest))) == Size(s.CompiledInstr(e)) + Size(s.After(e).Compiled(rest))
      ensures rest == Nil ==> s.Compiled(Cons(e, rest)) == s.CompiledInstr(e)
      ensures rest == Nil ==> s.Typed(Cons(e, rest), ts) == s.TypedInstr(e, ts)
      ensures rest == Nil ==> s.Generable(Cons(e, rest), ts) == s.GenerableInstr(e, ts)
      ensures rest != Nil ==> s.TypedInstr(e, ts).Live?
      ensures rest != Nil ==> s.Typed(Cons(e, rest), ts) == s.After(e).Typed(rest, s.TypedInstr(e, ts).types)
      ensures rest != Nil ==> (s.Generable(Cons(e, rest), ts) <==>
        s.GenerableInstr(e, ts) && s.After(e).Generable(rest, s.TypedInstr(e, ts).types))
    {
      hide Typing.TypeInstr, Typing.Generable, Typing.RepresentableInstr, Size, C.CompInstr, C.Delta;
      SizeAppend(s.CompiledInstr(e), s.After(e).Compiled(rest));
      H.LiveGoesOn(s.scope, TypingLabels(s.labels), e, ts);
      if rest == Nil {
        assert s.CompiledInstr(e) + [] == s.CompiledInstr(e);
        NilSpec(s.After(e), []);
        if s.TypedInstr(e, ts).Live? { NilSpec(s, s.TypedInstr(e, ts).types); }
      }
    }

    lemma SnapshotNow(ts: seq<Type>)
      requires Ready(ts)
      ensures InBlock()
      ensures var s := Now();
        && s.off == Size(s.items) == istreamOffset && |s.scope.results| <= 1
        && Nested(s.labels, |s.scope.locals|) && s.height == s.labels[|s.labels| - 1].limit + |ts|
    {}

    lemma NothingGenerated(ts: seq<Type>)
      requires Ready(ts)
      ensures InBlock() && Generated(Now(), [], Typing.Live(ts))
    {
      assert items + [] == items;
    }

    lemma JoinGenerated(s: Snapshot, code1: seq<Item>, code2: seq<Item>, r: Typing.Typed, s': Snapshot)
      requires Generated(s', code2, r) && s'.items == s.items + code1
      requires s' == s.(items := s'.items, off := s'.off, height := s'.height)
      ensures Generated(s, code1 + code2, r)
    {
      assert s.items + code1 + code2 == s.items + (code1 + code2);
    }

    /** After an instruction that falls through, the rest of the block can follow. */
    lemma StillReady(s: Snapshot, e: Instr, ts: seq<Type>, us: seq<Type>)
      requires Generated(s, s.CompiledInstr(e), Typing.Live(us)) && s.TypedInstr(e, ts) == Typing.Live(us)
      requires s.GenerableInstr(e, ts) && s.off == Size(s.items) && |s.scope.results| <= 1
      requires Nested(s.labels, |s.scope.locals|) && s.height == s.labels[|s.labels| - 1].limit + |ts|
      ensures Ready(us) && InBlock() && Now() == s.After(e) && istreamOffset == s.After(e).off
    {
      hide Typing.TypeInstr, Typing.Generable, Valid, Size, C.Delta, Nested, C.CompInstr, Live, Operands, Outer;
      if e.CallIndirect? { GenerableIndirect(s, e, ts); }
      H.DeltaIsTyped(s.scope, TypingLabels(s.labels), e, ts);
      HeightOf(us);
      SizeNow();
      SizeAppend(s.items, s.CompiledInstr(e));
    }

    lemma GenerableIndirect(s: Snapshot, e: Instr, ts: seq<Type>)
      requires s.GenerableInstr(e, ts) && e.CallIndirect?
      ensures ts != []
    {}

    method GenerateInstr(e: Instr, ghost ts: seq<Type>) returns (ok: bool)
      requires Ready(ts) && Typing.RepresentableInstr(e)
      requires !Now().TypedInstr(e, ts).Bad? && Room(Size(Now().CompiledInstr(e)))
      modifies this
      ensures ok <==> old(Now()).GenerableInstr(e, ts)
      ensures ok ==> Generated(old(Now()), old(Now()).CompiledInstr(e), old(Now()).TypedInstr(e, ts))
      decreases e, 2
    {
      hide Ready, Generated, Snapshot.CompiledInstr, Snapshot.TypedInstr, Snapshot.GenerableInstr, Size, Now;
      SnapshotNow(ts);
      if IsPlain(e) {
        ok := GeneratePlain(e, ts);
      } else if IsJump(e) {
        ok := GenerateJump(e, ts);
      } else if IsCall(e) {
        ok := GenerateCall(e, ts);
      } else if e.If? {
        ok := GenerateIf(e, ts);
      } else {
        ok := GenerateBlock(e, ts);
      }
    }

    method GeneratePlain(e: Instr, ghost ts: seq<Type>) returns (ok: bool)
      requires Ready(ts) && Typing.RepresentableInstr(e) && IsPlain(e) && !Now().TypedInstr(e, ts).Bad?
      modifies this`istream, this`istreamOffset, this`items, this`typeStack
      ensures ok <==> old(Now()).GenerableInstr(e, ts)
      ensures ok ==> Generated(old(Now()), old(Now()).CompiledInstr(e), old(Now()).TypedInstr(e, ts))
    {
      hide Valid, Live, C.CompPlain, Typing.TypePlain, Typing.GenerablePlain, Operands, Outer;
      NestingLimit();
      H.PlainLive(Scope(), e, ts);
      ok := OnPlain(e, ts);
      if ok { LiveTop(Typing.TypePlain(Scope(), e, ts).types); }
    }

    method GenerateJump(e: Instr, ghost ts: seq<Type>) returns (ok: bool)
      requires Ready(ts) && IsJump(e) && !Now().TypedInstr(e, ts).Bad?
      modifies this`istream, this`istreamOffset, this`items, this`depthFixups, this`typeStack, this`skip
      ensures ok <==> old(Now()).GenerableInstr(e, ts)
      ensures ok ==> Generated(old(Now()), old(Now()).CompiledInstr(e), old(Now()).TypedInstr(e, ts))
    {
      hide Live, C.CompJump, Typing.TypeJump, Typing.Generable, Operands, Outer, Nested, Reaches, Size, Encode,
        F.BranchesTracked, F.HolesTracked, F.CallsTracked;
      ok := OnJump(e, ts);
    }

    method GenerateCall(e: Instr, ghost ts: seq<Type>) returns (ok: bool)
      requires Ready(ts) && IsCall(e) && !Now().TypedInstr(e, ts).Bad?
      modifies this`istream, this`istreamOffset, this`items, this`funcFixups, this`typeStack
      ensures ok <==> old(Now()).GenerableInstr(e, ts)
      ensures ok ==> Generated(old(Now()), old(Now()).CompiledInstr(e), old(Now()).TypedInstr(e, ts))
    {
      hide Valid, Live, C.CompCall, Operands, Outer, Nested;
      if e.Call? {
        ok := OnCall(e.func, ts);
        LiveTop(Typing.TypeCall(Scope(), e, ts).types);
      } else {
        ok := OnCallIndirect(e.sigIndex, ts);
        if ok { LiveTop(Typing.TypeCall(Scope(), e, ts).types); }
      }
    }

    method GenerateBlock(e: Instr, ghost ts: seq<Type>) returns (ok: bool)
      requires Ready(ts) && Typing.RepresentableInstr(e) && (e.Block? || e.Loop?)
      requires !Now().TypedInstr(e, ts).Bad? && Room(Size(Now().CompiledInstr(e)))
      modifies this
      ensures ok <==> old(Now()).GenerableInstr(e, ts)
      ensures ok ==> Generated(old(Now()), old(Now()).CompiledInstr(e), old(Now()).TypedInstr(e, ts))
      decreases e, 1
    {
      hide Ready, Generated, Snapshot.CompiledInstr, Snapshot.TypedInstr, Snapshot.GenerableInstr, Snapshot.Compiled,
        Snapshot.Typed, Snapshot.Generable, Typing.Representable, Size, Now, Nested, StackShows, Offsets;
      SnapshotNow(ts);
      ghost var s, stack, l := Now(), typeStack, BlockLabelFor(e, |typeStack|, istreamOffset);
      if e.Loop? {
        EnterLoop(e.sig, ts);
      } else {
        EnterBlock(e.sig, ts);
      }
      SnapshotNow([]);
      ghost var s1 := Now();
      BlockSpec(s, s1, e, l, ts);
      ok := GenerateCode(e.body, []);
      if ok {
        FinishBlock(s, s1, e, l, stack, ts);
      }
    }

    /** The label a block or loop pushes. */
    function BlockLabelFor(e: Instr, height: nat, off: nat): F.Label
      requires e.Block? || e.Loop?
    {
      if e.Loop? then F.Label(F.LoopLabel, e.sig, height, off, INVALID) else F.Label(F.BlockLabel, e.sig, height, INVALID, INVALID)
    }

    method EnterBlock(sig: seq<Type>, ghost ts: seq<Type>)
      requires Ready(ts) && |sig| <= 1
      modifies this`labelStack
      ensures Ready([]) && InBlock()
      ensures Entered(old(Now()), Now(), F.Label(F.BlockLabel, sig, |typeStack|, INVALID, INVALID), typeStack, ts)
    {
      hide Valid, Live;
      HeightOf(ts);
      FreshLevel();
      ShowsNow(ts);
      OnBlock(sig, ts);
      LiveTop([]);
    }

    method EnterLoop(sig: seq<Type>, ghost ts: seq<Type>)
      requires Ready(ts) && |sig| <= 1
      modifies this`labelStack
      ensures Ready([]) && InBlock()
      ensures Entered(old(Now()), Now(), F.Label(F.LoopLabel, sig, |typeStack|, istreamOffset, INVALID), typeStack, ts)
    {
      hide Valid, Live;
      HeightOf(ts);
      FreshLevel();
      ShowsNow(ts);
      OnLoop(sig, ts);
      LiveTop([]);
    }

    lemma ShowsNow(ts: seq<Type>)
      requires Live(ts)
      ensures StackShows(typeStack, labelStack, ts)
    {}

    /** `s1` is `s` with one more label, seen from inside its block. */
    ghost predicate Entered(s: Snapshot, s1: Snapshot, l: F.Label, stack: seq<StackType>, ts: seq<Type>) {
      && s1 == s.(labels := s.labels + [l], outer := stack)
      && s.height == |stack| == l.limit
      && StackShows(stack, s.labels, ts) && s.outer == stack[..s.labels[|s.labels| - 1].limit]
      && Offsets(s.items, LabelRef(|s.labels|)) == Offsets(s.items, CondRef(|s.labels|)) == []
    }

    /** What the specification says of a block, in terms of its body. */
    lemma BlockSpec(s: Snapshot, s1: Snapshot, e: Instr, l: F.Label, ts: seq<Type>)
      requires (e.Block? || e.Loop?) && !s.TypedInstr(e, ts).Bad? && s.off < INVALID && s.height >= 0
      requires s1 == s.(labels := s.labels + [l], outer := s1.outer) && l == BlockLabelFor(e, s.height, s.off)
      ensures s.TypedInstr(e, ts) == Typing.Live(ts + e.sig)
      ensures s1.Typed(e.body, []).Dead? || s1.Typed(e.body, []) == Typing.Live(e.sig)
      ensures s.GenerableInstr(e, ts) <==> s1.Generable(e.body, [])
      ensures Size(s1.Compiled(e.body)) == Size(s.CompiledInstr(e))
      ensures e.Loop? ==> s1.Compiled(e.body) == s.CompiledInstr(e)
    {
      hide C.CompCode, Typing.TypeCode, Typing.GenerableCode, Size;
      var cs := CompileLabels(s.labels);
      assert CompileLabels(s1.labels) == cs + [CompileLabel(l)];
      assert TypingLabels(s1.labels) == TypingLabels(s.labels) + [Typing.Label(e.Loop?, e.sig)];
      assert Typing.BodyOk(s.scope, TypingLabels(s1.labels), e.body, e.sig);
      if e.Block? {
        C.BlockSize(s.Context(), cs, e.body, |e.sig|, s.off, s.height);
      }
    }

    /** A loop has nothing left to fill at its end. */
    lemma LoopCloses(w: int)
      requires Valid() && skip == [] && |labelStack| > 0
      requires labelStack[|labelStack| - 1].labelType == F.LoopLabel && labelStack[|labelStack| - 1].offset != INVALID
      ensures F.Close(items, labelStack, w) == items
    {
      hide Encode, Subst, Offsets, F.CallsTracked;
      F.HolesTop(items, labelStack, []);
      F.BranchesTop(items, labelStack, depthFixups);
      SubstNone(items, CondRef(|labelStack| - 1), w);
      SubstNone(items, LabelRef(|labelStack| - 1), w);
    }

    /** Filling the branches out of a block or loop gives its code. */
    lemma CloseSpec(s: Snapshot, s1: Snapshot, e: Instr, l: F.Label, r: Typing.Typed)
      requires e.Block? || e.Loop?
      requires Generated(s1, s1.Compiled(e.body), r) && s.off == Size(s.items) && s.off < INVALID && s.height >= 0
      requires s1 == s.(labels := s.labels + [l], outer := s1.outer) && l == BlockLabelFor(e, s.height, s.off)
      requires Offsets(s.items, LabelRef(|s.labels|)) == Offsets(s.items, CondRef(|s.labels|)) == []
      ensures F.Close(items, labelStack, istreamOffset) == s.items + s.CompiledInstr(e)
    {
      hide C.CompCode, Size, Offsets, F.Close, Valid, Reaches, Outer;
      var cs, code := CompileLabels(s.labels), s1.Compiled(e.body);
      assert CompileLabels(s1.labels) == cs + [CompileLabel(l)];
      SizeNow();
      SizeAppend(s.items, code);
      if e.Loop? {
        LoopCloses(istreamOffset);
      } else {
        assert code == C.CompCode(s.Context(), cs + [C.OpenLabel(s.height, |e.sig|)], e.body, s.off, s.height);
        assert istreamOffset == C.EndOf(s.Context(), cs, e.body, |e.sig|, s.off, s.height);
        BlockItems(s.items, s.Context(), s.labels, l, e.body, s.off, s.height, istreamOffset);
        assert s.CompiledInstr(e) == C.CompBlock(s.Context(), cs, e.body, |e.sig|, s.off, s.height);
      }
    }

    method FinishBlock(ghost s: Snapshot, ghost s1: Snapshot, e: Instr, ghost l: F.Label, ghost stack: seq<StackType>,
        ghost ts: seq<Type>)
      requires (e.Block? || e.Loop?) && |e.sig| <= 1 && s.off == Size(s.items) && s.off < INVALID && s.height >= 0
      requires Entered(s, s1, l, stack, ts) && l == BlockLabelFor(e, s.height, s.off)
      requires Generated(s1, s1.Compiled(e.body), s1.Typed(e.body, [])) && !s.TypedInstr(e, ts).Bad?
      modifies this`istream, this`items, this`typeStack, this`labelStack, this`depthFixups
      ensures Generated(s, s.CompiledInstr(e), s.TypedInstr(e, ts))
    {
      hide Snapshot.TypedInstr, Snapshot.CompiledInstr, Snapshot.Typed, Snapshot.Compiled, Valid, F.Close, Live, Dead, Size, StackShows, Offsets;
      BlockSpec(s, s1, e, l, ts);
      CloseSpec(s, s1, e, l, s1.Typed(e.body, []));
      assert labelStack[..|labelStack| - 1] == s.labels;
      LeaveBlock(s.labels, stack, ts);
      LiveTop(ts + e.sig);
    }

    method GenerateIf(e: Instr, ghost ts: seq<Type>) returns (ok: bool)
      requires Ready(ts) && Typing.RepresentableInstr(e) && e.If?
      requires !Now().TypedInstr(e, ts).Bad? && Room(Size(Now().CompiledInstr(e)))
      modifies this
      ensures ok <==> old(Now()).GenerableInstr(e, ts)
      ensures ok ==> Generated(old(Now()), old(Now()).CompiledInstr(e), old(Now()).TypedInstr(e, ts))
      decreases e, 1
    {
      hide Ready, Generated, Snapshot.CompiledInstr, Snapshot.TypedInstr, Snapshot.GenerableInstr, Snapshot.Compiled,
        Snapshot.Typed, Snapshot.Generable, Typing.Representable, Size, Now, EnteredIf, EnteredElse, Typing.EndsWith;
      SnapshotNow(ts);
      ghost var s := Now();
      IfTyped(s, e, ts);
      EnterIf(e.sig, ts);
      SnapshotNow([]);
      ghost var s1 := Now();
      IfSpec(s, s1, e, ts);
      ok := GenerateCode(e.thn, []);
      if ok {
        if e.hasElse {
          EnterElse(s, s1, e, ts);
          SnapshotNow([]);
          ghost var s2 := Now();
          ElseSpec(s, s1, s2, e, ts);
          ok := GenerateCode(e.els, []);
          if ok {
            FinishElse(s, s1, s2, e, ts);
          }
        } else {
          FinishIf(s, s1, e, ts);
        }
      }
    }

    /** `s1` is the state inside the first arm of an `if` met in state `s`. */
    ghost predicate EnteredIf(s: Snapshot, s1: Snapshot, sig: seq<Type>, ts: seq<Type>) {
      var n := |s.labels|;
      && s1 == s.(items := s.items + [Op(BR_UNLESS)] + [Use(CondRef(n))], labels := s.labels + [IfLabelAt(sig, s)],
           outer := s1.outer, off := s.off + 5, height := s.height - 1)
      && |s1.outer| == s.height - 1 && |ts| > 0
      && StackShows(s1.outer, s.labels, Typing.Below(ts, 1)) && s.outer == s1.outer[..s.labels[n - 1].limit]
      && Offsets(s.items, LabelRef(n)) == Offsets(s.items, CondRef(n)) == Offsets(s.items, ElseRef(n)) == []
    }

    function IfLabelAt(sig: seq<Type>, s: Snapshot): F.Label {
      F.Label(F.IfLabel, sig, if s.height > 0 then s.height - 1 else 0, INVALID, s.off + 1)
    }

    method EnterIf(sig: seq<Type>, ghost ts: seq<Type>)
      requires Ready(ts) && |sig| <= 1 && Typing.EndsWith(ts, [I32])
      modifies this`istream, this`istreamOffset, this`items, this`typeStack, this`labelStack
      ensures Ready([]) && InBlock() && EnteredIf(old(Now()), Now(), sig, ts)
    {
      hide Valid, Live, Size, Offsets, StackShows, Operands, Typing.EndsWith;
      HeightOf(ts);
      FreshLevel();
      SizeNow();
      assert ts != [] by { EndsNonempty(ts); }
      ShowsPopped(ts);
      var _ := OnIf(sig, ts);
      SizeNow();
      BrUnlessSize(old(items), Use(CondRef(|old(labelStack)|)));
      LiveTop([]);
    }

    lemma BrUnlessSize(before: seq<Item>, operand: Item)
      requires Width(operand) == 4
      ensures Size(before + [Op(BR_UNLESS)] + [operand]) == Size(before) + 5
    {
      hide Size;
      SizeSnoc(before, Op(BR_UNLESS));
      SizeSnoc(before + [Op(BR_UNLESS)], operand);
    }

    lemma EndsNonempty(ts: seq<Type>)
      requires Typing.EndsWith(ts, [I32])
      ensures ts != []
    {}

    lemma ShowsPopped(ts: seq<Type>)
      requires Live(ts) && ts != []
      ensures StackShows(typeStack[..|typeStack| - 1], labelStack, Typing.Below(ts, 1))
      ensures Outer() == typeStack[..|typeStack| - 1][..Limit()]
    {
      assert typeStack[..|typeStack| - 1][Limit()..] == Operands()[..|ts| - 1];
    }

    /** `s2` is the state at the start of the second arm. */
    ghost predicate EnteredElse(s1: Snapshot, s2: Snapshot, thn: Code) {
      var n, code := |s1.labels| - 1, s1.Compiled(thn);
      && n >= 0 && |s2.labels| == n + 1
      && s2 == s1.(items := Subst(s1.items + code + [Op(BR)] + [Use(ElseRef(n))], CondRef(n), s2.off),
           labels := s1.labels[n := s1.labels[n].(labelType := F.ElseLabel, fixupOffset := s2.labels[n].fixupOffset)],
           off := s1.off + Size(code) + 5)
    }

    lemma IfTyped(s: Snapshot, e: Instr, ts: seq<Type>)
      requires e.If? && !s.TypedInstr(e, ts).Bad? && Typing.RepresentableInstr(e)
      ensures Typing.EndsWith(ts, [I32]) && |e.sig| <= 1 && Typing.Representable(e.thn) && Typing.Representable(e.els)
      ensures !e.hasElse ==> e.els == Nil
    {
      hide Typing.EndsWith, Typing.BodyOk;
    }

    lemma IfSpec(s: Snapshot, s1: Snapshot, e: Instr, ts: seq<Type>)
      requires e.If? && EnteredIf(s, s1, e.sig, ts) && !s.TypedInstr(e, ts).Bad?
      ensures s.height >= 1 && s1.off == s.off + 5
      ensures s.TypedInstr(e, ts) == Typing.Live(Typing.Below(ts, 1) + e.sig)
      ensures s1.Typed(e.thn, []).Dead? || s1.Typed(e.thn, []) == Typing.Live(e.sig)
      ensures s1.Typed(e.els, []).Dead? || s1.Typed(e.els, []) == Typing.Live(e.sig)
      ensures s.GenerableInstr(e, ts) <==> s1.Generable(e.thn, []) && s1.Generable(e.els, [])
      ensures !e.hasElse ==> Size(s.CompiledInstr(e)) == 5 + Size(s1.Compiled(e.thn))
      ensures e.hasElse ==> (Size(s.CompiledInstr(e))
        == 10 + Size(s1.Compiled(e.thn)) + Size(s1.(off := s1.off + Size(s1.Compiled(e.thn)) + 5).Compiled(e.els)))
      ensures e.els == Nil ==> s1.Generable(e.els, [])
    {
      hide C.CompCode, C.CompIf, Typing.TypeCode, Typing.GenerableCode, Size, Offsets, StackShows;
      var cs, ls := CompileLabels(s.labels), TypingLabels(s1.labels);
      assert CompileLabels(s1.labels) == cs + [C.OpenLabel(s.height - 1, |e.sig|)];
      assert ls == TypingLabels(s.labels) + [Typing.Label(false, e.sig)];
      assert Typing.BodyOk(s.scope, ls, e.thn, e.sig) && Typing.BodyOk(s.scope, ls, e.els, e.sig);
      C.IfSize(s.Context(), cs, e, s.off, s.height);
      if e.els == Nil {
        NilSpec(s1, []);
      }
    }

    lemma ElseSpec(s: Snapshot, s1: Snapshot, s2: Snapshot, e: Instr, ts: seq<Type>)
      requires e.If? && EnteredIf(s, s1, e.sig, ts) && EnteredElse(s1, s2, e.thn)
      ensures s2.off == s1.off + Size(s1.Compiled(e.thn)) + 5
      ensures s2.Typed(e.els, []) == s1.Typed(e.els, [])
      ensures s2.Generable(e.els, []) == s1.Generable(e.els, [])
      ensures s2.Compiled(e.els) == s1.(off := s1.off + Size(s1.Compiled(e.thn)) + 5).Compiled(e.els)
    {
      hide C.CompCode, Typing.TypeCode, Typing.GenerableCode, Size, Offsets, StackShows;
      assert CompileLabels(s2.labels) == CompileLabels(s1.labels);
      assert TypingLabels(s2.labels) == TypingLabels(s1.labels);
    }

    method EnterElse(ghost s: Snapshot, ghost s1: Snapshot, ghost e: Instr, ghost ts: seq<Type>)
      requires e.If? && |e.sig| <= 1 && EnteredIf(s, s1, e.sig, ts)
      requires Generated(s1, s1.Compiled(e.thn), s1.Typed(e.thn, [])) && s1.off == Size(s1.items)
      requires s1.Typed(e.thn, []).Dead? || s1.Typed(e.thn, []) == Typing.Live(e.sig)
      requires Nested(s1.labels, |s1.scope.locals|) && |s1.scope.results| <= 1
      modifies this`istream, this`istreamOffset, this`items, this`typeStack, this`labelStack
      ensures Ready([]) && InBlock() && EnteredElse(s1, Now(), e.thn)
    {
      hide Snapshot.Typed, Snapshot.Compiled, Valid, Live, Dead, Size, StackShows, Offsets, Subst;
      SizeNow();
      SizeAppend(s1.items, s1.Compiled(e.thn));
      AllKnownOuter(s1.Typed(e.thn, []));
      var _ := OnElse();
      EnteredTop();
      SizeNow();
    }

    lemma AllKnownOuter(r: Typing.Typed)
      requires Reaches(r)
      ensures AllKnown(Outer())
    {}

    /** Where the arms of a two-armed `if` end. */
    lemma ArmEnds(s: Snapshot, s1: Snapshot, s2: Snapshot, e: Instr, ts: seq<Type>)
      requires e.If? && e.hasElse && EnteredIf(s, s1, e.sig, ts) && EnteredElse(s1, s2, e.thn) && s.height >= 1
      ensures var cs, k := CompileLabels(s.labels), s.Context();
        && CompileLabels(s1.labels) == CompileLabels(s2.labels) == cs + [C.OpenLabel(s.height - 1, |e.sig|)]
        && s2.off == C.ElseOf(k, cs, e, s.off, s.height)
        && s2.off + Size(s2.Compiled(e.els)) == C.EndOfIf(k, cs, e, s.off, s.height)
    {
      hide C.CompCode, Size, Offsets, Subst, StackShows;
      var open := CompileLabels(s.labels) + [C.OpenLabel(s.height - 1, |e.sig|)];
      assert CompileLabels(s1.labels) == open && CompileLabels(s2.labels) == open;
    }

    /** Filling the holes of a finished two-armed `if`. */
    lemma CloseElse(s: Snapshot, s1: Snapshot, s2: Snapshot, e: Instr, ts: seq<Type>, r: Typing.Typed)
      requires e.If? && e.hasElse && EnteredIf(s, s1, e.sig, ts) && EnteredElse(s1, s2, e.thn) && s.height >= 1
      requires Generated(s2, s2.Compiled(e.els), r) && s2.off == Size(s2.items)
      ensures F.Close(items, labelStack, istreamOffset) == s.items + s.CompiledInstr(e)
    {
      hide C.CompCode, Size, Offsets, Subst, Valid, Reaches, Outer, StackShows, C.ElseOf, C.EndOfIf, C.CompIf, CompileLabels;
      ArmEnds(s, s1, s2, e, ts);
      SizeNow();
      SizeAppend(s2.items, s2.Compiled(e.els));
      IfElseItems(s.items, s.Context(), s.labels, e, s.off, s.height, s2.off, istreamOffset);
    }

    method FinishElse(ghost s: Snapshot, ghost s1: Snapshot, ghost s2: Snapshot, e: Instr, ghost ts: seq<Type>)
      requires e.If? && e.hasElse && |e.sig| <= 1 && EnteredIf(s, s1, e.sig, ts) && EnteredElse(s1, s2, e.thn)
      requires s.height >= 1 && s2.off == Size(s2.items) && s.TypedInstr(e, ts) == Typing.Live(Typing.Below(ts, 1) + e.sig)
      requires Generated(s2, s2.Compiled(e.els), s2.Typed(e.els, []))
      requires s2.Typed(e.els, []).Dead? || s2.Typed(e.els, []) == Typing.Live(e.sig)
      modifies this`istream, this`items, this`typeStack, this`labelStack, this`depthFixups
      ensures Generated(s, s.CompiledInstr(e), s.TypedInstr(e, ts))
    {
      hide Snapshot.TypedInstr, Snapshot.CompiledInstr, Snapshot.Typed, Snapshot.Compiled, Valid, F.Close, Live, Dead, Size,
        StackShows, Offsets, Subst;
      CloseElse(s, s1, s2, e, ts, s2.Typed(e.els, []));
      assert labelStack[..|labelStack| - 1] == s.labels;
      LeaveBlock(s.labels, s1.outer, Typing.Below(ts, 1));
      LiveTop(Typing.Below(ts, 1) + e.sig);
    }

    /** Filling the holes of a finished one-armed `if`. */
    lemma CloseIf(s: Snapshot, s1: Snapshot, e: Instr, ts: seq<Type>, r: Typing.Typed)
      requires e.If? && !e.hasElse && EnteredIf(s, s1, e.sig, ts) && s.height >= 1
      requires Generated(s1, s1.Compiled(e.thn), r) && s1.off == Size(s1.items)
      ensures F.Close(items, labelStack, istreamOffset) == s.items + s.CompiledInstr(e)
    {
      hide C.CompCode, Size, Offsets, Subst, Valid, Reaches, Outer, StackShows;
      var k, cs, n, h, arity := s.Context(), CompileLabels(s.labels), |s.labels|, s.height - 1, |e.sig|;
      assert CompileLabels(s1.labels) == cs + [C.OpenLabel(h, arity)];
      SizeNow();
      SizeAppend(s1.items, s1.Compiled(e.thn));
      assert istreamOffset == C.EndOfIf(k, cs, e, s.off, s.height);
      IfItems(s.items, k, s.labels, e, s.off, s.height, istreamOffset);
    }

    method FinishIf(ghost s: Snapshot, ghost s1: Snapshot, e: Instr, ghost ts: seq<Type>)
      requires e.If? && !e.hasElse && |e.sig| <= 1 && EnteredIf(s, s1, e.sig, ts)
      requires s.height >= 1 && s1.off == Size(s1.items) && s.TypedInstr(e, ts) == Typing.Live(Typing.Below(ts, 1) + e.sig)
      requires Generated(s1, s1.Compiled(e.thn), s1.Typed(e.thn, []))
      requires s1.Typed(e.thn, []).Dead? || s1.Typed(e.thn, []) == Typing.Live(e.sig)
      modifies this`istream, this`items, this`typeStack, this`labelStack, this`depthFixups
      ensures Generated(s, s.CompiledInstr(e), s.TypedInstr(e, ts))
    {
      hide Snapshot.TypedInstr, Snapshot.CompiledInstr, Snapshot.Typed, Snapshot.Compiled, Valid, F.Close, Live, Dead, Size,
        StackShows, Offsets, Subst;
      CloseIf(s, s1, e, ts, s1.Typed(e.thn, []));
      assert labelStack[..|labelStack| - 1] == s.labels;
      LeaveBlock(s.labels, s1.outer, Typing.Below(ts, 1));
      LiveTop(Typing.Below(ts, 1) + e.sig);
    }

    lemma FreshLevel()
      requires Valid()
      ensures Offsets(items, LabelRef(|labelStack|)) == Offsets(items, CondRef(|labelStack|)) == []
      ensures Offsets(items, ElseRef(|labelStack|)) == []
    {}

    /** End the innermost block: its results join the operands of the enclosing
        one, whose types are `ts`. */
    method LeaveBlock(ghost outerLabels: seq<F.Label>, ghost stack: seq<StackType>, ghost ts: seq<Type>)
      requires Valid() && skip == [] && |labelStack| > 0 && labelStack[..|labelStack| - 1] == outerLabels
      requires labelStack[|labelStack| - 1].labelType != F.FuncLabel && |labelStack[|labelStack| - 1].sig| <= 1
      requires Finished(labelStack[|labelStack| - 1].sig) && InBlock() && Outer() == stack
      requires StackShows(stack, outerLabels, ts)
      modifies this`istream, this`items, this`typeStack, this`labelStack, this`depthFixups
      ensures Valid() && labelStack == outerLabels
      ensures Live(ts + old(labelStack)[|old(labelStack)| - 1].sig)
      ensures Outer() == stack[..outerLabels[|outerLabels| - 1].limit]
      ensures items == F.Close(old(items), old(labelStack), istreamOffset)
    {
      hide Valid, Finished, F.Close, AllKnown;
      ghost var sig := labelStack[|labelStack| - 1].sig;
      var _ := OnEnd();
      KnownAppend(ts, sig);
      ghost var limit := outerLabels[|outerLabels| - 1].limit;
      assert (stack + KnownTypes(sig))[..limit] == stack[..limit];
      assert (stack + KnownTypes(sig))[limit..] == stack[limit..] + KnownTypes(sig);
    }

    // ----- functions -----

    /** Between two functions. */
    ghost predicate Idle()
      reads this
    {
      Valid() && labelStack == [] && skip == []
    }

    /** A reader that has seen nothing yet: no function has an entry. */
    constructor (m: Module, start: seq<Item>)
      requires forall r :: Offsets(start, r) == []
      ensures Idle() && this.m == m && items == start && (forall f :: 0 <= f < |funcOffsets| ==> funcOffsets[f] == INVALID)
    {
      hide Offsets, Encode;
      this.m := m;
      istream, istreamOffset, items := Encode(start), |Encode(start)|, start;
      typeStack, labelStack, depthFixups, skip := [], [], [], [];
      funcFixups := Replicate(|m.funcs|, []);
      funcOffsets := Replicate(|m.funcs|, INVALID);
      paramAndLocalTypes, results, localDeclCount, localCount := [], [], 0, 0;
    }

    /** Fill every call to a function that starts here. */
    method FixupCalls(f: nat)
      requires Valid() && f < |funcOffsets| && funcOffsets[f] == INVALID && labelStack == [] && skip == [] && Room(0)
      modifies this`istream, this`items, this`funcOffsets, this`depthFixups
      ensures Valid() && depthFixups == [] && funcOffsets == old(funcOffsets)[f := istreamOffset]
      ensures items == Subst(old(items), FuncRef(f), istreamOffset)
    {
      hide F.BranchesTracked, F.HolesTracked, F.CallsTracked, Encode, Size, Bytes, Subst, Offsets;
      depthFixups := [];
      funcOffsets := funcOffsets[f := istreamOffset];
      CallsNow(f, old(funcOffsets));
      F.SubstKeepsBranches(items, FuncRef(f), istreamOffset, labelStack, old(depthFixups));
      assert old(depthFixups) == [] by { EmptyFixups(); }
      F.SubstKeepsHoles(items, FuncRef(f), istreamOffset, labelStack, skip);
      F.CallsEntered(items, f, old(funcOffsets), funcFixups, istreamOffset);
      PatchIsSubst(items, FuncRef(f), istreamOffset);
      PatchEach(funcFixups[f], istreamOffset);
      items := Subst(items, FuncRef(f), istreamOffset);
    }

    lemma CallsNow(f: nat, offsets: seq<nat>)
      requires F.CallsTracked(items, offsets, funcFixups) && f < |offsets| && offsets[f] == INVALID
      ensures |funcFixups| == |offsets| && Offsets(items, FuncRef(f)) == funcFixups[f]
    {}

    twostate lemma EmptyFixups()
      requires F.BranchesTracked(old(items), [], old(depthFixups))
      ensures old(depthFixups) == []
    {}

    method BeginFunctionBody(f: nat)
      requires Idle() && f < |m.funcs| == |funcOffsets| && m.funcs[f].sigIndex < |m.sigs| && funcOffsets[f] == INVALID && Room(0)
      modifies this
      ensures Valid() && skip == [] && funcOffsets == old(funcOffsets)[f := istreamOffset] && istreamOffset == old(istreamOffset)
      ensures depthFixups == []
      ensures items == Subst(old(items), FuncRef(f), istreamOffset)
      ensures paramAndLocalTypes == SigOf(m, f).params && typeStack == KnownTypes(paramAndLocalTypes)
      ensures results == SigOf(m, f).results && localCount == 0
      ensures labelStack == [F.Label(F.FuncLabel, results, |typeStack|, INVALID, INVALID)]
    {
      hide F.BranchesTracked, F.HolesTracked, F.CallsTracked, Encode, Subst;
      var sig := SigOf(m, f);
      localDeclCount, localCount := 0, 0;
      results := sig.results;
      typeStack, labelStack, paramAndLocalTypes := [], [], [];
      FixupCalls(f);
      DeclareParams(sig.params);
      F.PushKeeps(items, labelStack, F.Label(F.FuncLabel, results, |typeStack|, INVALID, INVALID), depthFixups);
      PushLabel(F.FuncLabel, sig.results, INVALID, INVALID);
    }

    method DeclareParams(params: seq<Type>)
      requires typeStack == [] && paramAndLocalTypes == []
      modifies this`typeStack, this`paramAndLocalTypes
      ensures paramAndLocalTypes == params && typeStack == KnownTypes(params)
    {
      var i := 0;
      while i < |params|
        invariant 0 <= i <= |params|
        invariant paramAndLocalTypes == params[..i] && typeStack == KnownTypes(paramAndLocalTypes)
      {
        paramAndLocalTypes := paramAndLocalTypes + [params[i]];
        typeStack := typeStack + [Known(params[i])];
        i := i + 1;
      }
      assert params[..i] == params;
    }

    /** While the local declarations of a function are read. */
    ghost predicate Declaring(f: nat, k: nat)
      requires f < |m.funcs| && m.funcs[f].sigIndex < |m.sigs| && k <= |m.funcs[f].decls|
      reads this
    {
      var locals := Expand(m.funcs[f].decls[..k]);
      && Valid() && skip == [] && localDeclCount == |m.funcs[f].decls|
      && paramAndLocalTypes == SigOf(m, f).params + locals && typeStack == KnownTypes(paramAndLocalTypes)
      && results == SigOf(m, f).results && localCount == |locals|
      && labelStack == [F.Label(F.FuncLabel, results,
           |SigOf(m, f).params| + if 0 < k == localDeclCount then |locals| else 0, INVALID, INVALID)]
    }

    method OnLocalDecl(k: nat, decl: LocalDecl, ghost f: nat)
      requires f < |m.funcs| && m.funcs[f].sigIndex < |m.sigs| && k < |m.funcs[f].decls| && Declaring(f, k) && decl == m.funcs[f].decls[k]
      modifies this`istream, this`istreamOffset, this`items, this`typeStack, this`labelStack, this`paramAndLocalTypes,
        this`localCount
      ensures Declaring(f, k + 1)
      ensures items == old(items) + if k + 1 == |m.funcs[f].decls| then C.Prologue(m, f) else []
    {
      hide Valid, Expand;
      ghost var decls := m.funcs[f].decls;
      ExpandSnoc(decls, k);
      localCount := localCount + decl.count;
      DeclareLocals(decl);
      if k == localDeclCount - 1 {
        EmitOpcode(ALLOCA);
        EmitI32(localCount);
        assert decls[..k + 1] == decls;
        RaiseLimit(localCount);
      } else {
        assert items + [] == items;
      }
    }

    lemma ExpandSnoc(decls: seq<LocalDecl>, k: nat)
      requires k < |decls|
      ensures Expand(decls[..k + 1]) == Expand(decls[..k]) + Replicate(decls[k].count, decls[k].ty)
    {
      assert decls[..k + 1][..k] == decls[..k];
    }

    /** The function label lies above the locals. */
    method RaiseLimit(n: nat)
      requires Valid() && |labelStack| == 1 && labelStack[0].labelType == F.FuncLabel
      modifies this`labelStack
      ensures Valid() && labelStack == [old(labelStack)[0].(limit := old(labelStack)[0].limit + n)]
    {
      hide F.CallsTracked, Encode, Offsets;
      labelStack := labelStack[0 := labelStack[0].(limit := labelStack[0].limit + n)];
    }

    method DeclareLocals(decl: LocalDecl)
      requires typeStack == KnownTypes(paramAndLocalTypes)
      modifies this`typeStack, this`paramAndLocalTypes
      ensures typeStack == KnownTypes(paramAndLocalTypes)
      ensures paramAndLocalTypes == old(paramAndLocalTypes) + Replicate(decl.count, decl.ty)
    {
      var i := 0;
      assert paramAndLocalTypes + Replicate(0, decl.ty) == paramAndLocalTypes;
      while i < decl.count
        invariant 0 <= i <= decl.count
        invariant typeStack == KnownTypes(paramAndLocalTypes)
        invariant paramAndLocalTypes == old(paramAndLocalTypes) + Replicate(i, decl.ty)
      {
        paramAndLocalTypes := paramAndLocalTypes + [decl.ty];
        PushType(decl.ty);
        i := i + 1;
        assert Replicate(i, decl.ty) == Replicate(i - 1, decl.ty) + [decl.ty];
      }
    }

    /** Everything in front of a body: its locals are declared and allocated. */
    method OpenFunction(f: nat)
      requires Idle() && f < |m.funcs| == |funcOffsets| && m.funcs[f].sigIndex < |m.sigs| && funcOffsets[f] == INVALID && Room(0)
      requires |SigOf(m, f).results| <= 1
      modifies this
      ensures Ready([]) && InBlock() && Scope() == Typing.ScopeOf(m, f) && funcOffsets == old(funcOffsets)[f := old(istreamOffset)]
      ensures items == Subst(old(items), FuncRef(f), old(istreamOffset)) + C.Prologue(m, f)
      ensures labelStack == [F.Label(F.FuncLabel, results, |FrameTypes(m, f)|, INVALID, INVALID)] && |typeStack| == |FrameTypes(m, f)|
      ensures Offsets(items, LabelRef(0)) == Offsets(items, CondRef(0)) == []
    {
      hide Valid, Subst, Expand;
      BeginFunctionBody(f);
      OnLocalDecls(f);
      assert typeStack[|typeStack|..] == [] == KnownTypes([]);
      NothingOpen();
    }

    lemma NothingOpen()
      requires Valid() && depthFixups == [] && |labelStack| == 1 && labelStack[0].labelType == F.FuncLabel
      ensures Offsets(items, LabelRef(0)) == Offsets(items, CondRef(0)) == []
    {}

    method OnLocalDecls(f: nat)
      requires f < |m.funcs| && m.funcs[f].sigIndex < |m.sigs| && Valid() && skip == []
      requires paramAndLocalTypes == SigOf(m, f).params && typeStack == KnownTypes(paramAndLocalTypes)
      requires results == SigOf(m, f).results && localCount == 0
      requires labelStack == [F.Label(F.FuncLabel, results, |typeStack|, INVALID, INVALID)]
      modifies this`istream, this`istreamOffset, this`items, this`typeStack, this`labelStack, this`paramAndLocalTypes,
        this`localDeclCount, this`localCount
      ensures Valid() && skip == [] && paramAndLocalTypes == FrameTypes(m, f) && typeStack == KnownTypes(paramAndLocalTypes)
      ensures items == old(items) + C.Prologue(m, f)
      ensures labelStack == [F.Label(F.FuncLabel, results, |typeStack|, INVALID, INVALID)]
    {
      hide Valid, Expand, KnownTypes;
      var decls := m.funcs[f].decls;
      localDeclCount := |decls|;
      assert Expand(decls[..0]) == [] by { NoLocals(decls); }
      assert paramAndLocalTypes + [] == paramAndLocalTypes && items + [] == items;
      var k := 0;
      while k < |decls|
        invariant 0 <= k <= |decls| && Declaring(f, k)
        invariant items == old(items) + if k == |decls| then C.Prologue(m, f) else []
      {
        OnLocalDecl(k, decls[k], f);
        k := k + 1;
      }
      assert decls[..k] == decls;
    }

    lemma NoLocals(decls: seq<LocalDecl>)
      ensures Expand(decls[..0]) == []
    {}

    method EndFunctionBody() returns (ok: bool)
      requires Valid() && skip == [] && |labelStack| == 1 && labelStack[0].labelType == F.FuncLabel
      requires |results| <= 1 && labelStack[0].sig == results && Finished(results)
      modifies this`istream, this`istreamOffset, this`items, this`typeStack, this`labelStack, this`depthFixups
      ensures ok && Idle()
      ensures items == F.Close(old(items), old(labelStack), old(istreamOffset))
        + (C.DropKeep(old(labelStack)[0].limit, |results|) + [Op(RETURN)])
    {
      hide Valid, F.Close, TopIs, AllKnown, Finished, C.DropKeep, TopIsAny, Operands, Outer;
      FinishedTop(results);
      var isFunc := labelStack[|labelStack| - 1].labelType == F.FuncLabel;
      var typesOk := CheckNTypes(results);
      var exact := CheckTypeStackLimitExact(|results|);
      ok := isFunc && typesOk && exact;
      CloseTop();
      ResetIfAny();
      DropTypesForReturn(|results|);
      EmitOpcode(RETURN);
      PopFunctionLabel();
      typeStack := [];
    }

    /** Where the end is not reached the results take the place of the marker. */
    method ResetIfAny()
      requires InBlock() && Finished(results)
      modifies this`typeStack
      ensures !TopIsAny() && |typeStack| == Limit() + |results|
    {
      if TopIsAny() {
        ResetTypeStackToLimit();
        NotAny();
        PushTypes(results);
      }
    }

    /** Fill the branches to the end of the function. */
    method CloseTop()
      requires Valid() && skip == [] && |labelStack| == 1 && labelStack[0].labelType == F.FuncLabel
      modifies this`istream, this`items, this`depthFixups
      ensures Valid() && items == F.Close(old(items), labelStack, istreamOffset) && F.FixupsAt(depthFixups, 0) == []
    {
      hide F.BranchesTracked, F.HolesTracked, F.CallsTracked, Encode, F.Close;
      ghost var rest := if |depthFixups| == |labelStack| then depthFixups[..0] else depthFixups;
      Closing();
      FixupsAtEnd();
      F.PushKeeps(items, [], labelStack[0], rest);
      assert labelStack == [] + [labelStack[0]];
      F.SameFixups(items, labelStack, rest, depthFixups);
    }

    method PopFunctionLabel()
      requires Valid() && skip == [] && |labelStack| == 1 && labelStack[0].labelType == F.FuncLabel
      requires F.FixupsAt(depthFixups, 0) == []
      modifies this`labelStack, this`depthFixups
      ensures Idle()
    {
      hide F.CallsTracked, Encode, Offsets;
      PopLabel();
    }

    method GenerateFunc(f: nat) returns (ok: bool)
      requires Idle() && f < |m.funcs| == |funcOffsets| && m.funcs[f].sigIndex < |m.sigs| && funcOffsets[f] == INVALID
      requires Typing.FuncOk(m, f) && Typing.Representable(m.funcs[f].body)
      requires Room(Size(C.CompFunc(m, KnownEntries(funcOffsets)[f := Some(istreamOffset)], f, istreamOffset)))
      modifies this
      ensures ok <==> Typing.GenerableFunc(m, f)
      ensures ok ==> Idle() && funcOffsets == old(funcOffsets)[f := old(istreamOffset)]
      ensures ok ==> (items
        == Subst(old(items), FuncRef(f), old(istreamOffset)) + C.CompFunc(m, KnownEntries(funcOffsets), f, old(istreamOffset)))
    {
      hide Valid, Idle, Ready, Generated, Nested, C.Prologue, Finished, C.DropKeep, Snapshot.Compiled, Snapshot.Typed, Snapshot.Generable, Typing.Representable, Size,
        Subst, Expand, F.Close, Typing.FuncOk, Typing.GenerableFunc, C.CompFunc, FuncOpened;
      IdleSize();
      assert |SigOf(m, f).results| <= 1 by { ResultsOk(f); }
      OpenFunction(f);
      SnapshotNow([]);
      ghost var s := Now();
      ghost var start := old(istreamOffset);
      SizeAppend(Subst(old(items), FuncRef(f), start), C.Prologue(m, f));
      SubstSize(old(items), FuncRef(f), start);
      assert FuncOpened(s, f, start) by { NowOpened(f, start); }
      assert KnownEntries(old(funcOffsets))[f := Some(start)] == KnownEntries(funcOffsets);
      FuncSpec(s, f, start);
      ok := GenerateCode(m.funcs[f].body, []);
      if ok {
        CloseFunc(s, f, start, Subst(old(items), FuncRef(f), start));
        var _ := EndFunctionBody();
      }
    }

    /** The state at the start of the body of function f, whose code starts at `start`. */
    ghost predicate FuncOpened(s: Snapshot, f: nat, start: nat)
      requires f < |m.funcs| && m.funcs[f].sigIndex < |m.sigs|
    {
      var h := |FrameTypes(m, f)|;
      && s.labels == [F.Label(F.FuncLabel, SigOf(m, f).results, h, INVALID, INVALID)]
      && s.scope == Typing.ScopeOf(m, f) && s.height == h && s.off == start + Size(C.Prologue(m, f))
      && Offsets(s.items, LabelRef(0)) == Offsets(s.items, CondRef(0)) == []
    }

    lemma ResultsOk(f: nat)
      requires f < |m.funcs| && m.funcs[f].sigIndex < |m.sigs| && Typing.FuncOk(m, f)
      ensures |SigOf(m, f).results| <= 1
    {}

    lemma ReachesEnd(r: Typing.Typed, sig: seq<Type>)
      requires Reaches(r) && (r.Dead? || r == Typing.Live(sig))
      ensures Finished(sig)
    {}

    lemma NowOpened(f: nat, start: nat)
      requires InBlock() && f < |m.funcs| && m.funcs[f].sigIndex < |m.sigs| && Scope() == Typing.ScopeOf(m, f)
      requires labelStack == [F.Label(F.FuncLabel, results, |FrameTypes(m, f)|, INVALID, INVALID)] && |typeStack| == |FrameTypes(m, f)|
      requires istreamOffset == start + Size(C.Prologue(m, f))
      requires Offsets(items, LabelRef(0)) == Offsets(items, CondRef(0)) == []
      ensures FuncOpened(Now(), f, start)
    {
      hide Size, Offsets, Expand, C.Prologue;
    }

    lemma FuncSpec(s: Snapshot, f: nat, start: nat)
      requires f < |m.funcs| && m.funcs[f].sigIndex < |m.sigs| && FuncOpened(s, f, start) && Typing.FuncOk(m, f)
      ensures |SigOf(m, f).results| <= 1
      ensures s.Typed(m.funcs[f].body, []).Dead? || s.Typed(m.funcs[f].body, []) == Typing.Live(SigOf(m, f).results)
      ensures s.Generable(m.funcs[f].body, []) <==> Typing.GenerableFunc(m, f)
      ensures Size(C.Prologue(m, f)) + Size(s.Compiled(m.funcs[f].body)) < Size(C.CompFunc(m, KnownEntries(s.offsets), f, start))
    {
      hide Size, C.CompCode, Typing.TypeCode, Typing.GenerableCode, C.DropKeep, C.Prologue, Expand, Offsets;
      var sig, h, body := SigOf(m, f), |FrameTypes(m, f)|, m.funcs[f].body;
      assert TypingLabels(s.labels) == [Typing.Label(false, sig.results)];
      assert Typing.BodyOk(s.scope, [Typing.Label(false, sig.results)], body, sig.results);
      assert CompileLabels(s.labels) == [C.OpenLabel(h, |sig.results|)];
      assert s.Context() == C.Context(m, KnownEntries(s.offsets), |sig.results|);
      assert s.Compiled(body) == C.CompCode(C.Context(m, KnownEntries(s.offsets), |sig.results|),
        [C.OpenLabel(h, |sig.results|)], body, s.off, h);
      C.FuncSize(m, KnownEntries(s.offsets), f, start);
    }

    lemma CloseFunc(s: Snapshot, f: nat, start: nat, before: seq<Item>)
      requires f < |m.funcs| && m.funcs[f].sigIndex < |m.sigs| && FuncOpened(s, f, start)
      requires Generated(s, s.Compiled(m.funcs[f].body), s.Typed(m.funcs[f].body, []))
      requires s.items == before + C.Prologue(m, f) && s.off == Size(s.items)
      requires s.Typed(m.funcs[f].body, []).Dead? || s.Typed(m.funcs[f].body, []) == Typing.Live(SigOf(m, f).results)
      ensures Valid() && skip == [] && |labelStack| == 1 && labelStack[0].labelType == F.FuncLabel
      ensures results == labelStack[0].sig == SigOf(m, f).results && funcOffsets == s.offsets && Finished(results)
      ensures var epilogue := C.DropKeep(labelStack[0].limit, |results|) + [Op(RETURN)];
        F.Close(items, labelStack, istreamOffset) + epilogue == before + C.CompFunc(m, KnownEntries(s.offsets), f, start)
    {
      hide Size, C.CompCode, Typing.TypeCode, C.DropKeep, C.Prologue, Expand, Offsets, Valid, Reaches, F.Close, CompileLabels, Finished;
      var sig, h, body, code := SigOf(m, f), |FrameTypes(m, f)|, m.funcs[f].body, s.Compiled(m.funcs[f].body);
      assert CompileLabels(s.labels) == CompileLabels([]) + [C.OpenLabel(h, |sig.results|)];
      assert CompileLabels([]) == [];
      SizeNow();
      SizeAppend(s.items, code);
      assert istreamOffset == C.EndOf(s.Context(), [], body, |sig.results|, s.off, h);
      assert s.labels == [] + s.labels;
      BlockItems(s.items, s.Context(), [], s.labels[0], body, s.off, h, istreamOffset);
      assert results == sig.results;
      ReachesEnd(s.Typed(body, []), sig.results);
    }

    lemma IdleSize()
      requires Idle()
      ensures istreamOffset == Size(items)
    {}

    // ----- modules -----

    /** The first n functions have been compiled behind `prefix`; calls to the
        others wait for their entries. */
    ghost predicate Compiled(prefix: seq<Item>, n: nat)
      requires ModuleOk(m) && n <= |m.funcs|
      reads this
    {
      && Idle()
      && items == prefix + C.CompFuncs(m, C.Known(m, n, Size(prefix)), n, Size(prefix))
      && KnownEntries(funcOffsets) == C.Known(m, n, Size(prefix))
    }

    /** Read all function bodies in order. On success the istream holds the code
        of every function, compiled with all entries known. */
    method GenerateModule(ghost prefix: seq<Item>) returns (ok: bool)
      requires Idle() && items == prefix && (forall f :: 0 <= f < |m.funcs| ==> funcOffsets[f] == INVALID)
      requires ModuleOk(m) && (forall r :: Offsets(prefix, r) == [])
      requires forall f :: 0 <= f < |m.funcs| ==> Typing.FuncOk(m, f) && Typing.Representable(m.funcs[f].body)
      requires C.EntryOf(m, |m.funcs|, Size(prefix)) < INVALID
      modifies this
      ensures ok <==> forall f :: 0 <= f < |m.funcs| ==> Typing.GenerableFunc(m, f)
      ensures ok ==> Compiled(prefix, |m.funcs|)
      ensures ok ==> istream == Encode(prefix + C.CompFuncs(m, C.Known(m, |m.funcs|, Size(prefix)), |m.funcs|, Size(prefix)))
      ensures ok ==> forall r :: Offsets(items, r) == []
      ensures ok ==> forall f :: 0 <= f < |m.funcs| ==> funcOffsets[f] == C.EntryOf(m, f, Size(prefix))
    {
      hide Compiled, Offsets, Encode, Size, Typing.FuncOk, Typing.Representable, Typing.GenerableFunc, C.CompFuncs;
      NothingCompiled(prefix);
      ok := true;
      var f := 0;
      while f < |m.funcs| && ok
        invariant 0 <= f <= |m.funcs|
        invariant ok ==> Compiled(prefix, f) && forall g :: 0 <= g < f ==> Typing.GenerableFunc(m, g)
        invariant !ok ==> exists g :: 0 <= g < |m.funcs| && !Typing.GenerableFunc(m, g)
        decreases |m.funcs| - f, ok
      {
        ok := GenerateNext(prefix, f);
        f := f + 1;
      }
      if ok { AllCompiled(prefix); }
    }

    lemma NothingCompiled(prefix: seq<Item>)
      requires Idle() && items == prefix && (forall f :: 0 <= f < |m.funcs| ==> funcOffsets[f] == INVALID) && ModuleOk(m)
      ensures Compiled(prefix, 0)
    {
      hide Encode, Size, Valid;
      assert |funcOffsets| == |m.funcs| by { OffsetsLength(); }
      assert items + [] == items;
    }

    lemma OffsetsLength()
      requires Idle()
      ensures |funcOffsets| == |m.funcs|
    {}

    lemma AllCompiled(prefix: seq<Item>)
      requires ModuleOk(m) && Compiled(prefix, |m.funcs|)
      ensures istream == Encode(items) && items == prefix + C.CompFuncs(m, C.Known(m, |m.funcs|, Size(prefix)), |m.funcs|, Size(prefix))
      ensures forall r :: Offsets(items, r) == []
      ensures |funcOffsets| == |m.funcs|
      ensures forall f :: 0 <= f < |m.funcs| ==> funcOffsets[f] == C.EntryOf(m, f, Size(prefix))
    {
      hide Encode, Size, C.CompFuncs, Offsets;
      forall f | 0 <= f < |m.funcs| ensures funcOffsets[f] == C.EntryOf(m, f, Size(prefix)) != INVALID {
        assert KnownEntries(funcOffsets)[f] == C.Known(m, |m.funcs|, Size(prefix))[f];
      }
      forall r ensures Offsets(items, r) == [] {
        if r.FuncRef? && r.func < |m.funcs| {
          assert funcOffsets[r.func] != INVALID;
        }
      }
    }

    method GenerateNext(ghost prefix: seq<Item>, f: nat) returns (ok: bool)
      requires ModuleOk(m) && f < |m.funcs| && Compiled(prefix, f) && (forall r :: Offsets(prefix, r) == [])
      requires Typing.FuncOk(m, f) && Typing.Representable(m.funcs[f].body)
      requires C.EntryOf(m, |m.funcs|, Size(prefix)) < INVALID
      modifies this
      ensures ok <==> Typing.GenerableFunc(m, f)
      ensures ok ==> Compiled(prefix, f + 1)
    {
      hide Idle, Offsets, Encode, Size, Typing.FuncOk, Typing.Representable, Typing.GenerableFunc, C.CompFuncs, C.CompFunc, Subst;
      ghost var start, off := Size(prefix), istreamOffset;
      NextEntry(prefix, f);
      ok := GenerateFunc(f);
      if ok {
        NextCompiled(prefix, f, off);
      }
    }

    lemma NextEntry(prefix: seq<Item>, f: nat)
      requires ModuleOk(m) && f < |m.funcs| && Compiled(prefix, f) && C.EntryOf(m, |m.funcs|, Size(prefix)) < INVALID
      ensures |funcOffsets| == |m.funcs| && funcOffsets[f] == INVALID && istreamOffset == C.EntryOf(m, f, Size(prefix))
      ensures KnownEntries(funcOffsets)[f := Some(istreamOffset)] == C.Known(m, f + 1, Size(prefix))
      ensures Room(0) && Room(Size(C.CompFunc(m, C.Known(m, f + 1, Size(prefix)), f, istreamOffset)))
    {
      hide Encode, Size, C.CompFuncs, C.CompFunc, Offsets, Subst, Valid;
      var start := Size(prefix);
      IdleSize();
      OffsetsLength();
      SizeAppend(prefix, C.CompFuncs(m, C.Known(m, f, start), f, start));
      C.KnownSize(m, f, f, start);
      assert KnownEntries(funcOffsets)[f] == None;
      C.KnownNext(m, f, start);
      C.EntriesGrow(m, f, |m.funcs|, start);
    }

    lemma NextCompiled(prefix: seq<Item>, f: nat, off: nat)
      requires ModuleOk(m) && f < |m.funcs| && (forall r :: Offsets(prefix, r) == [])
      requires off == C.EntryOf(m, f, Size(prefix)) && Idle()
      requires KnownEntries(funcOffsets) == C.Known(m, f + 1, Size(prefix))
      requires items == Subst(prefix + C.CompFuncs(m, C.Known(m, f, Size(prefix)), f, Size(prefix)), FuncRef(f), off)
        + C.CompFunc(m, KnownEntries(funcOffsets), f, off)
      ensures Compiled(prefix, f + 1)
    {
      hide Encode, Size, C.CompFunc, Offsets, Subst, Valid;
      var start := Size(prefix);
      SubstAppend(prefix, C.CompFuncs(m, C.Known(m, f, start), f, start), FuncRef(f), off);
      SubstNone(prefix, FuncRef(f), off);
      C.KnownNext(m, f, start);
      C.SubstFuncs(m, C.Known(m, f, start), f, start, f, off);
      C.KnownSize(m, f + 1, f, start);
      Assoc(prefix, C.CompFuncs(m, C.Known(m, f + 1, start), f, start), C.CompFunc(m, KnownEntries(funcOffsets), f, off));
    }
  }

  /** A type stack whose innermost block holds operands `ts`. */
  ghost predicate StackShows(stack: seq<StackType>, labels: seq<F.Label>, ts: seq<Type>) {
    && |labels| > 0
    && labels[|labels| - 1].limit <= |stack|
    && AllKnown(stack[..labels[|labels| - 1].limit])
    && stack[labels[|labels| - 1].limit..] == KnownTypes(ts)
  }

  /** Closing a block fills exactly the branches in its own code. */
  lemma BlockItems(before: seq<Item>, k: C.Context, labels: seq<F.Label>, l: F.Label, body: Code, off: nat, h: nat, end: nat)
    requires l.labelType == F.BlockLabel || l.labelType == F.FuncLabel
    requires Offsets(before, LabelRef(|labels|)) == Offsets(before, CondRef(|labels|)) == []
    ensures var cs := CompileLabels(labels);
      F.Close(before + C.CompCode(k, cs + [C.OpenLabel(h, |l.sig|)], body, off, h), labels + [l], end)
        == before + C.CompCode(k, cs + [C.ClosedLabel(h, |l.sig|, end)], body, off, h)
  {
    hide C.CompCode, Offsets, Subst;
    var cs, level := CompileLabels(labels), |labels|;
    var code := C.CompCode(k, cs + [C.OpenLabel(h, |l.sig|)], body, off, h);
    SubstAppend(before, code, CondRef(level), end);
    SubstNone(before, CondRef(level), end);
    C.SubstCode(k, cs + [C.OpenLabel(h, |l.sig|)], body, off, h, CondRef(level), end);
    SubstAppend(before, code, LabelRef(level), end);
    SubstNone(before, LabelRef(level), end);
    C.CloseLast(k, cs, body, |l.sig|, off, h, end);
  }

  /** The same for an `if` without a second arm. */
  lemma IfItems(before: seq<Item>, k: C.Context, labels: seq<F.Label>, e: Instr, off: nat, height: nat, end: nat)
    requires e.If? && !e.hasElse && height >= 1 && end == C.EndOfIf(k, CompileLabels(labels), e, off, height)
    requires Offsets(before, LabelRef(|labels|)) == Offsets(before, CondRef(|labels|)) == []
    ensures var n, open := |labels|, CompileLabels(labels) + [C.OpenLabel(height - 1, |e.sig|)];
      Subst(Subst(before + [Op(BR_UNLESS)] + [Use(CondRef(n))] + C.CompCode(k, open, e.thn, off + 5, height - 1),
        CondRef(n), end), LabelRef(n), end)
        == before + C.CompIf(k, CompileLabels(labels), e, off, height)
  {
    hide C.CompCode, C.EndOfIf, Offsets, Subst;
    var n, cs, h, arity := |labels|, CompileLabels(labels), height - 1, |e.sig|;
    var open := cs + [C.OpenLabel(h, arity)];
    var thn := C.CompCode(k, open, e.thn, off + 5, h);
    ArmItems(before, k, labels, open, e.thn, off + 5, h, end);
    C.CloseLast(k, cs, e.thn, arity, off + 5, h, end);
    SubstAppend(before + [Op(BR_UNLESS), Word(end)], thn, LabelRef(n), end);
    SubstAppend(before, [Op(BR_UNLESS), Word(end)], LabelRef(n), end);
    SubstNone(before, LabelRef(n), end);
    C.SubstConst([Op(BR_UNLESS), Word(end)], LabelRef(n), end);
    var done := C.CompCode(k, cs + [C.ClosedLabel(h, arity, end)], e.thn, off + 5, h);
    assert before + [Op(BR_UNLESS), Word(end)] + done == before + ([Op(BR_UNLESS), Word(end)] + done);
  }

  /** Filling the br_unless in front of the first arm. */
  lemma ArmItems(before: seq<Item>, k: C.Context, labels: seq<F.Label>, open: seq<C.Label>, body: Code, off: nat, h: nat, w: nat)
    requires Offsets(before, CondRef(|labels|)) == []
    ensures var r, code := CondRef(|labels|), C.CompCode(k, open, body, off, h);
      Subst(before + [Op(BR_UNLESS)] + [Use(r)] + code, r, w) == before + [Op(BR_UNLESS), Word(w)] + code
  {
    hide C.CompCode, Offsets, Subst;
    var r, code := CondRef(|labels|), C.CompCode(k, open, body, off, h);
    C.SubstCode(k, open, body, off, h, r, w);
    SubstAppend(before + [Op(BR_UNLESS)] + [Use(r)], code, r, w);
    SubstAppend(before + [Op(BR_UNLESS)], [Use(r)], r, w);
    SubstAppend(before, [Op(BR_UNLESS)], r, w);
    SubstNone(before, r, w);
    C.SubstConst([Op(BR_UNLESS)], r, w);
    C.SubstOne(r, w);
    assert before + [Op(BR_UNLESS)] + [Word(w)] == before + [Op(BR_UNLESS), Word(w)];
  }

  /** The state after the jump that ends the first arm. */
  function ElseItems(before: seq<Item>, n: nat, thn: seq<Item>, w: nat): seq<Item> {
    Subst(before + [Op(BR_UNLESS)] + [Use(CondRef(n))] + thn + [Op(BR)] + [Use(ElseRef(n))], CondRef(n), w)
  }

  /** The same for an `if` with both arms. */
  lemma IfElseItems(before: seq<Item>, k: C.Context, labels: seq<F.Label>, e: Instr, off: nat, height: nat, mid: nat, end: nat)
    requires e.If? && e.hasElse && height >= 1
    requires mid == C.ElseOf(k, CompileLabels(labels), e, off, height)
    requires end == C.EndOfIf(k, CompileLabels(labels), e, off, height)
    requires Offsets(before, LabelRef(|labels|)) == Offsets(before, CondRef(|labels|)) == Offsets(before, ElseRef(|labels|)) == []
    ensures var n, open := |labels|, CompileLabels(labels) + [C.OpenLabel(height - 1, |e.sig|)];
      Subst(Subst(ElseItems(before, n, C.CompCode(k, open, e.thn, off + 5, height - 1), mid)
        + C.CompCode(k, open, e.els, mid, height - 1), ElseRef(n), end), LabelRef(n), end)
        == before + C.CompIf(k, CompileLabels(labels), e, off, height)
  {
    hide C.CompCode, C.EndOfIf, C.ElseOf, Offsets, Subst, ElseItems;
    var n, cs, h, arity := |labels|, CompileLabels(labels), height - 1, |e.sig|;
    var open := cs + [C.OpenLabel(h, arity)];
    var thn, els := C.CompCode(k, open, e.thn, off + 5, h), C.CompCode(k, open, e.els, mid, h);
    var thn', els' := C.CompCode(k, cs + [C.ClosedLabel(h, arity, end)], e.thn, off + 5, h),
      C.CompCode(k, cs + [C.ClosedLabel(h, arity, end)], e.els, mid, h);
    ElseDone(before, k, labels, open, e.thn, off + 5, h, mid);
    var head, jump := [Op(BR_UNLESS), Word(mid)], [Op(BR)] + [Use(ElseRef(n))];
    JumpFilled(before, head, k, open, e.thn, off + 5, h, n, e.els, mid, end);
    C.CloseLast(k, cs, e.thn, arity, off + 5, h, end);
    C.CloseLast(k, cs, e.els, arity, mid, h, end);
    SubstParts(before, head, thn, [Op(BR), Word(end)], els, LabelRef(n), end);
    assert before + head + thn' + [Op(BR), Word(end)] + els' == before + (head + thn' + [Op(BR), Word(end)] + els');
  }

  lemma ElseDone(before: seq<Item>, k: C.Context, labels: seq<F.Label>, open: seq<C.Label>, body: Code, off: nat, h: nat, w: nat)
    requires Offsets(before, CondRef(|labels|)) == []
    ensures var n, code := |labels|, C.CompCode(k, open, body, off, h);
      ElseItems(before, n, code, w) == before + [Op(BR_UNLESS), Word(w)] + code + [Op(BR), Use(ElseRef(n))]
  {
    hide C.CompCode, Offsets, Subst;
    var n, code := |labels|, C.CompCode(k, open, body, off, h);
    var front := before + [Op(BR_UNLESS)] + [Use(CondRef(n))] + code;
    ArmItems(before, k, labels, open, body, off, h, w);
    assert front + [Op(BR)] + [Use(ElseRef(n))] == front + [Op(BR), Use(ElseRef(n))];
    SubstAppend(front, [Op(BR), Use(ElseRef(n))], CondRef(n), w);
    C.SubstPair(Op(BR), Use(ElseRef(n)), CondRef(n), w);
  }

  lemma JumpFilled(before: seq<Item>, head: seq<Item>, k: C.Context, open: seq<C.Label>, thn: Code, off: nat, h: nat, n: nat,
      els: Code, mid: nat, end: nat)
    requires Offsets(before, ElseRef(n)) == [] && (forall i :: 0 <= i < |head| ==> !head[i].Use?)
    ensures var a, b := C.CompCode(k, open, thn, off, h), C.CompCode(k, open, els, mid, h);
      Subst(before + head + a + [Op(BR), Use(ElseRef(n))] + b, ElseRef(n), end) == before + head + a + [Op(BR), Word(end)] + b
  {
    hide C.CompCode, Offsets, Subst;
    var a, b := C.CompCode(k, open, thn, off, h), C.CompCode(k, open, els, mid, h);
    C.SubstCode(k, open, thn, off, h, ElseRef(n), end);
    C.SubstCode(k, open, els, mid, h, ElseRef(n), end);
    SubstAppend(before + head + a + [Op(BR), Use(ElseRef(n))], b, ElseRef(n), end);
    SubstAppend(before + head + a, [Op(BR), Use(ElseRef(n))], ElseRef(n), end);
    SubstAppend(before + head, a, ElseRef(n), end);
    SubstAppend(before, head, ElseRef(n), end);
    SubstNone(before, ElseRef(n), end);
    C.SubstConst(head, ElseRef(n), end);
    C.SubstPair(Op(BR), Use(ElseRef(n)), ElseRef(n), end);
  }

  lemma SubstParts(before: seq<Item>, head: seq<Item>, a: seq<Item>, jump: seq<Item>, b: seq<Item>, r: Ref, w: int)
    requires Offsets(before, r) == []
    requires (forall i :: 0 <= i < |head| ==> !head[i].Use?) && (forall i :: 0 <= i < |jump| ==> !jump[i].Use?)
    ensures Subst(before + head + a + jump + b, r, w) == before + head + Subst(a, r, w) + jump + Subst(b, r, w)
  {
    hide Subst, Offsets;
    SubstAppend(before + head + a + jump, b, r, w);
    SubstAppend(before + head + a, jump, r, w);
    SubstAppend(before + head, a, r, w);
    SubstAppend(before, head, r, w);
    SubstNone(before, r, w);
    C.SubstConst(head, r, w);
    C.SubstConst(jump, r, w);
  }
}
