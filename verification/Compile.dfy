/** The code a function body becomes, as one structural recursion that knows
    where every label ends. The generator (module Generator) produces it in one
    pass with holes and patches. */
module Compile {
  import opened Wasm
  import opened Assembly

  /** A label: the stack height it restores, how many values a branch keeps,
      and where it is, once known. */
  datatype Label = Label(limit: int, arity: nat, target: Option<nat>)

  /** The surroundings of a body: its module, the function entries known so
      far, and how many results its function has. */
  datatype Context = Context(m: Module, entries: seq<Option<nat>>, results: nat)

  function DropKeep(drop: int, keep: nat): seq<Item> {
    if drop <= 0 then []
    else if drop == 1 && keep == 0 then [Op(DROP)]
    else [Op(DROP_KEEP), Word(drop), Op(keep % 0x100)]
  }

  function LabelAt(labels: seq<Label>, depth: nat): Label
    requires depth < |labels|
  {
    labels[|labels| - 1 - depth]
  }

  /** The operand that names the target of a branch. */
  function Dest(labels: seq<Label>, depth: nat): Item
    requires depth < |labels|
  {
    match LabelAt(labels, depth).target
    case Some(w) => Word(w)
    case None => Use(LabelRef(|labels| - 1 - depth))
  }

  function Excess(labels: seq<Label>, depth: nat, h: int): int
    requires depth < |labels|
  {
    h - LabelAt(labels, depth).limit - LabelAt(labels, depth).arity
  }

  function Jump(labels: seq<Label>, depth: nat, h: int): seq<Item> {
    if depth < |labels| then
      DropKeep(Excess(labels, depth, h), LabelAt(labels, depth).arity) + [Op(BR), Dest(labels, depth)]
    else []
  }

  function TableEntry(labels: seq<Label>, depth: nat, h: int): seq<Item> {
    if depth < |labels| then
      [Dest(labels, depth), Word(Excess(labels, depth, h)), Op(LabelAt(labels, depth).arity % 0x100)]
    else []
  }

  function TableEntries(labels: seq<Label>, depths: seq<u32>, h: int): seq<Item> {
    if depths == [] then []
    else TableEntries(labels, depths[..|depths| - 1], h) + TableEntry(labels, depths[|depths| - 1], h)
  }

  /** How an instruction changes the height of the operand stack. */
  function Delta(m: Module, e: Instr): int {
    match e
    case Const(_, _) => 1
    case Binary(_) => -1
    case Store(_, _, _) => -2
    case GetLocal(_) => 1
    case SetLocal(_) => -1
    case GetGlobal(_) => 1
    case SetGlobal(_) => -1
    case CurrentMemory => 1
    case Drop => -1
    case Select => -2
    case BrIf(_) => -1
    case BrTable(_, _) => -1
    case Call(f) =>
      if f < |m.funcs| && m.funcs[f].sigIndex < |m.sigs| then |SigOf(m, f).results| - |SigOf(m, f).params| else 0
    case CallIndirect(i) => if i < |m.sigs| then |m.sigs[i].results| - |m.sigs[i].params| - 1 else 0
    case Block(sig, _) => |sig|
    case Loop(sig, _) => |sig|
    case If(sig, _, _, _) => |sig| - 1
    case _ => 0
  }

  function CompConst(t: Type, b: Bits): seq<Item> {
    if Is64(t) then [Op(ConstOp(t)), Word(b.lo), Word(b.hi)] else [Op(ConstOp(t)), Word(b.lo)]
  }

  /** Instructions without control flow; a local is addressed by its distance
      from the top of the value stack. */
  function CompPlain(e: Instr, h: int): seq<Item> {
    match e
    case Const(t, b) => CompConst(t, b)
    case Unary(op) => [Op(op)]
    case Binary(op) => [Op(op)]
    case Load(op, _, offset) => [Op(op), Word(0), Word(offset)]
    case Store(op, _, offset) => [Op(op), Word(0), Word(offset)]
    case GetLocal(i) => [Op(GET_LOCAL), Word(h - i)]
    case SetLocal(i) => [Op(SET_LOCAL), Word(h - 1 - i)]
    case TeeLocal(i) => [Op(TEE_LOCAL), Word(h - i)]
    case GetGlobal(i) => [Op(GET_GLOBAL), Word(i)]
    case SetGlobal(i) => [Op(SET_GLOBAL), Word(i)]
    case Drop => [Op(DROP)]
    case Select => [Op(SELECT)]
    case _ => []
  }

  function CompJump(k: Context, labels: seq<Label>, e: Instr, off: nat, h: int): seq<Item>
    requires IsJump(e)
  {
    match e
    case Br(d) => Jump(labels, d, h)
    case BrIf(d) =>
      var jump := Jump(labels, d, h - 1);
      [Op(BR_UNLESS), Word(off + 5 + Size(jump))] + jump
    case BrTable(targets, default) =>
      [Op(BR_TABLE), Word(|targets|), Word(off + 14), Op(DATA), Word((|targets| + 1) * TABLE_ENTRY_SIZE)]
      + TableEntries(labels, targets + [default], h - 1)
    case Return => DropKeep(h - k.results, k.results) + [Op(RETURN)]
    case Unreachable => [Op(UNREACHABLE)]
  }

  function EntryItem(k: Context, f: nat): Item {
    if f < |k.entries| && k.entries[f].Some? then Word(k.entries[f].value) else Use(FuncRef(f))
  }

  function CompCall(k: Context, e: Instr): seq<Item>
    requires IsCall(e)
  {
    match e
    case Call(f) => [Op(CALL), EntryItem(k, f)]
    case CallIndirect(i) => [Op(CALL_INDIRECT), Word(0), Word(i)]
  }

  function OpenLabel(h: int, arity: nat): Label { Label(h, arity, None) }

  function ClosedLabel(h: int, arity: nat, end: nat): Label { Label(h, arity, Some(end)) }

  function CompInstr(k: Context, labels: seq<Label>, e: Instr, off: nat, h: int): seq<Item>
    decreases e, 3
  {
    if IsJump(e) then CompJump(k, labels, e, off, h)
    else if IsCall(e) then CompCall(k, e)
    else if e.Block? then CompBlock(k, labels, e.body, |e.sig|, off, h)
    else if e.Loop? then CompCode(k, labels + [ClosedLabel(h, 0, off)], e.body, off, h)
    else if e.If? then CompIf(k, labels, e, off, h)
    else CompPlain(e, h)
  }

  /** Where the code of a body ends; the size of code does not depend on the
      targets it names. */
  function EndOf(k: Context, labels: seq<Label>, body: Code, arity: nat, off: nat, h: int): nat
    decreases body, 1
  {
    off + Size(CompCode(k, labels + [OpenLabel(h, arity)], body, off, h))
  }

  function CompBlock(k: Context, labels: seq<Label>, body: Code, arity: nat, off: nat, h: int): seq<Item>
    decreases body, 2
  {
    CompCode(k, labels + [ClosedLabel(h, arity, EndOf(k, labels, body, arity, off, h))], body, off, h)
  }

  /** Where the `else` arm starts: after the condition, the first arm and the
      jump that ends it. */
  function ElseOf(k: Context, labels: seq<Label>, e: Instr, off: nat, h: int): nat
    requires e.If?
    decreases e, 0
  {
    EndOf(k, labels, e.thn, |e.sig|, off + 5, h - 1) + 5
  }

  function EndOfIf(k: Context, labels: seq<Label>, e: Instr, off: nat, h: int): nat
    requires e.If?
    decreases e, 1
  {
    if e.hasElse then EndOf(k, labels, e.els, |e.sig|, ElseOf(k, labels, e, off, h), h - 1)
    else EndOf(k, labels, e.thn, |e.sig|, off + 5, h - 1)
  }

  function CompIf(k: Context, labels: seq<Label>, e: Instr, off: nat, h: int): seq<Item>
    requires e.If?
    decreases e, 2
  {
    var end := EndOfIf(k, labels, e, off, h);
    var inner := labels + [ClosedLabel(h - 1, |e.sig|, end)];
    var thn := CompCode(k, inner, e.thn, off + 5, h - 1);
    if e.hasElse then
      var elseOff := ElseOf(k, labels, e, off, h);
      [Op(BR_UNLESS), Word(elseOff)] + thn + [Op(BR), Word(end)] + CompCode(k, inner, e.els, elseOff, h - 1)
    else [Op(BR_UNLESS), Word(end)] + thn
  }

  function CompCode(k: Context, labels: seq<Label>, code: Code, off: nat, h: int): seq<Item>
    decreases code, 0
  {
    match code
    case Nil => []
    case Cons(e, rest) =>
      var items := CompInstr(k, labels, e, off, h);
      items + CompCode(k, labels, rest, off + Size(items), h + Delta(k.m, e))
  }

  // ----- resolving one reference in the surroundings -----

  predicate Pending(k: Context, labels: seq<Label>, r: Ref) {
    match r
    case LabelRef(level) => level < |labels| && labels[level].target.None?
    case FuncRef(f) => f < |k.entries| && k.entries[f].None?
    case _ => true  // never used by finished code
  }

  function ResolveContext(k: Context, r: Ref, w: nat): Context
    requires r.FuncRef? ==> r.func < |k.entries|
  {
    if r.FuncRef? then k.(entries := k.entries[r.func := Some(w)]) else k
  }

  function ResolveLabels(labels: seq<Label>, r: Ref, w: nat): seq<Label>
    requires r.LabelRef? ==> r.level < |labels|
  {
    if r.LabelRef? then labels[r.level := labels[r.level].(target := Some(w))] else labels
  }

  lemma SubstPair(a: Item, b: Item, r: Ref, w: int)
    ensures Subst([a, b], r, w) == [if a == Use(r) then Word(w) else a, if b == Use(r) then Word(w) else b]
  {}

  lemma SubstOne(r: Ref, w: int)
    ensures Subst([Use(r)], r, w) == [Word(w)]
  {}

  lemma SubstConst(items: seq<Item>, r: Ref, w: int)
    requires forall i :: 0 <= i < |items| ==> !items[i].Use?
    ensures Subst(items, r, w) == items
  {}

  lemma SubstDest(k: Context, labels: seq<Label>, depth: nat, r: Ref, w: nat)
    requires Pending(k, labels, r) && depth < |labels|
    ensures var d := Dest(labels, depth);
      Dest(ResolveLabels(labels, r, w), depth) == if d == Use(r) then Word(w) else d
  {}

  lemma SubstJump(k: Context, labels: seq<Label>, depth: nat, h: int, r: Ref, w: nat)
    requires Pending(k, labels, r)
    ensures Subst(Jump(labels, depth, h), r, w) == Jump(ResolveLabels(labels, r, w), depth, h)
  {
    if depth < |labels| {
      var drop := DropKeep(Excess(labels, depth, h), LabelAt(labels, depth).arity);
      SubstAppend(drop, [Op(BR), Dest(labels, depth)], r, w);
      SubstConst(drop, r, w);
      SubstPair(Op(BR), Dest(labels, depth), r, w);
      SubstDest(k, labels, depth, r, w);
    }
  }

  lemma {:induction false} SubstEntries(k: Context, labels: seq<Label>, depths: seq<u32>, h: int, r: Ref, w: nat)
    requires Pending(k, labels, r)
    ensures Subst(TableEntries(labels, depths, h), r, w) == TableEntries(ResolveLabels(labels, r, w), depths, h)
  {
    if depths != [] {
      var front, d := depths[..|depths| - 1], depths[|depths| - 1];
      SubstEntries(k, labels, front, h, r, w);
      SubstAppend(TableEntries(labels, front, h), TableEntry(labels, d, h), r, w);
      if d < |labels| {
        SubstDest(k, labels, d, r, w);
        assert Subst(TableEntry(labels, d, h), r, w) == TableEntry(ResolveLabels(labels, r, w), d, h);
      }
    }
  }

  lemma SubstCompJump(k: Context, labels: seq<Label>, e: Instr, off: nat, h: int, r: Ref, w: nat)
    requires Pending(k, labels, r) && IsJump(e)
    ensures Subst(CompJump(k, labels, e, off, h), r, w)
         == CompJump(ResolveContext(k, r, w), ResolveLabels(labels, r, w), e, off, h)
  {
    hide Size, Jump, TableEntries;
    match e
    case Br(d) => SubstJump(k, labels, d, h, r, w);
    case BrIf(d) =>
      var jump := Jump(labels, d, h - 1);
      SubstJump(k, labels, d, h - 1, r, w);
      SubstSize(jump, r, w);
      SubstAppend([Op(BR_UNLESS), Word(off + 5 + Size(jump))], jump, r, w);
      SubstConst([Op(BR_UNLESS), Word(off + 5 + Size(jump))], r, w);
    case BrTable(targets, default) =>
      var head := [Op(BR_TABLE), Word(|targets|), Word(off + 14), Op(DATA), Word((|targets| + 1) * TABLE_ENTRY_SIZE)];
      SubstAppend(head, TableEntries(labels, targets + [default], h - 1), r, w);
      SubstConst(head, r, w);
      SubstEntries(k, labels, targets + [default], h - 1, r, w);
    case Return => SubstConst(CompJump(k, labels, e, off, h), r, w);
    case Unreachable => SubstConst(CompJump(k, labels, e, off, h), r, w);
  }

  lemma SubstCompCall(k: Context, labels: seq<Label>, e: Instr, r: Ref, w: nat)
    requires Pending(k, labels, r) && IsCall(e)
    ensures Subst(CompCall(k, e), r, w) == CompCall(ResolveContext(k, r, w), e)
  {
    match e
    case Call(f) => SubstPair(Op(CALL), EntryItem(k, f), r, w);
    case CallIndirect(i) => SubstConst(CompCall(k, e), r, w);
  }

  /** Substituting the offset of a label or function in the code is compiling
      with that offset known. */
  lemma {:induction false} SubstCode(k: Context, labels: seq<Label>, code: Code, off: nat, h: int, r: Ref, w: nat)
    requires Pending(k, labels, r)
    ensures Subst(CompCode(k, labels, code, off, h), r, w)
         == CompCode(ResolveContext(k, r, w), ResolveLabels(labels, r, w), code, off, h)
    decreases code, 0
  {
    hide Size, CompInstr, Delta;
    match code
    case Nil =>
    case Cons(e, rest) =>
      var items := CompInstr(k, labels, e, off, h);
      SubstInstr(k, labels, e, off, h, r, w);
      SubstSize(items, r, w);
      SubstCode(k, labels, rest, off + Size(items), h + Delta(k.m, e), r, w);
      SubstAppend(items, CompCode(k, labels, rest, off + Size(items), h + Delta(k.m, e)), r, w);
  }

  lemma {:induction false} SubstInstr(k: Context, labels: seq<Label>, e: Instr, off: nat, h: int, r: Ref, w: nat)
    requires Pending(k, labels, r)
    ensures Subst(CompInstr(k, labels, e, off, h), r, w)
         == CompInstr(ResolveContext(k, r, w), ResolveLabels(labels, r, w), e, off, h)
    decreases e, 4
  {
    hide CompJump, CompCall, CompBlock, CompIf, CompCode;
    if IsJump(e) {
      SubstCompJump(k, labels, e, off, h, r, w);
    } else if IsCall(e) {
      SubstCompCall(k, labels, e, r, w);
    } else if e.Block? {
      SubstBlock(k, labels, e.body, |e.sig|, off, h, r, w);
    } else if e.Loop? {
      SubstInner(k, labels, ClosedLabel(h, 0, off), e.body, off, h, r, w);
    } else if e.If? {
      SubstIf(k, labels, e, off, h, r, w);
    } else {
      SubstConst(CompPlain(e, h), r, w);
    }
  }

  lemma SubstInner(k: Context, labels: seq<Label>, l: Label, body: Code, off: nat, h: int, r: Ref, w: nat)
    requires Pending(k, labels, r)
    ensures Subst(CompCode(k, labels + [l], body, off, h), r, w)
         == CompCode(ResolveContext(k, r, w), ResolveLabels(labels, r, w) + [l], body, off, h)
    decreases body, 1
  {
    hide CompCode;
    assert Pending(k, labels + [l], r);
    assert ResolveLabels(labels + [l], r, w) == ResolveLabels(labels, r, w) + [l];
    SubstCode(k, labels + [l], body, off, h, r, w);
  }

  lemma SubstEnd(k: Context, labels: seq<Label>, body: Code, arity: nat, off: nat, h: int, r: Ref, w: nat)
    requires Pending(k, labels, r)
    ensures EndOf(ResolveContext(k, r, w), ResolveLabels(labels, r, w), body, arity, off, h)
         == EndOf(k, labels, body, arity, off, h)
    decreases body, 2
  {
    hide CompCode, Size;
    SubstInner(k, labels, OpenLabel(h, arity), body, off, h, r, w);
    SubstSize(CompCode(k, labels + [OpenLabel(h, arity)], body, off, h), r, w);
  }

  lemma SubstBlock(k: Context, labels: seq<Label>, body: Code, arity: nat, off: nat, h: int, r: Ref, w: nat)
    requires Pending(k, labels, r)
    ensures Subst(CompBlock(k, labels, body, arity, off, h), r, w)
         == CompBlock(ResolveContext(k, r, w), ResolveLabels(labels, r, w), body, arity, off, h)
    decreases body, 3
  {
    hide CompCode, EndOf;
    SubstEnd(k, labels, body, arity, off, h, r, w);
    SubstInner(k, labels, ClosedLabel(h, arity, EndOf(k, labels, body, arity, off, h)), body, off, h, r, w);
  }

  lemma SubstIf(k: Context, labels: seq<Label>, e: Instr, off: nat, h: int, r: Ref, w: nat)
    requires Pending(k, labels, r) && e.If?
    ensures Subst(CompIf(k, labels, e, off, h), r, w)
         == CompIf(ResolveContext(k, r, w), ResolveLabels(labels, r, w), e, off, h)
    decreases e, 3
  {
    hide CompCode, EndOf;
    var elseOff, end := ElseOf(k, labels, e, off, h), EndOfIf(k, labels, e, off, h);
    var l := ClosedLabel(h - 1, |e.sig|, end);
    SubstEnd(k, labels, e.thn, |e.sig|, off + 5, h - 1, r, w);
    SubstEnd(k, labels, e.els, |e.sig|, elseOff, h - 1, r, w);
    SubstInner(k, labels, l, e.thn, off + 5, h - 1, r, w);
    SubstInner(k, labels, l, e.els, elseOff, h - 1, r, w);
    var thn, els := CompCode(k, labels + [l], e.thn, off + 5, h - 1), CompCode(k, labels + [l], e.els, elseOff, h - 1);
    if e.hasElse {
      var a, b := [Op(BR_UNLESS), Word(elseOff)], [Op(BR), Word(end)];
      SubstAppend(a + thn + b, els, r, w);
      SubstAppend(a + thn, b, r, w);
      SubstAppend(a, thn, r, w);
      SubstConst(a, r, w);
      SubstConst(b, r, w);
    } else {
      SubstAppend([Op(BR_UNLESS), Word(end)], thn, r, w);
      SubstConst([Op(BR_UNLESS), Word(end)], r, w);
    }
  }

  /** The code of a block is as long as its end says. */
  lemma BlockSize(k: Context, labels: seq<Label>, body: Code, arity: nat, off: nat, h: int)
    ensures off + Size(CompBlock(k, labels, body, arity, off, h)) == EndOf(k, labels, body, arity, off, h)
  {
    hide CompCode, Size;
    CloseLast(k, labels, body, arity, off, h, EndOf(k, labels, body, arity, off, h));
  }

  lemma OpenSize(k: Context, labels: seq<Label>, body: Code, arity: nat, off: nat, h: int)
    ensures Size(CompBlock(k, labels, body, arity, off, h)) == Size(CompCode(k, labels + [OpenLabel(h, arity)], body, off, h))
  {
    hide CompCode, Size, CompBlock;
    BlockSize(k, labels, body, arity, off, h);
  }

  /** Giving the innermost label its end. */
  lemma CloseLast(k: Context, labels: seq<Label>, body: Code, arity: nat, off: nat, h: int, end: nat)
    ensures Subst(CompCode(k, labels + [OpenLabel(h, arity)], body, off, h), LabelRef(|labels|), end)
         == CompCode(k, labels + [ClosedLabel(h, arity, end)], body, off, h)
    ensures Size(CompCode(k, labels + [ClosedLabel(h, arity, end)], body, off, h))
         == Size(CompCode(k, labels + [OpenLabel(h, arity)], body, off, h))
  {
    hide CompCode, Size;
    var open := labels + [OpenLabel(h, arity)];
    SubstCode(k, open, body, off, h, LabelRef(|labels|), end);
    SubstSize(CompCode(k, open, body, off, h), LabelRef(|labels|), end);
    assert ResolveLabels(open, LabelRef(|labels|), end) == labels + [ClosedLabel(h, arity, end)];
  }

  /** The code of an `if` is as long as its open arms and its jumps. */
  lemma IfSize(k: Context, labels: seq<Label>, e: Instr, off: nat, h: int)
    requires e.If?
    ensures var open := labels + [OpenLabel(h - 1, |e.sig|)];
      var thn := Size(CompCode(k, open, e.thn, off + 5, h - 1));
      && ElseOf(k, labels, e, off, h) == off + 5 + thn + 5
      && Size(CompIf(k, labels, e, off, h))
        == 5 + thn + if e.hasElse then 5 + Size(CompCode(k, open, e.els, off + 5 + thn + 5, h - 1)) else 0
  {
    hide CompCode, Size;
    var end, mid := EndOfIf(k, labels, e, off, h), ElseOf(k, labels, e, off, h);
    var inner := labels + [ClosedLabel(h - 1, |e.sig|, end)];
    CloseLast(k, labels, e.thn, |e.sig|, off + 5, h - 1, end);
    CloseLast(k, labels, e.els, |e.sig|, mid, h - 1, end);
    var thn, els := CompCode(k, inner, e.thn, off + 5, h - 1), CompCode(k, inner, e.els, mid, h - 1);
    ArmsSize(thn, els, if e.hasElse then mid else end, end);
  }

  /** Where an `if` ends, and where its second arm starts, in its finished code. */
  lemma IfEnd(k: Context, labels: seq<Label>, e: Instr, off: nat, h: int)
    requires e.If?
    ensures var end := EndOfIf(k, labels, e, off, h);
      && off + Size(CompIf(k, labels, e, off, h)) == end
      && ElseOf(k, labels, e, off, h)
        == off + 5 + Size(CompCode(k, labels + [ClosedLabel(h - 1, |e.sig|, end)], e.thn, off + 5, h - 1)) + 5
  {
    hide CompCode, Size, CompIf;
    IfSize(k, labels, e, off, h);
    CloseLast(k, labels, e.thn, |e.sig|, off + 5, h - 1, EndOfIf(k, labels, e, off, h));
  }

  lemma ArmsSize(thn: seq<Item>, els: seq<Item>, a: int, b: int)
    ensures Size([Op(BR_UNLESS), Word(a)] + thn) == 5 + Size(thn)
    ensures Size([Op(BR_UNLESS), Word(a)] + thn + [Op(BR), Word(b)] + els) == 5 + Size(thn) + 5 + Size(els)
  {
    hide Size;
    var head := [Op(BR_UNLESS), Word(a)];
    PairSize(Op(BR_UNLESS), Word(a));
    SizeAppend(head, thn);
    PairSize(Op(BR), Word(b));
    SizeAppend(head + thn, [Op(BR), Word(b)]);
    SizeAppend(head + thn + [Op(BR), Word(b)], els);
  }

  lemma PairSize(a: Item, b: Item)
    ensures Size([a, b]) == Width(a) + Width(b)
  {
    assert [a, b] == [a] + [b];
    assert [] + [a] == [a];
    SizeSnoc([], a);
    SizeSnoc([a], b);
  }

  lemma TripleSize(a: Item, b: Item, c: Item)
    ensures Size([a, b, c]) == Width(a) + Width(b) + Width(c)
  {
    assert [a, b, c] == [a, b] + [c];
    PairSize(a, b);
    SizeSnoc([a, b], c);
  }

  // ----- functions and modules -----

  /** Space for the locals. */
  function Prologue(m: Module, f: nat): seq<Item>
    requires f < |m.funcs|
  {
    if m.funcs[f].decls == [] then [] else [Op(ALLOCA), Word(|Expand(m.funcs[f].decls)|)]
  }

  function CompFunc(m: Module, entries: seq<Option<nat>>, f: nat, off: nat): seq<Item>
    requires f < |m.funcs| && m.funcs[f].sigIndex < |m.sigs|
  {
    var n := |SigOf(m, f).results|;
    var locals := |FrameTypes(m, f)|;
    var body := CompBlock(Context(m, entries, n), [], m.funcs[f].body, n, off + Size(Prologue(m, f)), locals);
    Prologue(m, f) + body + (DropKeep(locals, n) + [Op(RETURN)])
  }

  lemma FuncSize(m: Module, entries: seq<Option<nat>>, f: nat, off: nat)
    requires f < |m.funcs| && m.funcs[f].sigIndex < |m.sigs|
    ensures var n, h := |SigOf(m, f).results|, |FrameTypes(m, f)|;
      var body := CompCode(Context(m, entries, n), [OpenLabel(h, n)], m.funcs[f].body, off + Size(Prologue(m, f)), h);
      Size(CompFunc(m, entries, f, off)) > Size(Prologue(m, f)) + Size(body)
  {
    hide CompCode, CompBlock, EndOf, Size, DropKeep, Prologue, Expand;
    var n, h, k := |SigOf(m, f).results|, |FrameTypes(m, f)|, Context(m, entries, |SigOf(m, f).results|);
    var pro, body := Prologue(m, f), CompBlock(k, [], m.funcs[f].body, n, off + Size(Prologue(m, f)), h);
    assert [] + [OpenLabel(h, n)] == [OpenLabel(h, n)];
    OpenSize(k, [], m.funcs[f].body, n, off + Size(pro), h);
    ReturnSize(pro, body, DropKeep(h, n));
  }

  lemma ReturnSize(prologue: seq<Item>, body: seq<Item>, drop: seq<Item>)
    ensures Size(prologue + body + (drop + [Op(RETURN)])) > Size(prologue) + Size(body)
  {
    hide Size, Encode;
    SizeAppend(prologue, body);
    SizeAppend(prologue + body, drop + [Op(RETURN)]);
    SizeSnoc(drop, Op(RETURN));
  }

  /** The code of the first n functions, one after the other. */
  function CompFuncs(m: Module, entries: seq<Option<nat>>, n: nat, start: nat): seq<Item>
    requires ModuleOk(m) && n <= |m.funcs|
  {
    if n == 0 then []
    else
      var front := CompFuncs(m, entries, n - 1, start);
      front + CompFunc(m, entries, n - 1, start + Size(front))
  }

  function Unknown(m: Module): (entries: seq<Option<nat>>)
    ensures |entries| == |m.funcs|
  {
    seq(|m.funcs|, _ => None)
  }

  /** Where function f starts. */
  function EntryOf(m: Module, f: nat, start: nat): nat
    requires ModuleOk(m) && f <= |m.funcs|
  {
    start + Size(CompFuncs(m, Unknown(m), f, start))
  }

  /** The entries of the first n functions. */
  function Known(m: Module, n: nat, start: nat): (entries: seq<Option<nat>>)
    requires ModuleOk(m) && n <= |m.funcs|
    ensures |entries| == |m.funcs|
  {
    seq(|m.funcs|, f requires 0 <= f < |m.funcs| => if f < n then Some(EntryOf(m, f, start)) else None)
  }

  lemma SubstFunc(m: Module, entries: seq<Option<nat>>, f: nat, off: nat, g: nat, w: nat)
    requires f < |m.funcs| && m.funcs[f].sigIndex < |m.sigs|
    requires g < |entries| && entries[g].None?
    ensures Subst(CompFunc(m, entries, f, off), FuncRef(g), w) == CompFunc(m, entries[g := Some(w)], f, off)
  {
    hide CompBlock, Size;
    var n, locals := |SigOf(m, f).results|, |FrameTypes(m, f)|;
    var k, pro, epi := Context(m, entries, n), Prologue(m, f), DropKeep(locals, n) + [Op(RETURN)];
    var body := CompBlock(k, [], m.funcs[f].body, n, off + Size(pro), locals);
    SubstBlock(k, [], m.funcs[f].body, n, off + Size(pro), locals, FuncRef(g), w);
    SubstAppend(pro + body, epi, FuncRef(g), w);
    SubstAppend(pro, body, FuncRef(g), w);
    SubstConst(pro, FuncRef(g), w);
    SubstConst(epi, FuncRef(g), w);
  }

  /** Learning the entry of one more function turns its uses into words and
      moves nothing. */
  lemma {:induction false} SubstFuncs(m: Module, entries: seq<Option<nat>>, n: nat, start: nat, g: nat, w: nat)
    requires ModuleOk(m) && n <= |m.funcs| && g < |entries| && entries[g].None?
    ensures Subst(CompFuncs(m, entries, n, start), FuncRef(g), w) == CompFuncs(m, entries[g := Some(w)], n, start)
  {
    hide CompFunc, Size, Subst;
    if n == 0 {
      SubstConst([], FuncRef(g), w);
    } else {
      var front := CompFuncs(m, entries, n - 1, start);
      SubstFuncs(m, entries, n - 1, start, g, w);
      SubstSize(front, FuncRef(g), w);
      SubstFunc(m, entries, n - 1, start + Size(front), g, w);
      SubstAppend(front, CompFunc(m, entries, n - 1, start + Size(front)), FuncRef(g), w);
    }
  }

  lemma {:induction false} KnownSize(m: Module, known: nat, n: nat, start: nat)
    requires ModuleOk(m) && n <= |m.funcs| && known <= |m.funcs|
    ensures Size(CompFuncs(m, Known(m, known, start), n, start)) == Size(CompFuncs(m, Unknown(m), n, start))
    decreases known
  {
    hide CompFuncs, Size;
    if known == 0 {
      assert Known(m, 0, start) == Unknown(m);
    } else {
      var entries, g, w := Known(m, known - 1, start), known - 1, EntryOf(m, known - 1, start);
      KnownSize(m, known - 1, n, start);
      assert Known(m, known, start) == entries[g := Some(w)];
      SubstFuncs(m, entries, n, start, g, w);
      SubstSize(CompFuncs(m, entries, n, start), FuncRef(g), w);
    }
  }

  /** The entry of the next function is where the code so far ends. */
  lemma KnownNext(m: Module, n: nat, start: nat)
    requires ModuleOk(m) && n < |m.funcs|
    ensures Known(m, n + 1, start) == Known(m, n, start)[n := Some(EntryOf(m, n, start))] && Known(m, n, start)[n] == None
  {
    hide CompFuncs, Size;
  }

  /** The code of a function lies between its entry and the next. */
  lemma NextEntryOf(m: Module, known: nat, f: nat, start: nat)
    requires ModuleOk(m) && f < |m.funcs| && known <= |m.funcs|
    ensures EntryOf(m, f + 1, start)
      == EntryOf(m, f, start) + Size(CompFunc(m, Known(m, known, start), f, EntryOf(m, f, start)))
  {
    hide CompFunc, Size;
    var k := Known(m, known, start);
    KnownSize(m, known, f, start);
    KnownSize(m, known, f + 1, start);
    SizeAppend(CompFuncs(m, k, f, start), CompFunc(m, k, f, EntryOf(m, f, start)));
  }

  lemma {:induction false} EntriesGrow(m: Module, f: nat, n: nat, start: nat)
    requires ModuleOk(m) && f < n <= |m.funcs|
    ensures EntryOf(m, f, start) + Size(CompFunc(m, Known(m, f + 1, start), f, EntryOf(m, f, start))) <= EntryOf(m, n, start)
    decreases n
  {
    hide CompFunc, CompFuncs, Size;
    if n == f + 1 {
      NextEntryOf(m, f + 1, f, start);
    } else {
      EntriesGrow(m, f, n - 1, start);
      NextEntryOf(m, n, n - 1, start);
    }
  }
}
