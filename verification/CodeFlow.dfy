/** The heights that module Flow reads off the code are those that its
    instructions leave: everywhere in the code of a sound module, and so at every
    moment of every run. */
module CodeFlow {
  import opened Wasm
  import opened Assembly
  import opened Machine
  import opened Steps
  import opened Safety
  import opened Simulation
  import opened Flow
  import opened Semantics
  import Correctness
  import Typing
  import C = Compile
  import H = Heights

  function Lift(f: nat, h: Option<int>): Option<Place> { if h.Some? then Some(Place(f, h.value)) else None }

  /** Between two positions the heights are these, in function f. */
  ghost predicate Agrees(at: Places, f: nat, lo: nat, hi: nat, heights: nat -> Option<int>) {
    forall p: nat :: lo <= p < hi ==> at(p) == Lift(f, heights(p))
  }

  ghost predicate Within(env: Env, at: Places, lo: nat, hi: nat) { forall p: nat :: lo <= p < hi ==> PlaceOk(env, at, p) }

  ghost predicate FlowsAt(env: Env, at: Places, p: nat, f: nat, h: int) { h >= 0 && (h <= INVALID ==> Flows(env, at, p, Place(f, h))) }

  lemma OnlyFirst(env: Env, at: Places, f: nat, off: nat, size: nat, h: int)
    requires Agrees(at, f, off, off + size, (p: nat) => if p == off then Some(h) else None)
    requires size > 0 ==> FlowsAt(env, at, off, f, h)
    ensures Within(env, at, off, off + size)
  {
    hide Flows;
    forall p: nat | off <= p < off + size ensures PlaceOk(env, at, p) {}
  }

  lemma Joined(env: Env, at: Places, lo: nat, mid: nat, hi: nat)
    requires Within(env, at, lo, mid) && Within(env, at, mid, hi)
    ensures Within(env, at, lo, hi)
  {
    hide PlaceOk;
  }

  lemma Empty(env: Env, at: Places, p: nat)
    ensures Within(env, at, p, p)
  {}

  /** An instruction that goes on to the next one. */
  lemma Straight(env: Env, at: Places, p: nat, f: nat, h: int, op: u8)
    requires p < |env.istream| && env.istream[p] == op && !IsFlow(op) && p + 1 + ImmediateSize(op) <= |env.istream| && h >= 0
    requires h <= INVALID ==> Goes(at, p + 1 + ImmediateSize(op), f, h + Effect(env.istream, op, p + 1))
    ensures FlowsAt(env, at, p, f, h)
  {
    hide Effect, WordAt;
  }

  // ----- instructions without control flow -----

  lemma PlainFlow(x: Site, f: nat, at: Places, e: Wasm.Instr, off: nat, ts: seq<Type>)
    requires IsPlain(e) && Typing.TypePlain(x.s, e, ts).Live? && !e.CurrentMemory? && !e.GrowMemory? && x.s.m == x.env.m
    requires ItemsAt(x.env.istream, off, C.CompPlain(e, x.Height(ts)))
    requires var size, h := Size(C.CompPlain(e, x.Height(ts))), x.Height(ts);
      Agrees(at, f, off, off + size, (p: nat) => if p == off then Some(h) else None) && Goes(at, off + size, f, h + C.Delta(x.s.m, e))
    ensures Within(x.env, at, off, off + Size(C.CompPlain(e, x.Height(ts))))
  {
    hide Agrees, Within, FlowsAt, Flows, Size, Encode, Typing.EndsWith, Typing.OperatorSig, Typing.TypeOperator, Goes;
    var size, h := Size(C.CompPlain(e, x.Height(ts))), x.Height(ts);
    if e.Nop? {
      NoItems();
    } else if IsOperator(e) {
      OperatorFlow(x, f, at, e, off, ts);
    } else if IsVariable(e) {
      VariableFlow(x, f, at, e, off, ts);
    } else if e.Const? {
      ConstFlow(x, f, at, e, off, ts);
    } else {
      OneByte(x, f, at, e, off, ts);
    }
    OnlyFirst(x.env, at, f, off, size, h);
  }

  lemma OneByte(x: Site, f: nat, at: Places, e: Wasm.Instr, off: nat, ts: seq<Type>)
    requires (e.Drop? || e.Select?)
    requires ItemsAt(x.env.istream, off, C.CompPlain(e, x.Height(ts)))
    requires Goes(at, off + Size(C.CompPlain(e, x.Height(ts))), f, x.Height(ts) + C.Delta(x.s.m, e))
    ensures FlowsAt(x.env, at, off, f, x.Height(ts))
  {
    hide FlowsAt, Flows, Encode, Size, WordAt, Goes;
    var op := if e.Drop? then DROP else SELECT;
    ReadOp(x.env.istream, off, op);
    OpSize(op);
    Straight(x.env, at, off, f, x.Height(ts), op);
  }

  lemma ConstFlow(x: Site, f: nat, at: Places, e: Wasm.Instr, off: nat, ts: seq<Type>)
    requires e.Const?
    requires ItemsAt(x.env.istream, off, C.CompPlain(e, x.Height(ts)))
    requires Goes(at, off + Size(C.CompPlain(e, x.Height(ts))), f, x.Height(ts) + C.Delta(x.s.m, e))
    ensures FlowsAt(x.env, at, off, f, x.Height(ts))
  {
    hide FlowsAt, Flows, Encode, Size, WordAt, Goes;
    if Is64(e.ty) {
      assert [Op(ConstOp(e.ty)), Word(e.bits.lo), Word(e.bits.hi)] + [] == C.CompPlain(e, x.Height(ts));
      ReadOpWords(x.env.istream, off, ConstOp(e.ty), e.bits.lo, e.bits.hi, []);
    } else {
      ReadOpWord(x.env.istream, off, ConstOp(e.ty), e.bits.lo);
    }
    Straight(x.env, at, off, f, x.Height(ts), ConstOp(e.ty));
  }

  lemma OperatorFlow(x: Site, f: nat, at: Places, e: Wasm.Instr, off: nat, ts: seq<Type>)
    requires IsOperator(e) && Typing.TypeOperator(x.s, e, ts).Live?
    requires ItemsAt(x.env.istream, off, C.CompPlain(e, x.Height(ts)))
    requires Goes(at, off + Size(C.CompPlain(e, x.Height(ts))), f, x.Height(ts) + C.Delta(x.s.m, e))
    ensures FlowsAt(x.env, at, off, f, x.Height(ts))
  {
    hide FlowsAt, Flows, Encode, Size, WordAt, Goes, UnarySig, BinarySig, LoadSig, StoreSig, Typing.AccessOk, Typing.EndsWith;
    OperatorCodes(e.op);
    OperatorSize(e, x.Height(ts));
    if e.Load? || e.Store? {
      assert [Op(e.op), Word(0), Word(e.offset)] + [] == C.CompPlain(e, x.Height(ts));
      ReadOpWords(x.env.istream, off, e.op, 0, e.offset, []);
    } else {
      ReadOp(x.env.istream, off, e.op);
    }
    OperatorsApart(e.op);
    Straight(x.env, at, off, f, x.Height(ts), e.op);
  }

  lemma OperatorsApart(op: u8)
    ensures UnarySig(op).Some? || BinarySig(op).Some? ==> op >= 0x45 && ImmediateSize(op) == 0
    ensures LoadSig(op).Some? || StoreSig(op).Some? ==> 0x28 <= op <= 0x3e && ImmediateSize(op) == 8
    ensures BinarySig(op).Some? ==> UnarySig(op).None?
    ensures StoreSig(op).Some? ==> LoadSig(op).None?
  {}

  lemma VariableFlow(x: Site, f: nat, at: Places, e: Wasm.Instr, off: nat, ts: seq<Type>)
    requires IsVariable(e)
    requires ItemsAt(x.env.istream, off, C.CompPlain(e, x.Height(ts)))
    requires Goes(at, off + Size(C.CompPlain(e, x.Height(ts))), f, x.Height(ts) + C.Delta(x.s.m, e))
    ensures FlowsAt(x.env, at, off, f, x.Height(ts))
  {
    hide FlowsAt, Flows, Encode, Size, WordAt, Goes;
    var op := if e.GetLocal? then GET_LOCAL else if e.SetLocal? then SET_LOCAL else if e.TeeLocal? then TEE_LOCAL
      else if e.GetGlobal? then GET_GLOBAL else SET_GLOBAL;
    var w := C.CompPlain(e, x.Height(ts))[1];
    assert C.CompPlain(e, x.Height(ts)) == [Op(op), w];
    OpAnyWord(x.env.istream, off, op, w);
    Straight(x.env, at, off, f, x.Height(ts), op);
  }

  lemma OpAnyWord(s: seq<u8>, p: nat, op: u8, w: Item)
    requires ItemsAt(s, p, [Op(op), w]) && Width(w) == 4
    ensures p + 5 <= |s| && s[p] == op && Size([Op(op), w]) == 5
  {
    hide Encode, Size;
    C.PairSize(Op(op), w);
    assert [Op(op), w] == [Op(op)] + [w];
    ReadHead(s, p, op, [w]);
    InsideStream(s, p, [Op(op), w]);
  }

  // ----- drops, branches, returns -----

  /** Dropping below the kept value, if there is anything to drop. */
  lemma DropFlow(env: Env, at: Places, f: nat, off: nat, h: int, drop: int, keep: nat)
    requires ItemsAt(env.istream, off, C.DropKeep(drop, keep)) && keep <= 1 && drop >= 0 && h >= drop
    requires Goes(at, off + Size(C.DropKeep(drop, keep)), f, h - drop)
    ensures drop > 0 ==> FlowsAt(env, at, off, f, h) && Size(C.DropKeep(drop, keep)) > 0
    ensures drop == 0 ==> Size(C.DropKeep(drop, keep)) == 0
  {
    hide FlowsAt, Flows, Encode, Size, WordAt;
    DropKeepSize(drop, keep);
    if drop == 1 && keep == 0 {
      ReadOp(env.istream, off, DROP);
      Straight(env, at, off, f, h, DROP);
    } else if drop > 0 {
      DropKeepFlow(env, at, f, off, h, drop, keep);
    }
  }

  lemma DropKeepFlow(env: Env, at: Places, f: nat, off: nat, h: int, drop: int, keep: u8)
    requires ItemsAt(env.istream, off, [Op(DROP_KEEP), Word(drop), Op(keep)]) && 0 < drop <= h
    requires Goes(at, off + 6, f, h - drop)
    ensures FlowsAt(env, at, off, f, h)
  {
    hide FlowsAt, Flows, Encode, Size, WordAt;
    assert [Op(DROP_KEEP), Word(drop), Op(keep)] == [Op(DROP_KEEP)] + [Word(drop), Op(keep)];
    ReadHead(env.istream, off, DROP_KEEP, [Word(drop), Op(keep)]);
    InsideStream(env.istream, off, [Op(DROP_KEEP), Word(drop), Op(keep)]);
    C.TripleSize(Op(DROP_KEEP), Word(drop), Op(keep));
    if h <= INVALID {
      ReadOpWordOp(env.istream, off, DROP_KEEP, drop, keep);
    }
    Straight(env, at, off, f, h, DROP_KEEP);
  }

  lemma BrFlow(env: Env, at: Places, f: nat, p: nat, h: int, target: u32)
    requires ItemsAt(env.istream, p, [Op(BR), Word(target)]) && Goes(at, target, f, h) && h >= 0
    ensures FlowsAt(env, at, p, f, h)
  {
    hide Encode, Size, WordAt;
    ReadOpWord(env.istream, p, BR, target);
  }

  lemma UnlessFlow(env: Env, at: Places, f: nat, p: nat, h: int, target: u32)
    requires ItemsAt(env.istream, p, [Op(BR_UNLESS), Word(target)]) && Goes(at, target, f, h - 1) && Goes(at, p + 5, f, h - 1) && h >= 0
    ensures FlowsAt(env, at, p, f, h)
  {
    hide Encode, Size, WordAt;
    ReadOpWord(env.istream, p, BR_UNLESS, target);
  }

  /** Two positions: a drop, if there is one, and what comes behind it. */
  lemma TwoPlaces(env: Env, at: Places, f: nat, off: nat, size: nat, tail: nat, h: int, h': int)
    requires Agrees(at, f, off, off + size + tail, (p: nat) => if p == off + size then Some(h') else if p == off then Some(h) else None)
    requires tail > 0 && FlowsAt(env, at, off + size, f, h') && (size > 0 ==> FlowsAt(env, at, off, f, h))
    ensures Within(env, at, off, off + size + tail)
  {
    hide Flows;
    forall p: nat | off <= p < off + size + tail ensures PlaceOk(env, at, p) {}
  }

  ghost predicate LabelGoes(at: Places, f: nat, l: C.Label) { l.target.Some? && Goes(at, l.target.value, f, l.limit + l.arity) }

  ghost predicate LabelsGo(x: Site, f: nat, at: Places) { forall i :: 0 <= i < |x.labels| ==> LabelGoes(at, f, x.labels[i]) }

  lemma BranchFlow(x: Site, f: nat, at: Places, depth: nat, off: nat, ts: seq<Type>)
    requires SiteOk(x) && Typing.BranchOk(x.tls, depth, ts) && LabelsGo(x, f, at)
    requires ItemsAt(x.env.istream, off, C.Jump(x.labels, depth, x.Height(ts)))
    requires Agrees(at, f, off, off + Size(C.Jump(x.labels, depth, x.Height(ts))), (p: nat) => HeightInBranch(x.labels, depth, off, x.Height(ts), p))
    ensures Within(x.env, at, off, off + Size(C.Jump(x.labels, depth, x.Height(ts)))) && Size(C.Jump(x.labels, depth, x.Height(ts))) > 0
  {
    hide SiteOk, Typing.BranchOk, Encode, Size, Flows, FlowsAt, Within, C.DropKeep, ItemsAt, Goes;
    LabelAtOk(x, depth, ts);
    var l, h := C.LabelAt(x.labels, depth), x.Height(ts);
    assert LabelGoes(at, f, x.labels[|x.labels| - 1 - depth]);
    assert C.Jump(x.labels, depth, h) == C.DropKeep(h - l.limit - l.arity, l.arity) + [Op(BR), Word(l.target.value)];
    LeaveFlow(x.env, at, f, off, h, l.limit + l.arity, l.arity, l.target.value);
  }

  /** Dropping down to a height, and a jump from there. */
  lemma LeaveFlow(env: Env, at: Places, f: nat, off: nat, h: int, left: int, arity: nat, target: u32)
    requires ItemsAt(env.istream, off, C.DropKeep(h - left, arity) + [Op(BR), Word(target)]) && arity <= 1 && 0 <= left <= h
    requires Agrees(at, f, off, off + Size(C.DropKeep(h - left, arity) + [Op(BR), Word(target)]),
      (p: nat) => if p == off + Size(C.DropKeep(h - left, arity)) then Some(left) else if p == off then Some(h) else None)
    requires Goes(at, target, f, left)
    ensures Within(env, at, off, off + Size(C.DropKeep(h - left, arity) + [Op(BR), Word(target)]))
    ensures Size(C.DropKeep(h - left, arity) + [Op(BR), Word(target)]) > 0
  {
    hide Encode, Size, Flows, FlowsAt, Within, C.DropKeep;
    var drop, jump := C.DropKeep(h - left, arity), [Op(BR), Word(target)];
    SplitAt(env.istream, off, drop, jump);
    SizeAppend(drop, jump);
    C.PairSize(Op(BR), Word(target));
    BrFlow(env, at, f, off + Size(drop), left, target);
    assert at(off + Size(drop)) == Some(Place(f, left));
    DropFlow(env, at, f, off, h, h - left, arity);
    TwoPlaces(env, at, f, off, Size(drop), 5, h, left);
  }

  lemma ReturnFlow(env: Env, at: Places, f: nat, n: nat, off: nat, h: int)
    requires ItemsAt(env.istream, off, C.DropKeep(h - n, n) + [Op(RETURN)]) && n == ResultCount(env.m, f) <= h && n <= 1
    requires Agrees(at, f, off, off + Size(C.DropKeep(h - n, n) + [Op(RETURN)]), (p: nat) => HeightInReturn(n, off, h, p))
    ensures Within(env, at, off, off + Size(C.DropKeep(h - n, n) + [Op(RETURN)])) && Size(C.DropKeep(h - n, n) + [Op(RETURN)]) > 0
  {
    hide Encode, Size, FlowsAt, Within, C.DropKeep, Flows;
    var drop := C.DropKeep(h - n, n);
    SplitAt(env.istream, off, drop, [Op(RETURN)]);
    SizeAppend(drop, [Op(RETURN)]);
    OpSize(RETURN);
    FinalFlow(env, at, off + Size(drop), f, n);
    assert at(off + Size(drop)) == Lift(f, HeightInReturn(n, off, h, off + Size(drop)));
    DropFlow(env, at, f, off, h, h - n, n);
    TwoPlaces(env, at, f, off, Size(drop), 1, h, n);
  }

  lemma FinalFlow(env: Env, at: Places, p: nat, f: nat, n: nat)
    requires ItemsAt(env.istream, p, [Op(RETURN)]) && n == ResultCount(env.m, f)
    ensures FlowsAt(env, at, p, f, n)
  {
    hide Encode;
    ReadOp(env.istream, p, RETURN);
  }

  lemma BrIfFlow(x: Site, f: nat, at: Places, depth: u32, off: nat, ts: seq<Type>)
    requires SiteOk(x) && Typing.TypeJump(x.s, x.tls, BrIf(depth), ts).Live? && LabelsGo(x, f, at)
    requires ItemsAt(x.env.istream, off, C.CompJump(x.k, x.labels, BrIf(depth), off, x.Height(ts)))
    requires var end := off + Size(C.CompJump(x.k, x.labels, BrIf(depth), off, x.Height(ts)));
      Agrees(at, f, off, end, (p: nat) => HeightInJump(x.k, x.labels, BrIf(depth), off, x.Height(ts), p)) && Goes(at, end, f, x.Height(ts) - 1)
    ensures Within(x.env, at, off, off + Size(C.CompJump(x.k, x.labels, BrIf(depth), off, x.Height(ts))))
  {
    hide SiteOk, Typing.BranchOk, Encode, Size, Flows, FlowsAt, C.Jump, HeightInBranch, Goes, LabelsGo;
    var h, us := x.Height(ts), Typing.Below(ts, 1);
    var jump := C.Jump(x.labels, depth, h - 1);
    var skip := off + 5 + Size(jump);
    var head := [Op(BR_UNLESS), Word(skip)];
    assert h - 1 == x.Height(us);
    SplitAt(x.env.istream, off, head, jump);
    SizeAppend(head, jump);
    C.PairSize(Op(BR_UNLESS), Word(skip));
    InsideStream(x.env.istream, off, head + jump);
    FrameFits(x);
    Tail(at, f, off, 5, skip, h, (p: nat) => HeightInBranch(x.labels, depth, off + 5, h - 1, p));
    BranchFlow(x, f, at, depth, off + 5, us);
    BranchStarts(x, f, at, depth, off + 5, us);
    UnlessFlow(x.env, at, f, off, h, skip);
    NotBefore(x.labels, depth, off + 5, h - 1);
    FirstThen(x.env, at, f, off, 5, skip, h, (p: nat) => HeightInBranch(x.labels, depth, off + 5, h - 1, p));
  }

  lemma NotBefore(labels: seq<C.Label>, depth: nat, off: nat, h: int)
    ensures forall p: nat :: p < off ==> HeightInBranch(labels, depth, off, h, p) == None
  {
    hide C.DropKeep, Size;
  }

  /** What follows one instruction at `off`. */
  lemma Tail(at: Places, f: nat, off: nat, size: nat, end: nat, h: int, rest: nat -> Option<int>)
    requires Agrees(at, f, off, end, (p: nat) => if p == off then Some(h) else rest(p)) && size > 0
    ensures Agrees(at, f, off + size, end, rest)
  {}

  lemma FirstThen(env: Env, at: Places, f: nat, off: nat, size: nat, end: nat, h: int, rest: nat -> Option<int>)
    requires Agrees(at, f, off, end, (p: nat) => if p == off then Some(h) else rest(p))
    requires forall p: nat :: off < p < off + size ==> rest(p) == None
    requires FlowsAt(env, at, off, f, h) && Within(env, at, off + size, end)
    ensures Within(env, at, off, end)
  {
    hide Flows;
    forall p: nat | off <= p < end ensures PlaceOk(env, at, p) {}
  }

  /** A branch starts at the height it is compiled for. */
  lemma BranchStarts(x: Site, f: nat, at: Places, depth: nat, off: nat, ts: seq<Type>)
    requires SiteOk(x) && Typing.BranchOk(x.tls, depth, ts)
    requires Agrees(at, f, off, off + Size(C.Jump(x.labels, depth, x.Height(ts))), (p: nat) => HeightInBranch(x.labels, depth, off, x.Height(ts), p))
    requires Size(C.Jump(x.labels, depth, x.Height(ts))) > 0
    ensures Goes(at, off, f, x.Height(ts))
  {
    hide SiteOk, Typing.BranchOk, C.DropKeep, Size;
    LabelAtOk(x, depth, ts);
    var l := C.LabelAt(x.labels, depth);
    DropKeepSize(x.Height(ts) - l.limit - l.arity, l.arity);
    assert at(off) == Lift(f, HeightInBranch(x.labels, depth, off, x.Height(ts), off));
  }

  lemma TableFlow(x: Site, f: nat, at: Places, e: Wasm.Instr, off: nat, ts: seq<Type>)
    requires SiteOk(x) && e.BrTable? && Typing.TypeJump(x.s, x.tls, e, ts).Dead? && LabelsGo(x, f, at)
    requires ItemsAt(x.env.istream, off, C.CompJump(x.k, x.labels, e, off, x.Height(ts)))
    requires Agrees(at, f, off, off + Size(C.CompJump(x.k, x.labels, e, off, x.Height(ts))),
      (p: nat) => HeightInJump(x.k, x.labels, e, off, x.Height(ts), p))
    ensures Within(x.env, at, off, off + Size(C.CompJump(x.k, x.labels, e, off, x.Height(ts))))
  {
    hide SiteOk, Typing.BranchOk, Typing.TableOk, Encode, Size, Flows, FlowsAt, LabelsGo, C.TableEntries, Within, EntryGoes, WordAt,
      C.CompJump, TableTail;
    var h, us := x.Height(ts), Typing.Below(ts, 1);
    assert h - 1 == x.Height(us);
    TargetsInScope(x, e, us);
    TableRead(x, e, off, h - 1, 0);
    ReadOpWords(x.env.istream, off, BR_TABLE, |e.targets|, off + 14, TableTail(x, e, h - 1));
    forall i | 0 <= i <= |e.targets| && h <= INVALID
      ensures EntryGoes(x.env, at, off + 14 + i * TABLE_ENTRY_SIZE, f, h - 1)
    {
      TableEntryFlow(x, f, at, e, off, us, i);
    }
    TableHead(x.env, at, off, f, h);
    OnlyFirst(x.env, at, f, off, Size(C.CompJump(x.k, x.labels, e, off, h)), h);
  }

  lemma TableEntryFlow(x: Site, f: nat, at: Places, e: Wasm.Instr, off: nat, us: seq<Type>, i: nat)
    requires SiteOk(x) && e.BrTable? && Typing.TableOk(x.tls, e.targets, e.default, us) && LabelsGo(x, f, at)
    requires ItemsAt(x.env.istream, off, C.CompJump(x.k, x.labels, e, off, x.Height(us) + 1))
    requires i <= |e.targets| && x.Height(us) < INVALID
    ensures EntryGoes(x.env, at, off + 14 + i * TABLE_ENTRY_SIZE, f, x.Height(us))
  {
    hide SiteOk, Typing.BranchOk, Typing.TableOk, Encode, Size, LabelsGo, C.TableEntries, C.TableEntry, EntryGoes, C.CompJump;
    TargetsInScope(x, e, us);
    TableRead(x, e, off, x.Height(us), i);
    EntryFlow(x, f, at, (e.targets + [e.default])[i], off + 14 + i * TABLE_ENTRY_SIZE, us);
  }

  lemma EntryFlow(x: Site, f: nat, at: Places, depth: nat, entry: nat, us: seq<Type>)
    requires SiteOk(x) && Typing.BranchOk(x.tls, depth, us) && LabelsGo(x, f, at) && x.Height(us) < INVALID
    requires ItemsAt(x.env.istream, entry, C.TableEntry(x.labels, depth, x.Height(us)))
    ensures EntryGoes(x.env, at, entry, f, x.Height(us))
  {
    hide SiteOk, Typing.BranchOk, Encode, Size, WordAt;
    LabelAtOk(x, depth, us);
    var l, h := C.LabelAt(x.labels, depth), x.Height(us);
    assert LabelGoes(at, f, x.labels[|x.labels| - 1 - depth]);
    ReadEntry(x.env.istream, entry, l.target.value, h - l.limit - l.arity, l.arity);
  }

  lemma TableHead(env: Env, at: Places, p: nat, f: nat, h: int)
    requires p + 9 <= |env.istream| && env.istream[p] == BR_TABLE && h >= 0
    requires h <= INVALID ==> forall i :: 0 <= i <= WordAt(env.istream, p + 1) ==>
      EntryGoes(env, at, WordAt(env.istream, p + 5) + i * TABLE_ENTRY_SIZE, f, h - 1)
    ensures FlowsAt(env, at, p, f, h)
  {
    hide WordAt, EntryGoes;
  }

  lemma JumpFlow(x: Site, f: nat, at: Places, e: Wasm.Instr, off: nat, ts: seq<Type>)
    requires SiteOk(x) && IsJump(e) && !Typing.TypeJump(x.s, x.tls, e, ts).Bad? && LabelsGo(x, f, at) && |x.s.results| == ResultCount(x.env.m, f)
    requires ItemsAt(x.env.istream, off, C.CompJump(x.k, x.labels, e, off, x.Height(ts)))
    requires var end := off + Size(C.CompJump(x.k, x.labels, e, off, x.Height(ts)));
      && Agrees(at, f, off, end, (p: nat) => HeightInJump(x.k, x.labels, e, off, x.Height(ts), p))
      && (e.BrIf? ==> Goes(at, end, f, x.Height(ts) - 1))
    ensures Within(x.env, at, off, off + Size(C.CompJump(x.k, x.labels, e, off, x.Height(ts))))
  {
    hide SiteOk, Typing.BranchOk, Encode, Size, Flows, FlowsAt, LabelsGo, C.Jump, Within, HeightInBranch, HeightInReturn, Agrees, C.DropKeep;
    FrameFits(x);
    if e.Br? {
      Same(at, f, off, off + Size(C.Jump(x.labels, e.depth, x.Height(ts))), (p: nat) => HeightInJump(x.k, x.labels, e, off, x.Height(ts), p),
        (p: nat) => HeightInBranch(x.labels, e.depth, off, x.Height(ts), p));
      BranchFlow(x, f, at, e.depth, off, ts);
    } else if e.BrIf? {
      BrIfFlow(x, f, at, e.depth, off, ts);
    } else if e.BrTable? {
      TableFlow(x, f, at, e, off, ts);
    } else if e.Return? {
      var h, n := x.Height(ts), |x.s.results|;
      Same(at, f, off, off + Size(C.DropKeep(h - n, n) + [Op(RETURN)]), (p: nat) => HeightInJump(x.k, x.labels, e, off, h, p),
        (p: nat) => HeightInReturn(n, off, h, p));
      ReturnFlow(x.env, at, f, n, off, h);
    } else {
      UnreachableFlow(x, f, at, off, ts);
    }
  }

  lemma Same(at: Places, f: nat, lo: nat, hi: nat, g: nat -> Option<int>, h: nat -> Option<int>)
    requires Agrees(at, f, lo, hi, g) && forall p: nat :: lo <= p < hi ==> g(p) == h(p)
    ensures Agrees(at, f, lo, hi, h)
  {}

  lemma UnreachableFlow(x: Site, f: nat, at: Places, off: nat, ts: seq<Type>)
    requires ItemsAt(x.env.istream, off, [Op(UNREACHABLE)])
    requires Agrees(at, f, off, off + Size([Op(UNREACHABLE)]), (p: nat) => HeightInJump(x.k, x.labels, Unreachable, off, x.Height(ts), p))
    ensures Within(x.env, at, off, off + Size([Op(UNREACHABLE)]))
  {
    hide Encode, Size;
    ReadOp(x.env.istream, off, UNREACHABLE);
    OnlyFirst(x.env, at, f, off, Size([Op(UNREACHABLE)]), x.Height(ts));
  }

  lemma CallFlow(x: Site, f: nat, at: Places, e: Wasm.Instr, off: nat, ts: seq<Type>)
    requires SiteOk(x) && IsCall(e) && Typing.TypeCall(x.s, e, ts).Live? && (e.CallIndirect? ==> ts != [])
    requires ItemsAt(x.env.istream, off, C.CompCall(x.k, e))
    requires var size, h := Size(C.CompCall(x.k, e)), x.Height(ts);
      Agrees(at, f, off, off + size, (p: nat) => if p == off then Some(h) else None) && Goes(at, off + size, f, h + C.Delta(x.s.m, e))
    ensures Within(x.env, at, off, off + Size(C.CompCall(x.k, e)))
  {
    hide SiteOk, Encode, Size, Flows, FlowsAt, Within, WordAt, Goes, Agrees;
    FrameFits(x);
    if e.Call? {
      SiteFunc(x, e.func);
      ReadOpWord(x.env.istream, off, CALL, x.env.entries[e.func]);
      DirectFlow(x.env, at, off, f, x.Height(ts), e.func);
    } else {
      assert [Op(CALL_INDIRECT), Word(0), Word(e.sigIndex)] + [] == C.CompCall(x.k, e);
      ReadOpWords(x.env.istream, off, CALL_INDIRECT, 0, e.sigIndex, []);
      IndirectFlow(x.env, at, off, f, x.Height(ts), e.sigIndex);
    }
    OnlyFirst(x.env, at, f, off, Size(C.CompCall(x.k, e)), x.Height(ts));
  }

  lemma DirectFlow(env: Env, at: Places, p: nat, f: nat, h: int, g: nat)
    requires p + 5 <= |env.istream| && env.istream[p] == CALL && g < |env.entries| && WordAt(env.istream, p + 1) == env.entries[g]
    requires CallGoes(env, at, p + 5, g, f, h) && h >= 0
    ensures FlowsAt(env, at, p, f, h)
  {
    hide WordAt, CallGoes;
  }

  lemma IndirectFlow(env: Env, at: Places, p: nat, f: nat, h: int, sigIndex: nat)
    requires p + 9 <= |env.istream| && env.istream[p] == CALL_INDIRECT && WordAt(env.istream, p + 5) == sigIndex < |env.m.sigs|
    requires |env.m.sigs[sigIndex].params| <= h - 1
    requires Goes(at, p + 9, f, h - 1 - |env.m.sigs[sigIndex].params| + |env.m.sigs[sigIndex].results|)
    ensures FlowsAt(env, at, p, f, h)
  {
    hide WordAt;
    assert AnyGoes(env, at, sigIndex, p + 9, f, h - 1);
  }

  // ----- where the code of an instruction starts -----

  /** Code compiled at `off`, with the heights in it and, if it is reached, the
      height at its end. */
  ghost predicate CodeHere(x: Site, f: nat, at: Places, code: Wasm.Code, off: nat, ts: seq<Type>) {
    && SiteOk(x) && CodeOk(x, code, ts) && ItemsAt(x.env.istream, off, x.Code(code, off, ts))
    && var end, t := off + Size(x.Code(code, off, ts)), Typing.TypeCode(x.s, x.tls, code, ts);
    && Agrees(at, f, off, end, (p: nat) => HeightInCode(x.k, x.labels, code, off, x.Height(ts), p))
    && (t.Live? ==> Goes(at, end, f, x.Height(t.types)))
  }

  ghost predicate InstrHere(x: Site, f: nat, at: Places, e: Wasm.Instr, off: nat, ts: seq<Type>) {
    && SiteOk(x) && InstrOk(x, e, ts) && ItemsAt(x.env.istream, off, x.Instr(e, off, ts))
    && var end, t := off + Size(x.Instr(e, off, ts)), Typing.TypeInstr(x.s, x.tls, e, ts);
    && Agrees(at, f, off, end, (p: nat) => HeightInInstr(x.k, x.labels, e, off, x.Height(ts), p))
    && (t.Live? ==> Goes(at, end, f, x.Height(t.types)))
  }

  /** The first instruction of some code, and what follows it. */
  lemma SplitHere(x: Site, f: nat, at: Places, e: Wasm.Instr, rest: Wasm.Code, off: nat, ts: seq<Type>)
    requires CodeHere(x, f, at, Cons(e, rest), off, ts)
    ensures var t, mid, end := Typing.TypeInstr(x.s, x.tls, e, ts), off + Size(x.Instr(e, off, ts)), off + Size(x.Code(Cons(e, rest), off, ts));
      && (t.Live? ==> CodeHere(x, f, at, rest, mid, t.types) && end == mid + Size(x.Code(rest, mid, t.types)))
      && (!t.Live? ==> end == mid)
      && ((t.Live? ==> Goes(at, mid, f, x.Height(t.types))) ==> InstrHere(x, f, at, e, off, ts))
  {
    hide SiteOk, CodeOk, InstrOk, Encode, Size, C.Delta, C.CompInstr, Typing.TypeInstr, HeightInInstr, Site.Instr, Site.Code;
    var t, items := Typing.TypeInstr(x.s, x.tls, e, ts), x.Instr(e, off, ts);
    SameModule(x);
    CodeSplit(x, e, rest, off, ts);
    HeightsSplit(x, e, rest, off, ts);
    if t.Live? {
      var tail := x.Code(rest, off + Size(items), t.types);
      SplitAt(x.env.istream, off, items, tail);
      SizeAppend(items, tail);
    }
  }

  lemma HeightsSplit(x: Site, e: Wasm.Instr, rest: Wasm.Code, off: nat, ts: seq<Type>)
    requires InstrOk(x, e, ts) && x.k.m == x.s.m
    ensures var t, h, mid := Typing.TypeInstr(x.s, x.tls, e, ts), x.Height(ts), off + Size(x.Instr(e, off, ts));
      forall p: nat :: HeightInCode(x.k, x.labels, Cons(e, rest), off, h, p)
        == if p < mid then HeightInInstr(x.k, x.labels, e, off, h, p)
           else HeightInCode(x.k, x.labels, rest, mid, if t.Live? then x.Height(t.types) else h + C.Delta(x.k.m, e), p)
  {
    hide Size, C.Delta, C.CompInstr, Typing.TypeInstr, HeightInInstr, Typing.RepresentableInstr, Typing.Generable;
    var t := Typing.TypeInstr(x.s, x.tls, e, ts);
    if t.Live? {
      if e.CallIndirect? { IndirectOperands(x, e, ts); }
      H.DeltaIsTyped(x.s, x.tls, e, ts);
    }
  }

  lemma StartOfCode(x: Site, f: nat, at: Places, code: Wasm.Code, off: nat, ts: seq<Type>)
    requires CodeHere(x, f, at, code, off, ts)
    ensures Goes(at, off, f, x.Height(ts))
    decreases code, 0
  {
    hide CodeHere, InstrHere, Goes, Typing.TypeInstr, Size, Encode, C.CompCode, C.CompInstr, Site.Instr, Site.Code;
    if code == Nil {
      NothingHere(x, f, at, off, ts);
    } else {
      var t, mid := Typing.TypeInstr(x.s, x.tls, code.head, ts), off + Size(x.Instr(code.head, off, ts));
      SplitHere(x, f, at, code.head, code.tail, off, ts);
      if t.Live? { StartOfCode(x, f, at, code.tail, mid, t.types); }
      StartOfInstr(x, f, at, code.head, off, ts);
    }
  }

  lemma NothingHere(x: Site, f: nat, at: Places, off: nat, ts: seq<Type>)
    requires CodeHere(x, f, at, Nil, off, ts)
    ensures Goes(at, off, f, x.Height(ts))
  {
    hide SiteOk, CodeOk;
  }

  lemma StartOfInstr(x: Site, f: nat, at: Places, e: Wasm.Instr, off: nat, ts: seq<Type>)
    requires InstrHere(x, f, at, e, off, ts)
    ensures Goes(at, off, f, x.Height(ts))
    decreases e, 1
  {
    hide CodeHere, Goes, InstrHere;
    if IsJump(e) {
      StartOfJump(x, f, at, e, off, ts);
    } else if e.Block? || e.Loop? {
      var y := BlockHere(x, f, at, e, off, ts);
      StartOfCode(y, f, at, e.body, off, []);
    } else {
      StartOfOther(x, f, at, e, off, ts);
    }
  }

  lemma StartOfJump(x: Site, f: nat, at: Places, e: Wasm.Instr, off: nat, ts: seq<Type>)
    requires InstrHere(x, f, at, e, off, ts) && IsJump(e)
    ensures Goes(at, off, f, x.Height(ts))
  {
    hide SiteOk, Encode, Size, C.DropKeep, C.TableEntries, Typing.BranchOk, Typing.TableOk, Agrees;
    FrameFits(x);
    var size, h := Size(x.Instr(e, off, ts)), x.Height(ts);
    if e.Br? { LabelAtOk(x, e.depth, ts); }
    JumpSize(x, e, off, h);
    if e.Br? {
      var l := C.LabelAt(x.labels, e.depth);
      DropKeepSize(h - l.limit - l.arity, l.arity);
    } else if e.Return? {
      DropKeepSize(h - x.k.results, x.k.results);
    }
    HeightFirst(x, f, at, e, off, ts);
  }

  lemma HeightFirst(x: Site, f: nat, at: Places, e: Wasm.Instr, off: nat, ts: seq<Type>)
    requires Agrees(at, f, off, off + Size(x.Instr(e, off, ts)), (p: nat) => HeightInInstr(x.k, x.labels, e, off, x.Height(ts), p))
    requires Size(x.Instr(e, off, ts)) > 0 && HeightInInstr(x.k, x.labels, e, off, x.Height(ts), off) == Some(x.Height(ts))
    ensures Goes(at, off, f, x.Height(ts))
  {
    hide Size, HeightInInstr, Site.Instr;
    assert at(off) == Lift(f, HeightInInstr(x.k, x.labels, e, off, x.Height(ts), off));
  }

  lemma JumpSize(x: Site, e: Wasm.Instr, off: nat, h: nat)
    requires IsJump(e) && (e.Br? ==> e.depth < |x.labels|)
    ensures Size(C.CompJump(x.k, x.labels, e, off, h)) > 0
  {
    hide Size, Encode, C.DropKeep, C.TableEntries;
    match e
    case Br(d) =>
      SizeAppend(C.DropKeep(C.Excess(x.labels, d, h), C.LabelAt(x.labels, d).arity), [Op(BR), C.Dest(x.labels, d)]);
      C.PairSize(Op(BR), C.Dest(x.labels, d));
    case BrIf(d) =>
      var jump := C.Jump(x.labels, d, h - 1);
      SizeAppend([Op(BR_UNLESS), Word(off + 5 + Size(jump))], jump);
      C.PairSize(Op(BR_UNLESS), Word(off + 5 + Size(jump)));
    case BrTable(targets, default) =>
      HeadSize(|targets|, off + 14, Word((|targets| + 1) * TABLE_ENTRY_SIZE));
      SizeAppend([Op(BR_TABLE), Word(|targets|), Word(off + 14), Op(DATA), Word((|targets| + 1) * TABLE_ENTRY_SIZE)],
        C.TableEntries(x.labels, targets + [default], h - 1));
    case Return =>
      SizeAppend(C.DropKeep(h - x.k.results, x.k.results), [Op(RETURN)]);
      OpSize(RETURN);
    case Unreachable => OpSize(UNREACHABLE);
  }

  lemma StartOfOther(x: Site, f: nat, at: Places, e: Wasm.Instr, off: nat, ts: seq<Type>)
    requires InstrHere(x, f, at, e, off, ts) && !IsJump(e) && !e.Block? && !e.Loop?
    ensures Goes(at, off, f, x.Height(ts))
  {
    hide SiteOk, Encode, Size, Agrees, C.EndOf, C.CompCode, HeightInCode, Typing.BodyOk, Typing.GenerableCode, Typing.Representable,
      Typing.TypeOperator, Typing.TypeVariable, Typing.TypeCall;
    if e.Nop? {
      NoItems();
    } else {
      OtherSize(x, e, off, ts);
      HeightFirst(x, f, at, e, off, ts);
    }
  }

  lemma OtherSize(x: Site, e: Wasm.Instr, off: nat, ts: seq<Type>)
    requires !IsJump(e) && !e.Block? && !e.Loop? && !e.Nop? && !e.CurrentMemory? && !e.GrowMemory?
    ensures Size(x.Instr(e, off, ts)) > 0
  {
    hide Size, Encode, C.EndOf, C.CompCode;
    if IsOperator(e) {
      OperatorSize(e, x.Height(ts));
    } else if IsVariable(e) {
      VariableSize(e, x.Height(ts));
    } else if e.If? {
      C.IfSize(x.k, x.labels, e, off, x.Height(ts));
    } else if e.Call? {
      C.PairSize(Op(CALL), C.EntryItem(x.k, e.func));
    } else if e.CallIndirect? {
      C.TripleSize(Op(CALL_INDIRECT), Word(0), Word(e.sigIndex));
    } else if e.Const? {
      C.PairSize(Op(ConstOp(e.ty)), Word(e.bits.lo));
      C.TripleSize(Op(ConstOp(e.ty)), Word(e.bits.lo), Word(e.bits.hi));
    } else {
      OpSize(if e.Drop? then DROP else SELECT);
    }
  }

  // ----- blocks -----

  /** The code inside a block or a loop. */
  lemma BlockHere(x: Site, f: nat, at: Places, e: Wasm.Instr, off: nat, ts: seq<Type>) returns (y: Site)
    requires InstrHere(x, f, at, e, off, ts) && (e.Block? || e.Loop?)
    ensures CodeHere(y, f, at, e.body, off, []) && y.env == x.env && y.s == x.s && y.Height([]) == x.Height(ts)
    ensures y.Code(e.body, off, []) == x.Instr(e, off, ts)
    ensures LabelsGo(x, f, at) && Goes(at, off, f, x.Height(ts)) ==> LabelsGo(y, f, at)
  {
    hide SiteOk, CodeOk, InstrOk, Encode, Size, LabelsGo, HeightInCode, Agrees, C.CompCode;
    var operands, h := Zeros(ts), x.Height(ts);
    ZerosTyped(ts);
    var l := BlockInside(x, e, off, ts, operands);
    var t := Typing.Label(e.Loop?, e.sig);
    y := Inner(x, l, t, operands);
    if e.Block? { C.BlockSize(x.k, x.labels, e.body, |e.sig|, off, h); }
    Same(at, f, off, off + Size(x.Instr(e, off, ts)), (p: nat) => HeightInInstr(x.k, x.labels, e, off, x.Height(ts), p),
      (p: nat) => HeightInCode(y.k, y.labels, e.body, off, y.Height([]), p));
    BodyTypes(x, e, e.body, t, ts);
    if LabelsGo(x, f, at) && Goes(at, off, f, h) { InnerGo(x, f, at, l, t, operands); }
  }

  lemma BodyTypes(x: Site, e: Wasm.Instr, body: Wasm.Code, t: Typing.Label, ts: seq<Type>)
    requires InstrOk(x, e, ts) && (e.Block? || e.Loop? || e.If?) && t == Typing.Label(e.Loop?, e.sig)
    requires if e.If? then body == e.thn || body == e.els else body == e.body
    ensures var r := Typing.TypeCode(x.s, x.tls + [t], body, []);
      r.Dead? || r == Typing.Live(e.sig)
    ensures e.If? ==> Typing.TypeInstr(x.s, x.tls, e, ts) == Typing.Live(Typing.Below(ts, 1) + e.sig) && |ts| > 0
    ensures !e.If? ==> Typing.TypeInstr(x.s, x.tls, e, ts) == Typing.Live(ts + e.sig)
  {
    hide Typing.TypeCode, Typing.RepresentableInstr, Typing.Generable;
    assert Typing.BodyOk(x.s, x.tls + [t], body, e.sig);
  }

  lemma InnerGo(x: Site, f: nat, at: Places, l: C.Label, t: Typing.Label, operands: seq<Value>)
    requires LabelsGo(x, f, at) && LabelGoes(at, f, l)
    ensures LabelsGo(Inner(x, l, t, operands), f, at)
  {
    hide LabelGoes;
    var y := Inner(x, l, t, operands);
    forall i | 0 <= i < |y.labels| ensures LabelGoes(at, f, y.labels[i]) {
      if i < |x.labels| { assert LabelGoes(at, f, x.labels[i]); }
    }
  }

  // ----- instructions and their bodies -----

  /** Wherever code is found, every step in it leads to a position with the
      height that the step leaves. */
  lemma CodeFlows(x: Site, f: nat, at: Places, code: Wasm.Code, off: nat, ts: seq<Type>)
    requires CodeHere(x, f, at, code, off, ts) && LabelsGo(x, f, at) && |x.s.results| == ResultCount(x.env.m, f)
    ensures Within(x.env, at, off, off + Size(x.Code(code, off, ts)))
    decreases code, 0
  {
    hide CodeHere, InstrHere, Goes, Typing.TypeInstr, LabelsGo, Within, Size, Encode, C.CompCode, C.CompInstr, ResultCount, Site.Instr, Site.Code;
    if code == Nil {
      NothingWithin(x, at, off, ts);
    } else {
      var t, mid := Typing.TypeInstr(x.s, x.tls, code.head, ts), off + Size(x.Instr(code.head, off, ts));
      SplitHere(x, f, at, code.head, code.tail, off, ts);
      if t.Live? {
        StartOfCode(x, f, at, code.tail, mid, t.types);
        InstrFlows(x, f, at, code.head, off, ts);
        CodeFlows(x, f, at, code.tail, mid, t.types);
        Joined(x.env, at, off, mid, off + Size(x.Code(code, off, ts)));
      } else {
        InstrFlows(x, f, at, code.head, off, ts);
      }
    }
  }

  lemma NothingWithin(x: Site, at: Places, off: nat, ts: seq<Type>)
    ensures Within(x.env, at, off, off + Size(x.Code(Nil, off, ts)))
  {
    NoItems();
  }

  lemma InstrFlows(x: Site, f: nat, at: Places, e: Wasm.Instr, off: nat, ts: seq<Type>)
    requires InstrHere(x, f, at, e, off, ts) && LabelsGo(x, f, at) && |x.s.results| == ResultCount(x.env.m, f)
    ensures Within(x.env, at, off, off + Size(x.Instr(e, off, ts)))
    decreases e, 1
  {
    hide CodeHere, InstrHere, Goes, LabelsGo, Within, ResultCount;
    if e.Block? || e.Loop? {
      var y := BlockHere(x, f, at, e, off, ts);
      StartOfInstr(x, f, at, e, off, ts);
      CodeFlows(y, f, at, e.body, off, []);
    } else if e.If? {
      IfFlows(x, f, at, e, off, ts);
    } else {
      SimpleFlows(x, f, at, e, off, ts);
    }
  }

  lemma SimpleFlows(x: Site, f: nat, at: Places, e: Wasm.Instr, off: nat, ts: seq<Type>)
    requires InstrHere(x, f, at, e, off, ts) && LabelsGo(x, f, at) && |x.s.results| == ResultCount(x.env.m, f)
    requires !e.Block? && !e.Loop? && !e.If?
    ensures Within(x.env, at, off, off + Size(x.Instr(e, off, ts)))
  {
    hide SiteOk, Encode, Size, LabelsGo, Within, ResultCount, Agrees, Goes, C.CompJump, C.CompCall, C.CompPlain, Typing.TypeJump, Typing.TypeCall,
      Typing.TypePlain, C.Delta, HeightInJump, Typing.GenerablePlain;
    var h, end := x.Height(ts), off + Size(x.Instr(e, off, ts));
    SameModule(x);
    if IsJump(e) {
      Same(at, f, off, end, (p: nat) => HeightInInstr(x.k, x.labels, e, off, h, p), (p: nat) => HeightInJump(x.k, x.labels, e, off, h, p));
      if e.BrIf? { GoesOn(x, e, ts); }
      JumpFlow(x, f, at, e, off, ts);
    } else {
      Same(at, f, off, end, (p: nat) => HeightInInstr(x.k, x.labels, e, off, h, p), (p: nat) => if p == off then Some(h) else None);
      GoesOn(x, e, ts);
      if IsCall(e) {
        CallFlow(x, f, at, e, off, ts);
      } else {
        PlainFlow(x, f, at, e, off, ts);
      }
    }
  }

  /** An instruction that goes on to the next one changes the height as the
      compiler says. */
  lemma GoesOn(x: Site, e: Wasm.Instr, ts: seq<Type>)
    requires InstrOk(x, e, ts) && (IsJump(e) ==> e.BrIf?)
    ensures Typing.TypeInstr(x.s, x.tls, e, ts).Live? && x.Height(Typing.TypeInstr(x.s, x.tls, e, ts).types) == x.Height(ts) + C.Delta(x.s.m, e)
    ensures e.BrIf? ==> C.Delta(x.s.m, e) == -1
    ensures IsCall(e) ==> Typing.TypeCall(x.s, e, ts).Live? && (e.CallIndirect? ==> ts != [])
    ensures IsPlain(e) ==> Typing.TypePlain(x.s, e, ts).Live? && !e.CurrentMemory? && !e.GrowMemory?
  {
    hide Typing.BodyOk, Typing.TypeCode, Typing.TypeOperator, Typing.TypeVariable, Typing.GenerableCode, Typing.Representable, Typing.BranchOk, Typing.EndsWith;
    if IsPlain(e) { H.PlainLive(x.s, e, ts); }
    H.DeltaIsTyped(x.s, x.tls, e, ts);
  }

  // ----- both arms of an `if` -----

  /** The heights in an `if`, piece by piece. */
  ghost predicate IfAgrees(y: Site, f: nat, at: Places, e: Wasm.Instr, off: nat, mid: nat, end: nat, h: int)
    requires e.If?
  {
    var thn := off + 5 + Size(y.Code(e.thn, off + 5, []));
    && Agrees(at, f, off, off + 5, (p: nat) => if p == off then Some(h) else None)
    && Agrees(at, f, off + 5, thn, (p: nat) => HeightInCode(y.k, y.labels, e.thn, off + 5, h - 1, p))
    && (e.hasElse ==>
      && Agrees(at, f, thn, mid, (p: nat) => if p == thn then Some(h - 1 + |e.sig|) else None)
      && Agrees(at, f, mid, end, (p: nat) => HeightInCode(y.k, y.labels, e.els, mid, h - 1, p)))
  }

  lemma IfPieces(x: Site, f: nat, at: Places, e: Wasm.Instr, off: nat, h: int, y: Site, mid: nat, end: nat)
    requires e.If? && Agrees(at, f, off, end, (p: nat) => HeightInInstr(x.k, x.labels, e, off, h, p))
    requires y.k == x.k && y.labels == x.labels + [C.ClosedLabel(h - 1, |e.sig|, end)] && end == C.EndOfIf(x.k, x.labels, e, off, h)
    requires var thn := off + 5 + Size(y.Code(e.thn, off + 5, []));
      if e.hasElse then mid == thn + 5 == C.ElseOf(x.k, x.labels, e, off, h) && mid <= end else end == thn
    ensures IfAgrees(y, f, at, e, off, mid, end, h)
  {
    hide Size, HeightInCode, C.EndOfIf, C.ElseOf, C.CompCode, HeightInInstr, Agrees;
    var thn := off + 5 + Size(y.Code(e.thn, off + 5, []));
    IfHeights(x.k, x.labels, e, off, h);
    Part(at, f, off, end, (p: nat) => HeightInInstr(x.k, x.labels, e, off, h, p), off, off + 5, (p: nat) => if p == off then Some(h) else None);
    Part(at, f, off, end, (p: nat) => HeightInInstr(x.k, x.labels, e, off, h, p), off + 5, thn,
      (p: nat) => HeightInCode(y.k, y.labels, e.thn, off + 5, h - 1, p));
    if e.hasElse {
      Part(at, f, off, end, (p: nat) => HeightInInstr(x.k, x.labels, e, off, h, p), thn, mid,
        (p: nat) => if p == thn then Some(h - 1 + |e.sig|) else None);
      Part(at, f, off, end, (p: nat) => HeightInInstr(x.k, x.labels, e, off, h, p), mid, end,
        (p: nat) => HeightInCode(y.k, y.labels, e.els, mid, h - 1, p));
    }
  }

  lemma IfHeights(k: C.Context, labels: seq<C.Label>, e: Wasm.Instr, off: nat, h: int)
    requires e.If?
    ensures var end, mid := C.EndOfIf(k, labels, e, off, h), C.ElseOf(k, labels, e, off, h);
      var inner := labels + [C.ClosedLabel(h - 1, |e.sig|, end)];
      forall p: nat :: HeightInInstr(k, labels, e, off, h, p) ==
        if p == off then Some(h)
        else if p < off + 5 then None
        else if !e.hasElse || p < mid - 5 then HeightInCode(k, inner, e.thn, off + 5, h - 1, p)
        else if p == mid - 5 then Some(h - 1 + |e.sig|)
        else if p < mid then None
        else HeightInCode(k, inner, e.els, mid, h - 1, p)
  {
    hide HeightInCode, C.EndOfIf, C.ElseOf;
  }

  lemma Part(at: Places, f: nat, lo: nat, hi: nat, g: nat -> Option<int>, lo': nat, hi': nat, h: nat -> Option<int>)
    requires Agrees(at, f, lo, hi, g) && lo <= lo' && hi' <= hi && forall p: nat :: lo' <= p < hi' ==> g(p) == h(p)
    ensures Agrees(at, f, lo', hi', h)
  {}

  /** The code inside the arms of an `if`. */
  lemma IfHere(x: Site, f: nat, at: Places, e: Wasm.Instr, off: nat, ts: seq<Type>) returns (y: Site, mid: nat)
    requires InstrHere(x, f, at, e, off, ts) && e.If?
    ensures y.env == x.env && y.s == x.s && y.Height([]) == x.Height(ts) - 1 && (!e.hasElse ==> e.sig == [])
    ensures var h, end := x.Height(ts), off + Size(x.Instr(e, off, ts));
      && end < INVALID && Goes(at, end, f, h - 1 + |e.sig|)
      && IfCode(x.env.istream, off, e.hasElse, mid, end, y.Code(e.thn, off + 5, []), y.Code(e.els, mid, []))
      && mid < INVALID && IfAgrees(y, f, at, e, off, mid, end, h)
    ensures CodeHere(y, f, at, e.thn, off + 5, []) && (e.hasElse ==> CodeHere(y, f, at, e.els, mid, []))
    ensures LabelsGo(x, f, at) ==> LabelsGo(y, f, at)
  {
    hide SiteOk, CodeOk, InstrOk, Encode, Size, LabelsGo, HeightInInstr, Agrees, C.CompCode, C.CompInstr, Typing.TypeCode, Typing.TypeInstr,
      IfAgrees, CodeHere;
    var t, h, end := Typing.Label(false, e.sig), x.Height(ts), off + Size(x.Instr(e, off, ts));
    BodyTypes(x, e, e.thn, t, ts);
    BodyTypes(x, e, e.els, t, ts);
    var operands := Zeros(Typing.Below(ts, 1));
    ZerosTyped(Typing.Below(ts, 1));
    var l;
    l, mid := IfInside(x, e, off, ts, operands);
    y := Inner(x, l, t, operands);
    IfCodeEnd(x, e, off, h);
    IfPieces(x, f, at, e, off, h, y, mid, end);
    if !e.hasElse { NoElse(x, e, t); }
    ArmsHere(y, f, at, e, off, mid, end, h);
    if LabelsGo(x, f, at) { InnerGo(x, f, at, l, t, operands); }
  }

  lemma NoElse(x: Site, e: Wasm.Instr, t: Typing.Label)
    requires e.If? && e.els == Nil
    requires var r := Typing.TypeCode(x.s, x.tls + [t], e.els, []);
      r.Dead? || r == Typing.Live(e.sig)
    ensures e.sig == []
  {}

  lemma IfCodeEnd(x: Site, e: Wasm.Instr, off: nat, h: int)
    requires e.If?
    ensures var end := C.EndOfIf(x.k, x.labels, e, off, h);
      && off + Size(C.CompInstr(x.k, x.labels, e, off, h)) == end
      && C.ElseOf(x.k, x.labels, e, off, h)
        == off + 5 + Size(C.CompCode(x.k, x.labels + [C.ClosedLabel(h - 1, |e.sig|, end)], e.thn, off + 5, h - 1)) + 5
  {
    hide C.CompCode, Size, C.CompIf;
    C.IfEnd(x.k, x.labels, e, off, h);
  }

  lemma ArmsHere(y: Site, f: nat, at: Places, e: Wasm.Instr, off: nat, mid: nat, end: nat, h: int)
    requires e.If? && SiteOk(y) && CodeOk(y, e.thn, []) && CodeOk(y, e.els, []) && y.Height([]) == h - 1
    requires IfCode(y.env.istream, off, e.hasElse, mid, end, y.Code(e.thn, off + 5, []), y.Code(e.els, mid, []))
    requires IfAgrees(y, f, at, e, off, mid, end, h) && Goes(at, end, f, h - 1 + |e.sig|)
    requires var r := Typing.TypeCode(y.s, y.tls, e.thn, []);
      r.Dead? || r == Typing.Live(e.sig)
    requires var r := Typing.TypeCode(y.s, y.tls, e.els, []);
      r.Dead? || r == Typing.Live(e.sig)
    ensures CodeHere(y, f, at, e.thn, off + 5, []) && (e.hasElse ==> CodeHere(y, f, at, e.els, mid, []))
  {
    hide SiteOk, CodeOk, Encode, Size, HeightInCode, C.CompCode, Typing.TypeCode, ItemsAt;
    if e.hasElse { assert at(mid - 5) == Some(Place(f, h - 1 + |e.sig|)); }
  }

  lemma IfFlows(x: Site, f: nat, at: Places, e: Wasm.Instr, off: nat, ts: seq<Type>)
    requires InstrHere(x, f, at, e, off, ts) && LabelsGo(x, f, at) && |x.s.results| == ResultCount(x.env.m, f) && e.If?
    ensures Within(x.env, at, off, off + Size(x.Instr(e, off, ts)))
    decreases e, 0
  {
    hide CodeHere, InstrHere, Goes, LabelsGo, Within, ResultCount, Encode, Size, C.CompInstr, C.CompCode, Agrees, HeightInCode, FlowsAt, ItemsAt;
    var y, mid := IfHere(x, f, at, e, off, ts);
    var h, end, thn := x.Height(ts), off + Size(x.Instr(e, off, ts)), off + 5 + Size(y.Code(e.thn, off + 5, []));
    StartOfCode(y, f, at, e.thn, off + 5, []);
    CodeFlows(y, f, at, e.thn, off + 5, []);
    if e.hasElse {
      StartOfCode(y, f, at, e.els, mid, []);
      CodeFlows(y, f, at, e.els, mid, []);
      BrFlow(x.env, at, f, thn, h - 1 + |e.sig|, end);
      OnlyFirst(x.env, at, f, thn, 5, h - 1 + |e.sig|);
      Joined(x.env, at, thn, mid, end);
    } else {
      Empty(x.env, at, end);
    }
    UnlessFlow(x.env, at, f, off, h, mid);
    OnlyFirst(x.env, at, f, off, 5, h);
    Joined(x.env, at, off, off + 5, thn);
    Joined(x.env, at, off, thn, end);
  }

  // ----- functions -----

  /** The frame the body of a function is looked at in, when nothing runs. */
  function NoFrame(env: Env): Frame { Frame(0, [], 0, seq(env.returnDepth, _ => 0)) }

  /** The heights in a function, piece by piece. */
  ghost predicate FuncAgrees(env: Env, start: nat, f: nat, at: Places, entry: nat, body: nat, end: nat, next: nat)
    requires ModuleOk(env.m) && f < |env.m.funcs|
  {
    var m, n, locals := env.m, |SigOf(env.m, f).results|, |FrameTypes(env.m, f)|;
    && Agrees(at, f, entry, body, (p: nat) => if p == entry then Some(|SigOf(m, f).params|) else None)
    && Agrees(at, f, body, end, (p: nat) => HeightInCode(C.Context(m, C.Known(m, |m.funcs|, start), n), [C.ClosedLabel(locals, n, end)],
         m.funcs[f].body, body, locals, p))
    && Agrees(at, f, end, next, (p: nat) => HeightInReturn(n, end, locals + n, p))
  }

  lemma FuncPieces(env: Env, start: nat, f: nat, at: Places, entry: nat, body: nat, end: nat, next: nat)
    requires ModuleOk(env.m) && f < |env.m.funcs| && entry <= body <= end <= next
    requires var m, n, locals := env.m, |SigOf(env.m, f).results|, |FrameTypes(env.m, f)|;
      && body == entry + Size(C.Prologue(m, f))
      && end == C.EndOf(C.Context(m, C.Known(m, |m.funcs|, start), n), [], m.funcs[f].body, n, body, locals)
      && Agrees(at, f, entry, next, (p: nat) => HeightInFunc(m, C.Known(m, |m.funcs|, start), f, entry, p))
    ensures FuncAgrees(env, start, f, at, entry, body, end, next)
  {
    hide Size, C.Prologue, C.EndOf, HeightInCode, HeightInReturn, Agrees, Expand;
    var m, n, locals := env.m, |SigOf(env.m, f).results|, |FrameTypes(env.m, f)|;
    Part(at, f, entry, next, (p: nat) => HeightInFunc(m, C.Known(m, |m.funcs|, start), f, entry, p), entry, body,
      (p: nat) => if p == entry then Some(|SigOf(m, f).params|) else None);
    Part(at, f, entry, next, (p: nat) => HeightInFunc(m, C.Known(m, |m.funcs|, start), f, entry, p), body, end,
      (p: nat) => HeightInCode(C.Context(m, C.Known(m, |m.funcs|, start), n), [C.ClosedLabel(locals, n, end)], m.funcs[f].body, body, locals, p));
    Part(at, f, entry, next, (p: nat) => HeightInFunc(m, C.Known(m, |m.funcs|, start), f, entry, p), end, next,
      (p: nat) => HeightInReturn(n, end, locals + n, p));
  }

  /** Where the pieces of a function are. */
  lemma FuncLayout(env: Env, start: nat, f: nat) returns (body: nat, end: nat)
    requires Loaded(env, start) && f < |env.m.funcs|
    ensures ModuleOk(env.m) && f < |env.entries| && env.entries[f] == C.EntryOf(env.m, f, start)
    ensures var m, n, h := env.m, |SigOf(env.m, f).results|, |FrameTypes(env.m, f)|;
      && env.entries[f] <= body <= end
      && body == env.entries[f] + Size(C.Prologue(m, f)) && ItemsAt(env.istream, env.entries[f], C.Prologue(m, f))
      && end == C.EndOf(C.Context(m, C.Known(m, |m.funcs|, start), n), [], m.funcs[f].body, n, body, h)
      && var x := BodySite(env, start, f, end, NoFrame(env));
      && SiteOk(x) && CodeOk(x, m.funcs[f].body, []) && n <= 1
      && x.Height([]) == h && ItemsAt(env.istream, body, x.Code(m.funcs[f].body, body, []))
      && body + Size(x.Code(m.funcs[f].body, body, [])) == end
      && ItemsAt(env.istream, end, C.DropKeep(h, n) + [Op(RETURN)])
      && C.EntryOf(m, f + 1, start) == end + Size(C.DropKeep(h, n) + [Op(RETURN)])
      && Typing.BodyOk(x.s, x.tls, m.funcs[f].body, x.s.results)
  {
    hide Size, Encode, C.CompCode, C.CompBlock, C.Prologue, C.DropKeep, Expand, Typing.TypeCode, Typing.GenerableCode, Typing.Representable,
      Loaded, SiteOk, CodeOk, C.EndOf;
    body, end := FuncInside(env, start, f, NoFrame(env));
    LoadedFunc(env, start, f);
    var m, n, h, code := env.m, |SigOf(env.m, f).results|, |FrameTypes(env.m, f)|, env.m.funcs[f].body;
    var k, pro, epilogue := C.Context(m, C.Known(m, |m.funcs|, start), n), C.Prologue(m, f), C.DropKeep(h, n) + [Op(RETURN)];
    EndIs(k, code, n, body, h, end);
    C.BlockSize(k, [], code, n, body, h);
    C.NextEntryOf(m, |m.funcs|, f, start);
    SizeAppend(pro + C.CompBlock(k, [], code, n, body, h), epilogue);
    SizeAppend(pro, C.CompBlock(k, [], code, n, body, h));
  }

  lemma EndIs(k: C.Context, code: Wasm.Code, n: nat, body: nat, h: nat, end: nat)
    requires body + Size(C.CompCode(k, [C.ClosedLabel(h, n, end)], code, body, h)) == end
    ensures end == C.EndOf(k, [], code, n, body, h)
  {
    hide Size, C.CompCode;
    C.CloseLast(k, [], code, n, body, h, end);
    assert [] + [C.ClosedLabel(h, n, end)] == [C.ClosedLabel(h, n, end)];
  }

  /** One function, from its entry to the next. */
  lemma FuncFlows(env: Env, start: nat, f: nat, at: Places)
    requires Loaded(env, start) && f < |env.m.funcs|
    requires Agrees(at, f, C.EntryOf(env.m, f, start), C.EntryOf(env.m, f + 1, start),
      (p: nat) => HeightInFunc(env.m, C.Known(env.m, |env.m.funcs|, start), f, C.EntryOf(env.m, f, start), p))
    ensures Within(env, at, C.EntryOf(env.m, f, start), C.EntryOf(env.m, f + 1, start))
    ensures Goes(at, C.EntryOf(env.m, f, start), f, Params(env.m, f))
  {
    hide Size, Encode, Loaded, SiteOk, CodeOk, Agrees, Within, Goes, C.EntryOf, C.Prologue, C.DropKeep, C.EndOf, HeightInFunc, Site.Code, ItemsAt,
      Expand, FuncAgrees, Typing.BodyOk, CodeHere, LabelsGo;
    var body, end := FuncLayout(env, start, f);
    var entry, next := C.EntryOf(env.m, f, start), C.EntryOf(env.m, f + 1, start);
    var x, code := BodySite(env, start, f, end, NoFrame(env)), env.m.funcs[f].body;
    FuncPieces(env, start, f, at, entry, body, end, next);
    BodyHere(env, start, f, at, entry, body, end, next);
    StartOfCode(x, f, at, code, body, []);
    CodeFlows(x, f, at, code, body, []);
    EpilogueFlow(env, start, f, at, entry, body, end, next);
    PrologueFlow(env, start, f, at, entry, body, end, next);
    Joined(env, at, entry, body, end);
    Joined(env, at, entry, end, next);
  }

  lemma BodyHere(env: Env, start: nat, f: nat, at: Places, entry: nat, body: nat, end: nat, next: nat)
    requires ModuleOk(env.m) && f < |env.m.funcs| && FuncAgrees(env, start, f, at, entry, body, end, next) && |SigOf(env.m, f).results| <= 1
    requires next == end + Size(C.DropKeep(|FrameTypes(env.m, f)|, |SigOf(env.m, f).results|) + [Op(RETURN)])
    requires var x, code := BodySite(env, start, f, end, NoFrame(env)), env.m.funcs[f].body;
      && SiteOk(x) && CodeOk(x, code, []) && Typing.BodyOk(x.s, x.tls, code, x.s.results)
      && ItemsAt(env.istream, body, x.Code(code, body, [])) && body + Size(x.Code(code, body, [])) == end
    ensures var x, code := BodySite(env, start, f, end, NoFrame(env)), env.m.funcs[f].body;
      CodeHere(x, f, at, code, body, []) && LabelsGo(x, f, at)
  {
    hide Size, Encode, SiteOk, CodeOk, HeightInCode, C.CompCode, Typing.TypeCode, ItemsAt, Expand, C.DropKeep;
    var n, locals := |SigOf(env.m, f).results|, |FrameTypes(env.m, f)|;
    SizeAppend(C.DropKeep(locals, n), [Op(RETURN)]);
    OpSize(RETURN);
    DropKeepSize(locals, n);
    assert at(end) == Lift(f, HeightInReturn(n, end, locals + n, end));
  }

  lemma EpilogueFlow(env: Env, start: nat, f: nat, at: Places, entry: nat, body: nat, end: nat, next: nat)
    requires ModuleOk(env.m) && f < |env.m.funcs| && FuncAgrees(env, start, f, at, entry, body, end, next)
    requires |SigOf(env.m, f).results| <= 1
    requires var items := C.DropKeep(|FrameTypes(env.m, f)|, |SigOf(env.m, f).results|) + [Op(RETURN)];
      ItemsAt(env.istream, end, items) && next == end + Size(items)
    ensures Within(env, at, end, next)
  {
    hide Size, Encode, Within, C.DropKeep, Agrees, HeightInReturn, HeightInCode, Expand, ItemsAt;
    var n, locals := |SigOf(env.m, f).results|, |FrameTypes(env.m, f)|;
    ReturnFlow(env, at, f, n, end, locals + n);
  }

  lemma PrologueFlow(env: Env, start: nat, f: nat, at: Places, entry: nat, body: nat, end: nat, next: nat)
    requires Loaded(env, start) && ModuleOk(env.m) && f < |env.m.funcs| && FuncAgrees(env, start, f, at, entry, body, end, next)
    requires ItemsAt(env.istream, entry, C.Prologue(env.m, f)) && body == entry + Size(C.Prologue(env.m, f))
    requires Goes(at, body, f, |FrameTypes(env.m, f)|)
    ensures Within(env, at, entry, body) && Goes(at, entry, f, Params(env.m, f))
  {
    hide Encode, Size, Flows, FlowsAt, WordAt, Expand, HeightInCode, HeightInReturn, Loaded;
    var decls, params := env.m.funcs[f].decls, |SigOf(env.m, f).params|;
    if decls == [] {
      NoItems();
      NoDecls();
    } else {
      C.PairSize(Op(ALLOCA), Word(|Expand(decls)|));
      LocalsFit(env, start, f);
      ReadOpWord(env.istream, entry, ALLOCA, |Expand(decls)|);
      Straight(env, at, entry, f, params, ALLOCA);
      OnlyFirst(env, at, f, entry, 5, params);
      assert at(entry) == Some(Place(f, params));
    }
  }

  lemma LocalsFit(env: Env, start: nat, f: nat)
    requires Loaded(env, start) && f < |env.m.funcs|
    ensures |Expand(env.m.funcs[f].decls)| < 0x1_0000_0000
  {}

  // ----- modules -----

  /** The heights of all positions of the code of a module. */
  function PlacesOf(m: Module, start: nat): Places
    requires ModuleOk(m)
  {
    (p: nat) => HeightAt(m, start, p)
  }

  /** A position between the entries of f and its successor belongs to f. */
  lemma {:induction false} FuncAtIs(m: Module, f: nat, n: nat, start: nat, p: nat)
    requires ModuleOk(m) && f < n <= |m.funcs| && C.EntryOf(m, f, start) <= p < C.EntryOf(m, f + 1, start)
    ensures FuncAt(m, n, start, p) == Some(f)
    decreases n
  {
    hide C.EntryOf;
    if f < n - 1 {
      EntriesAscend(m, f + 1, n - 1, start);
      FuncAtIs(m, f, n - 1, start, p);
    }
  }

  lemma EntriesAscend(m: Module, f: nat, n: nat, start: nat)
    requires ModuleOk(m) && f <= n <= |m.funcs|
    ensures C.EntryOf(m, f, start) <= C.EntryOf(m, n, start)
  {
    hide Size, C.CompFunc, C.CompFuncs;
    if f < n { C.EntriesGrow(m, f, n, start); }
  }

  /** A position with a height lies in its function. */
  lemma PlaceInside(env: Env, start: nat, p: nat)
    requires Loaded(env, start) && HeightAt(env.m, start, p).Some?
    ensures var f := HeightAt(env.m, start, p).value.func;
      f < |env.m.funcs| && C.EntryOf(env.m, f, start) <= p < C.EntryOf(env.m, f + 1, start)
  {
    hide Size, Encode, Loaded, SiteOk, CodeOk, C.EntryOf, C.Prologue, C.DropKeep, C.EndOf, Site.Code, ItemsAt, Expand, Typing.BodyOk, HeightInCode;
    LoadedModule(env, start);
    var f := HeightAt(env.m, start, p).value.func;
    var body, end := FuncLayout(env, start, f);
    SizeAppend(C.DropKeep(|FrameTypes(env.m, f)|, |SigOf(env.m, f).results|), [Op(RETURN)]);
    OpSize(RETURN);
  }

  lemma FuncAgreed(m: Module, start: nat, f: nat)
    requires ModuleOk(m) && f < |m.funcs|
    ensures Agrees(PlacesOf(m, start), f, C.EntryOf(m, f, start), C.EntryOf(m, f + 1, start),
      (p: nat) => HeightInFunc(m, C.Known(m, |m.funcs|, start), f, C.EntryOf(m, f, start), p))
  {
    hide HeightInFunc, C.EntryOf, FuncAt;
    forall p: nat | C.EntryOf(m, f, start) <= p < C.EntryOf(m, f + 1, start)
      ensures PlacesOf(m, start)(p) == Lift(f, HeightInFunc(m, C.Known(m, |m.funcs|, start), f, C.EntryOf(m, f, start), p))
    {
      FuncAtIs(m, f, |m.funcs|, start, p);
    }
  }

  /** Every step of the code of a loaded module leads to a position with the
      height that the step leaves. */
  lemma LoadedFlows(env: Env, start: nat)
    requires Loaded(env, start)
    ensures ModuleOk(env.m) && AllFlow(env, PlacesOf(env.m, start))
  {
    hide Size, Encode, Loaded, C.EntryOf, HeightInFunc, Agrees, PlaceOk, HeightAt, Goes;
    LoadedModule(env, start);
    var at := PlacesOf(env.m, start);
    forall g | 0 <= g < |env.entries| ensures Goes(at, env.entries[g], g, Params(env.m, g)) {
      LoadedEntry(env, start, g);
      FuncAgreed(env.m, start, g);
      FuncFlows(env, start, g, at);
    }
    forall p: nat ensures PlaceOk(env, at, p) {
      if at(p).Some? {
        var f := HeightAt(env.m, start, p).value.func;
        PlaceInside(env, start, p);
        FuncAgreed(env.m, start, f);
        FuncFlows(env, start, f, at);
      } else {
        NoPlace(env, at, p);
      }
    }
  }

  lemma NoPlace(env: Env, at: Places, p: nat)
    requires at(p) == None
    ensures PlaceOk(env, at, p)
  {}

  lemma LoadedModule(env: Env, start: nat)
    requires Loaded(env, start)
    ensures ModuleOk(env.m)
  {}

  lemma LoadedEntry(env: Env, start: nat, g: nat)
    requires Loaded(env, start) && g < |env.entries|
    ensures g < |env.m.funcs| && env.entries[g] == C.EntryOf(env.m, g, start)
  {
    hide C.EntryOf;
  }

  // ----- runs -----

  /** At every moment of every run of generated code, however deep its calls are,
      the value stack is exactly as high as the code generator had it when it
      emitted the instruction that comes next, above the frames of the calls
      that have not returned. */
  lemma HeightOfRun(env: Env, start: nat, f: nat, n: nat, args: seq<Value>, store: Semantics.Store, mc: Machine, fr: Frame)
    requires Correctness.Starts(env, start, f, args, store, mc, fr) && Run(env, mc, n).Running?
    ensures ModuleOk(env.m) && Level(env, PlacesOf(env.m, start), fr.base, Run(env, mc, n).machine)
  {
    hide Run, Loaded, AllFlow, Level, PlacesOf, At;
    LoadedFlows(env, start);
    AtEntry(env, start, f, args, store, mc, fr);
    RunLevel(env, PlacesOf(env.m, start), fr.base, mc, n);
  }

  lemma AtEntry(env: Env, start: nat, f: nat, args: seq<Value>, store: Semantics.Store, mc: Machine, fr: Frame)
    requires Correctness.Starts(env, start, f, args, store, mc, fr) && AllFlow(env, PlacesOf(env.m, start))
    ensures Level(env, PlacesOf(env.m, start), fr.base, mc)
  {
    hide Loaded, PlacesOf, Flows;
    LoadedModule(env, start);
    assert Goes(PlacesOf(env.m, start), env.entries[f], f, Params(env.m, f));
  }
}
