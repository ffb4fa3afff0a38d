/** What single steps of the interpreter do to the values of the running
    function, when the bytes at its program counter are those of a symbolic
    instruction. */
module Steps {
  import opened Wasm
  import opened Assembly
  import opened Semantics
  import opened Machine
  import M = Machine
  import C = Compile

  /** What a running function must leave alone: the cells below its parameters
      and the return addresses of its callers. */
  datatype Frame = Frame(base: nat, below: seq<Bits>, size: nat, calls: seq<nat>)

  /** The cell shows the value when read through the value's type. */
  predicate Shows(b: Bits, v: Value) { v.bits == Canon(v.ty, b) }

  predicate Holds(cells: seq<Bits>, base: nat, vs: seq<Value>) {
    base + |vs| <= |cells| && forall i :: 0 <= i < |vs| ==> Shows(cells[base + i], vs[i])
  }

  predicate StoreHeld(mc: Machine, store: Semantics.Store) {
    && mc.mem == store.mem && |mc.globals| == |store.globals|
    && forall i :: 0 <= i < |store.globals| ==> Shows(mc.globals[i], store.globals[i])
  }

  /** The machine is at `pc`; the values of the running function, bottom to top,
      are `vs`. */
  ghost predicate At(mc: Machine, pc: nat, fr: Frame, vs: seq<Value>, store: Semantics.Store) {
    && mc.pc == pc && mc.top == fr.base + |vs| && mc.calls == fr.calls && |mc.cells| == fr.size
    && fr.base <= |mc.cells| && mc.cells[..fr.base] == fr.below
    && Holds(mc.cells, fr.base, vs) && StoreHeld(mc, store)
  }

  ghost predicate Exhausted(c: Conf) { c == Stopped(ValueStackExhausted) }

  /** There is no room for the return addresses of the frame. */
  ghost predicate TooDeep(env: Env, fr: Frame, c: Conf) { c == Stopped(CallStackExhausted) && |fr.calls| > env.callLimit }

  /** The step leads to the given values at `pc`, or the value stack is exhausted. */
  ghost predicate Leads(c: Conf, pc: nat, fr: Frame, vs: seq<Value>, store: Semantics.Store) {
    Exhausted(c) || (c.Running? && At(c.machine, pc, fr, vs, store))
  }

  /** The machine has not touched what the frame protects. */
  ghost predicate Keeps(mc: Machine, fr: Frame) {
    && fr.base <= mc.top && fr.base <= |mc.cells| == fr.size && mc.cells[..fr.base] == fr.below
    && |fr.calls| <= |mc.calls| && mc.calls[..|fr.calls|] == fr.calls
  }

  /** Not at any time during n steps. */
  ghost predicate Stays(env: Env, mc: Machine, n: nat, fr: Frame) {
    forall k :: 0 <= k <= n && Run(env, mc, k).Running? ==> Keeps(Run(env, mc, k).machine, fr)
  }

  lemma AtKeeps(mc: Machine, pc: nat, fr: Frame, vs: seq<Value>, store: Semantics.Store)
    requires At(mc, pc, fr, vs, store)
    ensures Keeps(mc, fr)
  {}

  lemma StaysNone(env: Env, mc: Machine, fr: Frame)
    requires Keeps(mc, fr)
    ensures Run(env, mc, 0) == Running(mc) && Stays(env, mc, 0, fr)
  {
    hide Keeps;
  }

  lemma StaysOne(env: Env, mc: Machine, fr: Frame)
    requires Keeps(mc, fr) && (Step(env, mc).Running? ==> Keeps(Step(env, mc).machine, fr))
    ensures Run(env, mc, 1) == Step(env, mc) && Stays(env, mc, 1, fr)
  {
    hide Keeps, Step, Run;
    StaysNone(env, mc, fr);
    RunOne(env, mc);
    forall k | 0 <= k <= 1 && Run(env, mc, k).Running? ensures Keeps(Run(env, mc, k).machine, fr) {
      if k != 0 { assert k == 1; }
    }
  }

  lemma StepStays(env: Env, mc: Machine, pc: nat, fr: Frame, vs: seq<Value>, store: Semantics.Store,
      pc': nat, vs': seq<Value>, store': Semantics.Store)
    requires At(mc, pc, fr, vs, store) && Leads(Step(env, mc), pc', fr, vs', store')
    ensures Run(env, mc, 1) == Step(env, mc) && Stays(env, mc, 1, fr)
  {
    hide At, Keeps, Step, Run, Stays;
    AtKeeps(mc, pc, fr, vs, store);
    if Step(env, mc).Running? { AtKeeps(Step(env, mc).machine, pc', fr, vs', store'); }
    StaysOne(env, mc, fr);
  }

  lemma StaysAdd(env: Env, mc: Machine, n: nat, k: nat, fr: Frame)
    requires Run(env, mc, n).Running? && Stays(env, mc, n, fr) && Stays(env, Run(env, mc, n).machine, k, fr)
    ensures Stays(env, mc, n + k, fr) && Run(env, mc, n + k) == Run(env, Run(env, mc, n).machine, k)
  {
    hide Keeps, Run;
    RunAdd(env, mc, n, k);
    forall j | 0 <= j <= n + k && Run(env, mc, j).Running? ensures Keeps(Run(env, mc, j).machine, fr) {
      if j > n {
        RunAdd(env, mc, n, j - n);
        assert Run(env, mc, j) == Run(env, Run(env, mc, n).machine, j - n);
      }
    }
  }

  // ----- reading instructions -----

  lemma ReadOp(s: seq<u8>, pc: nat, op: u8)
    requires ItemsAt(s, pc, [Op(op)])
    ensures pc < |s| && s[pc] == op
  {
    hide Encode;
    assert [Op(op)] == [Op(op)] + [];
    HeadAt(s, pc, Op(op), []);
    assert s[pc..pc + 1][0] == s[pc];
  }

  lemma ReadHead(s: seq<u8>, pc: nat, op: u8, rest: seq<Item>)
    requires ItemsAt(s, pc, [Op(op)] + rest)
    ensures pc < |s| && s[pc] == op && ItemsAt(s, pc + 1, rest)
  {
    hide Encode;
    HeadAt(s, pc, Op(op), rest);
    assert s[pc..pc + 1][0] == s[pc];
  }

  lemma ReadWord(s: seq<u8>, pc: nat, w: u32, rest: seq<Item>)
    requires ItemsAt(s, pc, [Word(w)] + rest)
    ensures pc + 4 <= |s| && WordAt(s, pc) == w && ItemsAt(s, pc + 4, rest)
  {
    HeadAt(s, pc, Word(w), rest);
    WordItem(s, pc, w);
  }

  lemma ReadOpWord(s: seq<u8>, pc: nat, op: u8, w: u32)
    requires ItemsAt(s, pc, [Op(op), Word(w)])
    ensures pc + 5 <= |s| && s[pc] == op && WordAt(s, pc + 1) == w && Size([Op(op), Word(w)]) == 5
  {
    hide WordAt, Encode, Bytes, Size;
    C.PairSize(Op(op), Word(w));
    assert [Op(op), Word(w)] == [Op(op)] + ([Word(w)] + []);
    ReadHead(s, pc, op, [Word(w)] + []);
    ReadWord(s, pc + 1, w, []);
  }

  lemma ReadOpWords(s: seq<u8>, pc: nat, op: u8, v: u32, w: u32, rest: seq<Item>)
    requires ItemsAt(s, pc, [Op(op), Word(v), Word(w)] + rest)
    ensures pc + 9 <= |s| && s[pc] == op && WordAt(s, pc + 1) == v && WordAt(s, pc + 5) == w
    ensures ItemsAt(s, pc + 9, rest) && Size([Op(op), Word(v), Word(w)]) == 9
  {
    hide WordAt, Encode, Bytes, Size;
    C.TripleSize(Op(op), Word(v), Word(w));
    assert [Op(op), Word(v), Word(w)] + rest == [Op(op)] + ([Word(v)] + ([Word(w)] + rest));
    ReadHead(s, pc, op, [Word(v)] + ([Word(w)] + rest));
    ReadWord(s, pc + 1, v, [Word(w)] + rest);
    ReadWord(s, pc + 5, w, rest);
  }

  lemma ReadOpWordOp(s: seq<u8>, pc: nat, op: u8, w: u32, b: u8)
    requires ItemsAt(s, pc, [Op(op), Word(w), Op(b)])
    ensures pc + 6 <= |s| && s[pc] == op && WordAt(s, pc + 1) == w && s[pc + 5] == b && Size([Op(op), Word(w), Op(b)]) == 6
  {
    hide WordAt, Encode, Bytes, Size;
    C.TripleSize(Op(op), Word(w), Op(b));
    assert [Op(op), Word(w), Op(b)] == [Op(op)] + ([Word(w)] + [Op(b)]);
    ReadHead(s, pc, op, [Word(w)] + [Op(b)]);
    ReadWord(s, pc + 1, w, [Op(b)]);
    ReadOp(s, pc + 5, b);
  }

  lemma StepIs(env: Env, mc: Machine, op: u8)
    requires mc.pc < |env.istream| && env.istream[mc.pc] == op && mc.pc + 1 + ImmediateSize(op) <= |env.istream|
    ensures Step(env, mc) == Exec(env, op, mc.pc + 1, mc.(pc := mc.pc + 1 + ImmediateSize(op)))
  {
    hide Exec;
  }

  // ----- what cells show -----

  lemma Overwritten(t: Type, b: Bits, cell: Bits)
    ensures Shows(Overwrite(t, b, cell), Value(t, Canon(t, b)))
  {}

  /** Writing at the top keeps what is below and shows the new value. */
  lemma Pushed(mc: Machine, pc: nat, fr: Frame, vs: seq<Value>, store: Semantics.Store, b: Bits, v: Value)
    requires At(mc, pc, fr, vs, store) && mc.top < |mc.cells| && Shows(b, v)
    ensures At(mc.(cells := mc.cells[mc.top := b], top := mc.top + 1), pc, fr, vs + [v], store)
  {}

  lemma Popped(mc: Machine, pc: nat, fr: Frame, vs: seq<Value>, store: Semantics.Store, n: nat)
    requires At(mc, pc, fr, vs, store) && n <= |vs|
    ensures n <= mc.top && At(Lower(mc, n), pc, fr, vs[..|vs| - n], store)
  {}

  lemma Written(mc: Machine, pc: nat, fr: Frame, vs: seq<Value>, store: Semantics.Store, i: nat, b: Bits, v: Value)
    requires At(mc, pc, fr, vs, store) && i < |vs| && Shows(b, v)
    ensures At(mc.(cells := mc.cells[fr.base + i := b]), pc, fr, vs[i := v], store)
  {}

  /** The cell `depth` below the top shows the value at that place. */
  lemma Picked(mc: Machine, pc: nat, fr: Frame, vs: seq<Value>, store: Semantics.Store, depth: nat)
    requires At(mc, pc, fr, vs, store) && 1 <= depth <= |vs|
    ensures depth <= mc.top <= |mc.cells| && Shows(Pick(mc, depth), vs[|vs| - depth])
  {
    assert Shows(mc.cells[fr.base + (|vs| - depth)], vs[|vs| - depth]);
  }

  lemma Moved(mc: Machine, pc: nat, fr: Frame, vs: seq<Value>, store: Semantics.Store, to: nat)
    requires At(mc, pc, fr, vs, store)
    ensures At(mc.(pc := to), to, fr, vs, store)
  {}

  lemma PushLeads(mc: Machine, pc: nat, fr: Frame, vs: seq<Value>, store: Semantics.Store, b: Bits, v: Value)
    requires At(mc, pc, fr, vs, store) && Shows(b, v)
    ensures Leads(M.Push(mc, b), pc, fr, vs + [v], store)
  {
    hide At;
    if mc.top < |mc.cells| { Pushed(mc, pc, fr, vs, store, b, v); }
  }

  lemma PushTypeLeads(mc: Machine, pc: nat, fr: Frame, vs: seq<Value>, store: Semantics.Store, t: Type, b: Bits)
    requires At(mc, pc, fr, vs, store)
    ensures Leads(PushType(mc, t, b), pc, fr, vs + [Value(t, Canon(t, b))], store)
  {
    hide At;
    if mc.top < |mc.cells| {
      Overwritten(t, b, mc.cells[mc.top]);
      Pushed(mc, pc, fr, vs, store, Overwrite(t, b, mc.cells[mc.top]), Value(t, Canon(t, b)));
    }
  }

  lemma PcOf(mc: Machine, pc: nat, fr: Frame, vs: seq<Value>, store: Semantics.Store)
    requires At(mc, pc, fr, vs, store)
    ensures mc.pc == pc && |vs| <= mc.top <= |mc.cells| == fr.size && mc.calls == fr.calls && mc.top == fr.base + |vs|
  {}

  /** The machine decodes `op` and its operands at `pc`. */
  lemma Decodes(env: Env, mc: Machine, pc: nat, fr: Frame, vs: seq<Value>, store: Semantics.Store, op: u8)
    requires At(mc, pc, fr, vs, store) && pc < |env.istream| && env.istream[pc] == op
    requires pc + 1 + ImmediateSize(op) <= |env.istream|
    ensures var next := pc + 1 + ImmediateSize(op);
      && Step(env, mc) == Exec(env, op, pc + 1, mc.(pc := next))
      && At(mc.(pc := next), next, fr, vs, store)
      && |vs| <= mc.top <= |mc.cells| == fr.size && mc.calls == fr.calls && mc.top == fr.base + |vs|
  {
    hide At, Exec;
    PcOf(mc, pc, fr, vs, store);
    StepIs(env, mc, op);
    Moved(mc, pc, fr, vs, store, pc + 1 + ImmediateSize(op));
  }

  // ----- instructions that move cells -----

  lemma StepConst(env: Env, mc: Machine, pc: nat, fr: Frame, vs: seq<Value>, store: Semantics.Store, t: Type, b: Bits)
    requires At(mc, pc, fr, vs, store) && ItemsAt(env.istream, pc, C.CompConst(t, b))
    ensures Leads(Step(env, mc), pc + Size(C.CompConst(t, b)), fr, vs + [Value(t, Canon(t, b))], store)
  {
    hide At, Leads, WordAt, Encode, Size, Step, ExecFlow, ExecOperator, ExecVariable, M.DropKeep, Alloca, PushType;
    if Is64(t) {
      assert C.CompConst(t, b) == C.CompConst(t, b) + [];
      ReadOpWords(env.istream, pc, ConstOp(t), b.lo, b.hi, []);
      Decodes(env, mc, pc, fr, vs, store, ConstOp(t));
      PushTypeLeads(mc.(pc := pc + 9), pc + 9, fr, vs, store, t, b);
    } else {
      ReadOpWord(env.istream, pc, ConstOp(t), b.lo);
      Decodes(env, mc, pc, fr, vs, store, ConstOp(t));
      PushTypeLeads(mc.(pc := pc + 5), pc + 5, fr, vs, store, t, Bits(b.lo, 0));
    }
  }

  lemma StepGetLocal(env: Env, mc: Machine, pc: nat, fr: Frame, vs: seq<Value>, store: Semantics.Store, i: nat)
    requires At(mc, pc, fr, vs, store) && i < |vs| && fr.size <= INVALID
    requires ItemsAt(env.istream, pc, [Op(GET_LOCAL), Word(|vs| - i)])
    ensures Leads(Step(env, mc), pc + 5, fr, vs + [vs[i]], store)
  {
    hide At, Leads, WordAt, Encode, Size, Step, ExecFlow, ExecOperator, M.DropKeep, Alloca, M.Push;
    PcOf(mc, pc, fr, vs, store);
    ReadOpWord(env.istream, pc, GET_LOCAL, |vs| - i);
    Decodes(env, mc, pc, fr, vs, store, GET_LOCAL);
    var next := mc.(pc := pc + 5);
    Picked(next, pc + 5, fr, vs, store, |vs| - i);
    PushLeads(next, pc + 5, fr, vs, store, Pick(next, |vs| - i), vs[i]);
  }

  lemma StepSetLocal(env: Env, mc: Machine, pc: nat, fr: Frame, vs: seq<Value>, store: Semantics.Store, i: nat)
    requires At(mc, pc, fr, vs, store) && i + 1 < |vs| && fr.size <= INVALID
    requires ItemsAt(env.istream, pc, [Op(SET_LOCAL), Word(|vs| - 1 - i)])
    ensures Leads(Step(env, mc), pc + 5, fr, vs[..|vs| - 1][i := vs[|vs| - 1]], store)
  {
    hide At, WordAt, Encode, Size, Step, ExecFlow, ExecOperator, M.DropKeep, Alloca, M.Push, Shows;
    PcOf(mc, pc, fr, vs, store);
    ReadOpWord(env.istream, pc, SET_LOCAL, |vs| - 1 - i);
    Decodes(env, mc, pc, fr, vs, store, SET_LOCAL);
    var next := mc.(pc := pc + 5);
    Picked(next, pc + 5, fr, vs, store, 1);
    Popped(next, pc + 5, fr, vs, store, 1);
    Written(Lower(next, 1), pc + 5, fr, vs[..|vs| - 1], store, i, Pick(next, 1), vs[|vs| - 1]);
  }

  lemma StepTeeLocal(env: Env, mc: Machine, pc: nat, fr: Frame, vs: seq<Value>, store: Semantics.Store, i: nat)
    requires At(mc, pc, fr, vs, store) && i < |vs| && fr.size <= INVALID
    requires ItemsAt(env.istream, pc, [Op(TEE_LOCAL), Word(|vs| - i)])
    ensures Leads(Step(env, mc), pc + 5, fr, vs[i := vs[|vs| - 1]], store)
  {
    hide At, WordAt, Encode, Size, Step, ExecFlow, ExecOperator, M.DropKeep, Alloca, M.Push, Shows;
    PcOf(mc, pc, fr, vs, store);
    ReadOpWord(env.istream, pc, TEE_LOCAL, |vs| - i);
    Decodes(env, mc, pc, fr, vs, store, TEE_LOCAL);
    var next := mc.(pc := pc + 5);
    Picked(next, pc + 5, fr, vs, store, 1);
    Written(next, pc + 5, fr, vs, store, i, Pick(next, 1), vs[|vs| - 1]);
  }

  lemma StepGetGlobal(env: Env, mc: Machine, pc: nat, fr: Frame, vs: seq<Value>, store: Semantics.Store, i: u32)
    requires At(mc, pc, fr, vs, store) && i < |store.globals| && ItemsAt(env.istream, pc, [Op(GET_GLOBAL), Word(i)])
    ensures Leads(Step(env, mc), pc + 5, fr, vs + [store.globals[i]], store)
  {
    hide At, Leads, WordAt, Encode, Size, Step, ExecFlow, ExecOperator, M.DropKeep, Alloca, M.Push, Shows;
    ReadOpWord(env.istream, pc, GET_GLOBAL, i);
    Decodes(env, mc, pc, fr, vs, store, GET_GLOBAL);
    GlobalShown(mc, pc, fr, vs, store, i);
    PushLeads(mc.(pc := pc + 5), pc + 5, fr, vs, store, mc.globals[i], store.globals[i]);
  }

  lemma GlobalShown(mc: Machine, pc: nat, fr: Frame, vs: seq<Value>, store: Semantics.Store, i: nat)
    requires At(mc, pc, fr, vs, store) && i < |store.globals|
    ensures |mc.globals| == |store.globals| && Shows(mc.globals[i], store.globals[i])
  {}

  lemma GlobalSet(mc: Machine, pc: nat, fr: Frame, vs: seq<Value>, store: Semantics.Store, i: nat, b: Bits, v: Value)
    requires At(mc, pc, fr, vs, store) && i < |store.globals| && Shows(b, v)
    ensures |mc.globals| == |store.globals|
    ensures At(mc.(globals := mc.globals[i := b]), pc, fr, vs, store.(globals := store.globals[i := v]))
  {
    hide Shows;
  }

  lemma StepSetGlobal(env: Env, mc: Machine, pc: nat, fr: Frame, vs: seq<Value>, store: Semantics.Store, i: u32)
    requires At(mc, pc, fr, vs, store) && i < |store.globals| && |vs| > 0
    requires ItemsAt(env.istream, pc, [Op(SET_GLOBAL), Word(i)])
    ensures Leads(Step(env, mc), pc + 5, fr, vs[..|vs| - 1], store.(globals := store.globals[i := vs[|vs| - 1]]))
  {
    hide At, WordAt, Encode, Size, Step, ExecFlow, ExecOperator, M.DropKeep, Alloca, M.Push, Shows;
    ReadOpWord(env.istream, pc, SET_GLOBAL, i);
    Decodes(env, mc, pc, fr, vs, store, SET_GLOBAL);
    var next := mc.(pc := pc + 5);
    Picked(next, pc + 5, fr, vs, store, 1);
    Popped(next, pc + 5, fr, vs, store, 1);
    GlobalSet(Lower(next, 1), pc + 5, fr, vs[..|vs| - 1], store, i, Pick(next, 1), vs[|vs| - 1]);
  }

  lemma StepDrop(env: Env, mc: Machine, pc: nat, fr: Frame, vs: seq<Value>, store: Semantics.Store)
    requires At(mc, pc, fr, vs, store) && |vs| > 0 && ItemsAt(env.istream, pc, [Op(DROP)])
    ensures Step(env, mc).Running? && At(Step(env, mc).machine, pc + 1, fr, vs[..|vs| - 1], store)
  {
    hide At, Encode, Size, Step, ExecFlow, ExecOperator, ExecVariable, M.DropKeep, Alloca;
    ReadOp(env.istream, pc, DROP);
    Decodes(env, mc, pc, fr, vs, store, DROP);
    Popped(mc.(pc := pc + 1), pc + 1, fr, vs, store, 1);
  }

  lemma StepSelect(env: Env, mc: Machine, pc: nat, fr: Frame, vs: seq<Value>, store: Semantics.Store)
    requires At(mc, pc, fr, vs, store) && |vs| >= 3 && ItemsAt(env.istream, pc, [Op(SELECT)]) && vs[|vs| - 1].ty == I32
    ensures Leads(Step(env, mc), pc + 1, fr,
      vs[..|vs| - 3] + [if vs[|vs| - 1].bits.lo != 0 then vs[|vs| - 3] else vs[|vs| - 2]], store)
  {
    hide At, Leads, Encode, Size, Step, ExecFlow, ExecOperator, ExecVariable, M.DropKeep, Alloca, M.Push;
    ReadOp(env.istream, pc, SELECT);
    Decodes(env, mc, pc, fr, vs, store, SELECT);
    var next := mc.(pc := pc + 1);
    Picked(next, pc + 1, fr, vs, store, 1);
    Picked(next, pc + 1, fr, vs, store, 2);
    Picked(next, pc + 1, fr, vs, store, 3);
    Popped(next, pc + 1, fr, vs, store, 3);
    var first := vs[|vs| - 1].bits.lo != 0;
    PushLeads(Lower(next, 3), pc + 1, fr, vs[..|vs| - 3], store, if first then Pick(next, 3) else Pick(next, 2),
      if first then vs[|vs| - 3] else vs[|vs| - 2]);
  }

  /** The values after dropping `drop` of them from under the top `keep`. */
  function Dropped(vs: seq<Value>, drop: nat, keep: nat): seq<Value>
    requires drop + keep <= |vs|
  {
    vs[..|vs| - drop - keep] + vs[|vs| - keep..]
  }

  lemma DropKeepLeads(mc: Machine, pc: nat, fr: Frame, vs: seq<Value>, store: Semantics.Store, drop: nat, keep: nat)
    requires At(mc, pc, fr, vs, store) && drop + keep <= |vs| && keep <= 1
    ensures M.DropKeep(mc, drop, keep).Running? && At(M.DropKeep(mc, drop, keep).machine, pc, fr, Dropped(vs, drop, keep), store)
  {
    hide At, Shows;
    PcOf(mc, pc, fr, vs, store);
    if keep == 1 {
      var n := |vs|;
      Picked(mc, pc, fr, vs, store, 1);
      Written(mc, pc, fr, vs, store, n - drop - 1, Pick(mc, 1), vs[n - 1]);
      var ws := vs[n - drop - 1 := vs[n - 1]];
      Popped(mc.(cells := mc.cells[fr.base + (n - drop - 1) := Pick(mc, 1)]), pc, fr, ws, store, drop);
      assert ws[..n - drop] == Dropped(vs, drop, keep);
    } else {
      Popped(mc, pc, fr, vs, store, drop);
      assert vs[..|vs| - drop] == Dropped(vs, drop, keep);
    }
  }

  lemma StepDropMany(env: Env, mc: Machine, pc: nat, fr: Frame, vs: seq<Value>, store: Semantics.Store, drop: nat, keep: nat)
    requires At(mc, pc, fr, vs, store) && drop + keep <= |vs| && keep <= 1 && fr.size <= INVALID
    requires ItemsAt(env.istream, pc, [Op(DROP_KEEP), Word(drop), Op(keep)])
    ensures Step(env, mc).Running? && At(Step(env, mc).machine, pc + 6, fr, Dropped(vs, drop, keep), store)
  {
    hide At, WordAt, Encode, Size, Step, ExecFlow, ExecOperator, ExecVariable, M.DropKeep, Alloca, Dropped;
    PcOf(mc, pc, fr, vs, store);
    ReadOpWordOp(env.istream, pc, DROP_KEEP, drop, keep);
    Decodes(env, mc, pc, fr, vs, store, DROP_KEEP);
    DropKeepLeads(mc.(pc := pc + 6), pc + 6, fr, vs, store, drop, keep);
  }

  /** The code of a drop/keep pair takes at most one step. */
  lemma StepDropKeep(env: Env, mc: Machine, pc: nat, fr: Frame, vs: seq<Value>, store: Semantics.Store, drop: nat, keep: nat)
    returns (n: nat)
    requires At(mc, pc, fr, vs, store) && drop + keep <= |vs| && keep <= 1 && fr.size <= INVALID
    requires ItemsAt(env.istream, pc, C.DropKeep(drop, keep))
    ensures Run(env, mc, n).Running? && Stays(env, mc, n, fr)
    ensures At(Run(env, mc, n).machine, pc + Size(C.DropKeep(drop, keep)), fr, Dropped(vs, drop, keep), store)
  {
    hide At, Keeps, Stays, Encode, Size, Step, Run;
    DropKeepSize(drop, keep);
    var ws := Dropped(vs, drop, keep);
    if drop == 0 {
      n := 0;
      AtKeeps(mc, pc, fr, vs, store);
      StaysNone(env, mc, fr);
      assert vs[..|vs| - keep] + vs[|vs| - keep..] == vs;
    } else if drop == 1 && keep == 0 {
      n := 1;
      StepDrop(env, mc, pc, fr, vs, store);
      assert vs[..|vs| - 1] == ws;
      StepStays(env, mc, pc, fr, vs, store, pc + 1, ws, store);
    } else {
      n := 1;
      StepDropMany(env, mc, pc, fr, vs, store, drop, keep);
      StepStays(env, mc, pc, fr, vs, store, pc + 6, ws, store);
    }
  }

  lemma DropKeepSize(drop: nat, keep: nat)
    requires keep <= 1
    ensures Size(C.DropKeep(drop, keep)) == if drop == 0 then 0 else if drop == 1 && keep == 0 then 1 else 6
  {
    if drop > 0 && !(drop == 1 && keep == 0) {
      hide Size;
      C.TripleSize(Op(DROP_KEEP), Word(drop), Op(keep));
    } else if drop == 1 && keep == 0 {
      assert [Op(DROP)][..0] == [];
    }
  }

  // ----- numeric and memory operators -----

  lemma OperatorCodes(op: u8)
    ensures UnarySig(op).Some? ==> !IsFlow(op) && !IsMove(op) && ImmediateSize(op) == 0
    ensures BinarySig(op).Some? ==> !IsFlow(op) && !IsMove(op) && ImmediateSize(op) == 0 && UnarySig(op).None?
    ensures LoadSig(op).Some? || StoreSig(op).Some? ==> (
      !IsFlow(op) && !IsMove(op) && ImmediateSize(op) == 8 && UnarySig(op).None? && BinarySig(op).None? && 0x28 <= op <= 0x3e)
    ensures StoreSig(op).Some? ==> LoadSig(op).None?
  {}

  /** The step pushes what a numeric operator computes, or traps as it does. */
  ghost predicate Computes(c: Conf, pc: nat, fr: Frame, vs: seq<Value>, store: Semantics.Store, t: Type, r: Outcome<Bits>) {
    match r
    case Done(b) => Leads(c, pc, fr, vs + [Value(t, Canon(t, b))], store)
    case Fails(cause) => c == Stopped(Numeric(cause))
  }

  lemma OutcomeLeads(mc: Machine, pc: nat, fr: Frame, vs: seq<Value>, store: Semantics.Store, t: Type, via: Type, r: Outcome<Bits>)
    requires At(mc, pc, fr, vs, store) && (via == t || Is64(via))
    ensures Computes(PushOutcome(mc, via, r), pc, fr, vs, store, t, r)
  {
    hide At, Leads, PushType;
    match r
    case Done(b) =>
      if via == t {
        PushTypeLeads(mc, pc, fr, vs, store, t, b);
      } else {
        WideLeads(mc, pc, fr, vs, store, t, via, b);
      }
    case Fails(_) =>
  }

  /** Writing all eight bytes also shows the value at a narrower type. */
  lemma WideLeads(mc: Machine, pc: nat, fr: Frame, vs: seq<Value>, store: Semantics.Store, t: Type, via: Type, b: Bits)
    requires At(mc, pc, fr, vs, store) && Is64(via)
    ensures Leads(PushType(mc, via, b), pc, fr, vs + [Value(t, Canon(t, b))], store)
  {
    hide At;
    if mc.top < |mc.cells| { Pushed(mc, pc, fr, vs, store, b, Value(t, Canon(t, b))); }
  }

  lemma StepUnary(env: Env, mc: Machine, pc: nat, fr: Frame, vs: seq<Value>, store: Semantics.Store, op: u8)
    requires At(mc, pc, fr, vs, store) && |vs| >= 1 && UnarySig(op).Some? && vs[|vs| - 1].ty == UnarySig(op).value.0
    requires ItemsAt(env.istream, pc, [Op(op)])
    ensures Computes(Step(env, mc), pc + 1, fr, vs[..|vs| - 1], store, UnarySig(op).value.1, env.num.unary(op, vs[|vs| - 1].bits))
  {
    hide At, Leads, Computes, UnarySig, BinarySig, Encode, Size, Step, PushOutcome, IsFlow, IsMove, ImmediateSize, Canon;
    ReadOp(env.istream, pc, op);
    OperatorCodes(op);
    Decodes(env, mc, pc, fr, vs, store, op);
    var next := mc.(pc := pc + 1);
    Picked(next, pc + 1, fr, vs, store, 1);
    Popped(next, pc + 1, fr, vs, store, 1);
    OutcomeLeads(Lower(next, 1), pc + 1, fr, vs[..|vs| - 1], store, UnarySig(op).value.1,
      PushedType(op, UnarySig(op).value.1), env.num.unary(op, vs[|vs| - 1].bits));
  }

  lemma StepBinary(env: Env, mc: Machine, pc: nat, fr: Frame, vs: seq<Value>, store: Semantics.Store, op: u8)
    requires At(mc, pc, fr, vs, store) && |vs| >= 2 && BinarySig(op).Some? && ItemsAt(env.istream, pc, [Op(op)])
    requires vs[|vs| - 1].ty == vs[|vs| - 2].ty == BinarySig(op).value.0
    ensures Computes(Step(env, mc), pc + 1, fr, vs[..|vs| - 2], store, BinarySig(op).value.1,
      env.num.binary(op, vs[|vs| - 2].bits, vs[|vs| - 1].bits))
  {
    hide At, Leads, Computes, UnarySig, BinarySig, Encode, Size, Step, PushOutcome, IsFlow, IsMove, ImmediateSize, Canon;
    ReadOp(env.istream, pc, op);
    OperatorCodes(op);
    Decodes(env, mc, pc, fr, vs, store, op);
    var next := mc.(pc := pc + 1);
    Picked(next, pc + 1, fr, vs, store, 1);
    Picked(next, pc + 1, fr, vs, store, 2);
    Popped(next, pc + 1, fr, vs, store, 2);
    var t := BinarySig(op).value.1;
    OutcomeLeads(Lower(next, 2), pc + 1, fr, vs[..|vs| - 2], store, t, t, env.num.binary(op, vs[|vs| - 2].bits, vs[|vs| - 1].bits));
  }

  /** A memory access finds the only memory and its offset. */
  lemma AccessDecodes(env: Env, mc: Machine, pc: nat, fr: Frame, vs: seq<Value>, store: Semantics.Store, op: u8, offset: u32)
    requires At(mc, pc, fr, vs, store) && env.m.hasMemory && (LoadSig(op).Some? || StoreSig(op).Some?)
    requires ItemsAt(env.istream, pc, [Op(op), Word(0), Word(offset)])
    ensures pc + 9 <= |env.istream| && WordAt(env.istream, pc + 1) == 0 && WordAt(env.istream, pc + 5) == offset
    ensures Step(env, mc) == ExecAccess(env, op, pc + 1, mc.(pc := pc + 9)) && At(mc.(pc := pc + 9), pc + 9, fr, vs, store)
  {
    hide At, UnarySig, BinarySig, LoadSig, StoreSig, Encode, Size, Step, IsFlow, IsMove, ImmediateSize, WordAt, ExecAccess;
    assert [Op(op), Word(0), Word(offset)] == [Op(op), Word(0), Word(offset)] + [];
    ReadOpWords(env.istream, pc, op, 0, offset, []);
    OperatorCodes(op);
    Decodes(env, mc, pc, fr, vs, store, op);
  }

  lemma MemoryOf(mc: Machine, pc: nat, fr: Frame, vs: seq<Value>, store: Semantics.Store, mem: Memory)
    requires At(mc, pc, fr, vs, store)
    ensures mc.mem == store.mem && At(mc.(mem := mem), pc, fr, vs, store.(mem := mem))
  {}

  lemma StepLoad(env: Env, mc: Machine, pc: nat, fr: Frame, vs: seq<Value>, store: Semantics.Store, op: u8, offset: u32)
    requires At(mc, pc, fr, vs, store) && |vs| >= 1 && env.m.hasMemory && LoadSig(op).Some? && vs[|vs| - 1].ty == I32
    requires ItemsAt(env.istream, pc, [Op(op), Word(0), Word(offset)])
    ensures Computes(Step(env, mc), pc + 9, fr, vs[..|vs| - 1], store, LoadSig(op).value.0,
      env.num.load(op, vs[|vs| - 1].bits, offset, store.mem))
  {
    hide At, Leads, Computes, LoadSig, StoreSig, Encode, Size, Step, PushOutcome, WordAt, Canon;
    AccessDecodes(env, mc, pc, fr, vs, store, op, offset);
    var next, t := mc.(pc := pc + 9), LoadSig(op).value.0;
    PcOf(next, pc + 9, fr, vs, store);
    MemoryOf(mc, pc, fr, vs, store, mc.mem);
    Picked(next, pc + 9, fr, vs, store, 1);
    Popped(next, pc + 9, fr, vs, store, 1);
    OutcomeLeads(Lower(next, 1), pc + 9, fr, vs[..|vs| - 1], store, t, t, env.num.load(op, vs[|vs| - 1].bits, offset, store.mem));
  }

  lemma StepStore(env: Env, mc: Machine, pc: nat, fr: Frame, vs: seq<Value>, store: Semantics.Store, op: u8, offset: u32)
    requires At(mc, pc, fr, vs, store) && |vs| >= 2 && env.m.hasMemory && StoreSig(op).Some?
    requires vs[|vs| - 2].ty == I32 && vs[|vs| - 1].ty == StoreSig(op).value.0
    requires ItemsAt(env.istream, pc, [Op(op), Word(0), Word(offset)])
    ensures var r := env.num.store(op, vs[|vs| - 2].bits, vs[|vs| - 1].bits, offset, store.mem);
      && (r.Done? ==> Leads(Step(env, mc), pc + 9, fr, vs[..|vs| - 2], store.(mem := r.value)))
      && (r.Fails? ==> Step(env, mc) == Stopped(Numeric(r.cause)))
  {
    hide At, LoadSig, StoreSig, Encode, Size, Step, WordAt, Canon;
    AccessDecodes(env, mc, pc, fr, vs, store, op, offset);
    OperatorCodes(op);
    var next := mc.(pc := pc + 9);
    PcOf(next, pc + 9, fr, vs, store);
    Picked(next, pc + 9, fr, vs, store, 1);
    Picked(next, pc + 9, fr, vs, store, 2);
    Popped(next, pc + 9, fr, vs, store, 2);
    var r := env.num.store(op, vs[|vs| - 2].bits, vs[|vs| - 1].bits, offset, store.mem);
    MemoryOf(mc, pc, fr, vs, store, mc.mem);
    if r.Done? { MemoryOf(Lower(next, 2), pc + 9, fr, vs[..|vs| - 2], store, r.value); }
  }

  // ----- control -----

  lemma StepGoto(env: Env, mc: Machine, pc: nat, fr: Frame, vs: seq<Value>, store: Semantics.Store, target: u32)
    requires At(mc, pc, fr, vs, store) && ItemsAt(env.istream, pc, [Op(BR), Word(target)])
    ensures Step(env, mc).Running? && At(Step(env, mc).machine, target, fr, vs, store)
  {
    hide At, Encode, Size, Step, WordAt, ExecMove, ExecOperator;
    ReadOpWord(env.istream, pc, BR, target);
    Decodes(env, mc, pc, fr, vs, store, BR);
    Moved(mc, pc, fr, vs, store, target);
  }

  lemma StepBrUnless(env: Env, mc: Machine, pc: nat, fr: Frame, vs: seq<Value>, store: Semantics.Store, target: u32)
    requires At(mc, pc, fr, vs, store) && |vs| >= 1 && vs[|vs| - 1].ty == I32
    requires ItemsAt(env.istream, pc, [Op(BR_UNLESS), Word(target)])
    ensures Step(env, mc).Running?
    ensures At(Step(env, mc).machine, if vs[|vs| - 1].bits.lo != 0 then pc + 5 else target, fr, vs[..|vs| - 1], store)
  {
    hide At, Encode, Size, Step, WordAt, ExecMove, ExecOperator;
    ReadOpWord(env.istream, pc, BR_UNLESS, target);
    Decodes(env, mc, pc, fr, vs, store, BR_UNLESS);
    var next := mc.(pc := pc + 5);
    Picked(next, pc + 5, fr, vs, store, 1);
    Popped(next, pc + 5, fr, vs, store, 1);
    Moved(Lower(next, 1), pc + 5, fr, vs[..|vs| - 1], store, target);
  }

  lemma StepUnreachable(env: Env, mc: Machine, pc: nat, fr: Frame, vs: seq<Value>, store: Semantics.Store)
    requires At(mc, pc, fr, vs, store) && ItemsAt(env.istream, pc, [Op(UNREACHABLE)])
    ensures Step(env, mc) == Stopped(UnreachableExecuted)
  {
    hide At, Encode, Size, Step, WordAt, ExecMove, ExecOperator;
    ReadOp(env.istream, pc, UNREACHABLE);
    Decodes(env, mc, pc, fr, vs, store, UNREACHABLE);
  }

  /** A branch through a table entry found at `entry`. */
  lemma StepTable(env: Env, mc: Machine, pc: nat, fr: Frame, vs: seq<Value>, store: Semantics.Store,
      num: u32, table: u32, rest: seq<Item>, target: u32, drop: u32, keep: nat)
    requires At(mc, pc, fr, vs, store) && |vs| >= 1 && vs[|vs| - 1].ty == I32
    requires ItemsAt(env.istream, pc, [Op(BR_TABLE), Word(num), Word(table)] + rest)
    requires drop + keep <= |vs| - 1 && keep <= 1
    requires var key := vs[|vs| - 1].bits.lo;
      ItemsAt(env.istream, table + (if key < num then key else num) * TABLE_ENTRY_SIZE, [Word(target), Word(drop), Op(keep)])
    ensures Step(env, mc).Running?
    ensures At(Step(env, mc).machine, target, fr, Dropped(vs[..|vs| - 1], drop, keep), store)
  {
    hide At, Encode, Size, Step, WordAt, ExecMove, ExecOperator, M.DropKeep, Dropped;
    ReadOpWords(env.istream, pc, BR_TABLE, num, table, rest);
    Decodes(env, mc, pc, fr, vs, store, BR_TABLE);
    var next := mc.(pc := pc + 9);
    Picked(next, pc + 9, fr, vs, store, 1);
    Popped(next, pc + 9, fr, vs, store, 1);
    var key := vs[|vs| - 1].bits.lo;
    var entry := table + (if key < num then key else num) * TABLE_ENTRY_SIZE;
    ReadEntry(env.istream, entry, target, drop, keep);
    DropKeepLeads(Lower(next, 1), pc + 9, fr, vs[..|vs| - 1], store, drop, keep);
    Moved(M.DropKeep(Lower(next, 1), drop, keep).machine, pc + 9, fr, Dropped(vs[..|vs| - 1], drop, keep), store, target);
  }

  lemma ReadEntry(s: seq<u8>, at: nat, target: u32, drop: u32, keep: u8)
    requires ItemsAt(s, at, [Word(target), Word(drop), Op(keep)])
    ensures at + 9 <= |s| && WordAt(s, at) == target && WordAt(s, at + 4) == drop && s[at + 8] == keep
  {
    hide WordAt, Encode, Bytes, Size;
    assert [Word(target), Word(drop), Op(keep)] == [Word(target)] + ([Word(drop)] + [Op(keep)]);
    ReadWord(s, at, target, [Word(drop)] + [Op(keep)]);
    ReadWord(s, at + 4, drop, [Op(keep)]);
    ReadOp(s, at + 8, keep);
  }

  // ----- calls -----

  /** The frame of a callee whose arguments lie above `keep` values of its
      caller. */
  function CalleeFrame(mc: Machine, fr: Frame, keep: nat, ret: nat): Frame
    requires fr.base + keep <= |mc.cells|
  {
    Frame(fr.base + keep, mc.cells[..fr.base + keep], fr.size, fr.calls + [ret])
  }

  /** What a callee leaves alone includes what its caller must. */
  lemma CalleeStays(env: Env, mc0: Machine, fr: Frame, keep: nat, ret: nat, mc: Machine, n: nat)
    requires fr.base + keep <= |mc0.cells| && mc0.cells[..fr.base] == fr.below
    requires Stays(env, mc, n, CalleeFrame(mc0, fr, keep, ret))
    ensures Stays(env, mc, n, fr)
  {
    hide Run;
    forall k | 0 <= k <= n && Run(env, mc, k).Running? ensures Keeps(Run(env, mc, k).machine, fr) {
      CalleeKeeps(mc0, fr, keep, ret, Run(env, mc, k).machine);
    }
  }

  lemma CalleeKeeps(mc0: Machine, fr: Frame, keep: nat, ret: nat, mc: Machine)
    requires fr.base + keep <= |mc0.cells| && mc0.cells[..fr.base] == fr.below
    requires Keeps(mc, CalleeFrame(mc0, fr, keep, ret))
    ensures Keeps(mc, fr)
  {
    assert mc.cells[..fr.base] == mc.cells[..fr.base + keep][..fr.base] == mc0.cells[..fr.base];
    assert mc.calls[..|fr.calls|] == mc.calls[..|fr.calls| + 1][..|fr.calls|] == fr.calls;
  }

  lemma Called(mc: Machine, pc: nat, fr: Frame, vs: seq<Value>, store: Semantics.Store, n: nat, ret: nat, entry: nat)
    requires At(mc, pc, fr, vs, store) && n <= |vs|
    ensures fr.base + |vs| - n <= |mc.cells|
    ensures At(mc.(calls := mc.calls + [ret], pc := entry), entry, CalleeFrame(mc, fr, |vs| - n, ret), vs[|vs| - n..], store)
    ensures |CalleeFrame(mc, fr, |vs| - n, ret).calls| == |mc.calls| + 1
  {
    hide Shows;
    var ws, k := vs[|vs| - n..], |vs| - n;
    assert forall i :: 0 <= i < n ==> mc.cells[fr.base + k + i] == mc.cells[fr.base + (k + i)] && ws[i] == vs[k + i];
  }

  lemma StepCall(env: Env, mc: Machine, pc: nat, fr: Frame, vs: seq<Value>, store: Semantics.Store, n: nat, entry: u32)
    requires At(mc, pc, fr, vs, store) && n <= |vs| && ItemsAt(env.istream, pc, [Op(CALL), Word(entry)])
    ensures fr.base + |vs| - n <= |mc.cells|
    ensures var callee := CalleeFrame(mc, fr, |vs| - n, pc + 5);
      TooDeep(env, callee, Step(env, mc)) || Leads(Step(env, mc), entry, callee, vs[|vs| - n..], store)
  {
    hide At, Encode, Size, Step, WordAt, ExecMove, ExecOperator, CalleeFrame;
    ReadOpWord(env.istream, pc, CALL, entry);
    Decodes(env, mc, pc, fr, vs, store, CALL);
    Called(mc, pc, fr, vs, store, n, pc + 5, entry);
  }

  /** An indirect call to a function the table holds; its index is on top. */
  lemma StepCallIndirect(env: Env, mc: Machine, pc: nat, fr: Frame, vs: seq<Value>, store: Semantics.Store, n: nat, sigIndex: u32)
    requires At(mc, pc, fr, vs, store) && n + 1 <= |vs| && vs[|vs| - 1].ty == I32
    requires env.m.hasTable && sigIndex < |env.m.sigs| && |env.entries| == |env.m.funcs|
    requires ItemsAt(env.istream, pc, [Op(CALL_INDIRECT), Word(0), Word(sigIndex)])
    ensures fr.base + |vs| - 1 - n <= |mc.cells|
    ensures var d, ws := TableTarget(env.m, sigIndex, vs[|vs| - 1].bits.lo), vs[..|vs| - 1];
      && (d.Refused? ==> Step(env, mc) == Stopped(d.trap))
      && (d.Target? ==> d.func < |env.entries|)
      && (d.Target? ==> (
           var callee := CalleeFrame(mc, fr, |ws| - n, pc + 9);
           TooDeep(env, callee, Step(env, mc)) || Leads(Step(env, mc), env.entries[d.func], callee, ws[|ws| - n..], store)))
  {
    hide At, Encode, Size, Step, WordAt, ExecMove, ExecOperator, CalleeFrame;
    assert [Op(CALL_INDIRECT), Word(0), Word(sigIndex)] == [Op(CALL_INDIRECT), Word(0), Word(sigIndex)] + [];
    ReadOpWords(env.istream, pc, CALL_INDIRECT, 0, sigIndex, []);
    Decodes(env, mc, pc, fr, vs, store, CALL_INDIRECT);
    var next := mc.(pc := pc + 9);
    Picked(next, pc + 9, fr, vs, store, 1);
    Popped(next, pc + 9, fr, vs, store, 1);
    var d := TableTarget(env.m, sigIndex, vs[|vs| - 1].bits.lo);
    if d.Target? {
      Called(Lower(next, 1), pc + 9, fr, vs[..|vs| - 1], store, n, pc + 9, env.entries[d.func]);
      FrameSame(mc, Lower(next, 1), fr, |vs| - 1 - n, pc + 9);
    }
  }

  lemma FrameSame(mc: Machine, next: Machine, fr: Frame, keep: nat, ret: nat)
    requires fr.base + keep <= |mc.cells| && next.cells == mc.cells
    ensures CalleeFrame(next, fr, keep, ret) == CalleeFrame(mc, fr, keep, ret)
  {}

  /** Returning to a caller that was in state `mc` puts the results where its
      arguments were. */
  lemma StepReturn(env: Env, mc: Machine, fr: Frame, vs: seq<Value>, store: Semantics.Store, n: nat, ret: nat,
      last: Machine, pc: nat, rs: seq<Value>, store': Semantics.Store)
    requires At(mc, mc.pc, fr, vs, store) && n <= |vs| && |fr.calls| >= env.returnDepth
    requires fr.base + |vs| - n <= |mc.cells|
    requires At(last, pc, CalleeFrame(mc, fr, |vs| - n, ret), rs, store') && pc < |env.istream| && env.istream[pc] == RETURN
    ensures Step(env, last).Running? && At(Step(env, last).machine, ret, fr, vs[..|vs| - n] + rs, store')
  {
    hide At, Step, WordAt, ExecMove, ExecOperator, CalleeFrame;
    var callee := CalleeFrame(mc, fr, |vs| - n, ret);
    Decodes(env, last, pc, callee, rs, store', RETURN);
    assert callee.calls == fr.calls + [ret] by { CalleeCalls(mc, fr, |vs| - n, ret); }
    ReturnedTo(mc, fr, vs, store, n, ret, last, pc, rs, store');
    assert last.calls[..|last.calls| - 1] == fr.calls;
  }

  lemma CalleeCalls(mc: Machine, fr: Frame, keep: nat, ret: nat)
    requires fr.base + keep <= |mc.cells|
    ensures CalleeFrame(mc, fr, keep, ret).calls == fr.calls + [ret]
  {}

  lemma ReturnedTo(mc: Machine, fr: Frame, vs: seq<Value>, store: Semantics.Store, n: nat, ret: nat,
      last: Machine, pc: nat, rs: seq<Value>, store': Semantics.Store)
    requires At(mc, mc.pc, fr, vs, store) && n <= |vs| && fr.base + |vs| - n <= |mc.cells|
    requires At(last, pc, CalleeFrame(mc, fr, |vs| - n, ret), rs, store')
    ensures At(last.(calls := fr.calls, pc := ret), ret, fr, vs[..|vs| - n] + rs, store')
  {
    hide Shows, StoreHeld;
    var base, k, all := fr.base, |vs| - n, vs[..|vs| - n] + rs;
    var done := last.(calls := fr.calls, pc := ret);
    assert StoreHeld(done, store') by { SameStore(last, done, store'); }
    assert last.cells[..base] == last.cells[..base + k][..base] == mc.cells[..base];
    forall i | 0 <= i < |all| ensures Shows(last.cells[base + i], all[i]) {
      if i < k {
        assert last.cells[base + i] == last.cells[..base + k][base + i] == mc.cells[base + i];
      } else {
        assert last.cells[base + i] == last.cells[base + k + (i - k)];
      }
    }
  }

  lemma StepExit(env: Env, mc: Machine, pc: nat, fr: Frame, vs: seq<Value>, store: Semantics.Store)
    requires At(mc, pc, fr, vs, store) && pc < |env.istream| && env.istream[pc] == RETURN && |fr.calls| == env.returnDepth
    ensures Step(env, mc).Exited? && At(Step(env, mc).machine, pc + 1, fr, vs, store)
  {
    hide At, WordAt, ExecMove, ExecOperator, Step;
    Decodes(env, mc, pc, fr, vs, store, RETURN);
  }

  /** Locals start as zeros of their types. */
  lemma StepAlloca(env: Env, mc: Machine, pc: nat, fr: Frame, vs: seq<Value>, store: Semantics.Store, ts: seq<Type>)
    requires At(mc, pc, fr, vs, store) && |ts| < 0x1_0000_0000 && ItemsAt(env.istream, pc, [Op(ALLOCA), Word(|ts|)])
    ensures Leads(Step(env, mc), pc + 5, fr, vs + Zeros(ts), store)
  {
    hide At, WordAt, ExecFlow, ExecVariable, ExecOperator, Step, Encode, Size, M.DropKeep;
    ReadOpWord(env.istream, pc, ALLOCA, |ts|);
    Decodes(env, mc, pc, fr, vs, store, ALLOCA);
    var next := mc.(pc := pc + 5);
    if next.top + |ts| < |next.cells| { Allocated(next, pc + 5, fr, vs, store, ts); }
  }

  lemma Allocated(mc: Machine, pc: nat, fr: Frame, vs: seq<Value>, store: Semantics.Store, ts: seq<Type>)
    requires At(mc, pc, fr, vs, store) && mc.top + |ts| < |mc.cells|
    ensures Alloca(mc, |ts|).Running? && At(Alloca(mc, |ts|).machine, pc, fr, vs + Zeros(ts), store)
  {
    hide StoreHeld;
    var done, all := Alloca(mc, |ts|).machine, vs + Zeros(ts);
    assert done.cells[..fr.base] == mc.cells[..fr.base];
    forall i | 0 <= i < |all| ensures Shows(done.cells[fr.base + i], all[i]) {
      if i < |vs| {
        assert done.cells[fr.base + i] == mc.cells[fr.base + i];
      } else {
        assert done.cells[fr.base + i] == Bits(0, 0);
        assert all[i] == Zeros(ts)[i - |vs|];
      }
    }
    assert StoreHeld(done, store) by { SameStore(mc, done, store); }
  }

  lemma SameStore(mc: Machine, done: Machine, store: Semantics.Store)
    requires StoreHeld(mc, store) && done.globals == mc.globals && done.mem == mc.mem
    ensures StoreHeld(done, store)
  {}
}
