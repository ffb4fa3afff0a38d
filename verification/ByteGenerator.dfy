/** The code generator driven by the bytes of a function body: the loop of the
    reader (src/binary-reader.c:1215-1638) makes the callbacks of
    src/binary-reader-interpreter.c one after another. What they make of the bytes
    of a tree is what the walk over the tree makes of it. */
module ByteGenerator {
  import opened Wasm
  import opened Assembly
  import opened TypeStack
  import opened Binary
  import opened RoundTrip
  import Typing
  import F = Fixups
  import C = Compile
  import H = Heights
  import G = Generator

  /** A list of instructions that is being generated: where it started, what has
      been emitted since, and where it stands. */
  datatype Stretch = Stretch(s0: G.Snapshot, code: Code, pre: seq<Item>, s: G.Snapshot, ts: seq<Type>)

  /** What holds of a generator about to emit code on operand types `ts`. */
  ghost predicate Sane(s: G.Snapshot, ts: seq<Type>) {
    && s.off == Size(s.items) && |s.scope.results| <= 1 && G.Nested(s.labels, |s.scope.locals|)
    && s.height == s.labels[|s.labels| - 1].limit + |ts|
  }

  /** `rest` is still to come, in a list that is typed, and fits. */
  ghost predicate Stands(lv: Stretch, rest: Code) {
    && lv.s == lv.s0.(items := lv.s0.items + lv.pre, off := lv.s.off, height := lv.s.height)
    && lv.s0.Compiled(lv.code) == lv.pre + lv.s.Compiled(rest)
    && lv.s0.Typed(lv.code, []) == lv.s.Typed(rest, lv.ts) && !lv.s.Typed(rest, lv.ts).Bad?
    && (lv.s0.Generable(lv.code, []) <==> lv.s.Generable(rest, lv.ts))
    && Typing.Representable(rest) && Sane(lv.s, lv.ts) && lv.s.off + Size(lv.s.Compiled(rest)) < INVALID
  }

  /** The list has been generated to its end. */
  ghost predicate Completed(gen: G.Generator, lv: Stretch)
    reads gen
  {
    gen.Generated(lv.s0, lv.s0.Compiled(lv.code), lv.s0.Typed(lv.code, [])) && lv.s0.Generable(lv.code, [])
  }

  /** The generator stands there. */
  ghost predicate At(gen: G.Generator, lv: Stretch, rest: Code)
    reads gen
  {
    if rest == Nil then Completed(gen, lv)
    else gen.Ready(lv.ts) && gen.InBlock() && gen.Now() == lv.s && Stands(lv, rest)
  }

  /** The level after an instruction from which control goes on. */
  function Next(lv: Stretch, e: Instr): Stretch {
    var t := lv.s.TypedInstr(e, lv.ts);
    if t.Live? then lv.(pre := lv.pre + lv.s.CompiledInstr(e), s := lv.s.After(e), ts := t.types) else lv
  }

  // ----- one instruction -----

  lemma SaneAfter(s: G.Snapshot, e: Instr, ts: seq<Type>)
    requires Sane(s, ts) && s.TypedInstr(e, ts).Live? && s.GenerableInstr(e, ts)
    ensures Sane(s.After(e), s.TypedInstr(e, ts).types)
  {
    hide Typing.TypeInstr, Typing.Generable, Size, C.Delta, G.Nested, C.CompInstr;
    if e.CallIndirect? { IndirectOn(s, e, ts); }
    H.DeltaIsTyped(s.scope, G.TypingLabels(s.labels), e, ts);
    SizeAppend(s.items, s.CompiledInstr(e));
  }

  lemma IndirectOn(s: G.Snapshot, e: Instr, ts: seq<Type>)
    requires s.GenerableInstr(e, ts) && e.CallIndirect?
    ensures ts != []
  {}

  /** What is said of the first of the instructions to come. */
  lemma Heads(gen: G.Generator, lv: Stretch, e: Instr, tail: Code)
    requires Stands(lv, Cons(e, tail))
    ensures Typing.RepresentableInstr(e) && !lv.s.TypedInstr(e, lv.ts).Bad? && lv.s.off + Size(lv.s.CompiledInstr(e)) < INVALID
    ensures Sane(lv.s, lv.ts) && (lv.s0.Generable(lv.code, []) ==> lv.s.GenerableInstr(e, lv.ts))
  {
    hide G.Snapshot.Compiled, G.Snapshot.CompiledInstr, G.Snapshot.TypedInstr, G.Snapshot.GenerableInstr, Size, Sane, Typing.Representable;
    gen.ConsSpec(lv.s, e, tail, lv.ts);
    if lv.s.Generable(Cons(e, tail), lv.ts) { FirstGenerable(lv.s, e, tail, lv.ts); }
  }

  lemma FirstGenerable(s: G.Snapshot, e: Instr, tail: Code, ts: seq<Type>)
    requires s.Generable(Cons(e, tail), ts)
    ensures s.GenerableInstr(e, ts)
  {
    hide Typing.Generable, Typing.TypeInstr;
  }

  /** After an instruction the generator stands at the next one. */
  lemma After(gen: G.Generator, lv: Stretch, e: Instr, tail: Code)
    requires Stands(lv, Cons(e, tail)) && lv.s.GenerableInstr(e, lv.ts)
    requires gen.Generated(lv.s, lv.s.CompiledInstr(e), lv.s.TypedInstr(e, lv.ts))
    ensures At(gen, Next(lv, e), tail) && Next(lv, e).s0 == lv.s0 && Next(lv, e).code == lv.code
  {
    hide G.Snapshot.Compiled, G.Snapshot.CompiledInstr, G.Snapshot.TypedInstr, G.Snapshot.GenerableInstr, G.Snapshot.Typed, G.Snapshot.Generable,
      Size, Sane, Typing.Representable, G.Generator.Ready, G.Generator.Generated, G.Generator.Now, C.Delta;
    gen.ConsSpec(lv.s, e, tail, lv.ts);
    var items, t := lv.s.CompiledInstr(e), lv.s.TypedInstr(e, lv.ts);
    if tail == Nil {
      gen.JoinGenerated(lv.s0, lv.pre, items, t, lv.s);
    } else {
      SaneAfter(lv.s, e, lv.ts);
      SaneIs(lv.s, lv.ts);
      gen.StillReady(lv.s, e, lv.ts, t.types);
      Assoc(lv.s0.items, lv.pre, items);
      Assoc(lv.pre, items, lv.s.After(e).Compiled(tail));
    }
  }

  lemma SaneIs(s: G.Snapshot, ts: seq<Type>)
    requires Sane(s, ts)
    ensures s.off == Size(s.items) && |s.scope.results| <= 1 && G.Nested(s.labels, |s.scope.locals|)
    ensures s.height == s.labels[|s.labels| - 1].limit + |ts|
  {}

  /** At the beginning of a list. */
  lemma Begins(gen: G.Generator, code: Code)
    requires gen.Ready([]) && gen.InBlock() && Typing.Representable(code) && !gen.Now().Typed(code, []).Bad?
    requires gen.Room(Size(gen.Now().Compiled(code)))
    ensures At(gen, Stretch(gen.Now(), code, [], gen.Now(), []), code)
  {
    hide G.Snapshot.Compiled, G.Snapshot.Typed, G.Snapshot.Generable, Size, Typing.Representable, G.Generator.Ready, G.Generator.Generated, G.Generator.Now;
    var s := gen.Now();
    gen.SnapshotNow([]);
    gen.NilSpec(s, []);
    if code == Nil {
      gen.NothingGenerated([]);
    }
    assert s.items + [] == s.items && [] + s.Compiled(code) == s.Compiled(code);
  }

  // ----- open blocks -----

  /** A block that has been entered: the list it is in, the states at the start of its
      first arm and of the arm that is being generated, and what follows it. */
  datatype Frame = Frame(lv: Stretch, e: Instr, rest: Code, s1: G.Snapshot, inner: G.Snapshot, second: bool)

  function Arm(fr: Frame): Code {
    match fr.e
    case Block(_, body) => body
    case Loop(_, body) => body
    case If(_, thn, _, els) => if fr.second then els else thn
    case _ => Nil
  }

  function SigOf(e: Instr): seq<Type> {
    match e
    case Block(sig, _) => sig
    case Loop(sig, _) => sig
    case If(sig, _, _, _) => sig
    case _ => []
  }

  /** The operands below the block. */
  function Below(fr: Frame): seq<Type> { if fr.e.If? && fr.lv.ts != [] then Typing.Below(fr.lv.ts, 1) else fr.lv.ts }

  /** Another arm is to come. */
  predicate Turns(fr: Frame) { fr.e.If? && fr.e.hasElse && !fr.second }

  ghost predicate FrameOk(gen: G.Generator, fr: Frame) {
    && Stands(fr.lv, Cons(fr.e, fr.rest)) && Sane(fr.inner, [])
    && (fr.e.Block? || fr.e.Loop? ==>
          && gen.Entered(fr.lv.s, fr.s1, gen.BlockLabelFor(fr.e, fr.lv.s.height, fr.lv.s.off), fr.s1.outer, fr.lv.ts)
          && fr.inner == fr.s1)
    && (fr.e.If? ==>
          && gen.EnteredIf(fr.lv.s, fr.s1, fr.e.sig, fr.lv.ts) && Sane(fr.s1, [])
          && (if fr.second then fr.e.hasElse && gen.EnteredElse(fr.s1, fr.inner, fr.e.thn) && fr.s1.Generable(fr.e.thn, []) else fr.inner == fr.s1))
    && IsNested(fr.e)
  }

  /** What is known of the arm that is being generated. */
  ghost predicate ArmKnown(fr: Frame) {
    var arm, s, sig := Arm(fr), fr.inner, SigOf(fr.e);
    && Typing.Representable(arm) && (s.Typed(arm, []).Dead? || s.Typed(arm, []) == Typing.Live(sig)) && |sig| <= 1
    && s.off + Size(s.Compiled(arm)) < INVALID
    && fr.lv.s.TypedInstr(fr.e, fr.lv.ts) == Typing.Live(Below(fr) + sig)
    && (fr.lv.s.GenerableInstr(fr.e, fr.lv.ts) ==> s.Generable(arm, []))
    && (!Turns(fr) && s.Generable(arm, []) ==> fr.lv.s.GenerableInstr(fr.e, fr.lv.ts))
  }

  lemma ArmIs(gen: G.Generator, fr: Frame)
    requires FrameOk(gen, fr)
    ensures ArmKnown(fr)
  {
    hide Stands, G.Snapshot.Compiled, G.Snapshot.CompiledInstr, G.Snapshot.TypedInstr, G.Snapshot.GenerableInstr, G.Snapshot.Typed,
      G.Snapshot.Generable, Size, Sane, Typing.Representable, G.StackShows, Offsets, Subst;
    Heads(gen, fr.lv, fr.e, fr.rest);
    SaneIs(fr.lv.s, fr.lv.ts);
    HeightBound(fr.lv.s, fr.lv.ts);
    if fr.e.If? {
      gen.IfTyped(fr.lv.s, fr.e, fr.lv.ts);
      gen.IfSpec(fr.lv.s, fr.s1, fr.e, fr.lv.ts);
      if fr.second { gen.ElseSpec(fr.lv.s, fr.s1, fr.inner, fr.e, fr.lv.ts); }
      gen.NilSpec(fr.s1, []);
    } else {
      BodyRepresentable(fr.e);
      gen.BlockSpec(fr.lv.s, fr.s1, fr.e, gen.BlockLabelFor(fr.e, fr.lv.s.height, fr.lv.s.off), fr.lv.ts);
    }
  }

  lemma HeightBound(s: G.Snapshot, ts: seq<Type>)
    requires Sane(s, ts)
    ensures s.height >= 0 && s.off >= 0
  {}

  lemma BodyRepresentable(e: Instr)
    requires (e.Block? || e.Loop?) && Typing.RepresentableInstr(e)
    ensures |SigOf(e)| <= 1 && Typing.Representable(e.body)
  {}

  /** The list inside a block, at its beginning. */
  function Inside(fr: Frame): Stretch { Stretch(fr.inner, Arm(fr), [], fr.inner, []) }

  function KindOf(e: Instr): Opening
    requires IsNested(e)
  {
    if e.Block? then OpenBlock else if e.Loop? then OpenLoop else OpenIf
  }

  /** Inside a block that has just been entered. */
  lemma Enters(gen: G.Generator, fr: Frame)
    requires FrameOk(gen, fr) && gen.Ready([]) && gen.InBlock() && gen.Now() == fr.inner
    ensures At(gen, Inside(fr), Arm(fr))
  {
    hide FrameOk, At, G.Generator.Ready, G.Generator.Now, G.Snapshot.Compiled, G.Snapshot.CompiledInstr, G.Snapshot.TypedInstr, G.Snapshot.GenerableInstr,
      G.Snapshot.Typed, G.Snapshot.Generable, Size, Typing.Representable;
    ArmIs(gen, fr);
    gen.SnapshotNow([]);
    Begins(gen, Arm(fr));
  }

  lemma SaneNow(gen: G.Generator)
    requires gen.Ready([]) && gen.InBlock()
    ensures Sane(gen.Now(), [])
  {
    hide G.Generator.Ready, G.Generator.Now, Size;
    gen.SnapshotNow([]);
  }

  /** The callback for `block`, `loop` or `if`. */
  method Open(gen: G.Generator, kind: Opening, sig: seq<Type>, ghost lv: Stretch, ghost e: Instr, ghost tail: Code) returns (ghost fr: Frame)
    requires At(gen, lv, Cons(e, tail)) && IsNested(e) && kind == KindOf(e) && sig == SigOf(e)
    modifies gen
    ensures FrameOk(gen, fr) && fr.lv == lv && fr.e == e && fr.rest == tail && !fr.second
    ensures At(gen, Inside(fr), Arm(fr))
  {
    hide Stands, G.Generator.Ready, G.Generator.Now, G.Snapshot.Compiled, G.Snapshot.CompiledInstr, G.Snapshot.TypedInstr, G.Snapshot.GenerableInstr,
      G.Snapshot.Typed, G.Snapshot.Generable, Size, Sane, Typing.Representable, G.StackShows, Offsets, Typing.EndsWith;
    Heads(gen, lv, e, tail);
    gen.SnapshotNow(lv.ts);
    SigSmall(e);
    ghost var s := gen.Now();
    HeightNow(gen);
    if kind == OpenBlock {
      gen.EnterBlock(sig, lv.ts);
    } else if kind == OpenLoop {
      gen.EnterLoop(sig, lv.ts);
    } else {
      gen.IfTyped(s, e, lv.ts);
      gen.EnterIf(sig, lv.ts);
    }
    fr := Frame(lv, e, tail, gen.Now(), gen.Now(), false);
    SaneNow(gen);
    Enters(gen, fr);
  }

  lemma HeightNow(gen: G.Generator)
    requires gen.InBlock()
    ensures gen.Now().height == |gen.typeStack| && gen.Now().off == gen.istreamOffset
  {}

  lemma SigSmall(e: Instr)
    requires IsNested(e) && Typing.RepresentableInstr(e)
    ensures |SigOf(e)| <= 1
  {}

  /** The callback for `else`. */
  method Else(gen: G.Generator, ghost fr: Frame, ghost lv: Stretch) returns (ghost fr': Frame)
    requires FrameOk(gen, fr) && Turns(fr) && Completed(gen, lv) && lv.s0 == fr.inner && lv.code == Arm(fr)
    modifies gen
    ensures fr'.lv == fr.lv && fr'.e == fr.e && fr'.rest == fr.rest && fr'.second && FrameOk(gen, fr') && At(gen, Inside(fr'), Arm(fr'))
  {
    hide Stands, At, G.Generator.Ready, G.Generator.Generated, G.Generator.Now, G.Snapshot.Compiled, G.Snapshot.CompiledInstr, G.Snapshot.TypedInstr,
      G.Snapshot.GenerableInstr, G.Snapshot.Typed, G.Snapshot.Generable, Size, Sane, Typing.Representable, G.StackShows, Offsets, Subst;
    ArmIs(gen, fr);
    SaneIs(fr.s1, []);
    gen.EnterElse(fr.lv.s, fr.s1, fr.e, fr.lv.ts);
    fr' := fr.(inner := gen.Now(), second := true);
    SaneNow(gen);
    Enters(gen, fr');
  }

  // ----- the end of a block -----

  /** What the generator needs to leave a block, and what the patches give. */
  lemma MayLeave(gen: G.Generator, fr: Frame, lv: Stretch)
    requires FrameOk(gen, fr) && !Turns(fr) && Completed(gen, lv) && lv.s0 == fr.inner && lv.code == Arm(fr)
    ensures gen.Valid() && gen.skip == [] && |gen.labelStack| > 0 && gen.labelStack[..|gen.labelStack| - 1] == fr.lv.s.labels
    ensures var l := gen.labelStack[|gen.labelStack| - 1]; l.labelType != F.FuncLabel && l.sig == SigOf(fr.e) && |l.sig| <= 1 && gen.Finished(l.sig)
    ensures gen.InBlock() && gen.Outer() == fr.s1.outer && G.StackShows(fr.s1.outer, fr.lv.s.labels, Below(fr))
    ensures F.Close(gen.items, gen.labelStack, gen.istreamOffset) == fr.lv.s.items + fr.lv.s.CompiledInstr(fr.e)
  {
    hide G.Snapshot.Compiled, G.Snapshot.CompiledInstr, G.Snapshot.TypedInstr, G.Snapshot.GenerableInstr, G.Snapshot.Typed, G.Snapshot.Generable,
      G.Generator.Valid, G.Generator.Live, G.Generator.Dead, Size, Typing.Representable, G.StackShows, Offsets, Subst, F.Close, Stands;
    ArmIs(gen, fr);
    SaneIs(fr.inner, []);
    gen.ReachesEnd(lv.s0.Typed(lv.code, []), SigOf(fr.e));
    Closes(gen, fr, lv);
  }

  lemma Closes(gen: G.Generator, fr: Frame, lv: Stretch)
    requires FrameOk(gen, fr) && !Turns(fr) && Completed(gen, lv) && lv.s0 == fr.inner && lv.code == Arm(fr)
    ensures F.Close(gen.items, gen.labelStack, gen.istreamOffset) == fr.lv.s.items + fr.lv.s.CompiledInstr(fr.e)
  {
    hide G.Snapshot.Compiled, G.Snapshot.CompiledInstr, G.Snapshot.TypedInstr, G.Snapshot.GenerableInstr, G.Snapshot.Typed, G.Snapshot.Generable,
      G.Generator.Generated, Size, Typing.Representable, G.StackShows, Offsets, Subst, F.Close, Stands, Sane;
    var s, r := fr.lv.s, lv.s0.Typed(lv.code, []);
    Heads(gen, fr.lv, fr.e, fr.rest);
    SaneIs(s, fr.lv.ts);
    SaneIs(fr.s1, []) by { if !fr.e.If? { assert fr.inner == fr.s1; } }
    SaneIs(fr.inner, []);
    HeightBound(s, fr.lv.ts);
    if !fr.e.If? {
      ArmIs(gen, fr);
      gen.CloseSpec(s, fr.s1, fr.e, gen.BlockLabelFor(fr.e, s.height, s.off), r);
    } else {
      IfHeight(gen, fr);
      if fr.second { gen.CloseElse(s, fr.s1, fr.inner, fr.e, fr.lv.ts, r); } else { gen.CloseIf(s, fr.s1, fr.e, fr.lv.ts, r); }
    }
  }

  lemma IfHeight(gen: G.Generator, fr: Frame)
    requires FrameOk(gen, fr) && fr.e.If?
    ensures fr.lv.s.height >= 1
  {
    hide Stands, G.StackShows, Offsets, Subst;
    HeightBound(fr.s1, []);
  }

  /** The callback for END: the block is an instruction of the list around it. */
  method End(gen: G.Generator, ghost fr: Frame, ghost lv: Stretch)
    requires FrameOk(gen, fr) && !Turns(fr) && Completed(gen, lv) && lv.s0 == fr.inner && lv.code == Arm(fr)
    modifies gen
    ensures At(gen, Next(fr.lv, fr.e), fr.rest) && Next(fr.lv, fr.e).s0 == fr.lv.s0 && Next(fr.lv, fr.e).code == fr.lv.code
  {
    hide At, Stands, G.Snapshot.Compiled, G.Snapshot.CompiledInstr, G.Snapshot.TypedInstr, G.Snapshot.GenerableInstr, G.Snapshot.Typed, G.Snapshot.Generable,
      G.Generator.Valid, G.Generator.Live, G.Generator.Dead, Size, Sane, Typing.Representable, G.StackShows, Offsets, Subst, F.Close, FrameOk, G.Generator.Reaches;
    ArmIs(gen, fr);
    MayLeave(gen, fr, lv);
    Around(gen, fr);
    gen.LeaveBlock(fr.lv.s.labels, fr.s1.outer, Below(fr));
    gen.LiveTop(Below(fr) + SigOf(fr.e));
    ReachesLive(gen, Below(fr) + SigOf(fr.e));
    StandsBefore(gen, fr);
    After(gen, fr.lv, fr.e, fr.rest);
  }

  lemma StandsBefore(gen: G.Generator, fr: Frame)
    requires FrameOk(gen, fr)
    ensures Stands(fr.lv, Cons(fr.e, fr.rest))
  {
    hide Stands;
  }

  lemma ReachesLive(gen: G.Generator, ts: seq<Type>)
    requires gen.Live(ts)
    ensures gen.Reaches(Typing.Live(ts))
  {}

  /** What a block leaves as it was. */
  lemma Around(gen: G.Generator, fr: Frame)
    requires FrameOk(gen, fr)
    ensures |fr.lv.s.labels| > 0 && fr.lv.s.labels[|fr.lv.s.labels| - 1].limit <= |fr.s1.outer|
    ensures fr.lv.s.outer == fr.s1.outer[..fr.lv.s.labels[|fr.lv.s.labels| - 1].limit]
    ensures fr.inner.scope == fr.lv.s.scope && fr.inner.offsets == fr.lv.s.offsets
  {
    hide Stands, Offsets, Subst, Sane;
  }

  // ----- blocks inside blocks -----

  /** The list that began in s0 is inside the last of the frames, and so on down to
      the body of the function. */
  ghost predicate Linked(gen: G.Generator, frames: seq<Frame>, s0: G.Snapshot, code: Code, start: G.Snapshot, body: Code)
    decreases |frames|
  {
    var n := |frames|;
    if n == 0 then s0 == start && code == body
    else
      var fr := frames[n - 1];
      FrameOk(gen, fr) && s0 == fr.inner && code == Arm(fr) && Linked(gen, frames[..n - 1], fr.lv.s0, fr.lv.code, start, body)
  }

  lemma LinkedSnoc(gen: G.Generator, frames: seq<Frame>, fr: Frame, start: G.Snapshot, body: Code)
    requires FrameOk(gen, fr) && Linked(gen, frames, fr.lv.s0, fr.lv.code, start, body)
    ensures Linked(gen, frames + [fr], fr.inner, Arm(fr), start, body)
  {
    hide FrameOk;
    assert (frames + [fr])[..|frames|] == frames;
  }

  lemma LinkedLast(gen: G.Generator, frames: seq<Frame>, s0: G.Snapshot, code: Code, start: G.Snapshot, body: Code)
    requires frames != [] && Linked(gen, frames, s0, code, start, body)
    ensures var fr, front := frames[|frames| - 1], frames[..|frames| - 1];
      FrameOk(gen, fr) && s0 == fr.inner && code == Arm(fr) && Linked(gen, front, fr.lv.s0, fr.lv.code, start, body)
  {
    hide FrameOk;
  }

  /** If an arm cannot be generated, neither can the body. */
  lemma {:induction false} NotGenerable(gen: G.Generator, frames: seq<Frame>, s0: G.Snapshot, code: Code, start: G.Snapshot, body: Code)
    requires Linked(gen, frames, s0, code, start, body) && !s0.Generable(code, [])
    ensures !start.Generable(body, [])
    decreases |frames|
  {
    hide FrameOk, G.Snapshot.Generable, Stands, G.Snapshot.GenerableInstr;
    if frames != [] {
      LinkedLast(gen, frames, s0, code, start, body);
      var fr := frames[|frames| - 1];
      ArmIs(gen, fr);
      StandsBefore(gen, fr);
      Heads(gen, fr.lv, fr.e, fr.rest);
      NotGenerable(gen, frames[..|frames| - 1], fr.lv.s0, fr.lv.code, start, body);
    }
  }

  // ----- the bytes that are still to come -----

  /** From the end of an arm to the end of its block. */
  function Closing(e: Instr, second: bool): seq<u8> {
    (if e.If? && e.hasElse && !second then [ELSE] + CodeBytes(e.els) else []) + [END]
  }

  /** From the end of the innermost list to the end of the function. */
  function Tail(frames: seq<Frame>): seq<u8> {
    var n := |frames|;
    if n == 0 then [END] else Closing(frames[n - 1].e, frames[n - 1].second) + (CodeBytes(frames[n - 1].rest) + Tail(frames[..n - 1]))
  }

  lemma TailSnoc(frames: seq<Frame>, fr: Frame)
    ensures Tail(frames + [fr]) == Closing(fr.e, fr.second) + (CodeBytes(fr.rest) + Tail(frames))
  {
    hide Closing, CodeBytes;
    assert (frames + [fr])[..|frames|] == frames;
  }

  /** Everything that is still to come can be read. */
  predicate Legible(frames: seq<Frame>, rest: Code, lim: Limits) {
    Canonical(rest, lim) && forall k :: 0 <= k < |frames| ==> LegibleFrame(frames[k], lim)
  }

  predicate LegibleFrame(fr: Frame, lim: Limits) { Canonical(fr.rest, lim) && (fr.e.If? ==> Canonical(fr.e.els, lim)) }

  ghost predicate Ahead(s: seq<u8>, off: nat, bodyEnd: nat, end: nat, frames: seq<Frame>, rest: Code) {
    var bytes := CodeBytes(rest) + Tail(frames);
    Has(s, off, end, bytes) && off + |bytes| == bodyEnd
  }

  /** The bytes of a block: its head, its first arm, and what closes it. */
  function Head(e: Instr): seq<u8>
    requires IsNested(e)
  {
    [if e.Block? then BLOCK else if e.Loop? then LOOP else IF] + SigBytes(SigOf(e))
  }

  function FirstArm(e: Instr): Code
    requires IsNested(e)
  {
    if e.If? then e.thn else e.body
  }

  lemma NestedBytes(e: Instr)
    requires IsNested(e)
    ensures InstrBytes(e) == Head(e) + (CodeBytes(FirstArm(e)) + Closing(e, false))
  {
    hide CodeBytes, SigBytes;
  }

  /** The next event: a leaf. */
  lemma LeafAhead(s: seq<u8>, off: nat, bodyEnd: nat, end: nat, lim: Limits, frames: seq<Frame>, e: Instr, tail: Code)
    requires Ahead(s, off, bodyEnd, end, frames, Cons(e, tail)) && Legible(frames, Cons(e, tail), lim) && !IsNested(e)
    ensures end <= |s| && Decode(s, off, end, lim) == Binary.Next(Leaf(e), off + |LeafBytes(e)|)
    ensures Ahead(s, off + |LeafBytes(e)|, bodyEnd, end, frames, tail) && Legible(frames, tail, lim) && off + |LeafBytes(e)| < bodyEnd
  {
    hide Decode, LeafBytes, Has, Tail, Plain, CodeBytes, Canonical;
    LeafParts(e, tail, lim);
    Assoc(LeafBytes(e), CodeBytes(tail), Tail(frames));
    HasSplit(s, off, end, LeafBytes(e), CodeBytes(tail) + Tail(frames));
    HasBound(s, off, end, LeafBytes(e));
    LeafRead(s, off, end, e, lim);
    TailSome(frames);
  }

  lemma LeafParts(e: Instr, tail: Code, lim: Limits)
    requires !IsNested(e) && Canonical(Cons(e, tail), lim)
    ensures CodeBytes(Cons(e, tail)) == LeafBytes(e) + CodeBytes(tail) && Plain(e, lim) && Canonical(tail, lim)
  {
    hide LeafBytes, Plain;
    assert CanonicalInstr(e, lim);
    assert InstrBytes(e) == LeafBytes(e);
  }

  lemma TailSome(frames: seq<Frame>)
    ensures |Tail(frames)| > 0
  {}

  /** A block. */
  lemma BlockAhead(s: seq<u8>, off: nat, bodyEnd: nat, end: nat, lim: Limits, frames: seq<Frame>, fr: Frame)
    requires IsNested(fr.e) && !fr.second && Legible(frames, Cons(fr.e, fr.rest), lim) && |SigOf(fr.e)| <= 1
    requires Ahead(s, off, bodyEnd, end, frames, Cons(fr.e, fr.rest))
    ensures end <= |s| && Decode(s, off, end, lim) == Binary.Next(Binary.Open(KindOf(fr.e), SigOf(fr.e)), off + |Head(fr.e)|)
    ensures Ahead(s, off + |Head(fr.e)|, bodyEnd, end, frames + [fr], FirstArm(fr.e)) && Legible(frames + [fr], FirstArm(fr.e), lim)
    ensures off + |Head(fr.e)| < bodyEnd
  {
    hide Decode, Has, Tail, Closing, SigBytes, InstrBytes, Canonical;
    var e, arm, closing, after := fr.e, CodeBytes(FirstArm(fr.e)), Closing(fr.e, false), CodeBytes(fr.rest) + Tail(frames);
    NestedBytes(e);
    CanonicalParts(e, fr.rest, lim);
    Assoc(InstrBytes(e), CodeBytes(fr.rest), Tail(frames));
    Assoc(Head(e), arm + closing, after);
    Assoc(arm, closing, after);
    TailSnoc(frames, fr);
    TailSome(frames + [fr]);
    HasSplit(s, off, end, Head(e), arm + Tail(frames + [fr]));
    HasBound(s, off, end, Head(e));
    OpenRead(s, off, end, SigOf(e), KindOf(e), lim);
  }

  lemma CanonicalParts(e: Instr, rest: Code, lim: Limits)
    requires IsNested(e) && Canonical(Cons(e, rest), lim)
    ensures Canonical(FirstArm(e), lim) && Canonical(rest, lim) && (e.If? ==> Canonical(e.els, lim))
  {}

  /** The second arm. */
  lemma ElseAhead(s: seq<u8>, off: nat, bodyEnd: nat, end: nat, lim: Limits, frames: seq<Frame>, fr: Frame)
    requires frames != [] && fr == frames[|frames| - 1] && Turns(fr) && Legible(frames, Nil, lim) && Ahead(s, off, bodyEnd, end, frames, Nil)
    ensures end <= |s| && Decode(s, off, end, lim) == Binary.Next(Binary.Else, off + 1) && off + 1 < bodyEnd
    ensures forall fr': Frame :: fr'.e == fr.e && fr'.rest == fr.rest && fr'.second ==>
      Ahead(s, off + 1, bodyEnd, end, frames[..|frames| - 1] + [fr'], fr.e.els) && Legible(frames[..|frames| - 1] + [fr'], fr.e.els, lim)
  {
    hide Decode, Has, Tail, CodeBytes, Canonical;
    var front, els := frames[..|frames| - 1], CodeBytes(fr.e.els);
    assert frames == front + [fr];
    TailSnoc(front, fr);
    var after := CodeBytes(fr.rest) + Tail(front);
    EmptyBytes();
    assert CodeBytes(Nil) + Tail(frames) == Tail(frames);
    Assoc([ELSE], els, [END]);
    Assoc([ELSE], els + [END], after);
    Assoc(els, [END], after);
    HasSplit(s, off, end, [ELSE], els + ([END] + after));
    HasBound(s, off, end, [ELSE]);
    MarkRead(s, off, end, ELSE, lim);
    forall fr': Frame | fr'.e == fr.e && fr'.rest == fr.rest && fr'.second
      ensures Ahead(s, off + 1, bodyEnd, end, front + [fr'], fr.e.els) && Legible(front + [fr'], fr.e.els, lim)
    {
      TailSnoc(front, fr');
      assert [] + [END] == [END];
    }
  }

  lemma EmptyBytes()
    ensures CodeBytes(Nil) == []
  {}

  /** The end of a block. */
  lemma EndAhead(s: seq<u8>, off: nat, bodyEnd: nat, end: nat, lim: Limits, frames: seq<Frame>, fr: Frame)
    requires frames != [] && fr == frames[|frames| - 1] && !Turns(fr) && Legible(frames, Nil, lim) && Ahead(s, off, bodyEnd, end, frames, Nil)
    ensures end <= |s| && Decode(s, off, end, lim) == Binary.Next(Binary.End, off + 1) && off + 1 < bodyEnd
    ensures Ahead(s, off + 1, bodyEnd, end, frames[..|frames| - 1], fr.rest) && Legible(frames[..|frames| - 1], fr.rest, lim)
  {
    hide Decode, Has, Tail, CodeBytes, Canonical;
    var front := frames[..|frames| - 1];
    assert frames == front + [fr];
    TailSnoc(front, fr);
    EmptyBytes();
    assert CodeBytes(Nil) + Tail(frames) == Tail(frames);
    assert [] + [END] == [END];
    TailSome(front);
    HasSplit(s, off, end, [END], CodeBytes(fr.rest) + Tail(front));
    HasBound(s, off, end, [END]);
    MarkRead(s, off, end, END, lim);
  }

  /** The end of the function. */
  lemma LastAhead(s: seq<u8>, off: nat, bodyEnd: nat, end: nat, lim: Limits)
    requires Ahead(s, off, bodyEnd, end, [], Nil)
    ensures end <= |s| && Decode(s, off, end, lim) == Binary.Next(Binary.End, bodyEnd) && off < bodyEnd
  {
    hide Decode, Has;
    assert [] + [END] == [END];
    HasBound(s, off, end, [END]);
    MarkRead(s, off, end, END, lim);
  }

  // ----- the loop -----

  /** Where the generator and the reader stand in a body. */
  ghost predicate Reading(gen: G.Generator, s: seq<u8>, off: nat, bodyEnd: nat, end: nat, lim: Limits,
      frames: seq<Frame>, lv: Stretch, rest: Code, start: G.Snapshot, body: Code)
    reads gen
  {
    && Linked(gen, frames, lv.s0, lv.code, start, body) && At(gen, lv, rest)
    && Ahead(s, off, bodyEnd, end, frames, rest) && Legible(frames, rest, lim)
  }

  lemma Starts(gen: G.Generator, s: seq<u8>, off: nat, bodyEnd: nat, end: nat, lim: Limits, code: Code)
    requires gen.Ready([]) && gen.InBlock() && Typing.Representable(code)
    requires !gen.Now().Typed(code, []).Bad? && gen.Room(Size(gen.Now().Compiled(code)))
    requires Canonical(code, lim) && Has(s, off, end, CodeBytes(code) + [END]) && bodyEnd == off + |CodeBytes(code)| + 1
    ensures Reading(gen, s, off, bodyEnd, end, lim, [], Stretch(gen.Now(), code, [], gen.Now(), []), code, gen.Now(), code)
  {
    hide At, Canonical, CodeBytes, Has, G.Generator.Ready, G.Generator.Now, G.Snapshot.Compiled, G.Snapshot.Typed, Size, Typing.Representable;
    Begins(gen, code);
  }

  lemma EndIs(gen: G.Generator, lv: Stretch, start: G.Snapshot, code: Code)
    requires Completed(gen, lv) && Linked(gen, [], lv.s0, lv.code, start, code)
    ensures gen.Generated(start, start.Compiled(code), start.Typed(code, [])) && start.Generable(code, [])
  {
    hide G.Generator.Generated;
  }

  /** What the next event is. */
  ghost predicate Comes(d: Decoded, s: seq<u8>, off: nat, bodyEnd: nat, end: nat, lim: Limits, frames: seq<Frame>, rest: Code) {
    d.Next? && d.offset > off && (
      match d.event
      case Leaf(e) =>
        && rest.Cons? && !IsNested(rest.head) && e == rest.head && d.offset < bodyEnd
        && Ahead(s, d.offset, bodyEnd, end, frames, rest.tail) && Legible(frames, rest.tail, lim)
      case Open(kind, sig) =>
        && rest.Cons? && IsNested(rest.head) && kind == KindOf(rest.head) && sig == SigOf(rest.head) && d.offset < bodyEnd
        && forall fr: Frame :: Enters1(fr, rest) ==>
             Ahead(s, d.offset, bodyEnd, end, frames + [fr], FirstArm(fr.e)) && Legible(frames + [fr], FirstArm(fr.e), lim)
      case Else =>
        && rest == Nil && frames != [] && Turns(frames[|frames| - 1]) && d.offset < bodyEnd
        && forall fr: Frame :: Enters2(fr, frames[|frames| - 1]) ==>
             Ahead(s, d.offset, bodyEnd, end, frames[..|frames| - 1] + [fr], fr.e.els) && Legible(frames[..|frames| - 1] + [fr], fr.e.els, lim)
      case End =>
        && rest == Nil
        && if frames == [] then d.offset == bodyEnd
           else
             && !Turns(frames[|frames| - 1]) && d.offset < bodyEnd
             && Ahead(s, d.offset, bodyEnd, end, frames[..|frames| - 1], frames[|frames| - 1].rest)
             && Legible(frames[..|frames| - 1], frames[|frames| - 1].rest, lim))
  }

  /** A frame for the block that comes next. */
  predicate Enters1(fr: Frame, rest: Code) { rest.Cons? && fr.e == rest.head && IsNested(fr.e) && fr.rest == rest.tail && !fr.second }

  /** The same frame in its second arm. */
  predicate Enters2(fr: Frame, before: Frame) { fr.e == before.e && fr.e.If? && fr.rest == before.rest && fr.second }

  lemma Coming(s: seq<u8>, off: nat, bodyEnd: nat, end: nat, lim: Limits, frames: seq<Frame>, rest: Code)
    requires Ahead(s, off, bodyEnd, end, frames, rest) && Legible(frames, rest, lim)
    ensures end <= |s| && Comes(Decode(s, off, end, lim), s, off, bodyEnd, end, lim, frames, rest)
  {
    hide Ahead, Legible, Decode, LeafBytes, Head, Canonical;
    if rest.Cons? {
      if IsNested(rest.head) {
        SigOne(rest, lim) by { LegibleRest(frames, rest, lim); }
        BlockComes(s, off, bodyEnd, end, lim, frames, rest);
      } else {
        LeafAhead(s, off, bodyEnd, end, lim, frames, rest.head, rest.tail);
        LeafSome(rest.head);
      }
    } else if frames == [] {
      LastAhead(s, off, bodyEnd, end, lim);
    } else if Turns(frames[|frames| - 1]) {
      ElseAhead(s, off, bodyEnd, end, lim, frames, frames[|frames| - 1]);
    } else {
      EndAhead(s, off, bodyEnd, end, lim, frames, frames[|frames| - 1]);
    }
  }

  lemma LegibleRest(frames: seq<Frame>, rest: Code, lim: Limits)
    requires Legible(frames, rest, lim)
    ensures Canonical(rest, lim)
  {}

  lemma SigOne(rest: Code, lim: Limits)
    requires rest.Cons? && IsNested(rest.head) && Canonical(rest, lim)
    ensures |SigOf(rest.head)| <= 1
  {}

  lemma BlockComes(s: seq<u8>, off: nat, bodyEnd: nat, end: nat, lim: Limits, frames: seq<Frame>, rest: Code)
    requires Ahead(s, off, bodyEnd, end, frames, rest) && Legible(frames, rest, lim)
    requires rest.Cons? && IsNested(rest.head) && |SigOf(rest.head)| <= 1
    ensures end <= |s| && Comes(Decode(s, off, end, lim), s, off, bodyEnd, end, lim, frames, rest)
  {
    hide Ahead, Legible, Decode, SigBytes;
    AheadInside(s, off, bodyEnd, end, frames, rest);
    forall fr: Frame | Enters1(fr, rest)
      ensures Decode(s, off, end, lim) == Binary.Next(Binary.Open(KindOf(fr.e), SigOf(fr.e)), off + |Head(fr.e)|) && off + |Head(fr.e)| < bodyEnd
      ensures Ahead(s, off + |Head(fr.e)|, bodyEnd, end, frames + [fr], FirstArm(fr.e)) && Legible(frames + [fr], FirstArm(fr.e), lim)
    {
      BlockAhead(s, off, bodyEnd, end, lim, frames, fr);
    }
    var some := G.Snapshot([], [], [], Typing.Scope(Module([], [], [], false, false, []), [], []), [], 0, 0);
    var fr := Frame(Stretch(some, Nil, [], some, []), rest.head, rest.tail, some, some, false);
    assert Enters1(fr, rest);
  }

  lemma AheadInside(s: seq<u8>, off: nat, bodyEnd: nat, end: nat, frames: seq<Frame>, rest: Code)
    requires Ahead(s, off, bodyEnd, end, frames, rest)
    ensures end <= |s|
  {
    hide CodeBytes, Tail;
  }

  /** The callback for an instruction that holds no others. */
  method Single(gen: G.Generator, e: Instr, ghost lv: Stretch, ghost tail: Code) returns (ok: bool)
    requires At(gen, lv, Cons(e, tail)) && !IsNested(e)
    modifies gen
    ensures ok ==> At(gen, Next(lv, e), tail) && Next(lv, e).s0 == lv.s0 && Next(lv, e).code == lv.code
    ensures !ok ==> !lv.s0.Generable(lv.code, [])
  {
    hide Stands, G.Generator.Ready, G.Generator.Now, G.Generator.Generated, G.Snapshot.Compiled, G.Snapshot.CompiledInstr, G.Snapshot.TypedInstr,
      G.Snapshot.GenerableInstr, G.Snapshot.Typed, G.Snapshot.Generable, Size, Sane, Typing.Representable;
    Heads(gen, lv, e, tail);
    HeightNow(gen);
    ok := gen.GenerateInstr(e, lv.ts);
    if ok { After(gen, lv, e, tail); }
  }

  /** One event, and its callback. */
  method ReadNext(gen: G.Generator, data: seq<u8>, offset: nat, bodyEnd: nat, readEnd: nat, lim: Limits,
      ghost frames: seq<Frame>, ghost lv: Stretch, ghost rest: Code, ghost start: G.Snapshot, ghost code: Code)
    returns (ok: bool, ended: bool, next: nat, ghost frames': seq<Frame>, ghost lv': Stretch, ghost rest': Code)
    requires Reading(gen, data, offset, bodyEnd, readEnd, lim, frames, lv, rest, start, code)
    modifies gen
    ensures next > offset
    ensures ok && !ended ==> next < bodyEnd && Reading(gen, data, next, bodyEnd, readEnd, lim, frames', lv', rest', start, code)
    ensures !ok ==> !start.Generable(code, [])
    ensures ended ==> ok && frames' == [] && Completed(gen, lv') && Linked(gen, [], lv'.s0, lv'.code, start, code)
  {
    hide At, Linked, Ahead, Legible, Decode, FrameOk, Completed, Stands, G.Snapshot.Generable, Typing.Representable;
    Coming(data, offset, bodyEnd, readEnd, lim, frames, rest);
    var d := Decode(data, offset, readEnd, lim);
    ok, ended, next, frames', lv', rest' := true, false, d.offset, frames, lv, Nil;
    match d.event {
      case Leaf(e) =>
        ok := Single(gen, e, lv, rest.tail);
        lv', rest' := Next(lv, e), rest.tail;
        if !ok { NotGenerable(gen, frames, lv.s0, lv.code, start, code); }
      case Open(kind, sig) =>
        ghost var fr := Open(gen, kind, sig, lv, rest.head, rest.tail);
        LinkedSnoc(gen, frames, fr, start, code);
        assert Enters1(fr, rest);
        frames', lv', rest' := frames + [fr], Inside(fr), FirstArm(fr.e);
      case Else =>
        LinkedLast(gen, frames, lv.s0, lv.code, start, code);
        ghost var front, last := frames[..|frames| - 1], frames[|frames| - 1];
        NilAt(gen, lv);
        ghost var fr := Else(gen, last, lv);
        LinkedSnoc(gen, front, fr, start, code);
        assert Enters2(fr, last);
        frames', lv', rest' := front + [fr], Inside(fr), fr.e.els;
      case End =>
        NilAt(gen, lv);
        if next == bodyEnd {
          ended := true;
        } else {
          ghost var front, last := frames[..|frames| - 1], frames[|frames| - 1];
          LinkedLast(gen, frames, lv.s0, lv.code, start, code);
          End(gen, last, lv);
          frames', lv', rest' := front, Next(last.lv, last.e), last.rest;
        }
    }
  }

  lemma NilAt(gen: G.Generator, lv: Stretch)
    requires At(gen, lv, Nil)
    ensures Completed(gen, lv)
  {
    hide Completed;
  }

  /** read_function_body: the bytes of a tree make the callbacks that the walk over
      the tree makes. */
  method GenerateBody(gen: G.Generator, data: seq<u8>, first: nat, bodyEnd: nat, readEnd: nat, lim: Limits, ghost code: Code)
    returns (ok: bool)
    requires gen.Ready([]) && gen.InBlock() && Typing.Representable(code)
    requires !gen.Now().Typed(code, []).Bad? && gen.Room(Size(gen.Now().Compiled(code)))
    requires Canonical(code, lim) && Has(data, first, readEnd, CodeBytes(code) + [END]) && bodyEnd == first + |CodeBytes(code)| + 1
    modifies gen
    ensures ok <==> old(gen.Now()).Generable(code, [])
    ensures ok ==> gen.Generated(old(gen.Now()), old(gen.Now()).Compiled(code), old(gen.Now()).Typed(code, []))
  {
    hide At, Linked, Ahead, Legible, Canonical, CodeBytes, Has, Decode, Tail, G.Generator.Ready, G.Generator.Now, G.Generator.Generated, G.Snapshot.Compiled,
      G.Snapshot.Typed, G.Snapshot.Generable, Size, Typing.Representable, FrameOk, Completed;
    ghost var start := gen.Now();
    Starts(gen, data, first, bodyEnd, readEnd, lim, code);
    ghost var frames: seq<Frame>, lv, rest := [], Stretch(start, code, [], start, []), code;
    var offset, ended := first, false;
    ok := true;
    while ok && !ended
      invariant ok && !ended ==> offset < bodyEnd && Reading(gen, data, offset, bodyEnd, readEnd, lim, frames, lv, rest, start, code)
      invariant !ok ==> !start.Generable(code, [])
      invariant ended ==> ok && frames == [] && Completed(gen, lv) && Linked(gen, [], lv.s0, lv.code, start, code)
      decreases bodyEnd - offset, !ended, ok
    {
      ok, ended, offset, frames, lv, rest := ReadNext(gen, data, offset, bodyEnd, readEnd, lim, frames, lv, rest, start, code);
    }
    if ok { EndIs(gen, lv, start, code); }
  }
}
