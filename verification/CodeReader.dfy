/** The code section as a whole (src/binary-reader.c:1925-1960): how many
    functions, then each of them, all on one label stack; and what becomes of a
    section that was written. */
module CodeReader {
  import opened Wasm
  import opened Assembly
  import opened Leb128
  import opened Binary
  import opened RoundTrip
  import opened BinaryWriter
  import opened TreeBuilder
  import opened Forest
  import opened BodyReader
  import opened FuncReader

  /** The local types of each function, and its expressions. */
  datatype Bodies = Bodies(locals: seq<seq<Type>>, work: seq<Work>, offset: nat) | BadBodies | WildBodies

  function DecodeBodies(s: seq<u8>, off: nat, end: nat, lim: Limits, n: nat): (r: Bodies)
    requires end <= |s|
    ensures r.Bodies? ==> |r.locals| == |r.work| == n && AllOk(r.work)
    decreases n
  {
    if n == 0 then Bodies([], [], off)
    else
      match DecodeBodies(s, off, end, lim, n - 1)
      case Bodies(locals, work, off') =>
        (match DecodeNext(s, off', end, lim, work)
        case BadNext => BadBodies
        case WildNext => WildBodies
        case NextFunc(ls, work', off'') => Bodies(locals + [ls], work', off''))
      case r => r
  }

  /** As many bodies as there are signatures. */
  function DecodeCodeSection(s: seq<u8>, off: nat, end: nat, lim: Limits, signatures: nat): (r: Bodies)
    requires end <= |s|
    ensures r.Bodies? ==> |r.locals| == |r.work| == signatures && AllOk(r.work)
  {
    match ReadU32(s, off, end)
    case Failed => BadBodies
    case Got(n, k) => if n != signatures then BadBodies else DecodeBodies(s, off + k, end, lim, n)
  }

  // ----- one function at a time -----

  datatype Alone = Alone(funcs: seq<FuncBody>, offset: nat) | BadAlone

  /** Every function read as if it were the only one. */
  function DecodeAlone(s: seq<u8>, off: nat, end: nat, lim: Limits, n: nat): (r: Alone)
    requires end <= |s|
    ensures r.Alone? ==> |r.funcs| == n
    decreases n
  {
    if n == 0 then Alone([], off)
    else
      match DecodeAlone(s, off, end, lim, n - 1)
      case BadAlone => BadAlone
      case Alone(funcs, off') =>
        match DecodeFunc(s, off', end, lim)
        case BadFunc => BadAlone
        case DecodedFunc(f, off'') => Alone(funcs + [f], off'')
  }

  ghost predicate IsFunc(locals: seq<Type>, w: Work, f: FuncBody) { WorkOk(w) && locals == f.locals && CodeOf(w) == f.code }

  /** The section holds these functions. */
  ghost predicate Holds(b: Bodies, a: Alone) {
    && b.Bodies? && a.Alone? && b.offset == a.offset && |b.locals| == |b.work| == |a.funcs|
    && forall i :: 0 <= i < |a.funcs| ==> IsFunc(b.locals[i], b.work[i], a.funcs[i])
  }

  /** Functions that are accepted one at a time are accepted together, with the
      same local types and trees. */
  lemma {:induction false} TogetherAsAlone(s: seq<u8>, off: nat, end: nat, lim: Limits, n: nat)
    requires end <= |s| && DecodeAlone(s, off, end, lim, n).Alone?
    ensures Holds(DecodeBodies(s, off, end, lim, n), DecodeAlone(s, off, end, lim, n))
    decreases n
  {
    hide DecodeFunc, DecodeNext, CodeOf;
    if n > 0 {
      TogetherAsAlone(s, off, end, lim, n - 1);
      var b, a := DecodeBodies(s, off, end, lim, n - 1), DecodeAlone(s, off, end, lim, n - 1);
      var w := NextAlone(s, a.offset, end, lim, b.work);
      var f := DecodeFunc(s, a.offset, end, lim).body;
      assert IsFunc(f.locals, w, f);
    }
  }

  /** The first n functions, as far as they are accepted, close their blocks. */
  predicate AllBalanced(s: seq<u8>, off: nat, end: nat, lim: Limits, n: nat)
    requires end <= |s|
    decreases n
  {
    n > 0 ==>
      && AllBalanced(s, off, end, lim, n - 1)
      && (DecodeAlone(s, off, end, lim, n - 1).Alone? ==> Balanced(s, DecodeAlone(s, off, end, lim, n - 1).offset, end, lim))
  }

  lemma {:induction false} NoneLeft(s: seq<u8>, off: nat, end: nat, lim: Limits, n: nat)
    requires end <= |s| && DecodeAlone(s, off, end, lim, n).Alone? && AllBalanced(s, off, end, lim, n)
    ensures DecodeBodies(s, off, end, lim, n).Bodies? && NoLabels(DecodeBodies(s, off, end, lim, n).work)
    ensures DecodeBodies(s, off, end, lim, n).offset == DecodeAlone(s, off, end, lim, n).offset
    decreases n
  {
    hide DecodeFunc, DecodeNext, Balanced;
    if n > 0 {
      NoneLeft(s, off, end, lim, n - 1);
      var w := NextAlone(s, DecodeAlone(s, off, end, lim, n - 1).offset, end, lim, DecodeBodies(s, off, end, lim, n - 1).work);
    }
  }

  /** Functions read one at a time leave no label exactly if all are balanced. */
  lemma {:induction false} NoneOpen(s: seq<u8>, off: nat, end: nat, lim: Limits, n: nat)
    requires end <= |s| && DecodeAlone(s, off, end, lim, n).Alone?
    ensures DecodeBodies(s, off, end, lim, n).Bodies?
    ensures NoLabels(DecodeBodies(s, off, end, lim, n).work) <==> AllBalanced(s, off, end, lim, n)
    decreases n
  {
    hide DecodeFunc, DecodeNext, Balanced, Holds;
    TogetherAsAlone(s, off, end, lim, n);
    assert DecodeBodies(s, off, end, lim, n).Bodies? by { HoldsBodies(DecodeBodies(s, off, end, lim, n), DecodeAlone(s, off, end, lim, n)); }
    if n > 0 {
      NoneOpen(s, off, end, lim, n - 1);
      var b, a := DecodeBodies(s, off, end, lim, n - 1), DecodeAlone(s, off, end, lim, n - 1);
      HoldsBodies(b, a) by { TogetherAsAlone(s, off, end, lim, n - 1); }
      var w := NextAlone(s, a.offset, end, lim, b.work);
      assert (b.work + [w])[|b.work|] == w;
      assert forall i :: 0 <= i < |b.work| ==> (b.work + [w])[i] == b.work[i];
    }
  }

  lemma HoldsBodies(b: Bodies, a: Alone)
    requires Holds(b, a)
    ensures b.Bodies? && a.Alone? && b.offset == a.offset
  {}

  /** One of the first n functions is hollow, and those before it are accepted. */
  predicate AnyHollow(s: seq<u8>, off: nat, end: nat, lim: Limits, n: nat)
    requires end <= |s|
    decreases n
  {
    n > 0 && (
      || AnyHollow(s, off, end, lim, n - 1)
      || (DecodeAlone(s, off, end, lim, n - 1).Alone? && HollowFunc(s, DecodeAlone(s, off, end, lim, n - 1).offset, end, lim)))
  }

  /** The first n functions are accepted together, or else not one at a time. */
  predicate Agree(s: seq<u8>, off: nat, end: nat, lim: Limits, n: nat)
    requires end <= |s|
  {
    DecodeBodies(s, off, end, lim, n).Bodies? <==> DecodeAlone(s, off, end, lim, n).Alone?
  }

  /** Where every function but the last closes its blocks, together is alone,
      however many functions there are, exactly if none is hollow. */
  lemma {:induction false} TogetherIsAlone(s: seq<u8>, off: nat, end: nat, lim: Limits, n: nat)
    requires end <= |s| && n > 0 && AllBalanced(s, off, end, lim, n - 1)
    ensures (forall k :: 0 < k <= n ==> Agree(s, off, end, lim, k)) <==> !AnyHollow(s, off, end, lim, n)
    decreases n
  {
    hide DecodeFunc, DecodeNext, Balanced, Holds, HollowFunc;
    if n > 1 { TogetherIsAlone(s, off, end, lim, n - 1); }
    var before := DecodeAlone(s, off, end, lim, n - 1);
    if before.Alone? {
      NoneLeft(s, off, end, lim, n - 1);
      NextClean(s, before.offset, end, lim, DecodeBodies(s, off, end, lim, n - 1).work);
    }
    if !AnyHollow(s, off, end, lim, n) {
      assert n > 1 ==> Agree(s, off, end, lim, n - 1);
      assert Agree(s, off, end, lim, n);
    } else if forall k :: 0 < k <= n ==> Agree(s, off, end, lim, k) {
      assert Agree(s, off, end, lim, n);
    }
  }

  // ----- reading what was written -----

  function ExplicitFuncs(funcs: seq<FuncBody>): (r: seq<FuncBody>)
    ensures |r| == |funcs|
  {
    seq(|funcs|, i requires 0 <= i < |funcs| => ExplicitFunc(funcs[i]))
  }

  lemma {:induction false} BodiesRead(s: seq<u8>, off: nat, end: nat, lim: Limits, canonicalize: bool, funcs: seq<FuncBody>)
    requires forall i :: 0 <= i < |funcs| ==> Writable(funcs[i]) && Canonical(ExplicitCode(funcs[i].code), lim)
    requires Has(s, off, end, BodiesBytes(canonicalize, funcs)) && |s| < 0x1_0000_0000
    ensures DecodeAlone(s, off, end, lim, |funcs|) == Alone(ExplicitFuncs(funcs), off + |BodiesBytes(canonicalize, funcs)|)
    decreases |funcs|
  {
    hide DecodeFunc, Canonical, ExplicitCode, Sized, FuncBytes, BodiesBytes, DecodeAlone, Has;
    HasBound(s, off, end, BodiesBytes(canonicalize, funcs));
    if funcs == [] {
      NoBodies(canonicalize);
      NoneDecoded(s, off, end, lim);
    } else {
      var n := |funcs| - 1;
      var front, f := funcs[..n], funcs[n];
      var before := BodiesBytes(canonicalize, front);
      BodiesSnoc(canonicalize, funcs, n);
      assert funcs[..n + 1] == funcs == front + [f];
      HasSplit(s, off, end, before, Sized(canonicalize, FuncBytes(f)));
      BodiesRead(s, off, end, lim, canonicalize, front);
      FuncRead(s, off + |before|, end, lim, canonicalize, f);
      OneMoreDecoded(s, off, end, lim, n);
      assert ExplicitFuncs(front) + [ExplicitFunc(f)] == ExplicitFuncs(funcs);
    }
  }

  lemma NoneDecoded(s: seq<u8>, off: nat, end: nat, lim: Limits)
    requires end <= |s|
    ensures DecodeAlone(s, off, end, lim, 0) == Alone([], off)
  {}

  lemma OneMoreDecoded(s: seq<u8>, off: nat, end: nat, lim: Limits, n: nat)
    requires end <= |s| && DecodeAlone(s, off, end, lim, n).Alone?
    requires DecodeFunc(s, DecodeAlone(s, off, end, lim, n).offset, end, lim).DecodedFunc?
    ensures var d := DecodeAlone(s, off, end, lim, n);
      var f := DecodeFunc(s, d.offset, end, lim);
      DecodeAlone(s, off, end, lim, n + 1) == Alone(d.funcs + [f.body], f.offset)
  {
    hide DecodeFunc;
  }

  /** The contents of a code section that was written, in either size mode, are
      read back: every function with its local types and its tree, the alignments
      written out. */
  lemma CodeSectionRead(s: seq<u8>, off: nat, end: nat, lim: Limits, canonicalize: bool, funcs: seq<FuncBody>)
    requires forall i :: 0 <= i < |funcs| ==> Writable(funcs[i]) && Canonical(ExplicitCode(funcs[i].code), lim)
    requires |s| < 0x1_0000_0000 && |funcs| < 0x1_0000_0000
    requires Has(s, off, end, U32Bytes(|funcs|) + BodiesBytes(canonicalize, funcs))
    ensures Holds(DecodeCodeSection(s, off, end, lim, |funcs|),
      Alone(ExplicitFuncs(funcs), off + |U32Bytes(|funcs|) + BodiesBytes(canonicalize, funcs)|))
  {
    hide DecodeBodies, DecodeAlone, Canonical, ExplicitCode, BodiesBytes, ReadU32, U32Bytes, Holds;
    HasSplit(s, off, end, U32Bytes(|funcs|), BodiesBytes(canonicalize, funcs));
    HasU32(s, off, end, |funcs|);
    BodiesRead(s, off + |U32Bytes(|funcs|)|, end, lim, canonicalize, funcs);
    TogetherAsAlone(s, off + |U32Bytes(|funcs|)|, end, lim, |funcs|);
  }

  // ----- a label that is left over -----

  /** Two functions: `block`, END; and END, `nop`, END. */
  const LEAKING: seq<u8> := [4, 0, BLOCK, 0x40, END, 4, 0, END, NOP, END]

  lemma SmallRead(s: seq<u8>, off: nat, v: u8)
    requires off < |s| && s[off] == v < 0x80
    ensures ReadU32(s, off, |s|) == Got(v, 1)
  {
    hide ReadU32;
    assert s[off..off + 1] == [v] == U32Bytes(v);
    U32RoundTrip(s, off, |s|, v);
  }

  lemma HeaderRead(s: seq<u8>, off: nat, size: u8)
    requires off + 1 < |s| < 0x1000 && s[off] == size < 0x80 && s[off + 1] == 0
    ensures DecodeHeader(s, off, |s|) == Header([], off + 2, off + 1 + size)
  {
    hide ReadU32;
    SmallRead(s, off, size);
    SmallRead(s, off + 1, 0);
    assert DecodeDecls(s, off + 2, |s|, 0) == Decls([], off + 2);
  }

  lemma EndRead(s: seq<u8>, off: nat, lim: Limits)
    requires off < |s| && s[off] == END
    ensures Decode(s, off, |s|, lim) == Next(End, off + 1)
  {
    hide Decode;
    assert s[off..off + 1] == [END];
    MarkRead(s, off, |s|, END, lim);
  }

  const BLOCK_LEFT := [Level(FuncLevel, [], Nil, []), Level(BlockLevel, [], Nil, [])]
  const LEFT_OPEN := [Level(FuncLevel, [], Nil, [Block([], Nil)])]

  lemma FirstLeaks(lim: Limits)
    ensures ReadBody(LEAKING, 2, 5, 10, lim, FUNCTION) == Some(BLOCK_LEFT)
    ensures DecodeNext(LEAKING, 0, 10, lim, []) == NextFunc([], [Working(LEFT_OPEN)], 5)
    ensures DecodeFunc(LEAKING, 0, 10, lim) == DecodedFunc(FuncBody([], Cons(Block([], Nil), Nil)), 5)
  {
    hide Decode, DecodeHeader, Expand, ReadBody, ReadBodies, Apply, Tree, ApplyAll;
    FirstBody(lim);
    HeaderRead(LEAKING, 0, 4);
    assert Expand([]) == [] by { NoRuns(); }
    LeakedTree();
    Within(LEAKING, 2, 5, 10, lim, [], FUNCTION);
    Popped([], BLOCK_LEFT, Working(LEFT_OPEN));
    assert [] + [Working(FUNCTION)] == [Working(FUNCTION)] && [] + [Working(BLOCK_LEFT)] == [Working(BLOCK_LEFT)];
    assert [] + [Working(LEFT_OPEN)] == [Working(LEFT_OPEN)];
  }

  lemma FirstBody(lim: Limits)
    ensures ReadBody(LEAKING, 2, 5, 10, lim, FUNCTION) == Some(BLOCK_LEFT)
  {
    hide Decode, ReadBody, Apply;
    assert LEAKING[2] == BLOCK && LEAKING[3] == 0x40;
    BlockRead(LEAKING, 2, lim);
    EndRead(LEAKING, 4, lim);
    Opened(FUNCTION, OpenBlock, []);
    Advance(LEAKING, 2, 5, 10, lim, FUNCTION, Open(OpenBlock, []), 4);
    assert FUNCTION + [Level(BlockLevel, [], Nil, [])] == BLOCK_LEFT;
    LastRead(LEAKING, 4, 5, 10, lim, BLOCK_LEFT);
  }

  lemma LeakedTree()
    ensures Tree(BLOCK_LEFT) == Cons(Block([], Nil), Nil) && Grow(BLOCK_LEFT[..1], Closed(BLOCK_LEFT[1])) == LEFT_OPEN
  {
    assert BLOCK_LEFT[..1] == FUNCTION;
    var closed := Grow(FUNCTION, Block([], Nil));
    assert closed[0].done == [Block([], Nil)] && closed[0].done[1..] == [];
    assert closed == LEFT_OPEN && Tree(closed) == ToCode([Block([], Nil)]);
  }

  lemma GrownTree()
    ensures Tree(Grow(LEFT_OPEN, Nop)) == Cons(Block([], Nil), Cons(Nop, Nil))
  {
    var grown := Grow(LEFT_OPEN, Nop);
    assert grown[0].done == [Block([], Nil), Nop] && grown[0].done[1..] == [Nop] && [Nop][1..] == [];
    assert ToCode([Nop]) == Cons(Nop, Nil);
  }

  lemma EventsApplied()
    ensures ApplyAll(All([Working(LEFT_OPEN), Working(FUNCTION)], false), End) == Goes(All([Working(LEFT_OPEN), Done(Nil)], false))
    ensures ApplyAll(All([Working(LEFT_OPEN), Done(Nil)], false), Leaf(Nop)) == Goes(All([Working(Grow(LEFT_OPEN, Nop)), Done(Nil)], false))
    ensures ApplyAll(All([Working(Grow(LEFT_OPEN, Nop)), Done(Nil)], false), End)
      == Goes(All([Done(Cons(Block([], Nil), Cons(Nop, Nil))), Done(Nil)], false))
  {
    var both, popped, grown := [Working(LEFT_OPEN), Working(FUNCTION)], [Working(LEFT_OPEN), Done(Nil)], Grow(LEFT_OPEN, Nop);
    assert [Working(LEFT_OPEN)] + [Working(FUNCTION)] == both;
    TopLast([Working(LEFT_OPEN)], Working(FUNCTION));
    TopFirst(LEFT_OPEN);
    TopFirst(grown);
    GrownTree();
    hide Top;
    assert both[1 := Done(Tree(FUNCTION))] == popped;
    assert popped[0 := Working(grown)] == [Working(grown), Done(Nil)];
    assert [Working(grown), Done(Nil)][0 := Done(Tree(grown))] == [Done(Tree(grown)), Done(Nil)];
  }

  /** The second function is not accepted on its own. Behind the first its END
      pops its own label, the `nop` goes to the end of the first function, and the
      last label is the first function's. */
  lemma SecondLeaks(lim: Limits)
    ensures DecodeNext(LEAKING, 5, 10, lim, [Working(LEFT_OPEN)])
      == NextFunc([], [Done(Cons(Block([], Nil), Cons(Nop, Nil))), Done(Nil)], 10)
    ensures DecodeFunc(LEAKING, 5, 10, lim).BadFunc?
  {
    hide Decode, DecodeHeader, Expand, ReadBody, ReadBodies, Apply;
    EndRead(LEAKING, 7, lim);
    EndRead(LEAKING, 9, lim);
    assert LEAKING[8..9] == [NOP] == LeafBytes(Nop);
    LeafBare(LEAKING, 8, 10, Nop, lim);
    HeaderRead(LEAKING, 5, 4);
    assert Expand([]) == [] by { NoRuns(); }
    var both, popped, grown := [Working(LEFT_OPEN), Working(FUNCTION)], [Working(LEFT_OPEN), Done(Nil)], Grow(LEFT_OPEN, Nop);
    assert [Working(LEFT_OPEN)] + [Working(FUNCTION)] == both;
    EventsApplied();
    hide ApplyAll, Tree, Top;
    BodyLeaks(lim, both, popped, [Working(grown), Done(Nil)]);
  }

  lemma TopFirst(stack: seq<Level>)
    ensures Top([Working(stack), Done(Nil)]) == 0
  {
    assert [Working(stack), Done(Nil)][..1] == [Working(stack)];
  }

  lemma BodyLeaks(lim: Limits, both: seq<Work>, popped: seq<Work>, grown: seq<Work>)
    requires Decode(LEAKING, 7, 10, lim) == Next(End, 8) && Decode(LEAKING, 8, 10, lim) == Next(Leaf(Nop), 9)
    requires Decode(LEAKING, 9, 10, lim) == Next(End, 10) && AllOk(both) && AllOk(popped) && AllOk(grown)
    requires ApplyAll(All(both, false), End) == Goes(All(popped, false)) && ApplyAll(All(popped, false), Leaf(Nop)) == Goes(All(grown, false))
    ensures ReadBodies(LEAKING, 7, 10, 10, lim, All(both, false)) == Goes(All(grown, false))
    ensures ReadBody(LEAKING, 7, 10, 10, lim, FUNCTION).None?
  {
    hide Decode, ApplyAll;
    assert ReadBodies(LEAKING, 9, 10, 10, lim, All(grown, false)) == Goes(All(grown, false));
    assert ReadBodies(LEAKING, 8, 10, 10, lim, All(popped, false)) == Goes(All(grown, false));
    assert Apply(FUNCTION, End) == Some([]) && ReadBody(LEAKING, 8, 10, 10, lim, []).None?;
  }

  /** A section that is accepted, although its second function is not a function:
      the two conditions for reading it one function at a time both fail. */
  lemma LabelLeaks(lim: Limits)
    ensures DecodeBodies(LEAKING, 0, 10, lim, 2)
      == Bodies([[], []], [Done(Cons(Block([], Nil), Cons(Nop, Nil))), Done(Nil)], 10)
    ensures DecodeAlone(LEAKING, 0, 10, lim, 2).BadAlone? && !Balanced(LEAKING, 0, 10, lim)
  {
    hide DecodeNext, DecodeFunc, ReadBody, Opens, Ends;
    FirstLeaks(lim);
    SecondLeaks(lim);
    HeaderRead(LEAKING, 0, 4);
    AllClosed(LEAKING, 2, 5, 10, lim);
    assert DecodeBodies(LEAKING, 0, 10, lim, 1) == Bodies([[]], [Working(LEFT_OPEN)], 5);
    assert DecodeAlone(LEAKING, 0, 10, lim, 1) == Alone([FuncBody([], Cons(Block([], Nil), Nil))], 5);
    var none: seq<seq<Type>> := [[]];
    assert none + [[]] == [[], []];
  }

  // ----- a block that is lost -----

  /** END; `block`, END. */
  const HOLLOW: seq<u8> := [5, 0, END, BLOCK, 0x40, END]

  /** END; `block`, `nop`, END. */
  const WILD: seq<u8> := [6, 0, END, BLOCK, 0x40, NOP, END]

  lemma BlockRead(s: seq<u8>, off: nat, lim: Limits)
    requires off + 1 < |s| && s[off] == BLOCK && s[off + 1] == 0x40
    ensures Decode(s, off, |s|, lim) == Next(Open(OpenBlock, []), off + 2)
  {
    hide Decode;
    assert SigBytes([]) == [0x40];
    assert s[off..off + 2] == [BLOCK] + SigBytes([]);
    OpenRead(s, off, |s|, [], OpenBlock, lim);
  }

  /** After the END that closes the function there is no label. */
  lemma ClosedEarly()
    ensures ApplyAll(All([Working(FUNCTION)], false), End) == Goes(All([Done(Nil)], false)) && Apply(FUNCTION, End) == Some([])
  {
    TopLast([], Working(FUNCTION));
    assert [] + [Working(FUNCTION)] == [Working(FUNCTION)];
    assert [Working(FUNCTION)][0 := Done(Nil)] == [Done(Nil)];
  }

  /** A function that is accepted although it is none: its block is lost, and what
      is left of it is empty. */
  lemma BlockLost(lim: Limits)
    ensures DecodeNext(HOLLOW, 0, 6, lim, []) == NextFunc([], [Done(Nil)], 6)
    ensures DecodeFunc(HOLLOW, 0, 6, lim).BadFunc? && HollowFunc(HOLLOW, 0, 6, lim)
  {
    hide Decode, DecodeHeader, Expand;
    HeaderRead(HOLLOW, 0, 5);
    EndRead(HOLLOW, 2, lim);
    BlockRead(HOLLOW, 3, lim);
    EndRead(HOLLOW, 5, lim);
    assert Expand([]) == [] by { NoRuns(); }
    ClosedEarly();
    NoneOnTop([Done(Nil)]);
    assert [] + [Working(FUNCTION)] == [Working(FUNCTION)];
    hide ApplyAll, Top;
    HollowRead(lim);
  }

  lemma HollowRead(lim: Limits)
    requires Decode(HOLLOW, 2, 6, lim) == Next(End, 3) && Decode(HOLLOW, 3, 6, lim) == Next(Open(OpenBlock, []), 5)
    requires Decode(HOLLOW, 5, 6, lim) == Next(End, 6)
    ensures Sane(All([Working(FUNCTION)], false)) && Sane(All([Done(Nil)], true))
    ensures ReadBodies(HOLLOW, 2, 6, 6, lim, All([Working(FUNCTION)], false)) == Goes(All([Done(Nil)], true))
    ensures ApplyAll(All([Done(Nil)], true), End) == Goes(All([Done(Nil)], false))
    ensures ReadBody(HOLLOW, 2, 6, 6, lim, FUNCTION).None? && Hollow(HOLLOW, 2, 6, 6, lim, FUNCTION)
  {
    hide Decode;
    ClosedEarly();
    NoneOnTop([Done(Nil)]);
    assert ApplyAll(All([Done(Nil)], false), Open(OpenBlock, [])) == Goes(All([Done(Nil)], true));
    assert ReadBodies(HOLLOW, 5, 6, 6, lim, All([Done(Nil)], true)) == Goes(All([Done(Nil)], true));
    assert ReadBodies(HOLLOW, 3, 6, 6, lim, All([Done(Nil)], false)) == Goes(All([Done(Nil)], true));
    assert Strays(HOLLOW, 5, 6, 6, lim, true) && Strays(HOLLOW, 3, 6, 6, lim, false);
    assert ReadBody(HOLLOW, 3, 6, 6, lim, []).None?;
  }

  /** A function in the reading of which a node is used that has been freed. */
  lemma BlockUsed(lim: Limits)
    ensures DecodeNext(WILD, 0, 7, lim, []).WildNext?
  {
    hide Decode, DecodeHeader, Expand, ReadBodies, ApplyAll, Top;
    HeaderRead(WILD, 0, 6);
    WildRead(lim);
    assert [] + [Working(FUNCTION)] == [Working(FUNCTION)];
  }

  lemma WildRead(lim: Limits)
    ensures Sane(All([Working(FUNCTION)], false)) && ReadBodies(WILD, 2, 7, 7, lim, All([Working(FUNCTION)], false)) == Undefined
  {
    hide Decode;
    EndRead(WILD, 2, lim);
    BlockRead(WILD, 3, lim);
    assert WILD[5..6] == [NOP] == LeafBytes(Nop);
    LeafBare(WILD, 5, 7, Nop, lim);
    ClosedEarly();
    NoneOnTop([Done(Nil)]);
    assert ReadBodies(WILD, 5, 7, 7, lim, All([Done(Nil)], true)) == Undefined;
    assert ReadBodies(WILD, 3, 7, 7, lim, All([Done(Nil)], false)) == Undefined;
  }

  // ----- the reader's own loop -----

  lemma {:induction false} BadBodiesStay(s: seq<u8>, off: nat, end: nat, lim: Limits, i: nat, n: nat)
    requires end <= |s| && i <= n && !DecodeBodies(s, off, end, lim, i).Bodies?
    ensures DecodeBodies(s, off, end, lim, n) == DecodeBodies(s, off, end, lim, i)
    decreases n
  {
    hide DecodeNext;
    if i < n { BadBodiesStay(s, off, end, lim, i, n - 1); }
  }

  /** The reader's answer is the decoder's. */
  ghost predicate Said(a: Answer, d: Bodies) { (a.Yes? <==> d.Bodies?) && (a.Wild? <==> d.WildBodies?) }

  /** read_code_section */
  method ReadCodeSection(data: seq<u8>, start: nat, readEnd: nat, limits: Limits, signatures: nat)
    returns (a: Answer, locals: seq<seq<Type>>, trees: Trees, offset: nat)
    requires readEnd <= |data|
    ensures var d := DecodeCodeSection(data, start, readEnd, limits, signatures);
      && Said(a, d)
      && (a.Yes? ==> locals == d.locals && offset == d.offset && trees.Valid() && trees.work == d.work && AllSpelled(trees.builders, d.work))
  {
    hide ReadU32, DecodeBodies, Trees.Valid, AllSpelled;
    trees := new Trees();
    a, locals, offset := No, [], start;
    var count := ReadU32(data, offset, readEnd);
    if count.Got? && count.value == signatures {
      a, locals, offset := ReadFuncs(data, offset + count.length, readEnd, limits, signatures, trees);
      if a.Yes? { Spelled(trees); }
    }
  }

  /** Its loop. */
  method ReadFuncs(data: seq<u8>, first: nat, readEnd: nat, limits: Limits, n: nat, trees: Trees)
    returns (a: Answer, locals: seq<seq<Type>>, offset: nat)
    requires readEnd <= |data| && trees.Valid() && trees.work == [] && trees.builders == [] && !trees.lost
    modifies trees
    ensures var d := DecodeBodies(data, first, readEnd, limits, n);
      Said(a, d) && (a.Yes? ==> d == Bodies(locals, trees.work, offset) && trees.Valid() && !trees.lost)
  {
    hide ReadU32, DecodeNext, Trees.Valid;
    var reader := new Reader(data, limits, trees, first, readEnd);
    var functions := new Functions(reader);
    a, locals := Yes, [];
    var i := 0;
    while i < n && a.Yes?
      invariant 0 <= i <= n && functions.reader == reader && reader.forest == trees && reader.data == data && reader.readEnd == readEnd
      invariant reader.limits == limits && (a.Yes? ==> trees.Valid() && !trees.lost)
      invariant fresh(functions) && fresh(reader) && fresh(trees.builders)
      invariant Said(a, DecodeBodies(data, first, readEnd, limits, i))
      invariant a.Yes? ==> DecodeBodies(data, first, readEnd, limits, i) == Bodies(locals, trees.work, reader.offset)
      decreases n - i, a.Yes?
    {
      a := functions.ReadFunc();
      if a.Yes? { locals := locals + [functions.localTypes]; }
      i := i + 1;
    }
    offset := reader.offset;
    if !a.Yes? { BadBodiesStay(data, first, readEnd, limits, i, n); }
  }
}
