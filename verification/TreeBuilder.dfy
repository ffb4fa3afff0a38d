/** The reader's callbacks (src/binary-reader-ast.c): nodes are linked through
    `next`, `first` and `second` pointers as they are made, and a stack of labels
    points into the tree being built. A pointer is an index into `nodes`, which
    lists the nodes in the order they were allocated. */
module TreeBuilder {
  import opened Wasm
  import opened Binary

  /** An expression node. `head` is the instruction without its bodies; `first`
      is the body or first arm, `second` the second arm. */
  datatype Node = Node(head: Instr, next: Option<nat>, first: Option<nat>, second: Option<nat>)

  /** The pointer a label's list starts at; LostSlot if it was in a node that has
      been freed. */
  datatype Slot = RootSlot | FirstSlot(owner: nat) | SecondSlot(owner: nat) | LostSlot

  datatype LabelNode = LabelNode(kind: LevelKind, first: Slot, last: Option<nat>)

  // ----- the shape of finished trees -----

  function Count(e: Instr): (n: nat)
    ensures n >= 1
  {
    match e
    case Block(_, body) => 1 + CountCode(body)
    case Loop(_, body) => 1 + CountCode(body)
    case If(_, thn, _, els) => 1 + CountCode(thn) + CountCode(els)
    case _ => 1
  }

  function CountCode(code: Code): nat {
    match code
    case Nil => 0
    case Cons(e, rest) => Count(e) + CountCode(rest)
  }

  function CountSeq(es: seq<Instr>): nat {
    if es == [] then 0 else CountSeq(es[..|es| - 1]) + Count(es[|es| - 1])
  }

  function Head(e: Instr): Instr {
    match e
    case Block(sig, _) => Block(sig, Nil)
    case Loop(sig, _) => Loop(sig, Nil)
    case If(sig, _, _, _) => If(sig, Nil, false, Nil)
    case _ => e
  }

  /** The nodes from i on spell out `e`. */
  predicate Spells(nodes: seq<Node>, i: nat, e: Instr)
    decreases e, 1
  {
    && i < |nodes| && nodes[i].head == Head(e)
    && match e
       case Block(_, body) => SpellsCode(nodes, nodes[i].first, i + 1, body) && nodes[i].second == None
       case Loop(_, body) => SpellsCode(nodes, nodes[i].first, i + 1, body) && nodes[i].second == None
       case If(_, thn, hasElse, els) =>
         && SpellsCode(nodes, nodes[i].first, i + 1, thn)
         && SpellsCode(nodes, nodes[i].second, i + 1 + CountCode(thn), els)
         && (hasElse <==> els != Nil)
       case _ => nodes[i].first == None && nodes[i].second == None
  }

  /** Following `next` from `p` spells out the list; its nodes start at `at`. */
  predicate SpellsCode(nodes: seq<Node>, p: Option<nat>, at: nat, code: Code)
    decreases code, 0
  {
    match code
    case Nil => p == None
    case Cons(e, rest) => p == Some(at) && Spells(nodes, at, e) && SpellsCode(nodes, nodes[at].next, at + Count(e), rest)
  }

  /** The nodes say which tree they are. */
  lemma {:induction false} SpellsOne(nodes: seq<Node>, i: nat, e: Instr, e': Instr)
    requires Spells(nodes, i, e) && Spells(nodes, i, e')
    ensures e == e'
    decreases e, 1
  {
    if e.Block? || e.Loop? {
      SpellsOneCode(nodes, nodes[i].first, i + 1, e.body, e'.body);
    } else if e.If? {
      SpellsOneCode(nodes, nodes[i].first, i + 1, e.thn, e'.thn);
      SpellsOneCode(nodes, nodes[i].second, i + 1 + CountCode(e.thn), e.els, e'.els);
    }
  }

  lemma {:induction false} SpellsOneCode(nodes: seq<Node>, p: Option<nat>, at: nat, code: Code, code': Code)
    requires SpellsCode(nodes, p, at, code) && SpellsCode(nodes, p, at, code')
    ensures code == code'
    decreases code, 0
  {
    if code.Cons? {
      SpellsOne(nodes, at, code.head, code'.head);
      SpellsOneCode(nodes, nodes[at].next, at + Count(code.head), code.tail, code'.tail);
    }
  }

  ghost predicate SameNodes(nodes: seq<Node>, nodes': seq<Node>, lo: nat, hi: nat) {
    hi <= |nodes| && hi <= |nodes'| && forall k :: lo <= k < hi ==> nodes'[k] == nodes[k]
  }

  /** A subtree does not depend on other nodes, nor on its own `next`. */
  lemma {:induction false} SpellsFrame(nodes: seq<Node>, nodes': seq<Node>, i: nat, e: Instr)
    requires Spells(nodes, i, e) && i + Count(e) <= |nodes| && SameNodes(nodes, nodes', i + 1, i + Count(e))
    requires i < |nodes'| && nodes'[i] == nodes[i].(next := nodes'[i].next)
    ensures Spells(nodes', i, e)
    decreases e, 1
  {
    if e.Block? || e.Loop? {
      SpellsCodeFrame(nodes, nodes', nodes[i].first, i + 1, e.body);
    } else if e.If? {
      SpellsCodeFrame(nodes, nodes', nodes[i].first, i + 1, e.thn);
      SpellsCodeFrame(nodes, nodes', nodes[i].second, i + 1 + CountCode(e.thn), e.els);
    }
  }

  lemma {:induction false} SpellsCodeFrame(nodes: seq<Node>, nodes': seq<Node>, p: Option<nat>, at: nat, code: Code)
    requires SpellsCode(nodes, p, at, code) && SameNodes(nodes, nodes', at, at + CountCode(code))
    ensures SpellsCode(nodes', p, at, code)
    decreases code, 0
  {
    if code.Cons? {
      SpellsFrame(nodes, nodes', at, code.head);
      SpellsCodeFrame(nodes, nodes', nodes[at].next, at + Count(code.head), code.tail);
    }
  }

  // ----- the shape of open blocks -----

  lemma CountSnoc(es: seq<Instr>, e: Instr)
    ensures CountSeq(es + [e]) == CountSeq(es) + Count(e)
  {
    assert (es + [e])[..|es|] == es;
  }

  lemma CountPrefix(es: seq<Instr>, j: nat)
    requires j < |es|
    ensures CountSeq(es[..j + 1]) == CountSeq(es[..j]) + Count(es[j])
  {
    assert es[..j + 1][..j] == es[..j];
  }

  lemma {:induction false} CountMonotone(es: seq<Instr>, i: nat, j: nat)
    requires i <= j <= |es|
    ensures CountSeq(es[..i]) <= CountSeq(es[..j]) <= CountSeq(es)
    decreases |es| - i
  {
    if i < j {
      CountPrefix(es, i);
      CountMonotone(es, i + 1, j);
    } else if j < |es| {
      CountPrefix(es, j);
      CountMonotone(es, j + 1, j + 1);
    } else {
      assert es[..j] == es;
    }
  }

  /** Instruction j of a level, and the link to what comes after it. */
  predicate ItemOk(nodes: seq<Node>, lo: nat, done: seq<Instr>, open: bool, j: nat)
    requires j < |done|
  {
    var at := lo + CountSeq(done[..j]);
    && Spells(nodes, at, done[j])
    && nodes[at].next == if j + 1 < |done| || open then Some(lo + CountSeq(done[..j + 1])) else None
  }

  /** A list of finished instructions, the nodes of which start at `lo`, followed
      by an unfinished one if `open`. */
  ghost predicate LevelOk(nodes: seq<Node>, p: Option<nat>, lo: nat, done: seq<Instr>, open: bool) {
    && (p == if done != [] || open then Some(lo) else None)
    && forall j :: 0 <= j < |done| ==> ItemOk(nodes, lo, done, open, j)
  }

  lemma ItemFrame(nodes: seq<Node>, nodes': seq<Node>, lo: nat, done: seq<Instr>, open: bool, j: nat)
    requires j < |done| && ItemOk(nodes, lo, done, open, j) && SameNodes(nodes, nodes', lo, lo + CountSeq(done))
    ensures ItemOk(nodes', lo, done, open, j)
  {
    hide Spells, CountSeq;
    CountPrefix(done, j);
    CountMonotone(done, j, j + 1);
    SpellsFrame(nodes, nodes', lo + CountSeq(done[..j]), done[j]);
  }

  lemma LevelFrame(nodes: seq<Node>, nodes': seq<Node>, p: Option<nat>, lo: nat, done: seq<Instr>, open: bool)
    requires LevelOk(nodes, p, lo, done, open) && SameNodes(nodes, nodes', lo, lo + CountSeq(done))
    ensures LevelOk(nodes', p, lo, done, open)
  {
    hide ItemOk, CountSeq;
    forall j | 0 <= j < |done| ensures ItemOk(nodes', lo, done, open, j) {
      ItemFrame(nodes, nodes', lo, done, open, j);
    }
  }

  /** A level without an unfinished instruction is a finished list. */
  lemma LevelSpells(nodes: seq<Node>, p: Option<nat>, lo: nat, done: seq<Instr>)
    requires LevelOk(nodes, p, lo, done, false)
    ensures SpellsCode(nodes, p, lo, ToCode(done)) && CountCode(ToCode(done)) == CountSeq(done)
  {
    assert done[0..] == done;
    assert CountSeq(done[..0]) == 0;
    LevelSuffix(nodes, p, lo, done, 0);
  }

  lemma {:induction false} LevelSuffix(nodes: seq<Node>, p: Option<nat>, lo: nat, done: seq<Instr>, j: nat)
    requires j <= |done| && forall i :: 0 <= i < |done| ==> ItemOk(nodes, lo, done, false, i)
    requires p == if j < |done| then Some(lo + CountSeq(done[..j])) else None
    ensures SpellsCode(nodes, p, lo + CountSeq(done[..j]), ToCode(done[j..]))
    ensures CountSeq(done[..j]) + CountCode(ToCode(done[j..])) == CountSeq(done)
    decreases |done| - j
  {
    hide Spells, CountSeq;
    if j < |done| {
      var at := lo + CountSeq(done[..j]);
      assert ItemOk(nodes, lo, done, false, j);
      SpellsInside(nodes, at, done[j]);
      LevelSuffix(nodes, nodes[at].next, lo, done, j + 1);
      CountPrefix(done, j);
      assert done[j..][1..] == done[j + 1..];
    } else {
      assert done[..j] == done && done[j..] == [];
    }
  }

  /** Where the nodes of a level start. */
  function Low(stack: seq<Level>, k: nat): nat
    requires k < |stack|
  {
    if k == 0 then 0
    else Low(stack, k - 1) + CountSeq(stack[k - 1].done) + 1 + if stack[k].kind == ElseLevel then CountCode(stack[k].thn) else 0
  }

  /** Where the unfinished instruction of a level is, or would be. */
  function OpenAt(stack: seq<Level>, k: nat): nat
    requires k < |stack|
  {
    Low(stack, k) + CountSeq(stack[k].done)
  }

  function SlotOf(stack: seq<Level>, k: nat): Slot
    requires k < |stack|
  {
    if k == 0 then RootSlot
    else if stack[k].kind == ElseLevel then SecondSlot(OpenAt(stack, k - 1))
    else FirstSlot(OpenAt(stack, k - 1))
  }

  function Pointer(nodes: seq<Node>, root: Option<nat>, slot: Slot): Option<nat> {
    match slot
    case RootSlot => root
    case FirstSlot(i) => if i < |nodes| then nodes[i].first else None
    case SecondSlot(i) => if i < |nodes| then nodes[i].second else None
    case LostSlot => None
  }

  function OpenHead(l: Level): Instr {
    if l.kind == LoopLevel then Loop(l.sig, Nil)
    else if l.kind == IfLevel || l.kind == ElseLevel then If(l.sig, Nil, false, Nil)
    else Block(l.sig, Nil)
  }

  /** The unfinished instruction that level l is the inside of. */
  predicate OwnerOk(nodes: seq<Node>, c: nat, l: Level) {
    && c < |nodes| && nodes[c].head == OpenHead(l)
    && (if l.kind == ElseLevel then SpellsCode(nodes, nodes[c].first, c + 1, l.thn) else nodes[c].second == None)
  }

  function LastOf(stack: seq<Level>, k: nat, open: bool): Option<nat>
    requires k < |stack|
  {
    var done := stack[k].done;
    if open then Some(OpenAt(stack, k))
    else if done == [] then None
    else Some(Low(stack, k) + CountSeq(done[..|done| - 1]))
  }

  /** Level k of the stack is what the label and the nodes say. */
  ghost predicate Mirrors(nodes: seq<Node>, root: Option<nat>, node: LabelNode, stack: seq<Level>, k: nat, open: bool)
    requires k < |stack|
  {
    && node == LabelNode(stack[k].kind, SlotOf(stack, k), LastOf(stack, k, open))
    && LevelOk(nodes, Pointer(nodes, root, node.first), Low(stack, k), stack[k].done, open)
    && (k > 0 ==> OwnerOk(nodes, OpenAt(stack, k - 1), stack[k]))
    && (open ==> OpenAt(stack, k) < |nodes| && nodes[OpenAt(stack, k)].next == None)
    && (stack[k].kind == FuncLevel <==> k == 0)
  }

  /** The labels and nodes are the open blocks `stack`. `extra` nodes at the end
      belong to an instruction that no level has received yet. */
  ghost predicate Represents(nodes: seq<Node>, root: Option<nat>, labels: seq<LabelNode>, stack: seq<Level>, extra: nat) {
    && |labels| == |stack| > 0
    && OpenAt(stack, |stack| - 1) + extra == |nodes|
    && forall k :: 0 <= k < |stack| ==> Mirrors(nodes, root, labels[k], stack, k, k < |stack| - 1 || extra > 0)
  }

  lemma {:induction false} LowGrows(stack: seq<Level>, k: nat, k': nat)
    requires k < k' < |stack|
    ensures OpenAt(stack, k) < Low(stack, k') <= OpenAt(stack, k')
    decreases k'
  {
    hide CountSeq, CountCode;
    if k < k' - 1 { LowGrows(stack, k, k' - 1); }
  }

  /** The start of a level depends on the levels below it and on its first arm. */
  lemma {:induction false} LowSame(stack: seq<Level>, stack': seq<Level>, k: nat)
    requires k < |stack| && k < |stack'| && stack[..k] == stack'[..k]
    requires stack[k].kind == stack'[k].kind && stack[k].thn == stack'[k].thn
    ensures Low(stack, k) == Low(stack', k) && SlotOf(stack, k) == SlotOf(stack', k)
  {
    hide CountSeq, CountCode;
    if k > 0 {
      assert stack[k - 1] == stack[..k][k - 1] == stack'[k - 1];
      assert stack[..k - 1] == stack[..k][..k - 1] == stack'[..k - 1];
      LowSame(stack, stack', k - 1);
    }
  }

  /** A level below the innermost one, after a change above it. */
  lemma MirrorsFrame(nodes: seq<Node>, root: Option<nat>, nodes': seq<Node>, root': Option<nat>, node: LabelNode, stack: seq<Level>, k: nat)
    requires k < |stack| && Mirrors(nodes, root, node, stack, k, true)
    requires SameNodes(nodes, nodes', 0, OpenAt(stack, k)) && OpenAt(stack, k) < |nodes'|
    requires nodes'[OpenAt(stack, k)].next == nodes[OpenAt(stack, k)].next
    requires Pointer(nodes', root', SlotOf(stack, k)) == Pointer(nodes, root, SlotOf(stack, k))
    ensures Mirrors(nodes', root', node, stack, k, true)
  {
    hide CountSeq, LevelOk, SpellsCode;
    LevelFrame(nodes, nodes', Pointer(nodes, root, node.first), Low(stack, k), stack[k].done, true);
    if k > 0 {
      LowGrows(stack, k - 1, k);
      OwnerFrame(nodes, nodes', OpenAt(stack, k - 1), stack[k], Low(stack, k));
    }
  }

  lemma OwnerFrame(nodes: seq<Node>, nodes': seq<Node>, c: nat, l: Level, low: nat)
    requires OwnerOk(nodes, c, l) && low == c + 1 + (if l.kind == ElseLevel then CountCode(l.thn) else 0)
    requires SameNodes(nodes, nodes', c, low)
    ensures OwnerOk(nodes', c, l)
  {
    hide CountCode;
    if l.kind == ElseLevel { SpellsCodeFrame(nodes, nodes', nodes[c].first, c + 1, l.thn); }
  }

  // ----- the callbacks -----

  class Builder {
    var nodes: seq<Node>
    var firstExpr: Option<nat>  // of the current function
    var labelStack: seq<LabelNode>

    ghost predicate Shows(stack: seq<Level>, extra: nat)
      reads this
    {
      Represents(nodes, firstExpr, labelStack, stack, extra)
    }

    constructor ()
      ensures Shows(FUNCTION, 0)
    {
      nodes, firstExpr, labelStack := [], None, [LabelNode(FuncLevel, RootSlot, None)];
    }

    method PushLabel(kind: LevelKind, first: Slot)
      modifies this`labelStack
      ensures labelStack == old(labelStack) + [LabelNode(kind, first, None)]
    {
      labelStack := labelStack + [LabelNode(kind, first, None)];
    }

    method PopLabel() returns (ok: bool)
      modifies this`labelStack
      ensures ok <==> old(labelStack) != []
      ensures labelStack == if ok then old(labelStack)[..|old(labelStack)| - 1] else old(labelStack)
    {
      ok := labelStack != [];
      if ok { labelStack := labelStack[..|labelStack| - 1]; }
    }

    /** Store a node in the pointer a label starts at. */
    method SetFirst(slot: Slot, i: nat)
      requires !slot.LostSlot?
      requires slot.FirstSlot? || slot.SecondSlot? ==> slot.owner < |nodes|
      modifies this`nodes, this`firstExpr
      ensures nodes == SlotSet(old(nodes), slot, i) && firstExpr == if slot.RootSlot? then Some(i) else old(firstExpr)
    {
      match slot
      case RootSlot => firstExpr := Some(i);
      case FirstSlot(owner) => nodes := nodes[owner := nodes[owner].(first := Some(i))];
      case SecondSlot(owner) => nodes := nodes[owner := nodes[owner].(second := Some(i))];
    }

    /** The only label is one whose node has been freed. */
    ghost predicate Stray()
      reads this
    {
      |labelStack| == 1 && labelStack[0].first == LostSlot
    }

    /** Allocate a node and link it behind the last one of the innermost block. */
    method AppendExpr(head: Instr, ghost stack: seq<Level>) returns (ok: bool)
      requires if stack == [] then labelStack == [] else Shows(stack, 0)
      modifies this
      ensures ok <==> stack != []
      ensures !ok ==> labelStack == [] && nodes == old(nodes) && firstExpr == old(firstExpr)
      ensures ok ==> Shows(stack, 1) && |nodes| == |old(nodes)| + 1 && nodes[|old(nodes)|] == Node(head, None, None, None)
    {
      hide Represents;
      ok := labelStack != [];
      LabelsOf(stack);
      if ok {
        var i, top := |nodes|, |labelStack| - 1;
        var node := labelStack[top];
        TopLabel(stack);
        if Pointer(nodes, firstExpr, node.first).Some? {
          nodes := nodes[node.last.value := nodes[node.last.value].(next := Some(i))];
        } else {
          SetFirst(node.first, i);
        }
        nodes := nodes + [Node(head, None, None, None)];
        labelStack := labelStack[top := node.(last := Some(i))];
        if stack[top].done == [] {
          LinkedFirst(old(nodes), old(firstExpr), old(labelStack), stack, head);
        } else {
          LinkedNext(old(nodes), old(firstExpr), old(labelStack), stack, head);
        }
      }
    }

    /** A callback for an instruction that holds no others. */
    method OnLeaf(e: Instr, ghost stack: seq<Level>) returns (ok: bool)
      requires !IsNested(e) && if stack == [] then labelStack == [] else Shows(stack, 0)
      modifies this
      ensures ok <==> stack != []
      ensures !ok ==> labelStack == []
      ensures ok ==> Shows(Grow(stack, e), 0)
    {
      hide Represents;
      ok := AppendExpr(e, stack);
      if ok {
        LastNode(stack, 1);
        Settled(nodes, firstExpr, labelStack, stack, e);
      }
    }

    /** The block, loop and if callbacks append the new instruction and make it the
        innermost block. They do not ask whether it was appended: without a label it
        is freed, and a label that points into it is pushed all the same. */
    method OnOpen(kind: Opening, sig: seq<Type>, ghost stack: seq<Level>)
      requires if stack == [] then labelStack == [] else Shows(stack, 0)
      modifies this
      ensures stack == [] ==> Stray() && nodes == old(nodes) && firstExpr == old(firstExpr)
      ensures stack != [] ==> Shows(stack + [Level(LevelOf(kind), sig, Nil, [])], 0)
    {
      hide Represents;
      var i := |nodes|;
      ghost var l := Level(LevelOf(kind), sig, Nil, []);
      var appended := AppendExpr(OpenHead(Level(LevelOf(kind), sig, Nil, [])), stack);
      if appended {
        LastNode(stack, 1);
      }
      ghost var before := labelStack;
      PushLabel(LevelOf(kind), if appended then FirstSlot(i) else LostSlot);
      if appended {
        assert labelStack[..|before|] == before;
        Entered(nodes, firstExpr, labelStack, stack, l);
      }
    }

    lemma LastNode(stack: seq<Level>, extra: nat)
      requires stack != [] && Shows(stack, extra)
      ensures |nodes| == OpenAt(stack, |stack| - 1) + extra && |labelStack| == |stack|
    {}

    /** The second arm hangs on the instruction its parent appended last. */
    method OnElse(ghost stack: seq<Level>) returns (ok: bool)
      requires if stack == [] then labelStack == [] || Stray() else Shows(stack, 0)
      modifies this`labelStack
      ensures ok <==> stack != [] && stack[|stack| - 1].kind == IfLevel
      ensures !ok ==> labelStack == old(labelStack)
      ensures ok ==> Apply(stack, Else).Some? && Shows(Apply(stack, Else).value, 0)
    {
      hide Represents;
      if stack != [] { LabelsOf(stack); }
      ok := labelStack != [];
      if ok {
        var top := |labelStack| - 1;
        if stack != [] {
          TopLabel(stack);
          KindOfTop(stack);
        }
        ok := labelStack[top].kind == IfLevel && top > 0;
        if ok {
          labelStack := labelStack[top := LabelNode(ElseLevel, SecondSlot(labelStack[top - 1].last.value), None)];
          Switched(nodes, firstExpr, old(labelStack), labelStack, stack);
        }
      }
    }

    lemma KindOfTop(stack: seq<Level>)
      requires stack != [] && Shows(stack, 0)
      ensures |labelStack| == |stack| && labelStack[|stack| - 1].kind == stack[|stack| - 1].kind
      ensures stack[|stack| - 1].kind == IfLevel ==>
        |stack| > 1 && labelStack[|stack| - 2].last == Some(OpenAt(stack, |stack| - 2))
    {
      var top := |stack| - 1;
      assert Mirrors(nodes, firstExpr, labelStack[top], stack, top, false);
      if top > 0 { assert Mirrors(nodes, firstExpr, labelStack[top - 1], stack, top - 1, true); }
    }

    /** The innermost block is finished. */
    method OnEnd(ghost stack: seq<Level>) returns (ok: bool)
      requires if stack == [] then labelStack == [] || Stray() else Shows(stack, 0)
      modifies this`labelStack
      ensures ok <==> old(labelStack) != []
      ensures stack != [] ==> ok && Apply(stack, End).Some?
      ensures stack != [] ==> var r := Apply(stack, End).value; if r == [] then labelStack == [] else Shows(r, 0)
      ensures stack == [] ==> labelStack == []
    {
      hide Represents;
      if stack != [] { LabelsOf(stack); }
      ok := PopLabel();
      if |stack| > 1 {
        Finished(nodes, firstExpr, old(labelStack), stack);
      }
    }

    /** wasm_destroy_label_node, for the label of the function: the expressions are
        freed, and the pointer to them stays. */
    method DestroyLabel()
      modifies this`nodes
      ensures nodes == if firstExpr.Some? then [] else old(nodes)
    {
      if firstExpr.Some? { nodes := []; }
    }

    lemma LabelsOf(stack: seq<Level>)
      requires if stack == [] then labelStack == [] else Shows(stack, 0)
      ensures |labelStack| == |stack|
    {}

    /** What the innermost label points to. */
    lemma TopLabel(stack: seq<Level>)
      requires stack != [] && Shows(stack, 0)
      ensures |labelStack| == |stack|
      ensures var top, node := |stack| - 1, labelStack[|stack| - 1];
        && node.first == SlotOf(stack, top) && node.last == LastOf(stack, top, false)
        && (node.first.FirstSlot? || node.first.SecondSlot? ==> node.first.owner < |nodes|)
        && (Pointer(nodes, firstExpr, node.first).Some? <==> stack[top].done != [])
        && (stack[top].done != [] ==> node.last.Some? && node.last.value < |nodes|)
    {
      hide Spells, CountSeq;
      var top := |stack| - 1;
      assert Mirrors(nodes, firstExpr, labelStack[top], stack, top, false);
      if top > 0 {
        assert Mirrors(nodes, firstExpr, labelStack[top - 1], stack, top - 1, true);
      }
      if stack[top].done != [] {
        var j := |stack[top].done| - 1;
        assert ItemOk(nodes, Low(stack, top), stack[top].done, false, j);
        SpellsInside(nodes, Low(stack, top) + CountSeq(stack[top].done[..j]), stack[top].done[j]);
      }
    }
  }

  lemma SpellsInside(nodes: seq<Node>, i: nat, e: Instr)
    requires Spells(nodes, i, e)
    ensures i < |nodes|
  {}

  function SlotSet(nodes: seq<Node>, slot: Slot, i: nat): seq<Node>
    requires slot.FirstSlot? || slot.SecondSlot? ==> slot.owner < |nodes|
  {
    match slot
    case RootSlot => nodes
    case FirstSlot(owner) => nodes[owner := nodes[owner].(first := Some(i))]
    case SecondSlot(owner) => nodes[owner := nodes[owner].(second := Some(i))]
    case LostSlot => nodes
  }

  /** The first instruction of a block is linked from the block itself. */
  lemma LinkedFirst(nodes: seq<Node>, root: Option<nat>, labels: seq<LabelNode>, stack: seq<Level>, head: Instr)
    requires Represents(nodes, root, labels, stack, 0) && stack[|stack| - 1].done == []
    requires var slot := labels[|stack| - 1].first; slot.FirstSlot? || slot.SecondSlot? ==> slot.owner < |nodes|
    ensures var top, n := |stack| - 1, |nodes|;
      var slot := labels[top].first;
      Represents(SlotSet(nodes, slot, n) + [Node(head, None, None, None)], if slot.RootSlot? then Some(n) else root,
        labels[top := labels[top].(last := Some(n))], stack, 1)
  {
    hide CountSeq, LevelOk, OwnerOk, Mirrors;
    var top, n := |stack| - 1, |nodes|;
    var slot := labels[top].first;
    var nodes', root' := SlotSet(nodes, slot, n) + [Node(head, None, None, None)], if slot.RootSlot? then Some(n) else root;
    var labels' := labels[top := labels[top].(last := Some(n))];
    MirrorSlot(nodes, root, labels[top], stack, top, false);
    forall k | 0 <= k < |stack| ensures Mirrors(nodes', root', labels'[k], stack, k, true) {
      assert Mirrors(nodes, root, labels[k], stack, k, k < top);
      if k < top {
        FirstBelow(nodes, root, labels[k], stack, k, slot, nodes', root');
      } else {
        FirstTop(nodes, root, labels[top], stack, nodes', root');
      }
    }
  }

  lemma MirrorSlot(nodes: seq<Node>, root: Option<nat>, node: LabelNode, stack: seq<Level>, k: nat, open: bool)
    requires k < |stack| && Mirrors(nodes, root, node, stack, k, open)
    ensures node.first == SlotOf(stack, k) && node.kind == stack[k].kind
  {}

  lemma FirstBelow(nodes: seq<Node>, root: Option<nat>, node: LabelNode, stack: seq<Level>, k: nat, slot: Slot,
      nodes': seq<Node>, root': Option<nat>)
    requires k + 1 < |stack| && Mirrors(nodes, root, node, stack, k, true) && slot == SlotOf(stack, |stack| - 1)
    requires slot.FirstSlot? || slot.SecondSlot? ==> slot.owner < |nodes|
    requires |nodes'| == |nodes| + 1 && nodes'[..|nodes|] == SlotSet(nodes, slot, |nodes|)
    requires root' == if slot.RootSlot? then Some(|nodes|) else root
    ensures Mirrors(nodes', root', node, stack, k, true)
  {
    hide CountSeq, LevelOk, OwnerOk;
    var top := |stack| - 1;
    if k < top - 1 {
      LowGrows(stack, k, top - 1);
    }
    if k > 0 { LowGrows(stack, k - 1, k); }
    if 0 < k < top { LowGrows(stack, k - 1, top - 1); }
    assert forall i :: 0 <= i < |nodes| ==> nodes'[i] == nodes'[..|nodes|][i];
    MirrorsFrame(nodes, root, nodes', root', node, stack, k);
  }

  lemma FirstTop(nodes: seq<Node>, root: Option<nat>, node: LabelNode, stack: seq<Level>, nodes': seq<Node>, root': Option<nat>)
    requires |stack| > 0 && Mirrors(nodes, root, node, stack, |stack| - 1, false) && stack[|stack| - 1].done == []
    requires OpenAt(stack, |stack| - 1) == |nodes|
    requires var slot := node.first; slot.FirstSlot? || slot.SecondSlot? ==> slot.owner < |nodes|
    requires |nodes'| == |nodes| + 1 && nodes'[..|nodes|] == SlotSet(nodes, node.first, |nodes|) && nodes'[|nodes|].next == None
    requires root' == if node.first.RootSlot? then Some(|nodes|) else root
    ensures Mirrors(nodes', root', node.(last := Some(|nodes|)), stack, |stack| - 1, true)
  {
    var top := |stack| - 1;
    assert forall i :: 0 <= i < |nodes| ==> nodes'[i] == nodes'[..|nodes|][i];
    assert CountSeq([]) == 0;
    if top > 0 {
      var c := OpenAt(stack, top - 1);
      LowGrows(stack, top - 1, top);
      if stack[top].kind == ElseLevel { SpellsCodeFrame(nodes, nodes', nodes[c].first, c + 1, stack[top].thn); }
    }
  }

  /** Any other instruction is linked from the one before it. */
  lemma LinkedNext(nodes: seq<Node>, root: Option<nat>, labels: seq<LabelNode>, stack: seq<Level>, head: Instr)
    requires Represents(nodes, root, labels, stack, 0) && stack[|stack| - 1].done != []
    requires LastOf(stack, |stack| - 1, false).value < |nodes|
    ensures var top, n, last := |stack| - 1, |nodes|, LastOf(stack, |stack| - 1, false).value;
      Represents(nodes[last := nodes[last].(next := Some(n))] + [Node(head, None, None, None)], root,
        labels[top := labels[top].(last := Some(n))], stack, 1)
  {
    hide CountSeq, LevelOk, OwnerOk, Mirrors;
    var top, n, last := |stack| - 1, |nodes|, LastOf(stack, |stack| - 1, false).value;
    var nodes' := nodes[last := nodes[last].(next := Some(n))] + [Node(head, None, None, None)];
    var labels' := labels[top := labels[top].(last := Some(n))];
    forall k | 0 <= k < |stack| ensures Mirrors(nodes', root, labels'[k], stack, k, true) {
      assert Mirrors(nodes, root, labels[k], stack, k, k < top);
      if k < top {
        NextBelow(nodes, root, labels[k], stack, k, nodes');
      } else {
        NextTop(nodes, root, labels[top], stack, nodes');
      }
    }
  }

  lemma NextBelow(nodes: seq<Node>, root: Option<nat>, node: LabelNode, stack: seq<Level>, k: nat, nodes': seq<Node>)
    requires k + 1 < |stack| && Mirrors(nodes, root, node, stack, k, true) && stack[|stack| - 1].done != []
    requires var last := LastOf(stack, |stack| - 1, false).value;
      last < |nodes| < |nodes'| && nodes'[..|nodes|] == nodes[last := nodes[last].(next := Some(|nodes|))]
    ensures Mirrors(nodes', root, node, stack, k, true)
  {
    hide CountSeq, LevelOk, OwnerOk;
    LowGrows(stack, k, |stack| - 1);
    assert forall i :: 0 <= i < |nodes| ==> nodes'[i] == nodes'[..|nodes|][i];
    if k > 0 { LowGrows(stack, k - 1, k); }
    MirrorsFrame(nodes, root, nodes', root, node, stack, k);
  }

  lemma NextTop(nodes: seq<Node>, root: Option<nat>, node: LabelNode, stack: seq<Level>, nodes': seq<Node>)
    requires |stack| > 0 && Mirrors(nodes, root, node, stack, |stack| - 1, false) && stack[|stack| - 1].done != []
    requires OpenAt(stack, |stack| - 1) == |nodes|
    requires var last := LastOf(stack, |stack| - 1, false).value;
      last < |nodes| < |nodes'| && nodes'[..|nodes|] == nodes[last := nodes[last].(next := Some(|nodes|))] && nodes'[|nodes|].next == None
    ensures Mirrors(nodes', root, node.(last := Some(|nodes|)), stack, |stack| - 1, true)
  {
    hide CountSeq, Spells, SpellsCode;
    var top := |stack| - 1;
    var done, lo := stack[top].done, Low(stack, top);
    assert forall i :: 0 <= i < |nodes| ==> nodes'[i] == nodes'[..|nodes|][i];
    forall j | 0 <= j < |done| ensures ItemOk(nodes', lo, done, true, j) {
      NextItem(nodes, lo, done, j, nodes');
    }
    if top > 0 {
      LowGrows(stack, top - 1, top);
      OwnerFrame(nodes, nodes', OpenAt(stack, top - 1), stack[top], lo);
    }
  }

  lemma NextItem(nodes: seq<Node>, lo: nat, done: seq<Instr>, j: nat, nodes': seq<Node>)
    requires j < |done| && ItemOk(nodes, lo, done, false, j) && lo + CountSeq(done) == |nodes|
    requires var last := lo + CountSeq(done[..|done| - 1]);
      last < |nodes| < |nodes'| && nodes'[..|nodes|] == nodes[last := nodes[last].(next := Some(|nodes|))]
    ensures ItemOk(nodes', lo, done, true, j)
  {
    hide Spells, CountSeq;
    assert forall i :: 0 <= i < |nodes| ==> nodes'[i] == nodes'[..|nodes|][i];
    CountPrefix(done, j);
    CountMonotone(done, j, j + 1);
    assert done[..|done|] == done;
    if j < |done| - 1 { CountMonotone(done, j + 1, |done| - 1); }
    SpellsFrame(nodes, nodes', lo + CountSeq(done[..j]), done[j]);
  }

  /** An instruction is finished: its level receives it. */
  lemma Settled(nodes: seq<Node>, root: Option<nat>, labels: seq<LabelNode>, stack: seq<Level>, e: Instr)
    requires stack != [] && Represents(nodes, root, labels, stack, Count(e))
    requires Spells(nodes, OpenAt(stack, |stack| - 1), e)
    ensures Represents(nodes, root, labels, Grow(stack, e), 0)
  {
    hide CountSeq, LevelOk, OwnerOk, Mirrors, Spells;
    var top, stack' := |stack| - 1, Grow(stack, e);
    LowSame(stack, stack', top);
    CountSnoc(stack[top].done, e);
    forall k | 0 <= k < |stack'| ensures Mirrors(nodes, root, labels[k], stack', k, k < top) {
      assert Mirrors(nodes, root, labels[k], stack, k, true);
      if k < top {
        MirrorsSame(nodes, root, labels[k], stack, stack', k, true);
      } else {
        SettledTop(nodes, root, labels[top], stack, e);
      }
    }
  }

  /** A level below a change of the innermost one. */
  lemma MirrorsSame(nodes: seq<Node>, root: Option<nat>, node: LabelNode, stack: seq<Level>, stack': seq<Level>, k: nat, open: bool)
    requires k < |stack| && k < |stack'| && stack'[..k + 1] == stack[..k + 1] && Mirrors(nodes, root, node, stack, k, open)
    ensures Mirrors(nodes, root, node, stack', k, open)
  {
    hide CountSeq, LevelOk, OwnerOk;
    assert stack'[k] == stack'[..k + 1][k] == stack[k];
    assert stack'[..k] == stack'[..k + 1][..k] == stack[..k];
    LowSame(stack, stack', k);
    if k > 0 {
      assert stack'[k - 1] == stack'[..k][k - 1] == stack[k - 1];
      assert stack'[..k - 1] == stack'[..k][..k - 1] == stack[..k - 1];
      LowSame(stack, stack', k - 1);
    }
  }

  lemma SettledTop(nodes: seq<Node>, root: Option<nat>, node: LabelNode, stack: seq<Level>, e: Instr)
    requires stack != [] && Mirrors(nodes, root, node, stack, |stack| - 1, true) && Spells(nodes, OpenAt(stack, |stack| - 1), e)
    ensures Mirrors(nodes, root, node, Grow(stack, e), |stack| - 1, false)
  {
    hide CountSeq, SpellsCode, Spells;
    var top, stack' := |stack| - 1, Grow(stack, e);
    var lo, done, done' := Low(stack, top), stack[top].done, stack[top].done + [e];
    LowSame(stack, stack', top);
    if top > 0 { LowSame(stack, stack', top - 1); }
    assert done'[..|done|] == done && done'[..|done'|] == done';
    forall j | 0 <= j < |done'| ensures ItemOk(nodes, lo, done', false, j) {
      if j < |done| {
        assert ItemOk(nodes, lo, done, true, j);
        assert done'[..j] == done[..j] && done'[..j + 1] == done[..j + 1];
      }
    }
  }

  /** A block is entered: its label points into the node just made. */
  lemma Entered(nodes: seq<Node>, root: Option<nat>, labels: seq<LabelNode>, stack: seq<Level>, l: Level)
    requires stack != [] && |labels| == |stack| + 1 && Represents(nodes, root, labels[..|stack|], stack, 1)
    requires l.done == [] && l.kind != ElseLevel && l.kind != FuncLevel
    requires OpenAt(stack, |stack| - 1) < |nodes| && nodes[OpenAt(stack, |stack| - 1)] == Node(OpenHead(l), None, None, None)
    requires labels[|stack|] == LabelNode(l.kind, FirstSlot(OpenAt(stack, |stack| - 1)), None)
    ensures Represents(nodes, root, labels, stack + [l], 0)
  {
    hide CountSeq, LevelOk, Mirrors;
    var top, stack' := |stack|, stack + [l];
    assert stack'[..top] == stack;
    forall k | 0 <= k < |stack'| ensures Mirrors(nodes, root, labels[k], stack', k, k < top) {
      if k < top {
        assert Mirrors(nodes, root, labels[..top][k], stack, k, true);
        assert stack'[..k + 1] == stack[..k + 1];
        MirrorsSame(nodes, root, labels[k], stack, stack', k, true);
      } else {
        EnteredTop(nodes, root, labels[top], stack, l);
      }
    }
    LowSame(stack, stack', top - 1);
    assert CountSeq([]) == 0 by { NothingCounted(); }
  }

  lemma NothingCounted()
    ensures CountSeq([]) == 0
  {}

  lemma EnteredTop(nodes: seq<Node>, root: Option<nat>, node: LabelNode, stack: seq<Level>, l: Level)
    requires stack != [] && l.done == [] && l.kind != ElseLevel && l.kind != FuncLevel
    requires OpenAt(stack, |stack| - 1) < |nodes| && nodes[OpenAt(stack, |stack| - 1)] == Node(OpenHead(l), None, None, None)
    requires node == LabelNode(l.kind, FirstSlot(OpenAt(stack, |stack| - 1)), None)
    ensures Mirrors(nodes, root, node, stack + [l], |stack|, false)
  {
    hide CountSeq;
    var stack' := stack + [l];
    assert stack'[..|stack| - 1] == stack[..|stack| - 1];
    LowSame(stack, stack', |stack| - 1);
  }

  /** An `if` turns to its second arm. */
  lemma Switched(nodes: seq<Node>, root: Option<nat>, labels: seq<LabelNode>, labels': seq<LabelNode>, stack: seq<Level>)
    requires Represents(nodes, root, labels, stack, 0) && stack[|stack| - 1].kind == IfLevel && |stack| > 1
    requires labels' == labels[|stack| - 1 := LabelNode(ElseLevel, SecondSlot(OpenAt(stack, |stack| - 2)), None)]
    ensures Apply(stack, Else).Some? && Represents(nodes, root, labels', Apply(stack, Else).value, 0)
  {
    hide CountSeq, LevelOk, OwnerOk, Mirrors;
    var top := |stack| - 1;
    var stack' := Apply(stack, Else).value;
    forall k | 0 <= k < |stack'| ensures Mirrors(nodes, root, labels'[k], stack', k, k < top) {
      assert Mirrors(nodes, root, labels[k], stack, k, k < top);
      if k < top {
        assert stack'[..k + 1] == stack[..k + 1];
        MirrorsSame(nodes, root, labels[k], stack, stack', k, true);
      } else {
        SwitchedTop(nodes, root, labels[top], stack);
      }
    }
    SwitchedSize(nodes, root, labels[top], stack);
  }

  lemma SwitchedTop(nodes: seq<Node>, root: Option<nat>, node: LabelNode, stack: seq<Level>)
    requires |stack| > 1 && stack[|stack| - 1].kind == IfLevel && Mirrors(nodes, root, node, stack, |stack| - 1, false)
    ensures Mirrors(nodes, root, LabelNode(ElseLevel, SecondSlot(OpenAt(stack, |stack| - 2)), None),
      Apply(stack, Else).value, |stack| - 1, false)
  {
    hide CountSeq, SpellsCode;
    var top, stack' := |stack| - 1, Apply(stack, Else).value;
    LevelSpells(nodes, Pointer(nodes, root, node.first), Low(stack, top), stack[top].done);
    assert stack'[..top - 1] == stack[..top - 1];
    LowSame(stack, stack', top - 1);
  }

  lemma SwitchedSize(nodes: seq<Node>, root: Option<nat>, node: LabelNode, stack: seq<Level>)
    requires |stack| > 1 && stack[|stack| - 1].kind == IfLevel && Mirrors(nodes, root, node, stack, |stack| - 1, false)
    ensures OpenAt(Apply(stack, Else).value, |stack| - 1) == OpenAt(stack, |stack| - 1)
  {
    hide CountSeq, SpellsCode, OwnerOk;
    var top, stack' := |stack| - 1, Apply(stack, Else).value;
    LevelSpells(nodes, Pointer(nodes, root, node.first), Low(stack, top), stack[top].done);
    assert stack'[..top - 1] == stack[..top - 1];
    LowSame(stack, stack', top - 1);
    NothingCounted();
  }

  /** The innermost block is finished and becomes an instruction of its parent. */
  lemma Finished(nodes: seq<Node>, root: Option<nat>, labels: seq<LabelNode>, stack: seq<Level>)
    requires Represents(nodes, root, labels, stack, 0) && |stack| > 1
    ensures Represents(nodes, root, labels[..|stack| - 1], Grow(stack[..|stack| - 1], Closed(stack[|stack| - 1])), 0)
  {
    hide CountSeq, LevelOk, OwnerOk, Mirrors, Spells;
    var top := |stack| - 1;
    var stack', e := stack[..top], Closed(stack[top]);
    forall k | 0 <= k < top ensures Mirrors(nodes, root, labels[..top][k], stack', k, true) {
      assert Mirrors(nodes, root, labels[k], stack, k, true);
      assert stack'[..k + 1] == stack[..k + 1];
      MirrorsSame(nodes, root, labels[k], stack, stack', k, true);
    }
    assert Mirrors(nodes, root, labels[top], stack, top, false);
    assert stack'[..top - 1] == stack[..top - 1];
    LowSame(stack, stack', top - 1);
    FinishedNode(nodes, root, labels[top], stack);
    Settled(nodes, root, labels[..top], stack', e);
  }

  lemma FinishedNode(nodes: seq<Node>, root: Option<nat>, node: LabelNode, stack: seq<Level>)
    requires |stack| > 1 && Mirrors(nodes, root, node, stack, |stack| - 1, false)
    ensures var top := |stack| - 1;
      && Spells(nodes, OpenAt(stack, top - 1), Closed(stack[top]))
      && OpenAt(stack, top - 1) + Count(Closed(stack[top])) == OpenAt(stack, top)
  {
    hide CountSeq, SpellsCode;
    var top := |stack| - 1;
    LevelSpells(nodes, Pointer(nodes, root, node.first), Low(stack, top), stack[top].done);
    NilSpelled(nodes);
  }

  lemma NilSpelled(nodes: seq<Node>)
    ensures forall at :: SpellsCode(nodes, None, at, Nil) && CountCode(Nil) == 0
  {}

  /** The nodes reachable from the function are the tree of its open blocks. */
  lemma {:induction false} TreeSpelled(nodes: seq<Node>, root: Option<nat>, labels: seq<LabelNode>, stack: seq<Level>)
    requires Represents(nodes, root, labels, stack, 0)
    ensures SpellsCode(nodes, root, 0, Tree(stack)) && CountCode(Tree(stack)) == |nodes|
    decreases |stack|
  {
    hide CountSeq, SpellsCode, LevelOk, OwnerOk;
    if |stack| == 1 {
      assert Mirrors(nodes, root, labels[0], stack, 0, false);
      LevelSpells(nodes, root, 0, stack[0].done);
    } else {
      Finished(nodes, root, labels, stack);
      TreeSpelled(nodes, root, labels[..|stack| - 1], Grow(stack[..|stack| - 1], Closed(stack[|stack| - 1])));
    }
  }
}
