/** All functions of the code section under one label stack
    (src/binary-reader-ast.c:70-130, 479-503, 793-798). A function whose blocks are
    not all closed leaves its labels on the stack, and what comes after them
    belongs to it. A block that is opened where there is no label at all is freed at
    once, and a label is pushed that points into it. */
module Forest {
  import opened Wasm
  import opened Leb128
  import opened Binary
  import opened TreeBuilder

  /** The expressions of a function: with labels on the stack, or without. */
  datatype Work = Working(stack: seq<Level>) | Done(code: Code)

  ghost predicate WorkOk(w: Work) { w.Working? ==> w.stack != [] }

  ghost predicate AllOk(work: seq<Work>) { forall i :: 0 <= i < |work| ==> WorkOk(work[i]) }

  /** What the function holds so far. */
  function CodeOf(w: Work): Code
    requires WorkOk(w)
  {
    if w.Done? then w.code else Tree(w.stack)
  }

  /** The function the innermost label belongs to; -1 if there is no label. */
  function Top(work: seq<Work>): (t: int)
    ensures -1 <= t < |work| && (t >= 0 ==> work[t].Working?)
    ensures forall i :: t < i < |work| ==> work[i].Done?
  {
    var n := |work|;
    if n == 0 then -1 else if work[n - 1].Working? then n - 1 else Top(work[..n - 1])
  }

  /** All labels: those of the functions, or only one, into a block that is lost. */
  datatype All = All(work: seq<Work>, lost: bool)

  /** `Undefined`: the program reads a node that it has freed. */
  datatype Effect = Goes(all: All) | Refused | Undefined

  ghost predicate Sane(all: All) { AllOk(all.work) && (all.lost ==> Top(all.work) < 0) }

  ghost predicate EffectOk(r: Effect, n: nat) { r.Goes? ==> |r.all.work| == n && Sane(r.all) }

  /** What an event does to the innermost block of all. */
  function ApplyAll(all: All, event: Event): (r: Effect)
    requires Sane(all)
    ensures EffectOk(r, |all.work|) && (event.End? ==> !r.Undefined? && (r.Goes? ==> !r.all.lost))
  {
    var t := Top(all.work);
    if t < 0 then ApplyBare(all, event)
    else
      assert WorkOk(all.work[t]);
      match Apply(all.work[t].stack, event)
      case None => Refused
      case Some(stack) => Goes(All(all.work[t := if stack == [] then Done(Tree(all.work[t].stack)) else Working(stack)], all.lost))
  }

  /** Where no function has a label. */
  function ApplyBare(all: All, event: Event): Effect {
    match event
    case Leaf(_) => if all.lost then Undefined else Refused
    case Open(_, _) => if all.lost then Undefined else Goes(All(all.work, true))
    case Else => Refused
    case End => if all.lost then Goes(All(all.work, false)) else Refused
  }

  /** As `ReadBody`, over all labels. */
  function ReadBodies(s: seq<u8>, off: nat, bodyEnd: nat, end: nat, lim: Limits, all: All): (r: Effect)
    requires end <= |s| && Sane(all)
    ensures EffectOk(r, |all.work|)
    decreases bodyEnd - off
  {
    if off >= bodyEnd then Refused
    else
      var d := Decode(s, off, end, lim);
      if d.Malformed? then Refused
      else if d.event == End && d.offset == bodyEnd then Goes(all)
      else
        match ApplyAll(all, d.event)
        case Goes(all') => ReadBodies(s, d.offset, bodyEnd, end, lim, all')
        case r => r
  }

  // ----- a body among others -----

  lemma TopLast(work: seq<Work>, w: Work)
    requires w.Working?
    ensures Top(work + [w]) == |work|
  {}

  lemma OkSnoc(work: seq<Work>, w: Work)
    requires AllOk(work) && WorkOk(w)
    ensures AllOk(work + [w])
  {}

  /** A body that keeps its own label touches no other function. */
  lemma {:induction false} Within(s: seq<u8>, off: nat, bodyEnd: nat, end: nat, lim: Limits, work: seq<Work>, stack: seq<Level>)
    requires end <= |s| && AllOk(work) && stack != []
    requires ReadBody(s, off, bodyEnd, end, lim, stack).Some? && ReadBody(s, off, bodyEnd, end, lim, stack).value != []
    ensures Sane(All(work + [Working(stack)], false))
    ensures ReadBodies(s, off, bodyEnd, end, lim, All(work + [Working(stack)], false))
      == Goes(All(work + [Working(ReadBody(s, off, bodyEnd, end, lim, stack).value)], false))
    decreases bodyEnd - off
  {
    hide Decode, Apply, Tree;
    var d := Decode(s, off, end, lim);
    OkSnoc(work, Working(stack));
    TopLast(work, Working(stack));
    if !(d.event == End && d.offset == bodyEnd) {
      var next := Apply(stack, d.event).value;
      assert next != [] by { if next == [] { EmptyEnds(s, d.offset, bodyEnd, end, lim); } }
      assert (work + [Working(stack)])[|work| := Working(next)] == work + [Working(next)];
      Within(s, d.offset, bodyEnd, end, lim, work, next);
    }
  }

  /** Without a label only the last END can be read. */
  lemma EmptyEnds(s: seq<u8>, off: nat, bodyEnd: nat, end: nat, lim: Limits)
    requires end <= |s| && ReadBody(s, off, bodyEnd, end, lim, []).Some?
    ensures ReadBody(s, off, bodyEnd, end, lim, []) == Some([])
  {
    hide Decode;
  }

  predicate NoLabels(work: seq<Work>) { forall i :: 0 <= i < |work| ==> work[i].Done? }

  lemma {:induction false} NoneOnTop(work: seq<Work>)
    requires NoLabels(work)
    ensures Top(work) == -1 && AllOk(work)
  {}

  // ----- blocks without a label -----

  /** What is read is a `block`, `loop` or `if` that is lost, an END, and so on, up
      to such a block and the last END. */
  predicate Strays(s: seq<u8>, off: nat, bodyEnd: nat, end: nat, lim: Limits, lost: bool)
    requires end <= |s|
    decreases bodyEnd - off
  {
    off < bodyEnd
    && var d := Decode(s, off, end, lim);
    d.Next? && (
      if d.event == End && d.offset == bodyEnd then lost
      else if lost then d.event.End? && Strays(s, d.offset, bodyEnd, end, lim, false)
      else d.event.Open? && Strays(s, d.offset, bodyEnd, end, lim, true))
  }

  /** A body that closes its function early and goes on with such blocks. */
  predicate Hollow(s: seq<u8>, off: nat, bodyEnd: nat, end: nat, lim: Limits, stack: seq<Level>)
    requires end <= |s|
    decreases bodyEnd - off, 1
  {
    if stack == [] then Strays(s, off, bodyEnd, end, lim, false)
    else
      off < bodyEnd
      && var d := Decode(s, off, end, lim);
      d.Next? && !(d.event == End && d.offset == bodyEnd) && Apply(stack, d.event).Some?
      && Hollow(s, d.offset, bodyEnd, end, lim, Apply(stack, d.event).value)
  }

  /** Where no label is left over, a body that loses its label is read to its last
      END exactly if nothing follows but blocks that are lost. */
  lemma {:induction false} StraysRead(s: seq<u8>, off: nat, bodyEnd: nat, end: nat, lim: Limits, all: All)
    requires end <= |s| && NoLabels(all.work)
    ensures Sane(all)
    ensures var r := ReadBodies(s, off, bodyEnd, end, lim, all);
      && (Strays(s, off, bodyEnd, end, lim, all.lost) <==> r == Goes(All(all.work, true)))
      && (r.Goes? ==> r.all.work == all.work)
    ensures !all.lost ==> (ReadBody(s, off, bodyEnd, end, lim, []) == Some([]) ==> ReadBodies(s, off, bodyEnd, end, lim, all) == Goes(all))
    decreases bodyEnd - off
  {
    hide Decode;
    NoneOnTop(all.work);
    if off < bodyEnd {
      var d := Decode(s, off, end, lim);
      if d.Next? && !(d.event == End && d.offset == bodyEnd) && ApplyAll(all, d.event).Goes? {
        StraysRead(s, d.offset, bodyEnd, end, lim, ApplyAll(all, d.event).all);
      }
    }
  }

  /** Where no label is left over, a body is read to its last END, and a label is
      there to be popped, exactly if the body is accepted on its own or is hollow. */
  lemma {:induction false} FromClean(s: seq<u8>, off: nat, bodyEnd: nat, end: nat, lim: Limits, work: seq<Work>, stack: seq<Level>)
    requires end <= |s| && NoLabels(work) && stack != []
    ensures Sane(All(work + [Working(stack)], false))
    ensures var r, all := ReadBody(s, off, bodyEnd, end, lim, stack), ReadBodies(s, off, bodyEnd, end, lim, All(work + [Working(stack)], false));
      && (Hollow(s, off, bodyEnd, end, lim, stack) <==> all.Goes? && all.all.lost)
      && (all.Goes? && (r.None? || r.value == []) ==> NoLabels(all.all.work))
      && (Hollow(s, off, bodyEnd, end, lim, stack) ==> r.None?)
    decreases bodyEnd - off
  {
    hide Decode, Apply, Tree;
    TopLast(work, Working(stack));
    NoneOnTop(work);
    OkSnoc(work, Working(stack));
    if off < bodyEnd {
      var d := Decode(s, off, end, lim);
      if d.Next? && !(d.event == End && d.offset == bodyEnd) && Apply(stack, d.event).Some? {
        var next := Apply(stack, d.event).value;
        if next == [] {
          var done := (work + [Working(stack)])[|work| := Done(Tree(stack))];
          StraysRead(s, d.offset, bodyEnd, end, lim, All(done, false));
          StraysStrict(s, d.offset, bodyEnd, end, lim);
        } else {
          assert (work + [Working(stack)])[|work| := Working(next)] == work + [Working(next)];
          FromClean(s, d.offset, bodyEnd, end, lim, work, next);
        }
      }
    }
  }

  /** Nothing but the last END can be read without a label on a body's own. */
  lemma StraysStrict(s: seq<u8>, off: nat, bodyEnd: nat, end: nat, lim: Limits)
    requires end <= |s|
    ensures Strays(s, off, bodyEnd, end, lim, false) ==> ReadBody(s, off, bodyEnd, end, lim, []).None?
  {
    hide Decode;
  }

  // ----- how many labels are left -----

  /** The blocks that a body opens. */
  function Opens(s: seq<u8>, off: nat, bodyEnd: nat, end: nat, lim: Limits): nat
    requires end <= |s|
    decreases bodyEnd - off
  {
    if off >= bodyEnd then 0
    else
      var d := Decode(s, off, end, lim);
      if d.Malformed? || (d.event == End && d.offset == bodyEnd) then 0
      else (if d.event.Open? then 1 else 0) + Opens(s, d.offset, bodyEnd, end, lim)
  }

  /** The ENDs before the last byte of a body. */
  function Ends(s: seq<u8>, off: nat, bodyEnd: nat, end: nat, lim: Limits): nat
    requires end <= |s|
    decreases bodyEnd - off
  {
    if off >= bodyEnd then 0
    else
      var d := Decode(s, off, end, lim);
      if d.Malformed? || (d.event == End && d.offset == bodyEnd) then 0
      else (if d.event.End? then 1 else 0) + Ends(s, d.offset, bodyEnd, end, lim)
  }

  lemma {:induction false} LabelsLeft(s: seq<u8>, off: nat, bodyEnd: nat, end: nat, lim: Limits, stack: seq<Level>)
    requires end <= |s| && ReadBody(s, off, bodyEnd, end, lim, stack).Some?
    ensures |ReadBody(s, off, bodyEnd, end, lim, stack).value| + Ends(s, off, bodyEnd, end, lim)
      == |stack| + Opens(s, off, bodyEnd, end, lim)
    decreases bodyEnd - off
  {
    hide Decode;
    var d := Decode(s, off, end, lim);
    if !(d.event == End && d.offset == bodyEnd) {
      LabelsLeft(s, d.offset, bodyEnd, end, lim, Apply(stack, d.event).value);
    }
  }

  /** An accepted body has closed all its blocks exactly if it has as many ENDs
      before the last as it opens blocks. */
  lemma AllClosed(s: seq<u8>, off: nat, bodyEnd: nat, end: nat, lim: Limits)
    requires end <= |s| && ReadBody(s, off, bodyEnd, end, lim, FUNCTION).Some?
    ensures |ReadBody(s, off, bodyEnd, end, lim, FUNCTION).value| == 1
      <==> Opens(s, off, bodyEnd, end, lim) == Ends(s, off, bodyEnd, end, lim)
  {
    hide ReadBody, Opens, Ends;
    LabelsLeft(s, off, bodyEnd, end, lim, FUNCTION);
  }

  // ----- the callbacks -----

  ghost predicate Grows(b: Builder, w: Work, lost: bool)
    reads b
  {
    match w
    case Working(stack) => stack != [] && b.Shows(stack, 0)
    case Done(code) => (if lost then b.Stray() else b.labelStack == []) && SpellsCode(b.nodes, b.firstExpr, 0, code)
  }

  ghost predicate AllGrow(builders: seq<Builder>, work: seq<Work>, lost: bool)
    requires |builders| == |work|
    reads builders
  {
    forall i :: 0 <= i < |work| ==> Grows(builders[i], work[i], lost && i == |work| - 1)
  }

  /** `Wild`: what happens is not determined by the language of the program. */
  datatype Answer = Yes | No | Wild

  ghost predicate Answers(a: Answer, r: Effect) {
    match a
    case Yes => r.Goes?
    case No => r.Refused?
    case Wild => r.Undefined?
  }

  /** Every function has nodes of its own; the labels of all, one function after
      the other, are the label stack. A lost label is the last function's. */
  class Trees {
    var builders: seq<Builder>
    var open: seq<nat>          // the functions that have labels
    var lost: bool
    ghost var work: seq<Work>

    ghost predicate Valid()
      reads this, builders
    {
      && |builders| == |work| && AllOk(work) && (lost ==> open == [] && work != [])
      && AllGrow(builders, work, lost)
      && (forall i, j :: 0 <= i < j < |builders| ==> builders[i] != builders[j])
      && (forall k :: 0 <= k < |open| ==> open[k] < |work| && work[open[k]].Working?)
      && (forall j, k :: 0 <= j < k < |open| ==> open[j] < open[k])
      && (forall i :: 0 <= i < |work| && work[i].Working? ==> i in open)
    }

    ghost function Labels(): All
      reads this
    {
      All(work, lost)
    }

    constructor ()
      ensures Valid() && work == [] && builders == [] && !lost
    {
      builders, open, lost, work := [], [], false, [];
    }

    /** begin_function_body */
    method BeginFunctionBody()
      requires Valid() && !lost
      modifies this
      ensures Valid() && work == old(work) + [Working(FUNCTION)] && !lost
      ensures builders[..|old(builders)|] == old(builders) && |builders| == |old(builders)| + 1 && fresh(builders[|old(builders)|])
    {
      hide Binary.Apply, Represents, SpellsCode;
      var b := new Builder();
      builders, open, work := builders + [b], open + [|builders|], work + [Working(FUNCTION)];
    }

    lemma TopIsLast()
      requires Valid()
      ensures Sane(Labels()) && Top(work) == if open == [] then -1 else open[|open| - 1]
    {
      hide Represents, SpellsCode;
      var t := Top(work);
      if t >= 0 {
        var k :| 0 <= k < |open| && open[k] == t;
        assert open[k] <= open[|open| - 1];
      }
      if open != [] { assert work[open[|open| - 1]].Working?; }
    }

    /** The callback of an event, on the innermost block. */
    method Notify(event: Event) returns (a: Answer)
      requires Valid() && (event.Leaf? ==> !IsNested(event.e)) && work != []
      modifies this`open, this`lost, this`work, builders
      ensures Sane(old(Labels())) && Answers(a, ApplyAll(old(Labels()), event))
      ensures a.Yes? ==> Valid() && Labels() == ApplyAll(old(Labels()), event).all
    {
      hide Represents, Binary.Apply, Tree, SpellsCode;
      TopIsLast();
      if open == [] {
        a := NotifyBare(event);
        return;
      }
      var t := open[|open| - 1];
      var b := builders[t];
      ghost var stack := work[t].stack;
      assert Grows(builders[t], work[t], false);
      var ok := Tell(b, event, stack);
      a := if ok then Yes else No;
      if ok {
        ghost var next := Binary.Apply(stack, event).value;
        work := work[t := if next == [] then Done(Tree(stack)) else Working(next)];
        if b.labelStack == [] { open := open[..|open| - 1]; }
      }
    }

    /** No function has a label: the callbacks see an empty stack, or a lost label. */
    method NotifyBare(event: Event) returns (a: Answer)
      requires Valid() && work != [] && open == [] && (event.Leaf? ==> !IsNested(event.e))
      modifies this`lost, builders
      ensures Answers(a, ApplyBare(old(Labels()), event))
      ensures a.Yes? ==> Valid() && Labels() == ApplyBare(old(Labels()), event).all
    {
      hide Represents, Tree, SpellsCode;
      var b := builders[|builders| - 1];
      assert Grows(b, work[|work| - 1], lost);
      if lost && (event.Leaf? || event.Open?) {
        a := Wild;  // append_expr follows a pointer into the freed node
      } else if event.Leaf? {
        var ok := b.OnLeaf(event.e, []);
        a := if ok then Yes else No;
      } else if event.Open? {
        b.OnOpen(event.kind, event.sig, []);
        a, lost := Yes, true;
      } else if event.Else? {
        var ok := b.OnElse([]);
        a := if ok then Yes else No;
      } else {
        var ok := b.OnEnd([]);
        a, lost := if ok then Yes else No, false;
      }
    }

    lemma AllLabels()
      requires Valid()
      ensures forall i :: 0 <= i < |work| ==> LabelsAre(builders[i], work[i])
    {
      hide SpellsCode;
      forall i | 0 <= i < |work| ensures LabelsAre(builders[i], work[i]) {
        assert Grows(builders[i], work[i], lost && i == |work| - 1);
        if work[i].Working? { LabelCount(builders[i], work[i].stack); }
      }
    }

    /** Once everything is read, every label that is left is destroyed, and the
        expressions it starts with it; a second label of one function lies in what
        the first has freed. */
    method DestroyLabels() returns (a: Answer)
      requires Valid() && !lost
      modifies builders
      ensures a == if exists i :: 0 <= i < |work| && Several(work[i]) then Wild else Yes
      ensures a.Yes? ==> forall i :: 0 <= i < |work| ==> (Kept(builders[i], work[i]) <==> work[i].Done? || CodeOf(work[i]) == Nil)
    {
      hide Represents, SpellsCode, CodeOf, Kept, Grows, LabelsAre;
      var k := 0;
      Spelled(this);
      AllLabels();
      while k < |open|
        invariant 0 <= k <= |open|
        invariant forall j :: k <= j < |open| ==> LabelsAre(builders[open[j]], work[open[j]]) && Kept(builders[open[j]], work[open[j]])
        invariant forall i :: 0 <= i < |work| && work[i].Done? ==> Kept(builders[i], work[i])
        invariant forall j :: 0 <= j < k ==> !Several(work[open[j]])
        invariant forall j :: 0 <= j < k ==> (Kept(builders[open[j]], work[open[j]]) <==> CodeOf(work[open[j]]) == Nil)
      {
        var b := builders[open[k]];
        ghost var w := work[open[k]];
        LabelsIs(b, w);
        if |b.labelStack| > 1 { return Wild; }
        assert !Several(w);
        Destroy(b, w);
        k := k + 1;
      }
      a := Yes;
      forall i | 0 <= i < |work| ensures !Several(work[i]) && (Kept(builders[i], work[i]) <==> work[i].Done? || CodeOf(work[i]) == Nil) {
        if work[i].Working? { var j :| 0 <= j < |open| && open[j] == i; }
      }
    }
  }

  /** The function has a label besides its own. */
  predicate Several(w: Work) { w.Working? && |w.stack| > 1 }

  ghost predicate LabelsAre(b: Builder, w: Work)
    reads b
  {
    w.Working? ==> |b.labelStack| == |w.stack|
  }

  /** The nodes of the function spell its tree. */
  ghost predicate Kept(b: Builder, w: Work)
    requires WorkOk(w)
    reads b
  {
    SpellsCode(b.nodes, b.firstExpr, 0, CodeOf(w))
  }

  ghost predicate AllSpelled(builders: seq<Builder>, work: seq<Work>)
    reads builders
  {
    && |builders| == |work| && AllOk(work)
    && forall i :: 0 <= i < |work| ==> WorkOk(work[i]) && Kept(builders[i], work[i])
  }

  lemma Spelled(trees: Trees)
    requires trees.Valid()
    ensures AllSpelled(trees.builders, trees.work)
  {
    hide Represents, SpellsCode, Tree;
    forall i | 0 <= i < |trees.work| ensures WorkOk(trees.work[i]) && Kept(trees.builders[i], trees.work[i]) {
      var b, w := trees.builders[i], trees.work[i];
      assert Grows(b, w, trees.lost && i == |trees.work| - 1);
      if w.Working? { TreeSpelled(b.nodes, b.firstExpr, b.labelStack, w.stack); }
    }
  }

  lemma LabelsIs(b: Builder, w: Work)
    requires LabelsAre(b, w)
    ensures w.Working? ==> |b.labelStack| == |w.stack|
  {}

  /** Where the expressions are freed, a tree is kept only if it was empty. */
  method Destroy(b: Builder, ghost w: Work)
    requires WorkOk(w) && Kept(b, w)
    modifies b`nodes
    ensures Kept(b, w) <==> CodeOf(w) == Nil
  {
    hide Tree;
    ghost var nodes := b.nodes;
    b.DestroyLabel();
    match CodeOf(w)
    case Nil =>
    case Cons(e, rest) => assert !Spells([], 0, e);
  }

  method Tell(b: Builder, event: Event, ghost stack: seq<Level>) returns (ok: bool)
    requires stack != [] && b.Shows(stack, 0) && (event.Leaf? ==> !IsNested(event.e))
    modifies b
    ensures ok <==> Binary.Apply(stack, event).Some?
    ensures ok ==> var next := Binary.Apply(stack, event).value; Grows(b, if next == [] then Done(Tree(stack)) else Working(next), false)
    ensures ok ==> (b.labelStack == [] <==> Binary.Apply(stack, event).value == [])
  {
    hide Represents, Tree, SpellsCode;
    if event.Leaf? {
      ok := b.OnLeaf(event.e, stack);
    } else if event.Open? {
      b.OnOpen(event.kind, event.sig, stack);
      ok := true;
    } else if event.Else? {
      ok := b.OnElse(stack);
    } else {
      TreeSpelled(b.nodes, b.firstExpr, b.labelStack, stack);
      ok := b.OnEnd(stack);
    }
    if ok { LabelCount(b, Binary.Apply(stack, event).value); }
  }

  lemma LabelCount(b: Builder, stack: seq<Level>)
    requires if stack == [] then b.labelStack == [] else b.Shows(stack, 0)
    ensures |b.labelStack| == |stack|
  {}
}
