/** The generator's two families of fixup lists, tied to the symbolic code:
    every list names exactly the places where its reference is still open. */
module Fixups {
  import opened Wasm
  import opened Assembly

  datatype LabelType = FuncLabel | BlockLabel | LoopLabel | IfLabel | ElseLabel

  /** An entry of the label stack; INVALID stands for an unknown offset. */
  datatype Label = Label(labelType: LabelType, sig: seq<Type>, limit: nat, offset: nat, fixupOffset: nat)

  function FixupsAt(fixups: seq<seq<nat>>, i: nat): seq<nat> {
    if i < |fixups| then fixups[i] else []
  }

  /** append_fixup: grow the outer vector if need be, then append. */
  function AddFixup(fixups: seq<seq<nat>>, i: nat, offset: nat): (r: seq<seq<nat>>)
    ensures |r| == if i < |fixups| then |fixups| else i + 1
    ensures forall j :: FixupsAt(r, j) == if j == i then FixupsAt(fixups, i) + [offset] else FixupsAt(fixups, j)
  {
    var grown := if i < |fixups| then fixups else fixups + Replicate(i + 1 - |fixups|, []);
    grown[i := grown[i] + [offset]]
  }

  /** Branch operands whose label has no end yet. */
  ghost predicate BranchesTracked(items: seq<Item>, labels: seq<Label>, fixups: seq<seq<nat>>) {
    && |fixups| <= |labels|
    && (forall l: nat :: Offsets(items, LabelRef(l)) == FixupsAt(fixups, l))
    && (forall l: nat :: l < |labels| && labels[l].offset != INVALID ==> FixupsAt(fixups, l) == [])
  }

  function Hole(labels: seq<Label>, l: nat, t: LabelType): seq<nat> {
    if l < |labels| && labels[l].labelType == t then [labels[l].fixupOffset] else []
  }

  /** Operands of br_unless and of the jump over an else arm; `skip` is the hole
      the running callback has left open. */
  ghost predicate HolesTracked(items: seq<Item>, labels: seq<Label>, skip: seq<nat>) {
    && (forall l: nat :: Offsets(items, CondRef(l)) == Hole(labels, l, IfLabel))
    && (forall l: nat :: Offsets(items, ElseRef(l)) == Hole(labels, l, ElseLabel))
    && Offsets(items, SkipRef) == skip
  }

  /** Call operands whose callee has no entry yet. */
  ghost predicate CallsTracked(items: seq<Item>, entries: seq<nat>, fixups: seq<seq<nat>>) {
    && |fixups| == |entries|
    && (forall f: nat :: f < |entries| ==> Offsets(items, FuncRef(f)) == if entries[f] == INVALID then fixups[f] else [])
    && (forall f: nat :: f >= |entries| ==> Offsets(items, FuncRef(f)) == [])
  }

  lemma OffsetsKept(items: seq<Item>, i: Item)
    ensures forall r :: i != Use(r) ==> Offsets(items + [i], r) == Offsets(items, r)
  {
    forall r | i != Use(r) ensures Offsets(items + [i], r) == Offsets(items, r) { OffsetsSnoc(items, i, r); }
  }

  lemma BranchesKept(items: seq<Item>, i: Item, labels: seq<Label>, fixups: seq<seq<nat>>)
    requires BranchesTracked(items, labels, fixups) && (i.Use? ==> !i.ref.LabelRef?)
    ensures BranchesTracked(items + [i], labels, fixups)
  {
    hide Offsets;
    OffsetsKept(items, i);
  }

  lemma HolesKept(items: seq<Item>, i: Item, labels: seq<Label>, skip: seq<nat>)
    requires HolesTracked(items, labels, skip) && (i.Use? ==> i.ref.LabelRef? || i.ref.FuncRef?)
    ensures HolesTracked(items + [i], labels, skip)
  {
    hide Offsets, Hole;
    OffsetsKept(items, i);
  }

  lemma CallsKept(items: seq<Item>, i: Item, entries: seq<nat>, fixups: seq<seq<nat>>)
    requires CallsTracked(items, entries, fixups) && (i.Use? ==> !i.ref.FuncRef?)
    ensures CallsTracked(items + [i], entries, fixups)
  {
    hide Offsets;
    OffsetsKept(items, i);
  }

  lemma BranchAdded(items: seq<Item>, l: nat, labels: seq<Label>, fixups: seq<seq<nat>>)
    requires BranchesTracked(items, labels, fixups) && l < |labels| && labels[l].offset == INVALID
    ensures BranchesTracked(items + [Use(LabelRef(l))], labels, AddFixup(fixups, l, Size(items)))
  {
    hide Offsets;
    OffsetsKept(items, Use(LabelRef(l)));
    OffsetsSnoc(items, Use(LabelRef(l)), LabelRef(l));
  }

  lemma CallAdded(items: seq<Item>, f: nat, entries: seq<nat>, fixups: seq<seq<nat>>)
    requires CallsTracked(items, entries, fixups) && f < |entries| && entries[f] == INVALID
    ensures CallsTracked(items + [Use(FuncRef(f))], entries, AddFixup(fixups, f, Size(items)))
  {
    hide Offsets;
    OffsetsKept(items, Use(FuncRef(f)));
    OffsetsSnoc(items, Use(FuncRef(f)), FuncRef(f));
    var r := AddFixup(fixups, f, Size(items));
    assert forall g :: 0 <= g < |entries| ==> r[g] == FixupsAt(r, g) && fixups[g] == FixupsAt(fixups, g);
  }

  lemma SkipAdded(items: seq<Item>, labels: seq<Label>)
    requires HolesTracked(items, labels, [])
    ensures HolesTracked(items + [Use(SkipRef)], labels, [Size(items)])
  {
    hide Offsets, Hole;
    OffsetsKept(items, Use(SkipRef));
    OffsetsSnoc(items, Use(SkipRef), SkipRef);
  }

  /** Opening an `if`: its label is pushed right after its hole is emitted. */
  lemma CondAdded(items: seq<Item>, labels: seq<Label>, l: Label)
    requires HolesTracked(items, labels, []) && l.labelType == IfLabel && l.fixupOffset == Size(items)
    ensures HolesTracked(items + [Use(CondRef(|labels|))], labels + [l], [])
  {
    hide Offsets;
    var r := CondRef(|labels|);
    OffsetsKept(items, Use(r));
    OffsetsSnoc(items, Use(r), r);
  }

  /** Emitting the hole of an `else` and filling the one of its `if`. */
  lemma ElseOffsets(items: seq<Item>, level: nat, w: int, r: Ref)
    ensures Offsets(Subst(items + [Use(ElseRef(level))], CondRef(level), w), r)
      == if r == CondRef(level) then []
         else if r == ElseRef(level) then Offsets(items, r) + [Size(items)]
         else Offsets(items, r)
  {
    hide Offsets, Subst;
    OffsetsSnoc(items, Use(ElseRef(level)), r);
    SubstSize(items + [Use(ElseRef(level))], CondRef(level), w);
  }

  /** The `if` label turns into an `else` label with a hole of its own. */
  lemma ElseAdded(items: seq<Item>, labels: seq<Label>, l: Label, w: int)
    requires HolesTracked(items, labels, []) && |labels| > 0 && labels[|labels| - 1].labelType == IfLabel
    requires l.labelType == ElseLabel && l.fixupOffset == Size(items)
    ensures HolesTracked(Subst(items + [Use(ElseRef(|labels| - 1))], CondRef(|labels| - 1), w), labels[|labels| - 1 := l], [])
  {
    hide Offsets, Subst, Size;
    var top := |labels| - 1;
    var done := Subst(items + [Use(ElseRef(top))], CondRef(top), w);
    forall i: nat ensures Offsets(done, CondRef(i)) == Hole(labels[top := l], i, IfLabel) {
      ElseOffsets(items, top, w, CondRef(i));
    }
    forall i: nat ensures Offsets(done, ElseRef(i)) == Hole(labels[top := l], i, ElseLabel) {
      ElseOffsets(items, top, w, ElseRef(i));
    }
    ElseOffsets(items, top, w, SkipRef);
  }

  lemma PushKeeps(items: seq<Item>, labels: seq<Label>, l: Label, fixups: seq<seq<nat>>)
    requires BranchesTracked(items, labels, fixups)
    ensures BranchesTracked(items, labels + [l], fixups)
    ensures l.labelType != IfLabel && l.labelType != ElseLabel && HolesTracked(items, labels, []) ==>
      HolesTracked(items, labels + [l], [])
  {
    hide Offsets;
  }

  /** Only the contents of the lists matter. */
  lemma SameFixups(items: seq<Item>, labels: seq<Label>, fixups: seq<seq<nat>>, other: seq<seq<nat>>)
    requires BranchesTracked(items, labels, fixups) && |other| <= |labels|
    requires forall l: nat :: FixupsAt(other, l) == FixupsAt(fixups, l)
    ensures BranchesTracked(items, labels, other)
  {
    hide Offsets;
  }

  /** Changing a label without giving it an offset changes no list. */
  lemma RelabelKeeps(items: seq<Item>, labels: seq<Label>, i: nat, l: Label, fixups: seq<seq<nat>>)
    requires BranchesTracked(items, labels, fixups) && i < |labels| && l.offset == labels[i].offset
    ensures BranchesTracked(items, labels[i := l], fixups)
  {
    hide Offsets;
  }

  lemma SubstKeepsBranches(items: seq<Item>, r: Ref, w: int, labels: seq<Label>, fixups: seq<seq<nat>>)
    requires BranchesTracked(items, labels, fixups) && !r.LabelRef?
    ensures BranchesTracked(Subst(items, r, w), labels, fixups)
  {
    hide Offsets;
    SubstSize(items, r, w);
  }

  lemma SubstKeepsCalls(items: seq<Item>, r: Ref, w: int, entries: seq<nat>, fixups: seq<seq<nat>>)
    requires CallsTracked(items, entries, fixups) && !r.FuncRef?
    ensures CallsTracked(Subst(items, r, w), entries, fixups)
  {
    hide Offsets;
    SubstSize(items, r, w);
  }

  lemma SubstKeepsHoles(items: seq<Item>, r: Ref, w: int, labels: seq<Label>, skip: seq<nat>)
    requires HolesTracked(items, labels, skip) && (r.LabelRef? || r.FuncRef?)
    ensures HolesTracked(Subst(items, r, w), labels, skip)
  {
    hide Offsets;
    SubstSize(items, r, w);
  }

  lemma SkipFilled(items: seq<Item>, w: int, labels: seq<Label>, skip: seq<nat>)
    requires HolesTracked(items, labels, skip)
    ensures HolesTracked(Subst(items, SkipRef, w), labels, [])
  {
    hide Offsets;
    SubstSize(items, SkipRef, w);
  }

  function HoleRef(t: LabelType, level: nat): Ref {
    if t == ElseLabel then ElseRef(level) else CondRef(level)
  }

  /** Closing a label: its hole, if it has one, and all branches to it are
      filled, and the label is popped with its fixup list. */
  function Close(items: seq<Item>, labels: seq<Label>, w: int): seq<Item>
    requires |labels| > 0
  {
    var level := |labels| - 1;
    Subst(Subst(items, HoleRef(labels[level].labelType, level), w), LabelRef(level), w)
  }

  lemma HolesClosed(items: seq<Item>, labels: seq<Label>, w: int)
    requires |labels| > 0 && HolesTracked(items, labels, [])
    ensures HolesTracked(Close(items, labels, w), labels[..|labels| - 1], [])
  {
    hide Offsets;
    var level := |labels| - 1;
    var r := HoleRef(labels[level].labelType, level);
    SubstSize(items, r, w);
    SubstSize(Subst(items, r, w), LabelRef(level), w);
  }

  lemma BranchesClosed(items: seq<Item>, labels: seq<Label>, w: int, fixups: seq<seq<nat>>, rest: seq<seq<nat>>)
    requires |labels| > 0 && BranchesTracked(items, labels, fixups)
    requires rest == if |fixups| == |labels| then fixups[..|labels| - 1] else fixups
    ensures BranchesTracked(Close(items, labels, w), labels[..|labels| - 1], rest)
  {
    hide Offsets;
    var level := |labels| - 1;
    var r := HoleRef(labels[level].labelType, level);
    SubstSize(items, r, w);
    SubstSize(Subst(items, r, w), LabelRef(level), w);
  }

  lemma CallsClosed(items: seq<Item>, labels: seq<Label>, w: int, entries: seq<nat>, fixups: seq<seq<nat>>)
    requires |labels| > 0 && CallsTracked(items, entries, fixups)
    ensures CallsTracked(Close(items, labels, w), entries, fixups)
  {
    hide Offsets;
    var level := |labels| - 1;
    var r := HoleRef(labels[level].labelType, level);
    SubstKeepsCalls(items, r, w, entries, fixups);
    SubstKeepsCalls(Subst(items, r, w), LabelRef(level), w, entries, fixups);
  }

  /** What tracking says about the innermost label. */
  lemma HolesTop(items: seq<Item>, labels: seq<Label>, skip: seq<nat>)
    requires HolesTracked(items, labels, skip) && |labels| > 0
    ensures var l := labels[|labels| - 1];
      Offsets(items, HoleRef(l.labelType, |labels| - 1))
        == if l.labelType == IfLabel || l.labelType == ElseLabel then [l.fixupOffset] else []
  {
    hide Offsets;
  }

  lemma BranchesTop(items: seq<Item>, labels: seq<Label>, fixups: seq<seq<nat>>)
    requires BranchesTracked(items, labels, fixups) && |labels| > 0
    ensures |fixups| <= |labels|
    ensures FixupsAt(fixups, |labels| - 1) == Offsets(items, LabelRef(|labels| - 1))
  {
    hide Offsets;
  }

  /** A function starts: the calls to it are filled and stay filled. */
  lemma CallsEntered(items: seq<Item>, f: nat, entries: seq<nat>, fixups: seq<seq<nat>>, w: nat)
    requires CallsTracked(items, entries, fixups) && f < |entries| && entries[f] == INVALID && w != INVALID
    ensures CallsTracked(Subst(items, FuncRef(f), w), entries[f := w], fixups)
  {
    hide Offsets;
    SubstSize(items, FuncRef(f), w);
  }
}
