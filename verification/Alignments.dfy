/** An access without an alignment has that of its size: writing it out changes
    neither the typing of a tree nor its code. */
module Alignments {
  import opened Wasm
  import opened Binary
  import opened Typing
  import T = Typing
  import C = Compile

  lemma SizePower(op: u8)
    requires LoadSig(op).Some? || StoreSig(op).Some?
    ensures PowerOfTwo(MemorySize(op)) && 0 < MemorySize(op) < NATURAL
    ensures LoadSig(op).Some? ==> MemorySize(op) == LoadSig(op).value.1
    ensures StoreSig(op).Some? ==> MemorySize(op) == StoreSig(op).value.1 && LoadSig(op).None?
  {
    assert PowerOfTwo(1) && PowerOfTwo(2) && PowerOfTwo(4) && PowerOfTwo(8);
  }

  lemma AccessSame(s: Scope, op: u8, align: u32, size: u32)
    requires PowerOfTwo(size) && size == MemorySize(op) < NATURAL
    ensures AccessOk(s, Alignment(op, align), size) == AccessOk(s, align, size)
  {
    hide PowerOfTwo, MemorySize;
  }

  lemma AccessSig(s: Scope, e: Instr)
    requires e.Load? || e.Store?
    ensures OperatorSig(s, Explicit(e)) == OperatorSig(s, e)
  {
    hide LoadSig, StoreSig, MemorySize, AccessOk, Alignment;
    if LoadSig(e.op).Some? || StoreSig(e.op).Some? {
      SizePower(e.op);
      AccessSame(s, e.op, e.align, MemorySize(e.op));
    }
  }

  lemma AccessTyped(s: Scope, e: Instr, ts: seq<Type>)
    requires e.Load? || e.Store?
    ensures TypeOperator(s, Explicit(e), ts) == TypeOperator(s, e, ts)
  {
    hide OperatorSig, Alignment, EndsWith;
    AccessSig(s, e);
  }

  /** The same types. */
  lemma {:induction false} ExplicitTyped(s: Scope, labels: seq<Label>, code: Code, ts: seq<Type>)
    ensures T.TypeCode(s, labels, ExplicitCode(code), ts) == T.TypeCode(s, labels, code, ts)
    decreases code, 0
  {
    hide TypeInstr, Explicit;
    if code.Cons? {
      ExplicitInstrTyped(s, labels, code.head, ts);
      var t := TypeInstr(s, labels, code.head, ts);
      if t.Live? { ExplicitTyped(s, labels, code.tail, t.types); }
    }
  }

  lemma {:induction false} ExplicitInstrTyped(s: Scope, labels: seq<Label>, e: Instr, ts: seq<Type>)
    ensures TypeInstr(s, labels, Explicit(e), ts) == TypeInstr(s, labels, e, ts)
    decreases e, 1
  {
    hide T.TypeCode, TypeOperator, ExplicitCode, LoadSig, StoreSig, EndsWith, TypeJump, TypeCall, TypeVariable;
    if e.Block? || e.Loop? {
      ExplicitTyped(s, labels + [Label(e.Loop?, e.sig)], e.body, []);
    } else if e.If? {
      ExplicitTyped(s, labels + [Label(false, e.sig)], e.thn, []);
      ExplicitTyped(s, labels + [Label(false, e.sig)], e.els, []);
    } else if e.Load? || e.Store? {
      AccessTyped(s, e, ts);
    }
  }

  /** The same demands of the code generator. */
  lemma {:induction false} ExplicitGenerable(s: Scope, labels: seq<Label>, code: Code, ts: seq<Type>)
    ensures GenerableCode(s, labels, ExplicitCode(code), ts) == GenerableCode(s, labels, code, ts)
    decreases code, 0
  {
    hide TypeInstr, Explicit, Generable;
    if code.Cons? {
      ExplicitInstrGenerable(s, labels, code.head, ts);
      ExplicitInstrTyped(s, labels, code.head, ts);
      var t := TypeInstr(s, labels, code.head, ts);
      if t.Live? { ExplicitGenerable(s, labels, code.tail, t.types); }
    }
  }

  lemma {:induction false} ExplicitInstrGenerable(s: Scope, labels: seq<Label>, e: Instr, ts: seq<Type>)
    ensures Generable(s, labels, Explicit(e), ts) == Generable(s, labels, e, ts)
    decreases e, 1
  {
    hide GenerableCode, ExplicitCode, LoadSig, StoreSig, EndsWith;
    if e.Block? || e.Loop? {
      ExplicitGenerable(s, labels + [Label(e.Loop?, e.sig)], e.body, []);
    } else if e.If? {
      ExplicitGenerable(s, labels + [Label(false, e.sig)], e.thn, []);
      ExplicitGenerable(s, labels + [Label(false, e.sig)], e.els, []);
    }
  }

  lemma {:induction false} ExplicitRepresentable(code: Code)
    ensures Representable(ExplicitCode(code)) == Representable(code)
    decreases code, 0
  {
    if code.Cons? {
      ExplicitInstrRepresentable(code.head);
      ExplicitRepresentable(code.tail);
    }
  }

  lemma {:induction false} ExplicitInstrRepresentable(e: Instr)
    ensures RepresentableInstr(Explicit(e)) == RepresentableInstr(e) && Terminal(Explicit(e)) == Terminal(e)
    decreases e, 1
  {
    if e.Block? || e.Loop? {
      ExplicitRepresentable(e.body);
    } else if e.If? {
      ExplicitRepresentable(e.thn);
      ExplicitRepresentable(e.els);
      if e.els == Nil { assert ExplicitCode(e.els) == Nil; }
    }
  }

  /** The same code. */
  lemma {:induction false} ExplicitCompiled(k: C.Context, labels: seq<C.Label>, code: Code, off: nat, h: int)
    ensures C.CompCode(k, labels, ExplicitCode(code), off, h) == C.CompCode(k, labels, code, off, h)
    decreases code, 0
  {
    hide C.CompInstr, Explicit, C.Delta;
    if code.Cons? {
      ExplicitInstrCompiled(k, labels, code.head, off, h);
      ExplicitDelta(k.m, code.head);
      ExplicitCompiled(k, labels, code.tail, off + Assembly.Size(C.CompInstr(k, labels, code.head, off, h)), h + C.Delta(k.m, code.head));
    }
  }

  lemma ExplicitDelta(m: Module, e: Instr)
    ensures C.Delta(m, Explicit(e)) == C.Delta(m, e)
  {}

  lemma {:induction false} ExplicitInstrCompiled(k: C.Context, labels: seq<C.Label>, e: Instr, off: nat, h: int)
    ensures C.CompInstr(k, labels, Explicit(e), off, h) == C.CompInstr(k, labels, e, off, h)
    decreases e, 3
  {
    hide C.CompCode, ExplicitCode, C.CompJump, C.CompCall;
    if e.Block? {
      ExplicitEnd(k, labels, e.body, |e.sig|, off, h);
      ExplicitCompiled(k, labels + [C.ClosedLabel(h, |e.sig|, C.EndOf(k, labels, e.body, |e.sig|, off, h))], e.body, off, h);
    } else if e.Loop? {
      ExplicitCompiled(k, labels + [C.ClosedLabel(h, 0, off)], e.body, off, h);
    } else if e.If? {
      ExplicitIf(k, labels, e, off, h);
    }
  }

  lemma ExplicitEnd(k: C.Context, labels: seq<C.Label>, body: Code, arity: nat, off: nat, h: int)
    ensures C.EndOf(k, labels, ExplicitCode(body), arity, off, h) == C.EndOf(k, labels, body, arity, off, h)
    decreases body, 1
  {
    hide C.CompCode, ExplicitCode;
    ExplicitCompiled(k, labels + [C.OpenLabel(h, arity)], body, off, h);
  }

  lemma ExplicitIf(k: C.Context, labels: seq<C.Label>, e: Instr, off: nat, h: int)
    requires e.If?
    ensures C.CompIf(k, labels, Explicit(e), off, h) == C.CompIf(k, labels, e, off, h)
    decreases e, 2
  {
    hide C.CompCode, ExplicitCode, C.EndOf;
    ExplicitEnd(k, labels, e.thn, |e.sig|, off + 5, h - 1);
    var mid := C.ElseOf(k, labels, e, off, h);
    ExplicitEnd(k, labels, e.els, |e.sig|, mid, h - 1);
    var inner := labels + [C.ClosedLabel(h - 1, |e.sig|, C.EndOfIf(k, labels, e, off, h))];
    ExplicitCompiled(k, inner, e.thn, off + 5, h - 1);
    ExplicitCompiled(k, inner, e.els, mid, h - 1);
  }
}
