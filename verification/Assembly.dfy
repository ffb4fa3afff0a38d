/** Symbolic assembly: what the code generator emits, with forward references
    kept by name. Encoding it gives the bytes of the istream, a forward
    reference being the invalid offset; patching all uses of a reference in
    those bytes is substitution on the symbolic side. */
module Assembly {
  import opened Wasm

  datatype Ref =
    | LabelRef(level: nat)  // end of the block whose label is at this level
    | CondRef(level: nat)   // where the br_unless of an `if` goes
    | ElseRef(level: nat)   // where the jump over an `else` arm goes
    | FuncRef(func: nat)    // entry of a function
    | SkipRef               // hole that the same callback fills

  datatype Item = Op(b: u8) | Word(w: int) | Use(ref: Ref)

  function Width(i: Item): nat { if i.Op? then 1 else 4 }

  function Size(items: seq<Item>): nat {
    if items == [] then 0 else Size(items[..|items| - 1]) + Width(items[|items| - 1])
  }

  /** A 32-bit word in the byte order of a little-endian host. */
  function Bytes(w: int): (s: seq<u8>)
    ensures |s| == 4
  {
    [w % 0x100, w / 0x100 % 0x100, w / 0x100 / 0x100 % 0x100, w / 0x100 / 0x100 / 0x100 % 0x100]
  }

  function EncodeItem(i: Item): (s: seq<u8>)
    ensures |s| == Width(i)
  {
    match i
    case Op(b) => [b]
    case Word(w) => Bytes(w)
    case Use(_) => Bytes(INVALID)
  }

  function Encode(items: seq<Item>): (s: seq<u8>)
    ensures |s| == Size(items)
  {
    if items == [] then [] else Encode(items[..|items| - 1]) + EncodeItem(items[|items| - 1])
  }

  function Subst(items: seq<Item>, r: Ref, w: int): (s: seq<Item>)
    ensures |s| == |items|
    ensures forall i :: 0 <= i < |items| ==> s[i] == if items[i] == Use(r) then Word(w) else items[i]
  {
    seq(|items|, i requires 0 <= i < |items| => if items[i] == Use(r) then Word(w) else items[i])
  }

  /** Where the uses of a reference are, in the order they were emitted. */
  function Offsets(items: seq<Item>, r: Ref): seq<nat> {
    if items == [] then []
    else
      var front := items[..|items| - 1];
      Offsets(front, r) + if items[|items| - 1] == Use(r) then [Size(front)] else []
  }

  /** Overwrite the four bytes at `at`. */
  function Patch(s: seq<u8>, at: nat, word: seq<u8>): (p: seq<u8>)
    requires at + 4 <= |s| && |word| == 4
    ensures |p| == |s|
  {
    s[..at] + word + s[at + 4..]
  }

  function PatchAll(s: seq<u8>, offsets: seq<nat>, word: seq<u8>): (p: seq<u8>)
    requires |word| == 4
    requires forall i :: 0 <= i < |offsets| ==> offsets[i] + 4 <= |s|
    ensures |p| == |s|
  {
    if offsets == [] then s
    else Patch(PatchAll(s, offsets[..|offsets| - 1], word), offsets[|offsets| - 1], word)
  }

  // ----- appending -----

  lemma SizeSnoc(items: seq<Item>, i: Item)
    ensures Size(items + [i]) == Size(items) + Width(i)
    ensures Encode(items + [i]) == Encode(items) + EncodeItem(i)
  {
    assert (items + [i])[..|items|] == items;
  }

  lemma OffsetsSnoc(items: seq<Item>, i: Item, r: Ref)
    ensures Offsets(items + [i], r) == Offsets(items, r) + if i == Use(r) then [Size(items)] else []
  {
    assert (items + [i])[..|items|] == items;
  }

  lemma Assoc<T>(x: seq<T>, y: seq<T>, z: seq<T>)
    ensures (x + y) + z == x + (y + z)
  {}

  lemma AppendNil(a: seq<Item>)
    ensures Size(a + []) == Size(a) + Size([]) && Encode(a + []) == Encode(a) + Encode([])
  {
    assert a + [] == a;
  }

  lemma {:induction false} SizeAppend(a: seq<Item>, b: seq<Item>)
    ensures Size(a + b) == Size(a) + Size(b)
    ensures Encode(a + b) == Encode(a) + Encode(b)
  {
    hide Encode, Size, EncodeItem;
    if b == [] {
      AppendNil(a);
    } else {
      var front, i := b[..|b| - 1], b[|b| - 1];
      SizeAppend(a, front);
      SizeSnoc(a + front, i);
      SizeSnoc(front, i);
      assert b == front + [i];
      assert a + b == (a + front) + [i];
      Assoc(Encode(a), Encode(front), EncodeItem(i));
    }
  }

  lemma {:induction false} OffsetsInside(items: seq<Item>, r: Ref)
    ensures forall k :: 0 <= k < |Offsets(items, r)| ==> Offsets(items, r)[k] + 4 <= Size(items)
  {
    if items != [] {
      OffsetsInside(items[..|items| - 1], r);
    }
  }

  // ----- substitution -----

  lemma SubstSnoc(items: seq<Item>, i: Item, r: Ref, w: int)
    ensures Subst(items + [i], r, w) == Subst(items, r, w) + [if i == Use(r) then Word(w) else i]
  {}

  lemma {:induction false} SubstSize(items: seq<Item>, r: Ref, w: int)
    ensures Size(Subst(items, r, w)) == Size(items)
    ensures Offsets(Subst(items, r, w), r) == []
    ensures forall q :: q != r ==> Offsets(Subst(items, r, w), q) == Offsets(items, q)
  {
    if items == [] {
      assert Subst(items, r, w) == items;
    } else {
      hide Size, Offsets, Encode, EncodeItem;
      var front, i := items[..|items| - 1], items[|items| - 1];
      SubstSize(front, r, w);
      assert items == front + [i];
      SubstSnoc(front, i, r, w);
      var j := if i == Use(r) then Word(w) else i;
      SizeSnoc(front, i);
      SizeSnoc(Subst(front, r, w), j);
      forall q ensures Offsets(Subst(items, r, w), q) == if q == r then [] else Offsets(items, q) {
        OffsetsSnoc(front, i, q);
        OffsetsSnoc(Subst(front, r, w), j, q);
      }
    }
  }

  lemma SubstAppend(a: seq<Item>, b: seq<Item>, r: Ref, w: int)
    ensures Subst(a + b, r, w) == Subst(a, r, w) + Subst(b, r, w)
  {}

  lemma {:induction false} SubstNone(items: seq<Item>, r: Ref, w: int)
    requires Offsets(items, r) == []
    ensures Subst(items, r, w) == items
  {
    if items != [] {
      hide Size, Offsets, Encode, EncodeItem;
      var front, i := items[..|items| - 1], items[|items| - 1];
      assert items == front + [i];
      OffsetsSnoc(front, i, r);
      SubstNone(front, r, w);
      SubstSnoc(front, i, r, w);
    }
  }

  // ----- patching refines substitution -----

  lemma PatchFront(s: seq<u8>, suffix: seq<u8>, at: nat, word: seq<u8>)
    requires |word| == 4 && at + 4 <= |s|
    ensures Patch(s + suffix, at, word) == Patch(s, at, word) + suffix
  {
    assert (s + suffix)[..at] == s[..at];
    assert (s + suffix)[at + 4..] == s[at + 4..] + suffix;
  }

  lemma {:induction false} PatchPrefix(s: seq<u8>, suffix: seq<u8>, offsets: seq<nat>, word: seq<u8>)
    requires |word| == 4
    requires forall i :: 0 <= i < |offsets| ==> offsets[i] + 4 <= |s|
    ensures PatchAll(s + suffix, offsets, word) == PatchAll(s, offsets, word) + suffix
  {
    if offsets != [] {
      var front := offsets[..|offsets| - 1];
      PatchPrefix(s, suffix, front, word);
      PatchFront(PatchAll(s, front, word), suffix, offsets[|offsets| - 1], word);
    }
  }

  lemma PatchLast(s: seq<u8>, hole: seq<u8>, offsets: seq<nat>, word: seq<u8>)
    requires |word| == 4 && |hole| == 4
    requires forall i :: 0 <= i < |offsets| ==> offsets[i] + 4 <= |s|
    ensures PatchAll(s + hole, offsets + [|s|], word) == PatchAll(s, offsets, word) + word
  {
    PatchPrefix(s, hole, offsets, word);
    assert (offsets + [|s|])[..|offsets|] == offsets;
  }

  /** Patching the bytes at every use of a reference is the encoding of the
      substituted items: nothing else is overwritten, no use is left behind. */
  lemma {:induction false} PatchIsSubst(items: seq<Item>, r: Ref, w: int)
    ensures forall k :: 0 <= k < |Offsets(items, r)| ==> Offsets(items, r)[k] + 4 <= |Encode(items)|
    ensures PatchAll(Encode(items), Offsets(items, r), Bytes(w)) == Encode(Subst(items, r, w))
  {
    OffsetsInside(items, r);
    if items == [] {
      assert Subst(items, r, w) == items;
    } else {
      hide Size, Offsets, Encode, Bytes, PatchAll;
      var front, i := items[..|items| - 1], items[|items| - 1];
      var j := if i == Use(r) then Word(w) else i;
      PatchIsSubst(front, r, w);
      assert items == front + [i];
      SizeSnoc(front, i);
      OffsetsSnoc(front, i, r);
      SubstSnoc(front, i, r, w);
      SizeSnoc(Subst(front, r, w), j);
      if i == Use(r) {
        PatchLast(Encode(front), EncodeItem(i), Offsets(front, r), Bytes(w));
      } else {
        assert Offsets(items, r) == Offsets(front, r);
        PatchPrefix(Encode(front), EncodeItem(i), Offsets(front, r), Bytes(w));
      }
    }
  }

  // ----- reading back -----

  /** The word at `at`, as the interpreter reads it. */
  function WordAt(s: seq<u8>, at: nat): (w: u32)
    requires at + 4 <= |s|
  {
    s[at] as int + 0x100 * (s[at + 1] as int) + 0x1_0000 * (s[at + 2] as int) + 0x100_0000 * (s[at + 3] as int)
  }

  lemma BytesRead(w: u32)
    ensures WordAt(Bytes(w), 0) == w
  {
    var a, b, c := w / 0x100, w / 0x100 / 0x100, w / 0x100 / 0x100 / 0x100;
    assert w == 0x100 * a + w % 0x100 && a == 0x100 * b + a % 0x100 && b == 0x100 * c + b % 0x100;
    assert c < 0x100;
  }

  predicate BytesAt(s: seq<u8>, at: nat, bytes: seq<u8>) {
    at + |bytes| <= |s| && s[at..at + |bytes|] == bytes
  }

  predicate ItemAt(s: seq<u8>, at: nat, i: Item) { BytesAt(s, at, EncodeItem(i)) }

  /** The encoding of the items is found at `at`. */
  predicate ItemsAt(s: seq<u8>, at: nat, items: seq<Item>) { BytesAt(s, at, Encode(items)) }

  lemma SplitBytes(s: seq<u8>, at: nat, x: seq<u8>, y: seq<u8>)
    ensures BytesAt(s, at, x + y) <==> BytesAt(s, at, x) && BytesAt(s, at + |x|, y)
  {
    if at + |x| + |y| <= |s| {
      var z := s[at..at + |x| + |y|];
      assert z == s[at..at + |x|] + s[at + |x|..at + |x| + |y|];
      assert (x + y)[..|x|] == x && (x + y)[|x|..] == y;
      assert z[..|x|] == s[at..at + |x|] && z[|x|..] == s[at + |x|..at + |x| + |y|];
    }
  }

  lemma SplitAt(s: seq<u8>, at: nat, a: seq<Item>, b: seq<Item>)
    ensures ItemsAt(s, at, a + b) <==> ItemsAt(s, at, a) && ItemsAt(s, at + Size(a), b)
  {
    hide Encode, Size, EncodeItem;
    SizeAppend(a, b);
    SplitBytes(s, at, Encode(a), Encode(b));
  }

  lemma HeadAt(s: seq<u8>, at: nat, i: Item, rest: seq<Item>)
    requires ItemsAt(s, at, [i] + rest)
    ensures ItemAt(s, at, i) && ItemsAt(s, at + Width(i), rest)
  {
    SplitAt(s, at, [i], rest);
    assert [i][..0] == [];
    assert Encode([i]) == EncodeItem(i);
  }

  lemma WordItem(s: seq<u8>, at: nat, w: u32)
    requires ItemAt(s, at, Word(w))
    ensures WordAt(s, at) == w
  {
    var word := s[at..at + 4];
    assert word[0] == s[at] && word[1] == s[at + 1] && word[2] == s[at + 2] && word[3] == s[at + 3];
    BytesRead(w);
  }
}
