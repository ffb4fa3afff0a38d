/** LEB128 (section 5.2.2 of the WebAssembly Core Specification 1.0): the
    writers of src/binary-writer.c:68-153 and the readers of
    src/binary-reader.c:187-342. */
module Leb128 {
  import opened Wasm
  import opened Assembly

  // ----- writing -----

  /** The shortest unsigned encoding. */
  function U32Bytes(v: nat): (s: seq<u8>)
    ensures |s| > 0
  {
    if v < 0x80 then [v] else [v % 0x80 + 0x80] + U32Bytes(v / 0x80)
  }

  /** The padded encoding, always five bytes. */
  function FixedBytes(v: u32): (s: seq<u8>)
    ensures |s| == 5
  {
    [v % 0x80 + 0x80, v / 0x80 % 0x80 + 0x80, v / 0x80 / 0x80 % 0x80 + 0x80, v / 0x80 / 0x80 / 0x80 % 0x80 + 0x80,
      v / 0x80 / 0x80 / 0x80 / 0x80]
  }

  predicate SignedStops(v: int) { -0x40 <= v < 0x40 }

  /** The shortest signed encoding; division rounds down, as the arithmetic
      shift does. */
  function SignedBytes(v: int): (s: seq<u8>)
    ensures |s| > 0
    decreases if v < 0 then -v else v
  {
    if SignedStops(v) then [v % 0x80] else [v % 0x80 + 0x80] + SignedBytes(v / 0x80)
  }

  lemma U32Step(v: nat)
    ensures U32Bytes(v) == if v / 0x80 == 0 then [v % 0x80] else [v % 0x80 + 0x80] + U32Bytes(v / 0x80)
  {}

  lemma SignedStep(v: int)
    ensures SignedBytes(v) == if (if v < 0 then v / 0x80 == -1 && v % 0x80 >= 0x40 else v / 0x80 == 0 && v % 0x80 < 0x40)
      then [v % 0x80] else [v % 0x80 + 0x80] + SignedBytes(v / 0x80)
  {}

  /** The bytes of one LEB128 loop, in the order it stores them; they fit the
      buffer of five. */
  method WriteU32(value: u32) returns (data: seq<u8>)
    ensures data == U32Bytes(value) && |data| <= 5
  {
    hide U32Bytes;
    var rest: nat := value;
    data := [];
    var stop := false;
    assert data + U32Bytes(rest) == U32Bytes(value);
    while !stop
      invariant if stop then data == U32Bytes(value) else data + U32Bytes(rest) == U32Bytes(value)
      decreases if stop then 0 else 1, rest
    {
      U32Step(rest);
      var byte := rest % 0x80;
      rest := rest / 0x80;
      if rest == 0 {
        data := data + [byte];
        stop := true;
      } else {
        Assoc(data, [byte + 0x80], U32Bytes(rest));
        data := data + [byte + 0x80];
      }
    }
    Pows();
    U32Length(value, 5);
  }

  /** size_u32_leb128 */
  method SizeU32(value: u32) returns (size: nat)
    ensures size == |U32Bytes(value)|
  {
    var rest: nat := value / 0x80;
    size := 1;
    while rest != 0
      invariant if rest == 0 then size == |U32Bytes(value)| else size + |U32Bytes(rest)| == |U32Bytes(value)|
      decreases rest
    {
      rest := rest / 0x80;
      size := size + 1;
    }
  }

  method WriteSigned(value: int) returns (data: seq<u8>)
    ensures data == SignedBytes(value)
  {
    hide SignedBytes;
    var rest := value;
    data := [];
    var stop := false;
    assert data + SignedBytes(rest) == SignedBytes(value);
    while !stop
      invariant if stop then data == SignedBytes(value) else data + SignedBytes(rest) == SignedBytes(value)
      invariant rest < 0 <==> value < 0
      decreases if stop then 0 else 1, if rest < 0 then -rest else rest
    {
      SignedStep(rest);
      var byte := rest % 0x80;
      rest := rest / 0x80;
      if if value < 0 then rest == -1 && byte >= 0x40 else rest == 0 && byte < 0x40 {
        data := data + [byte];
        stop := true;
      } else {
        Assoc(data, [byte + 0x80], SignedBytes(rest));
        data := data + [byte + 0x80];
      }
    }
  }

  // ----- reading -----

  datatype Read<T> = Got(value: T, length: nat) | Failed

  /** The length of the encoding at `at`: up to the first byte without the
      continuation bit, at most `max` bytes and none at or after `end`; 0 if
      there is none. */
  function StopAt(s: seq<u8>, at: nat, end: nat, max: nat): (n: nat)
    requires end <= |s|
    ensures n <= max && at + n <= (if n == 0 then at else end)
    decreases max
  {
    if max == 0 || at >= end then 0
    else if s[at] < 0x80 then 1
    else
      var n := StopAt(s, at + 1, end, max - 1);
      if n == 0 then 0 else n + 1
  }

  /** The low seven bits of n bytes, least significant first. */
  function Groups(s: seq<u8>, at: nat, n: nat): nat
    requires at + n <= |s|
    decreases n
  {
    if n == 0 then 0 else s[at] % 0x80 + 0x80 * Groups(s, at + 1, n - 1)
  }

  function Pow128(n: nat): nat { if n == 0 then 1 else 0x80 * Pow128(n - 1) }

  /** Shifts drop the bits beyond 32. */
  function ReadU32(s: seq<u8>, at: nat, end: nat): (r: Read<u32>)
    requires end <= |s|
    ensures r.Got? ==> 0 < r.length && at + r.length <= end
  {
    var n := StopAt(s, at, end, 5);
    if n == 0 || (n == 5 && s[at + 4] / 0x10 != 0) then Failed
    else Got(Groups(s, at, n) % 0x1_0000_0000, n)
  }

  /** Sign extension from bit 7n - 1. */
  function SignExtend(raw: nat, n: nat): int
    requires n > 0
  {
    if raw >= 0x40 * Pow128(n - 1) then raw - Pow128(n) else raw
  }

  /** The bits of a 32-bit signed integer. */
  function ReadI32(s: seq<u8>, at: nat, end: nat): (r: Read<u32>)
    requires end <= |s|
    ensures r.Got? ==> 0 < r.length && at + r.length <= end
  {
    var n := StopAt(s, at, end, 5);
    if n == 0 then Failed
    else if n == 5 && s[at + 4] / 0x10 != (if s[at + 4] / 8 % 2 == 1 then 7 else 0) then Failed
    else if n == 5 then Got(Groups(s, at, n) % 0x1_0000_0000, n)
    else Got(SignExtend(Groups(s, at, n), n) % 0x1_0000_0000, n)
  }

  const TWO64: nat := 0x1_0000_0000_0000_0000

  type u64 = x: int | 0 <= x < TWO64

  function ReadI64(s: seq<u8>, at: nat, end: nat): (r: Read<u64>)
    requires end <= |s|
    ensures r.Got? ==> 0 < r.length && at + r.length <= end
  {
    var n := StopAt(s, at, end, 10);
    if n == 0 then Failed
    else if n == 10 && s[at + 9] / 2 != (if s[at + 9] % 2 == 1 then 0x3f else 0) then Failed
    else if n == 10 then Got(Groups(s, at, n) % TWO64, n)
    else Got(SignExtend(Groups(s, at, n), n) % TWO64, n)
  }

  // ----- what the readers make of what the writers write -----

  /** The shape of an encoding: every byte but the last continues. */
  predicate Framed(bytes: seq<u8>) {
    |bytes| > 0 && bytes[|bytes| - 1] < 0x80 && forall i :: 0 <= i < |bytes| - 1 ==> bytes[i] >= 0x80
  }

  lemma {:induction false} FramedStops(s: seq<u8>, at: nat, end: nat, max: nat, bytes: seq<u8>)
    requires BytesAt(s, at, bytes) && at + |bytes| <= end <= |s| && Framed(bytes) && |bytes| <= max
    ensures StopAt(s, at, end, max) == |bytes|
    decreases |bytes|
  {
    assert s[at] == s[at..at + |bytes|][0] == bytes[0];
    if |bytes| > 1 {
      assert s[at + 1..at + 1 + |bytes[1..]|] == s[at..at + |bytes|][1..];
      FramedStops(s, at + 1, end, max - 1, bytes[1..]);
    }
  }

  lemma {:induction false} GroupsOf(s: seq<u8>, at: nat, bytes: seq<u8>)
    requires BytesAt(s, at, bytes)
    ensures Groups(s, at, |bytes|) == Groups(bytes, 0, |bytes|)
  {
    GroupsShift(s, at, bytes, 0, |bytes|);
  }

  lemma {:induction false} GroupsShift(s: seq<u8>, at: nat, bytes: seq<u8>, from: nat, n: nat)
    requires BytesAt(s, at, bytes) && from + n <= |bytes|
    ensures Groups(s, at + from, n) == Groups(bytes, from, n)
    decreases n
  {
    if n > 0 {
      assert s[at + from] == s[at..at + |bytes|][from];
      GroupsShift(s, at, bytes, from + 1, n - 1);
    }
  }

  lemma {:induction false} GroupsCons(b: u8, rest: seq<u8>)
    ensures Groups([b] + rest, 0, 1 + |rest|) == b % 0x80 + 0x80 * Groups(rest, 0, |rest|)
  {
    GroupsShift([b] + rest, 1, rest, 0, |rest|);
  }

  lemma {:induction false} U32Framed(v: nat)
    ensures Framed(U32Bytes(v)) && Groups(U32Bytes(v), 0, |U32Bytes(v)|) == v
  {
    if v >= 0x80 {
      U32Framed(v / 0x80);
      GroupsCons(v % 0x80 + 0x80, U32Bytes(v / 0x80));
    }
  }

  lemma {:induction false} U32Length(v: nat, n: nat)
    requires v < Pow128(n) && n > 0
    ensures |U32Bytes(v)| <= n
  {
    if n > 1 && v >= 0x80 { U32Length(v / 0x80, n - 1); }
  }

  lemma {:induction false} U32LastByte(v: nat, n: nat)
    requires |U32Bytes(v)| == n + 1 && v < 0x10 * Pow128(n)
    ensures U32Bytes(v)[n] < 0x10
  {
    if n > 0 { U32LastByte(v / 0x80, n - 1); }
  }

  /** Reading an unsigned encoding gives back the value and its length, whatever
      follows. */
  lemma U32RoundTrip(s: seq<u8>, at: nat, end: nat, v: u32)
    requires BytesAt(s, at, U32Bytes(v)) && at + |U32Bytes(v)| <= end <= |s|
    ensures ReadU32(s, at, end) == Got(v, |U32Bytes(v)|)
  {
    hide U32Bytes, Groups, StopAt;
    U32Framed(v);
    assert Pow128(5) == 0x8_0000_0000 && Pow128(4) == 0x1000_0000 by { Pows(); }
    U32Length(v, 5);
    FramedStops(s, at, end, 5, U32Bytes(v));
    GroupsOf(s, at, U32Bytes(v));
    if |U32Bytes(v)| == 5 {
      U32LastByte(v, 4);
      assert s[at + 4] == s[at..at + 5][4];
    }
  }

  lemma Pows()
    ensures Pow128(5) == 0x8_0000_0000 && Pow128(4) == 0x1000_0000
  {
    assert Pow128(1) == 0x80 && Pow128(2) == 0x4000 && Pow128(3) == 0x20_0000;
  }

  /** So does reading the padded one. */
  lemma FixedRoundTrip(s: seq<u8>, at: nat, end: nat, v: u32)
    requires BytesAt(s, at, FixedBytes(v)) && at + 5 <= end <= |s|
    ensures ReadU32(s, at, end) == Got(v, 5)
  {
    hide Groups, StopAt;
    var b := FixedBytes(v);
    FramedStops(s, at, end, 5, b);
    GroupsOf(s, at, b);
    assert s[at + 4] == s[at..at + 5][4];
    FixedGroups(v);
  }

  lemma FixedGroups(v: u32)
    ensures Groups(FixedBytes(v), 0, 5) == v
  {
    hide Groups;
    var b: seq<u8>, v1: nat, v2: nat, v3: nat, v4: nat := FixedBytes(v), v / 0x80, v / 0x80 / 0x80, v / 0x80 / 0x80 / 0x80, v / 0x80 / 0x80 / 0x80 / 0x80;
    GroupsStep(b, 4);
    GroupsStep(b, 3);
    GroupsStep(b, 2);
    GroupsStep(b, 1);
    GroupsStep(b, 0);
    assert Groups(b, 3, 2) == v3 && Groups(b, 2, 3) == v2 && Groups(b, 1, 4) == v1;
  }

  lemma GroupsStep(b: seq<u8>, at: nat)
    requires at < |b|
    ensures Groups(b, at, |b| - at) == b[at] % 0x80 + 0x80 * Groups(b, at + 1, |b| - at - 1)
    ensures at == |b| - 1 ==> Groups(b, at, 1) == b[at] % 0x80
  {}

  lemma {:induction false} GroupsBound(s: seq<u8>, at: nat, n: nat)
    requires at + n <= |s|
    ensures Groups(s, at, n) < Pow128(n)
    decreases n
  {
    if n > 0 { GroupsBound(s, at + 1, n - 1); }
  }

  /** The most significant group. */
  lemma {:induction false} GroupsTop(s: seq<u8>, at: nat, n: nat)
    requires n > 0 && at + n <= |s|
    ensures Groups(s, at, n) == Groups(s, at, n - 1) + Pow128(n - 1) * (s[at + n - 1] % 0x80)
    decreases n
  {
    if n > 1 {
      GroupsTop(s, at + 1, n - 1);
      var top := s[at + n - 1] % 0x80;
      assert Groups(s, at, n) == s[at] % 0x80 + 0x80 * (Groups(s, at + 1, n - 2) + Pow128(n - 2) * top);
      assert 0x80 * (Pow128(n - 2) * top) == Pow128(n - 1) * top;
    }
  }

  /** An accepted unsigned encoding is the base-128 sum of its groups: the
      shifts lose nothing. */
  lemma U32Exact(s: seq<u8>, at: nat, end: nat)
    requires end <= |s| && ReadU32(s, at, end).Got?
    ensures ReadU32(s, at, end).value == Groups(s, at, ReadU32(s, at, end).length)
  {
    hide Groups, StopAt;
    var n := StopAt(s, at, end, 5);
    Pows();
    if n == 5 {
      GroupsTop(s, at, 5);
      GroupsBound(s, at, 4);
    } else {
      GroupsBound(s, at, n);
      PowMonotone(n, 4);
    }
  }

  lemma {:induction false} PowMonotone(a: nat, b: nat)
    requires a <= b
    ensures Pow128(a) <= Pow128(b)
  {
    if a < b { PowMonotone(a, b - 1); }
  }

  /** No accepted encoding of a value is shorter than the one written. */
  lemma {:induction false} U32Shortest(s: seq<u8>, at: nat, n: nat)
    requires n > 0 && at + n <= |s|
    ensures |U32Bytes(Groups(s, at, n))| <= n
  {
    GroupsBound(s, at, n);
    U32Length(Groups(s, at, n), n);
  }

  // ----- signed -----

  lemma {:induction false} SignedFramed(v: int)
    ensures Framed(SignedBytes(v))
    ensures SignExtend(Groups(SignedBytes(v), 0, |SignedBytes(v)|), |SignedBytes(v)|) == v
    decreases if v < 0 then -v else v
  {
    hide SignExtend, Groups;
    if !SignedStops(v) {
      var rest := SignedBytes(v / 0x80);
      SignedFramed(v / 0x80);
      GroupsCons(v % 0x80 + 0x80, rest);
      ExtendCons(v % 0x80, Groups(rest, 0, |rest|), |rest|);
    } else {
      OneGroup(v);
    }
  }

  lemma OneGroup(v: int)
    requires SignedStops(v)
    ensures SignExtend(Groups([v % 0x80], 0, 1), 1) == v
  {
    assert Groups([v % 0x80], 1, 0) == 0;
  }

  lemma ExtendCons(low: nat, raw: nat, n: nat)
    requires n > 0 && low < 0x80
    ensures SignExtend(low + 0x80 * raw, n + 1) == low + 0x80 * SignExtend(raw, n)
  {
    var p := Pow128(n - 1);
    assert Pow128(n) == 0x80 * p && Pow128(n + 1) == 0x80 * Pow128(n);
  }

  lemma {:induction false} SignedLength(v: int, n: nat)
    requires n > 0 && -0x40 * Pow128(n - 1) <= v < 0x40 * Pow128(n - 1)
    ensures |SignedBytes(v)| <= n
    decreases n
  {
    if n > 1 && !SignedStops(v) { SignedLength(v / 0x80, n - 1); }
  }

  /** The last byte of an encoding of full length holds what is left of the
      value. */
  lemma {:induction false} SignedLastByte(v: int, n: nat, bound: nat)
    requires |SignedBytes(v)| == n + 1 && 0 - bound * Pow128(n) <= v < bound * Pow128(n) && bound <= 0x40
    ensures var b := SignedBytes(v)[n];
      b < bound || 0x80 - bound <= b < 0x80
    ensures (v < 0) == (SignedBytes(v)[n] >= 0x40)
    decreases n
  {
    if n > 0 {
      ShiftBound(v, bound, n);
      SignedLastByte(v / 0x80, n - 1, bound);
    }
  }

  lemma ShiftBound(v: int, bound: nat, n: nat)
    requires n > 0 && 0 - bound * Pow128(n) <= v < bound * Pow128(n)
    ensures 0 - bound * Pow128(n - 1) <= v / 0x80 < bound * Pow128(n - 1)
  {
    var p := bound * Pow128(n - 1);
    assert bound * Pow128(n) == 0x80 * p;
  }

  function Signed32(w: u32): int { if w >= 0x8000_0000 then w - 0x1_0000_0000 else w }

  function Signed64(w: u64): int { if w >= 0x8000_0000_0000_0000 then w - TWO64 else w }

  /** Sign extension does not show in the bits of the target width. */
  lemma ExtendMod32(raw: nat)
    ensures SignExtend(raw, 5) % 0x1_0000_0000 == raw % 0x1_0000_0000
  {
    Pows();
    assert (raw - 8 * 0x1_0000_0000) % 0x1_0000_0000 == raw % 0x1_0000_0000;
  }

  lemma ExtendMod64(raw: nat)
    ensures SignExtend(raw, 10) % TWO64 == raw % TWO64
  {
    Pows64();
    assert (raw - 0x40 * TWO64) % TWO64 == raw % TWO64;
  }

  lemma I32RoundTrip(s: seq<u8>, at: nat, end: nat, w: u32)
    requires BytesAt(s, at, SignedBytes(Signed32(w))) && at + |SignedBytes(Signed32(w))| <= end <= |s|
    ensures ReadI32(s, at, end) == Got(w, |SignedBytes(Signed32(w))|)
  {
    hide SignedBytes, Groups, StopAt, SignExtend, Pow128;
    var v := Signed32(w);
    var b := SignedBytes(v);
    SignedFramed(v);
    Pows();
    SignedLength(v, 5);
    FramedStops(s, at, end, 5, b);
    GroupsOf(s, at, b);
    if |b| == 5 {
      ExtendMod32(Groups(b, 0, 5));
      SignedLastByte(v, 4, 8);
      assert s[at + 4] == s[at..at + 5][4];
    }
  }

  lemma Pows64()
    ensures Pow128(10) == 0x40 * TWO64 && Pow128(9) == 0x8000_0000_0000_0000
  {
    Pows();
    assert Pow128(6) == 0x80 * Pow128(5) && Pow128(7) == 0x80 * Pow128(6) && Pow128(8) == 0x80 * Pow128(7);
    assert Pow128(9) == 0x80 * Pow128(8) && Pow128(10) == 0x80 * Pow128(9);
  }

  lemma I64RoundTrip(s: seq<u8>, at: nat, end: nat, w: u64)
    requires BytesAt(s, at, SignedBytes(Signed64(w))) && at + |SignedBytes(Signed64(w))| <= end <= |s|
    ensures ReadI64(s, at, end) == Got(w, |SignedBytes(Signed64(w))|)
  {
    hide SignedBytes, Groups, StopAt, SignExtend, Pow128;
    var v := Signed64(w);
    var b := SignedBytes(v);
    SignedFramed(v);
    Pows64();
    SignedLength(v, 10);
    FramedStops(s, at, end, 10, b);
    GroupsOf(s, at, b);
    if |b| == 10 {
      ExtendMod64(Groups(b, 0, 10));
      SignedLastByte(v, 9, 1);
      assert s[at + 9] == s[at..at + 10][9];
    }
  }

  /** Nothing that is read as a signed value is shorter than its encoding. */
  lemma SignedShortest(s: seq<u8>, at: nat, n: nat)
    requires n > 0 && at + n <= |s|
    ensures |SignedBytes(SignExtend(Groups(s, at, n), n))| <= n
  {
    GroupsBound(s, at, n);
    ExtendBound(Groups(s, at, n), n);
    SignedLength(SignExtend(Groups(s, at, n), n), n);
  }

  lemma ExtendBound(raw: nat, n: nat)
    requires n > 0 && raw < Pow128(n)
    ensures -0x40 * Pow128(n - 1) <= SignExtend(raw, n) < 0x40 * Pow128(n - 1)
  {
    assert Pow128(n) == 0x80 * Pow128(n - 1);
  }

  lemma I32Shortest(s: seq<u8>, at: nat, end: nat)
    requires end <= |s| && ReadI32(s, at, end).Got?
    ensures |SignedBytes(Signed32(ReadI32(s, at, end).value))| <= ReadI32(s, at, end).length
  {
    hide SignedBytes, Groups, SignExtend, Pow128;
    var w, n := ReadI32(s, at, end).value, ReadI32(s, at, end).length;
    Pows();
    if n == 5 {
      SignedLength(Signed32(w), 5);
    } else {
      var v := SignExtend(Groups(s, at, n), n);
      SignedShortest(s, at, n);
      GroupsBound(s, at, n);
      ExtendBound(Groups(s, at, n), n);
      PowMonotone(n - 1, 3);
      SmallPow();
      assert -0x8000_0000 <= v < 0x8000_0000;
      assert Signed32(w) == v;
    }
  }

  lemma SmallPow()
    ensures Pow128(3) == 0x20_0000
  {
    assert Pow128(2) == 0x80 * Pow128(1);
  }

  lemma I64Shortest(s: seq<u8>, at: nat, end: nat)
    requires end <= |s| && ReadI64(s, at, end).Got?
    ensures |SignedBytes(Signed64(ReadI64(s, at, end).value))| <= ReadI64(s, at, end).length
  {
    hide SignedBytes, Groups, SignExtend, Pow128;
    var w, n := ReadI64(s, at, end).value, ReadI64(s, at, end).length;
    Pows64();
    if n == 10 {
      SignedLength(Signed64(w), 10);
    } else {
      var v := SignExtend(Groups(s, at, n), n);
      SignedShortest(s, at, n);
      GroupsBound(s, at, n);
      ExtendBound(Groups(s, at, n), n);
      PowMonotone(n - 1, 8);
      assert 0x80 * Pow128(8) == Pow128(9) by { NextPow(9); }
      assert -0x8000_0000_0000_0000 <= v < 0x8000_0000_0000_0000;
      assert Signed64(w) == v;
    }
  }

  lemma NextPow(n: nat)
    requires n > 0
    ensures Pow128(n) == 0x80 * Pow128(n - 1)
  {}
}
