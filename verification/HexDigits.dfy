/** What the parser of hexadecimal floats makes of the digits it reads
    (src/literal.c:240-280, 577-617): exactly what they say, under two conditions
    that it does not check, and texts for which it is wrong. */
module HexDigits {
  import opened Wasm
  import opened Powers
  import opened Literal
  import opened LiteralProofs
  import opened HexFloat

  predicate Digits(ds: seq<nat>) { forall i :: 0 <= i < |ds| ==> ds[i] < 16 }

  function Chars(ds: seq<nat>): (s: string)
    requires Digits(ds)
    ensures |s| == |ds|
  {
    seq(|ds|, i requires 0 <= i < |ds| => HexChar(ds[i]))
  }

  /** The number that digits spell. */
  function Value(ds: seq<nat>): nat {
    if ds == [] then 0 else 16 * Value(ds[..|ds| - 1]) + ds[|ds| - 1]
  }

  /** The loop over digits, one after another. */
  function ScanAll(f: Format, ds: seq<nat>, st: Scan): Scan {
    if ds == [] then st else ScanAll(f, ds[1..], ScanDigit(f, st, ds[0]))
  }

  lemma {:induction false} CharsScanned(f: Format, ds: seq<nat>, tail: string, st: Scan)
    requires Digits(ds)
    ensures ScanDigits(f, Chars(ds) + tail, st) == ScanDigits(f, tail, ScanAll(f, ds, st))
    decreases |ds|
  {
    hide ScanDigits, ScanDigit, HexChar;
    if ds == [] {
      assert Chars(ds) + tail == tail;
    } else {
      assert Chars(ds) + tail == [HexChar(ds[0])] + (Chars(ds[1..]) + tail);
      ScanHead(f, ds[0], Chars(ds[1..]) + tail, st);
      CharsScanned(f, ds[1..], tail, ScanDigit(f, st, ds[0]));
    }
  }

  // ----- what is lost -----

  /** The digit is appended, not dropped. */
  predicate Kept(f: Format, st: Scan, d: nat) { d != 0 && (st.significand == 0 || st.bits + st.shift + 4 <= f.sigBits + 1 + 4) }

  /** No bit of the significand is shifted out of its type. */
  predicate NoneLost(f: Format, ds: seq<nat>, st: Scan)
    decreases |ds|
  {
    ds != [] ==>
      (Kept(f, st, ds[0]) ==> Shl(st.significand, st.shift + 4) < Pow2(f.width)) && NoneLost(f, ds[1..], ScanDigit(f, st, ds[0]))
  }

  predicate NonzeroDropped(f: Format, ds: seq<nat>, st: Scan)
    decreases |ds|
  {
    ds != [] && ((ds[0] != 0 && !Kept(f, st, ds[0])) || NonzeroDropped(f, ds[1..], ScanDigit(f, st, ds[0])))
  }

  /** The digits so far, of which there are a, spell v; of that the significand
      has lost high bits, and leaves out the rest. */
  ghost predicate Reads(f: Format, st: Scan, v: nat, lost: nat, rest: nat, a: nat) {
    && v == Shl(st.significand + lost, st.shift) + rest && rest < Pow2(st.shift)
    && (rest > 0 ==> st.bits + st.shift > f.sigBits + 1 + 4) && (st.significand == 0 ==> v == 0)
    && (lost > 0 && v >= Pow2(4 * a) ==> Shl(lost, st.shift) >= Pow2(4 * a))
  }

  /** One digit more. */
  lemma Appended(f: Format, st: Scan, v: nat, lost: nat, rest: nat, a: nat, d: nat) returns (lost': nat, rest': nat)
    requires Reads(f, st, v, lost, rest, a) && d < 16
    ensures Reads(f, ScanDigit(f, st, d), 16 * v + d, lost', rest', a + 1)
    ensures lost' > 0 <==> lost > 0 || (Kept(f, st, d) && Shl(st.significand, st.shift + 4) >= Pow2(f.width))
    ensures rest' > 0 <==> rest > 0 || (d != 0 && !Kept(f, st, d))
  {
    hide Shl, Pow2, Low;
    var x := Shl(st.significand, st.shift + 4);
    Widened(st.significand, lost, st.shift);
    Sixteen();
    PowAdd(st.shift, 4);
    PowAdd(4 * a, 4);
    assert 4 * (a + 1) == 4 * a + 4;
    if Kept(f, st, d) {
      LowFits(x, f.width);
      rest', lost' := 0, x - Low(x, f.width) + Shl(lost, st.shift + 4);
      ShlNothing(Low(x, f.width) + d + lost');
      ShlNothing(lost');
      if st.significand == 0 { ShlZero(st.shift + 4); }
      if x >= Pow2(f.width) && lost == 0 && x >= Pow2(4 * a + 4) { LossLarge(x, f.width, 4 * a + 4); }
      if lost == 0 { ShlZero(st.shift + 4); }
      if lost > 0 { ShlSome(lost, st.shift + 4); }
    } else {
      rest', lost' := 16 * rest + d, lost;
    }
  }

  /** Shifting by four more bits is multiplying by sixteen. */
  lemma Widened(x: nat, y: nat, n: nat)
    ensures Shl(x + y, n + 4) == 16 * Shl(x + y, n) && Shl(y, n + 4) == 16 * Shl(y, n) && Shl(x + y, n + 4) == Shl(x, n + 4) + Shl(y, n + 4)
  {
    hide Shl;
    ShlAdd(x + y, n, 4);
    ShlAdd(y, n, 4);
    SixteenTimes(Shl(x + y, n));
    SixteenTimes(Shl(y, n));
    ShlSum(x, y, n + 4);
  }

  /** The bits that stay. */
  lemma LowFits(x: nat, w: nat)
    ensures Low(x, w) <= x && (Low(x, w) == x <==> x < Pow2(w))
  {
    hide Pow2, Shr, Low;
    Split(x, w);
    hide Shl;
    ShlZero(w);
    if x < Pow2(w) { Parts(x, 0, x, w); }
  }

  lemma ShlSome(x: nat, n: nat)
    requires x > 0
    ensures Shl(x, n) > 0
  {}

  /** The bits above the lowest w of a number are worth as much as any power of two
      that does not exceed it. */
  lemma LossLarge(x: nat, w: nat, e: nat)
    requires x >= Pow2(w) && x >= Pow2(e)
    ensures x - Low(x, w) >= Pow2(e) && Low(x, w) <= x
  {
    hide Pow2;
    var p, q := Pow2(w), x / Pow2(w);
    assert x == q * p + x % p;
    if q == 0 { assert false; }
    if e <= w {
      PowMore(e, w);
      MulGrows(q, p);
    } else {
      PowAdd(e - w, w);
      if q < Pow2(e - w) { MulLess(q, Pow2(e - w), p); }
      Monotone(Pow2(e - w), q, p);
    }
  }

  lemma Monotone(a: nat, b: nat, m: nat)
    ensures a <= b ==> a * m <= b * m
  {
    if a <= b { assert (b - a) * m >= 0; }
  }

  lemma ShlNothing(x: nat)
    ensures Shl(x, 0) == x && Pow2(0) == 1
  {}

  lemma {:induction false} AllAppended(f: Format, ds: seq<nat>, st: Scan, v: nat, lost: nat, rest: nat, a: nat) returns (lost': nat, rest': nat)
    requires Reads(f, st, v, lost, rest, a) && Digits(ds)
    ensures Reads(f, ScanAll(f, ds, st), Appending(v, ds), lost', rest', a + |ds|)
    ensures lost' > 0 <==> lost > 0 || !NoneLost(f, ds, st)
    ensures rest' > 0 <==> rest > 0 || NonzeroDropped(f, ds, st)
    decreases |ds|
  {
    hide Shl, Pow2, Reads, ScanDigit, Kept;
    if ds == [] {
      lost', rest' := lost, rest;
    } else {
      var l, r := Appended(f, st, v, lost, rest, a, ds[0]);
      lost', rest' := AllAppended(f, ds[1..], ScanDigit(f, st, ds[0]), 16 * v + ds[0], l, r, a + 1);
    }
  }

  function Appending(v: nat, ds: seq<nat>): nat
    decreases |ds|
  {
    if ds == [] then v else Appending(16 * v + ds[0], ds[1..])
  }

  lemma {:induction false} AppendingValue(v: nat, ds: seq<nat>)
    ensures Appending(v, ds) == Shl(v, 4 * |ds|) + Value(ds)
    decreases |ds|
  {
    hide Shl;
    if ds == [] {
      ShlNothing(v);
    } else {
      AppendingValue(16 * v + ds[0], ds[1..]);
      SixteenTimes(v);
      ShlAdd(v, 4, 4 * |ds| - 4);
      ShlSum(16 * v, ds[0], 4 * |ds| - 4);
      FirstDigit(ds);
    }
  }

  lemma {:induction false} FirstDigit(ds: seq<nat>)
    requires ds != []
    ensures Value(ds) == Shl(ds[0], 4 * |ds| - 4) + Value(ds[1..])
    decreases |ds|
  {
    hide Shl;
    var n := |ds| - 1;
    if n == 0 {
      ShlNothing(ds[0]);
      assert ds[..0] == [] && Value(ds[..0]) == 0 && Value(ds[1..]) == 0;
    } else {
      FirstDigit(ds[..n]);
      assert ds[..n][1..] == ds[1..][..n - 1] && ds[1..][n - 1] == ds[n];
      ShlAdd(ds[0], 4 * n - 4, 4);
      SixteenTimes(Shl(ds[0], 4 * n - 4));
    }
  }

  /** The exponent only counts, and not before the dot. */
  lemma {:induction false} Counted(f: Format, ds: seq<nat>, st: Scan)
    ensures var end := ScanAll(f, ds, st);
      && end.seenDot == st.seenDot
      && end.exponent - end.shift == st.exponent - st.shift - (if st.seenDot then 4 * |ds| else 0) + (if st.seenDot then 0 else st.shift - end.shift)
    decreases |ds|
  {
    hide Shl, Low;
    if ds != [] { Counted(f, ds[1..], ScanDigit(f, st, ds[0])); }
  }

  /** A number without a dot: the significand, scaled, is the number, or below it by
      less than one unit, exactly if no bit is lost; and then it is the number
      exactly if no digit but zeros is dropped. */
  lemma WholeRead(f: Format, ds: seq<nat>, tail: string) returns (st: Scan)
    requires Digits(ds) && Stops(tail)
    ensures ScanDigits(f, Chars(ds) + tail, START) == (st, tail) && !st.seenDot && st.exponent == 0
    ensures Shl(st.significand, st.shift) <= Value(ds) < Shl(st.significand + 1, st.shift) <==> NoneLost(f, ds, START)
    ensures NoneLost(f, ds, START) ==> (Shl(st.significand, st.shift) == Value(ds) <==> !NonzeroDropped(f, ds, START))
    ensures st == ScanAll(f, ds, START) && (st.significand == 0 ==> Value(ds) == 0)
  {
    hide Shl, Pow2, ScanDigits, NoneLost, NonzeroDropped;
    CharsScanned(f, ds, tail, START);
    st := ScanAll(f, ds, START);
    ScanStops(f, tail, st);
    var lost, rest := WholeParts(f, ds);
    Counted(f, ds, START);
    ShlSum(st.significand, 1, st.shift);
    ShlSum(st.significand, lost, st.shift);
    OneUnit(st.shift, lost);
    if st.significand == 0 { ShlZero(st.shift); }
  }

  /** What the significand of a number without a dot leaves out. */
  lemma WholeParts(f: Format, ds: seq<nat>) returns (lost: nat, rest: nat)
    requires Digits(ds)
    ensures Reads(f, ScanAll(f, ds, START), Value(ds), lost, rest, |ds|)
    ensures lost > 0 <==> !NoneLost(f, ds, START)
    ensures rest > 0 <==> NonzeroDropped(f, ds, START)
  {
    hide Shl, Pow2, NoneLost, NonzeroDropped, ScanAll;
    ShlNothing(0);
    lost, rest := AllAppended(f, ds, START, 0, 0, 0, 0);
    AppendingValue(0, ds);
    ShlZero(4 * |ds|);
  }

  lemma OneUnit(n: nat, x: nat)
    ensures Shl(1, n) == Pow2(n) && (x > 0 ==> Shl(x, n) >= Pow2(n)) && (x == 0 ==> Shl(x, n) == 0)
  {
    if x > 0 { MulGrows(x, Pow2(n)); }
  }

  /** At the dot, zeros at the end of the whole part are counted in the exponent,
      but the digits behind the dot are appended without them. */
  predicate DotOk(f: Format, ds: seq<nat>, fs: seq<nat>) {
    var st := ScanAll(f, ds, START);
    st.significand == 0 || st.shift == 0 || forall i :: 0 <= i < |fs| ==> fs[i] == 0
  }

  lemma {:induction false} ZerosScanned(f: Format, fs: seq<nat>, st: Scan)
    requires forall i :: 0 <= i < |fs| ==> fs[i] == 0
    ensures ScanAll(f, fs, st) == st.(shift := st.shift + 4 * |fs|) && Value(fs) == 0
    decreases |fs|
  {
    if fs != [] {
      ZerosScanned(f, fs[1..], ScanDigit(f, st, 0));
      FirstDigit(fs);
      ShlZero(4 * |fs| - 4);
    }
  }

  lemma Middle(f: Format, ds: seq<nat>, fs: seq<nat>, tail: string)
    requires Digits(ds) && Digits(fs) && Stops(tail)
    ensures ScanDigits(f, Chars(ds) + "." + Chars(fs) + tail, START) == (ScanAll(f, fs, ScanDot(ScanAll(f, ds, START))), tail)
  {
    hide ScanAll, Chars;
    var mid, rest := ScanAll(f, ds, START), Chars(fs) + tail;
    assert Chars(ds) + "." + Chars(fs) + tail == Chars(ds) + ("." + rest);
    CharsScanned(f, ds, "." + rest, START);
    assert ("." + rest)[1..] == rest;
    CharsScanned(f, fs, tail, ScanDot(mid));
    ScanStops(f, tail, ScanAll(f, fs, ScanDot(mid)));
  }

  lemma {:induction false} JoinedValue(ds: seq<nat>, fs: seq<nat>)
    ensures Value(ds + fs) == Shl(Value(ds), 4 * |fs|) + Value(fs)
    decreases |fs|
  {
    hide Shl;
    if fs == [] {
      assert ds + fs == ds;
      ShlNothing(Value(ds));
    } else {
      var n := |fs| - 1;
      JoinedValue(ds, fs[..n]);
      assert (ds + fs)[..|ds| + n] == ds + fs[..n];
      ShlAdd(Value(ds), 4 * n, 4);
      SixteenTimes(Shl(Value(ds), 4 * n));
    }
  }

  lemma {:induction false} ZerosNotDropped(f: Format, fs: seq<nat>, st: Scan)
    requires forall i :: 0 <= i < |fs| ==> fs[i] == 0
    ensures !NonzeroDropped(f, fs, st)
    decreases |fs|
  {
    if fs != [] { ZerosNotDropped(f, fs[1..], ScanDigit(f, st, 0)); }
  }

  lemma ShlStrict(a: nat, b: nat, n: nat)
    ensures a < b ==> Shl(a, n) < Shl(b, n)
    ensures a == b ==> Shl(a, n) == Shl(b, n)
  {
    if a < b { MulLess(a, b, Pow2(n)); }
  }

  /** What of a number is kept behind the dot, in units of its last digit. */
  function KeptBehind(f: Format, ds: seq<nat>, fs: seq<nat>): int {
    var mid := ScanAll(f, ds, START);
    var st := ScanAll(f, fs, ScanDot(mid));
    Shl(st.significand, st.shift) - Shl(mid.significand, 4 * |fs|)
  }

  /** Zeros before the dot do no harm to what is kept behind it: there are none, or
      nothing is kept. */
  predicate Apart(f: Format, ds: seq<nat>, fs: seq<nat>) {
    var mid := ScanAll(f, ds, START);
    mid.significand == 0 || mid.shift == 0 || ScanAll(f, fs, ScanDot(mid)).shift == 4 * |fs|
  }

  /** By how much a number exceeds what is read otherwise: what was dropped before the
      dot and what stands behind it, less what is kept of that in the wrong place. */
  function Excess(f: Format, ds: seq<nat>, fs: seq<nat>): int {
    var mid := ScanAll(f, ds, START);
    (Value(ds) - Shl(mid.significand, mid.shift)) * Pow2(4 * |fs|) + Value(fs) - KeptBehind(f, ds, fs) * Pow2(mid.shift)
  }

  /** The digits read are those of the number, or what is kept in the wrong place
      happens to begin as what was dropped before the dot does. */
  predicate DotRead(f: Format, ds: seq<nat>, fs: seq<nat>) {
    var mid := ScanAll(f, ds, START);
    Apart(f, ds, fs) || 0 <= Excess(f, ds, fs) < Shl(1, mid.shift + ScanAll(f, fs, ScanDot(mid)).shift)
  }

  /** No digit but zeros is dropped, or both happen to be the same. */
  predicate DotExact(f: Format, ds: seq<nat>, fs: seq<nat>) {
    if Apart(f, ds, fs) then !NonzeroDropped(f, ds, START) && !NonzeroDropped(f, fs, ScanDot(ScanAll(f, ds, START)))
    else Excess(f, ds, fs) == 0
  }

  /** A number with a dot, whatever it drops: what is read is the number, or below it
      by less than one unit of the last digit kept, exactly if no bit is lost and
      zeros before the dot do no harm; and when it is the number itself. */
  lemma FractionWithin(f: Format, ds: seq<nat>, fs: seq<nat>, tail: string) returns (st: Scan)
    requires Digits(ds) && Digits(fs) && Stops(tail)
    ensures ScanDigits(f, Chars(ds) + "." + Chars(fs) + tail, START) == (st, tail) && st.seenDot && st == ScanAll(f, fs, ScanDot(ScanAll(f, ds, START)))
    ensures st.exponent + 4 * |fs| >= 0 && (st.significand == 0 ==> Value(ds + fs) == 0)
    ensures Shl(st.significand, st.exponent + 4 * |fs|) <= Value(ds + fs) < Shl(st.significand + 1, st.exponent + 4 * |fs|)
      <==> NoneLost(f, ds, START) && NoneLost(f, fs, ScanDot(ScanAll(f, ds, START))) && DotRead(f, ds, fs)
    ensures Shl(st.significand, st.exponent + 4 * |fs|) == Value(ds + fs)
      <==> NoneLost(f, ds, START) && NoneLost(f, fs, ScanDot(ScanAll(f, ds, START))) && DotExact(f, ds, fs)
  {
    hide Shl, Pow2, NonzeroDropped, ScanAll, NoneLost, ScanDigits, ScanDigit, Kept, Low, Value, Chars, Stops;
    Middle(f, ds, fs, tail);
    var mid, n := ScanAll(f, ds, START), 4 * |fs|;
    var dot := ScanDot(mid);
    st := ScanAll(f, fs, dot);
    JoinedValue(ds, fs);
    var lost, rest := WholeParts(f, ds);
    ShlNothing(mid.significand);
    ShlNothing(0);
    var l, r := AllAppended(f, fs, dot, mid.significand, 0, 0, 0);
    AppendingValue(mid.significand, fs);
    Counted(f, ds, START);
    Counted(f, fs, dot);
    ValueSmall(fs);
    ShiftLow(f, fs, dot);
    ShlZero(n);
    if st.significand == 0 && mid.significand > 0 { ShlSome(mid.significand, n); }
    Compare(mid.significand, lost, rest, mid.shift, n, Value(fs), st.significand, st.shift, l, r);
  }

  /** If no digit but zeros is dropped, it is the number itself exactly if no bit is
      lost and no digit that counts stands behind zeros and the dot. */
  lemma FractionExact(f: Format, ds: seq<nat>, fs: seq<nat>, tail: string) returns (st: Scan)
    requires Digits(ds) && Digits(fs) && Stops(tail)
    requires !NonzeroDropped(f, ds, START) && !NonzeroDropped(f, fs, ScanDot(ScanAll(f, ds, START)))
    ensures ScanDigits(f, Chars(ds) + "." + Chars(fs) + tail, START) == (st, tail) && st.exponent + 4 * |fs| >= 0
    ensures Shl(st.significand, st.exponent + 4 * |fs|) == Value(ds + fs)
      <==> NoneLost(f, ds, START) && NoneLost(f, fs, ScanDot(ScanAll(f, ds, START))) && DotOk(f, ds, fs)
  {
    hide Shl, Pow2, NonzeroDropped, ScanAll, NoneLost, ScanDigits, ScanDigit, Kept, Low, Value, Chars, Stops;
    Middle(f, ds, fs, tail);
    var mid, n := ScanAll(f, ds, START), 4 * |fs|;
    var dot := ScanDot(mid);
    st := ScanAll(f, fs, dot);
    JoinedValue(ds, fs);
    var lost, rest := WholeParts(f, ds);
    ShlNothing(mid.significand);
    ShlNothing(0);
    var l, r := AllAppended(f, fs, dot, mid.significand, 0, 0, 0);
    AppendingValue(mid.significand, fs);
    Counted(f, ds, START);
    Counted(f, fs, dot);
    ValueSmall(fs);
    ValueZero(fs);
    ShlSum(st.significand, l, st.shift);
    OneUnit(st.shift, l);
    if mid.significand == 0 {
      ShlZero(n);
      NothingLost(mid, lost);
    } else {
      ShlAdd(st.significand, st.shift, mid.shift);
      OneUnit(n, mid.significand);
      Compared(mid.significand, lost, mid.shift, n, Value(fs), Shl(st.significand, st.shift), Shl(l, st.shift));
    }
  }

  /** The zeros that are pending at the end are those behind the last digit kept. */
  lemma {:induction false} ShiftLow(f: Format, ds: seq<nat>, st: Scan)
    ensures var end := ScanAll(f, ds, st);
      end.shift <= st.shift + 4 * |ds| && (end.shift < st.shift + 4 * |ds| ==> end.shift <= 4 * |ds| && Value(ds) >= Pow2(end.shift))
    decreases |ds|
  {
    hide Pow2, Shl, Low, Value;
    if ds != [] {
      ShiftLow(f, ds[1..], ScanDigit(f, st, ds[0]));
      FirstDigit(ds);
      if Kept(f, st, ds[0]) {
        ShlOrder(1, ds[0], 4 * |ds| - 4);
        ShlOfPow(0, 4 * |ds| - 4);
        ShlNothing(1);
        PowMore(ScanAll(f, ds, st).shift, 4 * |ds| - 4);
      }
    }
  }

  /** The value that is read against the one that is spelled, with everything that is
      left out: s, lost bits and a rest before the dot; v behind it, in n bits, of
      which the last a are not kept. */
  lemma Compare(s: nat, lost: nat, rest: nat, shift: nat, n: nat, v: nat, read: nat, a: nat, l: nat, r: nat)
    requires rest < Pow2(shift) && (s == 0 ==> Shl(s + lost, shift) + rest == 0)
    requires Shl(s, n) + v == Shl(read + l, a) + r && r < Pow2(a) && v < Pow2(n) && a <= n && (a < n ==> v >= Pow2(a))
    requires l > 0 && Shl(s, n) + v >= Pow2(n) ==> Shl(l, a) >= Pow2(n)
    ensures var unit := (if s == 0 then 0 else shift) + a;
      var value, kept := Shl(Shl(s + lost, shift) + rest, n) + v, Shl(read, a) - Shl(s, n);
      var excess := rest * Pow2(n) + v - kept * Pow2(shift);
      && (Shl(read, unit) <= value < Shl(read + 1, unit)
        <==> lost == 0 && l == 0 && (s == 0 || shift == 0 || a == n || 0 <= excess < Shl(1, shift + a)))
      && (Shl(read, unit) == value
        <==> lost == 0 && l == 0 && if s == 0 || shift == 0 || a == n then rest == 0 && r == 0 else excess == 0)
  {
    hide Shl, Pow2;
    ShlSum(read, l, a);
    OneUnit(a, l);
    ShlNothing(1);
    ShlOfPow(0, shift + a);
    if s == 0 {
      OneUnit(shift, lost);
      ShlSum(s, lost, shift);
      ShlZero(n);
      ShlZero(shift);
      ShlSum(read, 1, a);
    } else {
      Difference(s, lost, rest, shift, n, v, read, a);
      KeptMultiple(s, n, v, read, a, l, r);
      OneUnit(n, s);
      UnitIs(shift, a);
      PowMore(a, n);
      Decide(lost, rest, Pow2(shift), Pow2(n), Pow2(a), v, Shl(read, a) - Shl(s, n), l, Shl(l, a), r, shift == 0, a == n);
    }
  }

  /** By how much the value exceeds what is read. */
  lemma Difference(s: nat, lost: nat, rest: nat, shift: nat, n: nat, v: nat, read: nat, a: nat)
    ensures var kept, unit := Shl(read, a) - Shl(s, n), shift + a;
      Shl(Shl(s + lost, shift) + rest, n) + v - Shl(read, unit)
        == lost * (Pow2(shift) * Pow2(n)) + rest * Pow2(n) + v - kept * Pow2(shift)
    ensures Shl(read + 1, shift + a) - Shl(read, shift + a) == Pow2(shift) * Pow2(a)
  {
    PowAdd(shift, a);
    var p, q, w := Pow2(shift), Pow2(n), Pow2(a);
    assert Shl(Shl(s + lost, shift) + rest, n) == ((s + lost) * p + rest) * q;
    assert Shl(read, shift + a) == read * (p * w);
    Expanded(s, lost, rest, p, q, read, w);
    assert (read + 1) * (p * w) == read * (p * w) + p * w;
  }

  lemma Expanded(s: int, lost: int, rest: int, p: int, q: int, read: int, w: int)
    ensures ((s + lost) * p + rest) * q - read * (p * w) == lost * (p * q) + rest * q - (read * w - s * q) * p
  {
    assert ((s + lost) * p + rest) * q == (s + lost) * p * q + rest * q;
    assert (s + lost) * p * q == s * (p * q) + lost * (p * q);
    assert (read * w - s * q) * p == read * w * p - s * q * p;
    assert read * w * p == read * (p * w) && s * q * p == s * (p * q);
  }

  /** What is kept is a multiple of its last place. */
  lemma KeptMultiple(s: nat, n: nat, v: nat, read: nat, a: nat, l: nat, r: nat)
    requires Shl(s, n) + v == Shl(read + l, a) + r && r < Pow2(a) && v < Pow2(n) && a <= n
    requires l > 0 && Shl(s, n) + v >= Pow2(n) ==> Shl(l, a) >= Pow2(n)
    ensures var kept := Shl(read, a) - Shl(s, n);
      && kept + Pow2(a) <= Pow2(n) && (kept > 0 ==> kept >= Pow2(a)) && (kept < 0 ==> kept + Pow2(a) <= 0)
      && kept == v - Shl(l, a) - r
  {
    hide Shl, Pow2;
    ShlAdd(s, n - a, a);
    ShlSum(read, l, a);
    ShlOfPow(n - a, a);
    var k := read - Shl(s, n - a);
    MultipleOf(read, Shl(s, n - a), a);
    MultipleBound(k, Pow2(n - a), Pow2(a), Shl(read, a) - Shl(s, n));
    Shl1(Pow2(n - a), a);
  }

  lemma MultipleOf(x: nat, y: nat, a: nat)
    ensures Shl(x, a) - Shl(y, a) == (x - y) * Pow2(a)
  {}

  lemma Shl1(x: nat, a: nat)
    ensures Shl(x, a) == x * Pow2(a)
  {}

  lemma MultipleBound(k: int, m: int, w: int, x: int)
    requires w > 0 && x == k * w
    ensures (x < m * w ==> x + w <= m * w) && (x > 0 ==> x >= w) && (x < 0 ==> x + w <= 0)
  {
    Factor(k, m, w);
    Factor(0, k, w);
    Factor(k, 0, w);
  }

  lemma Factor(k: int, m: int, w: int)
    requires w > 0
    ensures if k < m then k * w + w <= m * w else k * w >= m * w
  {
    if k < m { Monotone2(k + 1, m, w); assert (k + 1) * w == k * w + w; } else { Monotone2(m, k, w); }
  }

  /** Whether the difference is less than one unit, and not less than nothing. The
      powers have names: p, q and w for shift, n and a. */
  lemma Decide(lost: nat, rest: nat, p: nat, q: nat, w: nat, v: nat, kept: int, l: nat, over: nat, r: nat, noShift: bool, none: bool)
    requires rest < p && r < w && v < q && w <= q && (if none then w == q else v >= w) && (if noShift then p == 1 else p >= 2)
    requires kept + w <= q && (kept > 0 ==> kept >= w) && (kept < 0 ==> kept + w <= 0)
    requires kept == v - over - r && (l > 0 ==> over >= q) && (l == 0 ==> over == 0)
    ensures var d := lost * (p * q) + rest * q + v - kept * p;
      var excess := rest * q + v - kept * p;
      && (0 <= d < p * w <==> lost == 0 && l == 0 && (noShift || none || 0 <= excess < p * w))
      && (d == 0 <==> lost == 0 && l == 0 && if noShift || none then rest == 0 && r == 0 else excess == 0)
  {
    LostProduct(lost, p, q);
    KeptProduct(kept, p, q, w);
    RestProduct(rest, p, q);
    if !noShift { TwiceProduct(kept, p); }
    MulGrows(p, w);
    DecideSums(lost, rest, noShift, v, kept, l, r, over, q, w, lost * (p * q), p * q, rest * q, kept * p, p * w, none);
  }

  lemma UnitIs(shift: nat, a: nat)
    ensures Pow2(shift) * Pow2(a) == Shl(1, shift + a)
    ensures if shift == 0 then Pow2(shift) == 1 else Pow2(shift) >= 2
  {
    PowAdd(shift, a);
    ShlNothing(1);
    if shift > 0 { PowMore(1, shift); }
  }

  lemma LostProduct(lost: nat, p: nat, q: nat)
    ensures (lost > 0 ==> lost * (p * q) >= p * q) && (lost == 0 ==> lost * (p * q) == 0)
  {
    if lost > 0 { Monotone2(1, lost, p * q); }
  }

  lemma KeptProduct(kept: int, p: nat, q: nat, w: nat)
    ensures (kept + w <= q ==> kept * p + p * w <= p * q) && (kept + w <= 0 ==> kept * p + p * w <= 0)
    ensures (kept == 0 ==> kept * p == 0) && (p == 1 ==> kept * p == kept && p * w == w)
  {
    assert (kept + w) * p == kept * p + w * p && q * p == p * q && w * p == p * w;
    if kept + w <= q { Monotone2(kept + w, q, p); }
    if kept + w <= 0 { Monotone2(kept + w, 0, p); }
  }

  lemma RestProduct(rest: nat, p: nat, q: nat)
    requires rest < p
    ensures rest * q + q <= p * q && rest * q >= 0 && (if rest == 0 then rest * q == 0 else rest * q >= q)
  {
    Factor(rest, p, if q > 0 then q else 1);
    if q == 0 { assert rest * q == 0 && p * q == 0; }
    if rest > 0 { MulGrows(rest, q); }
  }

  lemma TwiceProduct(kept: int, p: nat)
    requires p >= 2
    ensures kept > 0 ==> kept * p >= 2 * kept
  {
    if kept > 0 { Monotone2(2, p, kept); assert p * kept == kept * p; }
  }

  /** The products have names. */
  lemma DecideSums(lost: nat, rest: nat, noShift: bool, v: nat, kept: int, l: nat, r: nat, over: int, q: nat, w: nat,
      lostAll: int, all: int, restAll: int, keptAll: int, unit: int, none: bool)
    requires r < w && v < q && w <= q && unit > 0 && restAll >= 0 && (!none ==> v >= w) && (none ==> w == q && unit == all)
    requires kept + w <= q && (kept > 0 ==> kept >= w) && (kept < 0 ==> kept + w <= 0)
    requires kept == v - over - r && (l > 0 ==> over >= q) && (l == 0 ==> over == 0)
    requires (lost > 0 ==> lostAll >= all) && (lost == 0 ==> lostAll == 0) && keptAll + unit <= all && (kept + w <= 0 ==> keptAll + unit <= 0)
    requires (kept == 0 ==> keptAll == 0) && restAll + q <= all && (if rest == 0 then restAll == 0 else restAll >= q)
    requires if noShift then rest == 0 && keptAll == kept && unit == w else (kept > 0 ==> keptAll >= 2 * kept)
    ensures var d := lostAll + restAll + v - keptAll;
      && (0 <= d < unit <==> lost == 0 && l == 0 && (noShift || none || 0 <= restAll + v - keptAll < unit))
      && (d == 0 <==> lost == 0 && l == 0 && if noShift || none then rest == 0 && r == 0 else restAll + v - keptAll == 0)
  {}

  lemma Monotone2(a: int, b: int, m: int)
    requires a <= b && m >= 0
    ensures a * m <= b * m
  {
    assert (b - a) * m >= 0;
  }

  lemma NothingLost(st: Scan, lost: nat)
    requires st.significand == 0 && Shl(st.significand + lost, st.shift) == 0
    ensures lost == 0
  {
    if lost > 0 { MulGrows(lost, Pow2(st.shift)); }
  }

  /** The value that is read against the one that is spelled: s and the lost bits
      before the dot, v behind it in n bits. */
  lemma Compared(s: nat, lost: nat, shift: nat, n: nat, v: nat, read: nat, less: nat)
    requires read + less == Shl(s, n) + v && v < Pow2(n) && (less > 0 ==> less >= Pow2(n))
    ensures Shl(read, shift) == Shl(Shl(s + lost, shift), n) + v <==> lost == 0 && less == 0 && (shift == 0 || v == 0)
  {
    hide Shl, Pow2;
    ShlAdd(s, n, shift);
    ShlAdd(s, shift, n);
    ShlSum(s, lost, shift);
    ShlSum(Shl(s, shift), Shl(lost, shift), n);
    ShlSum(Shl(s, n), v, shift);
    OneUnit(shift, lost);
    ShlAdd(lost, shift, n);
    if lost > 0 {
      ShlAdd(lost, n, shift);
      OneUnit(n, lost);
      ShlStrict(read, Shl(s, n) + Pow2(n), shift);
      ShlSum(Shl(s, n), Pow2(n), shift);
      ShlOrder(Pow2(n), Shl(lost, n), shift);
    } else if less > 0 {
      ShlZero(n);
      ShlStrict(read, Shl(s, n), shift);
    } else {
      ShlZero(n);
      Unmoved(v, shift);
    }
  }

  lemma ShlOrder(a: nat, b: nat, n: nat)
    ensures a <= b ==> Shl(a, n) <= Shl(b, n)
  {
    Monotone(a, b, Pow2(n));
  }

  lemma Unmoved(v: nat, n: nat)
    ensures Shl(v, n) == v <==> n == 0 || v == 0
  {
    if n > 0 && v > 0 {
      PowMore(1, n);
      assert Pow2(1) == 2 * Pow2(0) == 2;
      Monotone(2, Pow2(n), v);
      assert v * Pow2(n) == Pow2(n) * v;
    }
  }

  lemma {:induction false} ValueSmall(ds: seq<nat>)
    requires Digits(ds)
    ensures Value(ds) < Pow2(4 * |ds|)
    decreases |ds|
  {
    if ds != [] {
      hide Pow2;
      ValueSmall(ds[..|ds| - 1]);
      PowAdd(4 * (|ds| - 1), 4);
      Sixteen();
    }
  }

  lemma {:induction false} ValueZero(ds: seq<nat>)
    ensures Value(ds) == 0 <==> forall i :: 0 <= i < |ds| ==> ds[i] == 0
    decreases |ds|
  {
    if ds != [] {
      var n := |ds| - 1;
      ValueZero(ds[..n]);
      assert forall i :: 0 <= i < n ==> ds[..n][i] == ds[i];
    }
  }

  // ----- texts that are read wrongly -----

  lemma NextDigit(f: Format, ds: seq<nat>, st: Scan)
    requires ds != []
    ensures ScanAll(f, ds, st) == ScanAll(f, ds[1..], ScanDigit(f, st, ds[0]))
  {}

  /** A text with the exponent +0. */
  lemma Read(f: Format, ds: seq<nat>, fs: seq<nat>, st: Scan)
    requires Ieee(f) && Digits(ds) && Digits(fs) && st == ScanAll(f, fs, ScanDot(ScanAll(f, ds, START)))
    requires st.significand > 0 && st.exponent <= 0 && st.seenDot
    ensures Parse(f, HexFloat, "0x" + (Chars(ds) + "." + Chars(fs)) + "p+0") == Composed(f, false, st.significand, st.exponent)
  {
    hide Composed, ScanAll, ScanDigits, ParseExponent, Chars;
    var digits := Chars(ds) + "." + Chars(fs);
    AfterP("+0");
    Middle(f, ds, fs, "p+0");
    assert digits + "p+0" == digits + "p" + "+0" && "p+0" == "p" + "+0";
    var s := "0x" + digits + "p+0";
    assert s == "0x" + digits + "p" + "+0" && s[0] == '0';
    HexParsed(f, s, digits, "+0", st);
    PlusZero(f, st.significand, st.exponent);
  }

  lemma PlusZero(f: Format, significand: nat, x: int)
    requires significand > 0 && Ieee(f) && x <= 0
    ensures ParseExponent(f, false, significand, x, "+0") == Composed(f, false, significand, x)
  {
    hide Composed;
    assert "+0"[1..] == "0" && "0"[1..] == "";
    EndScanned(0, x, f.MaxExp());
  }

  lemma SmallPowers()
    ensures Pow2(2) == 4 && Pow2(3) == 8 && Pow2(4) == 0x10 && Pow2(8) == 0x100 && Pow2(19) == 0x8_0000 && Pow2(20) == 0x10_0000
    ensures Pow2(23) == 0x80_0000 && Pow2(24) == 0x100_0000 && Pow2(25) == 0x200_0000 && Pow2(32) == 0x1_0000_0000 && Pow2(1) == 2
  {
    assert Pow2(4) == 0x10 && Pow2(8) == 0x100 && Pow2(12) == 0x1000 && Pow2(16) == 0x1_0000;
    assert Pow2(20) == 0x10_0000 && Pow2(24) == 0x100_0000 && Pow2(28) == 0x1000_0000;
  }

  lemma ComposedTwo()
    ensures Composed(FLOAT, false, 0x200_0003, -24) == Some(0x4000_0000) && Make(FLOAT, false, 1, 1) == 0x4000_0001
    ensures !Nearest(0x200_0003, 2, 0x80_0000) && Nearest(0x200_0003, 2, 0x80_0001)
  {
    SmallPowers();
    hide Pow2, BitLength;
    LengthOf(25, 3);
  }

  /** 2.000003 hexadecimal is 2 + 3/2^24: of a significand of 26 bits two are
      lost, three quarters of a unit, and it is rounded down, to 2. */
  lemma Misrounded()
    ensures Parse(FLOAT, HexFloat, "0x2.000003p+0") == Some(0x4000_0000) && Make(FLOAT, false, 1, 1) == 0x4000_0001
    ensures !Nearest(0x200_0003, 2, 0x80_0000) && Nearest(0x200_0003, 2, 0x80_0001)
  {
    ComposedTwo();
    TwoSteps();
    hide Pow2, Shl, Low, ScanAll, ScanDigit, Parse, Composed, Make, Nearest, Chars;
    var ds, fs := [2], [0, 0, 0, 0, 0, 3];
    NextDigit(FLOAT, ds, START);
    var mid := Scan(2, 0, 4, 0, false);
    Ended(FLOAT, ds[1..], mid);
    SomeZeros(FLOAT, fs, 5, ScanDot(mid));
    assert fs[5..] == [3];
    NextDigit(FLOAT, [3], Scan(2, 20, 4, 0, true));
    var st := Scan(0x200_0003, 0, 8, -24, true);
    Ended(FLOAT, [3][1..], st);
    CharsTwo();
    assert "0x2.000003p+0" == "0x" + ("2" + "." + "000003") + "p+0";
    Read(FLOAT, ds, fs, st);
  }

  lemma CharsTwo()
    ensures Chars([2]) == "2" && Chars([0, 0, 0, 0, 0, 3]) == "000003"
  {
    assert HexChar(0) == '0' && HexChar(2) == '2' && HexChar(3) == '3';
  }

  lemma TwoSteps()
    ensures ScanDigit(FLOAT, START, 2) == Scan(2, 0, 4, 0, false)
    ensures ScanDigit(FLOAT, Scan(2, 20, 4, 0, true), 3) == Scan(0x200_0003, 0, 8, -24, true)
  {
    SmallPowers();
    hide Pow2;
  }

  lemma Ended(f: Format, ds: seq<nat>, st: Scan)
    requires ds == []
    ensures ScanAll(f, ds, st) == st
  {}

  lemma {:induction false} SomeZeros(f: Format, fs: seq<nat>, n: nat, st: Scan)
    requires n <= |fs| && forall i :: 0 <= i < n ==> fs[i] == 0
    ensures ScanAll(f, fs, st) == ScanAll(f, fs[n..], st.(shift := st.shift + 4 * n))
    ensures NoneLost(f, fs, st) <==> NoneLost(f, fs[n..], st.(shift := st.shift + 4 * n))
    ensures NonzeroDropped(f, fs, st) <==> NonzeroDropped(f, fs[n..], st.(shift := st.shift + 4 * n))
    decreases n
  {
    hide Shl, Pow2, Low;
    if n > 0 {
      SomeZeros(f, fs[1..], n - 1, ScanDigit(f, st, 0));
      assert fs[1..][n - 1..] == fs[n..];
    } else {
      assert fs[0..] == fs;
    }
  }

  /** 10.1 hexadecimal, 16 + 1/16, is read as 11, which is 17: the zero before
      the dot is counted in the exponent, and the next digit takes its place. */
  lemma ZeroBeforeDot()
    ensures Parse(FLOAT, HexFloat, "0x10.1p+0") == Some(0x4188_0000) && 0x4188_0000 == Make(FLOAT, false, 4, 0x8_0000)
    ensures Value([1, 0] + [1]) == 0x101 && !DotOk(FLOAT, [1, 0], [1])
  {
    SmallPowers();
    hide Pow2, ScanAll, BitLength, Parse;
    var ds, fs := [1, 0], [1];
    NextDigit(FLOAT, ds, START);
    NextDigit(FLOAT, ds[1..], Scan(1, 0, 4, 0, false));
    var mid := Scan(1, 4, 4, 0, false);
    Ended(FLOAT, ds[1..][1..], mid);
    NextDigit(FLOAT, fs, ScanDot(mid));
    var st := Scan(0x11, 0, 8, 0, true);
    Ended(FLOAT, fs[1..], st);
    assert "0x10.1p+0" == "0x" + (Chars(ds) + "." + Chars(fs)) + "p+0";
    Read(FLOAT, ds, fs, st);
    LengthOf(4, 1);
    assert fs[0] != 0;
    JoinedValue(ds, fs);
    assert Value([1, 0]) == 0x10 && Value([1]) == 1 by { assert [1, 0][..1] == [1] && [1][..0] == []; }
  }

  const LOST: seq<nat> := [0, 0, 0, 0, 1, 0, 0, 0, 0, 1]

  lemma LostSteps()
    ensures ScanDigit(FLOAT, START, 1) == Scan(1, 0, 4, 0, false)
    ensures ScanDigit(FLOAT, Scan(1, 16, 4, 0, true), 1) == Scan(0x10_0001, 0, 8, -20, true)
    ensures ScanDigit(FLOAT, Scan(0x10_0001, 16, 8, -20, true), 1) == Scan(0x10_0001, 0, 12, -40, true)
    ensures Shl(0x10_0001, 20) >= Pow2(32)
  {
    SmallPowers();
    hide Pow2;
  }

  lemma ScanLost()
    ensures ScanAll(FLOAT, [1], START) == Scan(1, 0, 4, 0, false)
    ensures ScanAll(FLOAT, LOST, ScanDot(Scan(1, 0, 4, 0, false))) == Scan(0x10_0001, 0, 12, -40, true)
    ensures !NoneLost(FLOAT, LOST, ScanDot(Scan(1, 0, 4, 0, false)))
  {
    LostSteps();
    hide Pow2, Shl, Low, ScanAll, ScanDigit;
    NextDigit(FLOAT, [1], START);
    Ended(FLOAT, [1][1..], Scan(1, 0, 4, 0, false));
    SomeZeros(FLOAT, LOST, 4, Scan(1, 0, 4, 0, true));
    NextDigit(FLOAT, LOST[4..], Scan(1, 16, 4, 0, true));
    assert LOST[4..][1..] == LOST[5..];
    var st := Scan(0x10_0001, 0, 8, -20, true);
    SomeZeros(FLOAT, LOST[5..], 4, st);
    assert LOST[5..][4..] == LOST[9..] == [1];
    NextDigit(FLOAT, [1], st.(shift := 16));
    Ended(FLOAT, [1][1..], Scan(0x10_0001, 0, 12, -40, true));
  }

  lemma ComposedLost()
    ensures Composed(FLOAT, false, 0x10_0001, -40) == Some(Make(FLOAT, false, -20, 8))
  {
    SmallPowers();
    hide Pow2, BitLength, Make;
    LengthOf(20, 1);
  }

  /** 1.0000100001 hexadecimal is read as 2^-20 and a little: the bits of zeros
      between digits do not count towards those of the significand, and its first
      digit is shifted out. */
  lemma FirstDigitLost()
    ensures Parse(FLOAT, HexFloat, "0x1.0000100001p+0") == Some(Make(FLOAT, false, -20, 8))
    ensures !NoneLost(FLOAT, LOST, ScanDot(ScanAll(FLOAT, [1], START)))
  {
    ScanLost();
    ComposedLost();
    hide Pow2, ScanAll, Parse, Composed, Make, NoneLost;
    assert "0x1.0000100001p+0" == "0x" + (Chars([1]) + "." + Chars(LOST)) + "p+0";
    Read(FLOAT, [1], LOST, Scan(0x10_0001, 0, 12, -40, true));
  }
}
