/** Printing a bit pattern in hexadecimal and parsing the text gives it back. */
module LiteralProofs {
  import opened Wasm
  import opened Powers
  import opened Literal

  // ----- digits -----

  lemma CharRead(d: nat)
    requires d < 16
    ensures HexChar(d) != '.' && HexValue(HexChar(d)) == Some(d)
  {}

  /** A place where the loop over the significand stops. */
  predicate Stops(tail: string) { tail == "" || (tail[0] != '.' && HexValue(tail[0]).None?) }

  lemma ScanStops(f: Format, tail: string, st: Scan)
    requires Stops(tail)
    ensures ScanDigits(f, tail, st) == (st, tail)
  {}

  lemma ScanHead(f: Format, d: nat, s: string, st: Scan)
    requires d < 16
    ensures ScanDigits(f, [HexChar(d)] + s, st) == ScanDigits(f, s, ScanDigit(f, st, d))
  {
    hide HexChar, HexValue, ScanDigit;
    CharRead(d);
    assert ([HexChar(d)] + s)[1..] == s;
  }

  /** Reading the digits of x, of which the last is not zero, appends them to the
      significand; none is dropped. */
  lemma {:induction false} ScanHex(f: Format, x: nat, k: nat, st: Scan, tail: string) returns (d: nat, bits: nat)
    requires 0 < x < Pow2(4 * k) && st.seenDot && st.significand > 0 && Stops(tail)
    requires st.bits + st.shift + 4 * k <= f.sigBits + 5
    requires Shl(Shl(st.significand, st.shift) + 1, 4 * k) <= Pow2(f.width)
    ensures var n := |HexOf(x, k)|;
      && 0 < n <= k && x == Shl(d, 4 * k - 4 * n) && 0 < d < Pow2(4 * n)
      && ScanDigits(f, HexOf(x, k) + tail, st)
        == (Scan(Shl(st.significand, st.shift + 4 * n) + d, 0, bits, st.exponent - st.shift - 4 * n, true), tail)
    decreases k
  {
    hide Pow2, Shl, Shr, Low, ScanDigits, HexChar, HexValue;
    TopDigit(x, k);
    var c, x' := Shr(x, 4 * k - 4), Low(x, 4 * k - 4);
    Split(x, 4 * k - 4);
    var st', s' := ScanDigit(f, st, c), HexOf(x', k - 1);
    ScanHead(f, c, s' + tail, st);
    assert HexOf(x, k) + tail == [HexChar(c)] + (s' + tail);
    DigitScanned(f, st, c, k);
    if x' == 0 {
      d, bits := c, st'.bits;
      assert s' + tail == tail;
      ScanStops(f, tail, st');
      LastDigit(x, c, k);
    } else {
      d, bits := ScanHex(f, x', k - 1, st', tail);
      var n' := |s'|;
      DigitsJoined(st.significand, st.shift, st', c, d, n');
      DigitsSplit(x, c, x', d, k, n');
      if c != 0 { d := Shl(c, 4 * n') + d; }
    }
  }

  /** One digit: a zero is remembered in the shift, another is appended. */
  lemma DigitScanned(f: Format, st: Scan, c: nat, k: nat)
    requires c < 16 && k > 0 && st.seenDot && st.significand > 0
    requires st.bits + st.shift + 4 * k <= f.sigBits + 5
    requires Shl(Shl(st.significand, st.shift) + 1, 4 * k) <= Pow2(f.width)
    ensures var st' := ScanDigit(f, st, c);
      && st'.seenDot && st'.significand > 0 && st'.bits + st'.shift + 4 * (k - 1) <= f.sigBits + 5
      && (c == 0 ==> st' == st.(shift := st.shift + 4))
      && (c != 0 ==> st'.significand == Shl(st.significand, st.shift + 4) + c && st'.shift == 0)
      && (c != 0 ==> st'.exponent == st.exponent - st.shift - 4)
      && Shl(Shl(st'.significand, st'.shift) + 1, 4 * k - 4) <= Pow2(f.width)
  {
    hide Pow2, Shl, Low;
    var a := Shl(st.significand, st.shift);
    ShlAdd(st.significand, st.shift, 4);
    var b := Shl(a, 4);
    SixteenTimes(a);
    ShlAdd(a + 1, 4, 4 * k - 4);
    SixteenTimes(a + 1);
    ShlGrows(b + 16, 4 * k - 4);
    if c != 0 {
      LowAll(b, f.width);
      ShlMonotone(b + c + 1, b + 16, 4 * k - 4);
      ShlZero(b + c);
    } else {
      ShlMonotone(b + 1, b + 16, 4 * k - 4);
    }
  }

  lemma SixteenTimes(a: nat)
    ensures Shl(a, 4) == 16 * a
  {
    Sixteen();
  }

  lemma ShlGrows(a: nat, n: nat)
    ensures a <= Shl(a, n)
  {
    if a > 0 { assert Pow2(n) >= 1; MulMono(1, Pow2(n), a); }
  }

  lemma MulMono(a: nat, b: nat, m: nat)
    requires a <= b
    ensures a * m <= b * m && m * a <= m * b
  {}

  lemma ShlMonotone(a: nat, b: nat, n: nat)
    requires a <= b
    ensures Shl(a, n) <= Shl(b, n)
  {
    MulMono(a, b, Pow2(n));
  }

  lemma ShlZero(a: nat)
    ensures Shl(a, 0) == a && Shl(0, a) == 0
  {
    Sixteen();
  }

  lemma LowAll(x: nat, n: nat)
    requires x < Pow2(n)
    ensures Low(x, n) == x
  {
    Divide(x, 0, x, Pow2(n));
  }

  lemma LastDigit(x: nat, c: nat, k: nat)
    requires k > 0 && x > 0 && x == Shl(c, 4 * k - 4) + 0 && c < 16
    ensures 0 < c < Pow2(4)
  {
    hide Pow2, Shl;
    Sixteen();
    if c == 0 { ShlZero(4 * k - 4); }
  }

  lemma DigitsJoined(significand: nat, shift: nat, st': Scan, c: nat, d: nat, n': nat)
    requires c == 0 ==> st'.significand == significand && st'.shift == shift + 4
    requires c != 0 ==> st'.significand == Shl(significand, shift + 4) + c && st'.shift == 0
    ensures Shl(st'.significand, st'.shift + 4 * n') + d
      == Shl(significand, shift + 4 * (n' + 1)) + (if c == 0 then d else Shl(c, 4 * n') + d)
  {
    hide Pow2, Shl;
    if c != 0 {
      ShlSum(Shl(significand, shift + 4), c, 4 * n');
      ShlAdd(significand, shift + 4, 4 * n');
    }
  }

  lemma DigitsSplit(x: nat, c: nat, x': nat, d: nat, k: nat, n': nat)
    requires k > 0 && n' <= k - 1 && x == Shl(c, 4 * k - 4) + x' && x' == Shl(d, 4 * (k - 1) - 4 * n') && 0 < d < Pow2(4 * n') && c < 16
    ensures var d' := if c == 0 then d else Shl(c, 4 * n') + d;
      x == Shl(d', 4 * k - 4 * (n' + 1)) && 0 < d' < Pow2(4 * (n' + 1))
  {
    hide Pow2, Shl;
    var rest := 4 * k - 4 * (n' + 1);
    ShlZero(4 * k - 4);
    PowMore(4 * n', 4 * n' + 4);
    if c != 0 {
      ShlSum(Shl(c, 4 * n'), d, rest);
      ShlAdd(c, 4 * n', rest);
      Sixteen();
      ShlLess(c, 4, 4 * n');
    }
  }

  // ----- the exponent -----

  lemma DecRead(d: nat)
    requires d < 10
    ensures '0' <= DecChar(d) <= '9' && DecChar(d) as int - '0' as int == d && DecChar(d) != '-' && DecChar(d) != '+'
  {}

  lemma {:induction false} DecimalScanned(e: nat, tail: string, add: int, max: int)
    requires e / 10 + add < max
    ensures ScanExponent(Decimal(e) + tail, 0, add, max)
      == if e + add >= max then Some(e) else ScanExponent(tail, e, add, max)
  {
    hide DecChar;
    if e < 10 {
      DecRead(e);
      assert ([DecChar(e)] + tail)[1..] == tail;
    } else {
      var front, last := Decimal(e / 10), [DecChar(e % 10)] + tail;
      DecRead(e % 10);
      assert Decimal(e) + tail == front + last;
      DecimalScanned(e / 10, last, add, max);
      assert last[1..] == tail;
    }
  }

  lemma {:induction false} DecimalStarts(e: nat)
    ensures Decimal(e) != "" && Decimal(e)[0] != '-' && Decimal(e)[0] != '+'
  {
    hide DecChar;
    DecRead(e % 10);
    if e >= 10 { DecimalStarts(e / 10); }
  }

  /** The exponent text gives the exponent back, although the loop may stop
      early: it does so only behind the last digit. */
  lemma ExponentRead(f: Format, neg: bool, significand: nat, x: int, e: int)
    requires significand > 0
    requires e < 0 ==> -e / 10 - x < f.MaxExp()
    requires e >= 0 ==> e / 10 + x < f.MaxExp()
    ensures ParseExponent(f, neg, significand, x, ExponentText(e)) == Composed(f, neg, significand, e + x)
  {
    hide Decimal, ScanExponent, Composed;
    var text, add := ExponentText(e), if e < 0 then -x else x;
    var digits := if e < 0 then -e else e;
    assert text[1..] == Decimal(digits);
    DecimalStarts(digits);
    DecimalScanned(digits, "", add, f.MaxExp());
    assert Decimal(digits) + "" == Decimal(digits);
    assert ScanExponent("", digits, add, f.MaxExp()) == Some(digits) by { EndScanned(digits, add, f.MaxExp()); }
  }

  lemma EndScanned(e: nat, add: int, max: int)
    ensures ScanExponent("", e, add, max) == Some(e)
  {}

  // ----- from significand to bits -----

  /** A one in front of m bits makes a number of m + 1 bits. */
  lemma LengthOf(m: nat, d: nat)
    requires d < Pow2(m)
    ensures BitLength(Pow2(m) + d) == m + 1
  {
    hide BitLength;
    var x := Pow2(m) + d;
    LengthBounds(x);
    var n := BitLength(x);
    assert Pow2(m + 1) == 2 * Pow2(m);
    if n < m + 1 { PowMore(n, m); }
    if n > m + 1 { PowMore(m + 1, n - 1); }
  }

  /** Rounding an exact multiple does nothing but shift. */
  lemma ShiftExact(f: Format, q: nat, shift: nat)
    requires shift > 0 && Shl(q, shift) + Pow2(shift - 1) < Pow2(f.width)
    ensures ShiftRound(f, Shl(q, shift), shift) == q
  {
    hide Shl, Shr, Low;
    var s := Shl(q, shift);
    assert Pow2(shift) == 2 * Pow2(shift - 1);
    Parts(s, q, 0, shift);
    Parts(s + Pow2(shift - 1), q, Pow2(shift - 1), shift);
    LowAll(s + Pow2(shift - 1), f.width);
  }

  /** r is a multiple of 2^shift next to s, none is nearer. */
  predicate Nearest(s: nat, shift: nat, r: nat)
    requires shift > 0
  {
    Shl(r, shift) <= s + Pow2(shift - 1) && s <= Shl(r, shift) + Pow2(shift - 1)
  }

  /** Rounding is to nearest only where the lowest bit that stays is set, or where
      no more than half is lost. */
  lemma RoundsToNearest(f: Format, s: nat, shift: nat)
    requires shift > 0 && s + Pow2(shift - 1) < Pow2(f.width)
    ensures Nearest(s, shift, ShiftRound(f, s, shift)) <==> (Shr(s, shift) % 2 == 1 || Low(s, shift) <= Pow2(shift - 1))
  {
    hide Shl, Shr, Low, Pow2;
    var q, r, half := Shr(s, shift), Low(s, shift), Pow2(shift - 1);
    Split(s, shift);
    PowDouble(shift - 1);
    ShlSum(q, 1, shift);
    ShlOfPow(0, shift);
    Sixteen();
    if q % 2 == 1 {
      LowAll(s + half, f.width);
      if r < half { Parts(s + half, q, r + half, shift); } else { Parts(s + half, q + 1, r - half, shift); }
    }
  }

  /** The significand of a normal number, printed with n digits behind the point. */
  lemma NormalExact(f: Format, sig: nat, n: nat, d: nat, exp: int)
    requires Ieee(f) && sig < Pow2(f.sigBits) && n <= f.Nybbles() && d < Pow2(4 * n)
    requires Shl(sig, f.Pad()) == Shl(d, 4 * f.Nybbles() - 4 * n) && f.MinExp() < exp < f.MaxExp()
    ensures Rounded(f, Pow2(4 * n) + d, exp - 4 * n) == (exp, sig)
  {
    hide Shl, Shr, Low, Pow2, BitLength, ShiftRound;
    var significand, len := Pow2(4 * n) + d, 4 * n + 1;
    LengthOf(4 * n, d);
    if len > f.sigBits + 1 {
      NormalLong(f, sig, n, d);
    } else {
      NormalShort(f, sig, n, d);
    }
  }

  /** The last digit is padded: one bit goes, and it is zero. */
  lemma NormalLong(f: Format, sig: nat, n: nat, d: nat)
    requires Ieee(f) && sig < Pow2(f.sigBits) && n <= f.Nybbles() && d < Pow2(4 * n) && 4 * n + 1 > f.sigBits + 1
    requires Shl(sig, f.Pad()) == Shl(d, 4 * f.Nybbles() - 4 * n)
    ensures ShiftRound(f, Pow2(4 * n) + d, 4 * n + 1 - (f.sigBits + 1)) == Pow2(f.sigBits) + sig < Pow2(f.sigBits + 1)
    ensures Low(Pow2(f.sigBits) + sig, f.sigBits) == sig
  {
    hide Shl, Shr, Low, Pow2, ShiftRound;
    assert n == f.Nybbles() && f.Pad() == 1;
    ShlZero(d);
    assert d == Shl(sig, 1);
    var q := Pow2(f.sigBits) + sig;
    ShlSum(Pow2(f.sigBits), sig, 1);
    ShlOfPow(f.sigBits, 1);
    PowDouble(f.sigBits);
    PowDouble(f.sigBits + 1);
    PowDouble(f.sigBits + 2);
    WidthRoom(f);
    ShlLess(q, f.sigBits + 1, 1);
    Sixteen();
    ShiftExact(f, q, 1);
    ShlZero(1);
    ShlOfPow(0, f.sigBits);
    Parts(q, 1, sig, f.sigBits);
  }

  lemma ShlOfPow(a: nat, b: nat)
    ensures Shl(Pow2(a), b) == Pow2(a + b)
  {
    PowAdd(a, b);
  }

  lemma WidthRoom(f: Format)
    requires Ieee(f)
    ensures Pow2(f.sigBits + 3) + Pow2(f.sigBits + 2) < Pow2(f.width) && f.sigBits + 4 <= f.width
  {
    hide Pow2;
    PowDouble(f.sigBits + 2);
    PowDouble(f.sigBits + 3);
    PowMore(f.sigBits + 4, f.width);
  }

  lemma PowDouble(n: nat)
    ensures Pow2(n + 1) == 2 * Pow2(n)
  {}

  lemma NormalShort(f: Format, sig: nat, n: nat, d: nat)
    requires Ieee(f) && sig < Pow2(f.sigBits) && n <= f.Nybbles() && d < Pow2(4 * n) && 4 * n <= f.sigBits
    requires Shl(sig, f.Pad()) == Shl(d, 4 * f.Nybbles() - 4 * n)
    ensures Low(Shl(Pow2(4 * n) + d, f.sigBits - 4 * n), f.sigBits) == sig
  {
    hide Shl, Shr, Low, Pow2;
    var r := f.sigBits - 4 * n;
    ShlAdd(d, r, f.Pad());
    ShlCancel(sig, Shl(d, r), f.Pad());
    ShlSum(Pow2(4 * n), d, r);
    ShlOfPow(4 * n, r);
    ShlOfPow(0, f.sigBits);
    Sixteen();
    Parts(Pow2(f.sigBits) + sig, 1, sig, f.sigBits);
  }

  /** The significand of a subnormal number with p + 1 bits. */
  lemma SubnormalExact(f: Format, sig: nat, p: nat, n: nat, d: nat)
    requires Ieee(f) && p < f.sigBits && Pow2(p) <= sig < Pow2(p + 1) && n <= f.Nybbles() && d < Pow2(4 * n)
    requires Shl(sig - Pow2(p), 4 * f.Nybbles() - p) == Shl(d, 4 * f.Nybbles() - 4 * n)
    ensures Rounded(f, Pow2(4 * n) + d, f.MinExp() - (f.sigBits - 1 - p) - 4 * n) == (f.MinExp(), sig)
  {
    hide Shl, Shr, Low, Pow2, BitLength, ShiftRound;
    LengthOf(4 * n, d);
    var shift := f.sigBits - 1 - p;
    var aligned := Shl(sig, shift);
    Aligned(f, sig, p, n, d);
    if shift > 0 {
      WidthRoom(f);
      PowDouble(p);
      ShlLess(sig, p + 1, shift);
      PowMore(shift - 1, f.sigBits + 2);
      PowMore(f.sigBits, f.sigBits + 3);
      ShiftExact(f, sig, shift);
      PowMore(p + 1, f.sigBits);
      LowAll(sig, f.sigBits);
    } else {
      ShlZero(sig);
    }
  }

  /** Bringing the leading one to the top of the field. */
  lemma Aligned(f: Format, sig: nat, p: nat, n: nat, d: nat)
    requires Ieee(f) && p < f.sigBits && Pow2(p) <= sig < Pow2(p + 1) && n <= f.Nybbles() && d < Pow2(4 * n)
    requires Shl(sig - Pow2(p), 4 * f.Nybbles() - p) == Shl(d, 4 * f.Nybbles() - 4 * n)
    ensures var len, significand := 4 * n + 1, Pow2(4 * n) + d;
      Shl(sig, f.sigBits - 1 - p)
        == if len > f.sigBits then ShiftRound(f, significand, len - f.sigBits) else Shl(significand, f.sigBits - len)
  {
    hide Shl, Shr, Low, Pow2, ShiftRound;
    var r, len, k := sig - Pow2(p), 4 * n + 1, 4 * f.Nybbles();
    var t := Shl(sig, f.sigBits - 1 - p);
    ShlSum(Pow2(p), r, f.sigBits - 1 - p);
    ShlOfPow(p, f.sigBits - 1 - p);
    if len > f.sigBits {
      var a := len - f.sigBits;
      ShlAdd(r, 4 * n - p, k - 4 * n);
      ShlCancel(Shl(r, 4 * n - p), d, k - 4 * n);
      ShlAdd(sig, f.sigBits - 1 - p, a);
      ShlSum(Pow2(p), r, 4 * n - p);
      ShlOfPow(p, 4 * n - p);
      assert Pow2(4 * n) + d == Shl(t, a);
      AlignedRoom(f, t, a, sig, p);
      ShiftExact(f, t, a);
    } else {
      var b := f.sigBits - len;
      ShlAdd(r, f.sigBits - 1 - p, k - f.sigBits + 1);
      ShlAdd(d, b, k - f.sigBits + 1);
      ShlCancel(Shl(r, f.sigBits - 1 - p), Shl(d, b), k - f.sigBits + 1);
      ShlSum(Pow2(4 * n), d, b);
      ShlOfPow(4 * n, b);
    }
  }

  lemma AlignedRoom(f: Format, t: nat, a: nat, sig: nat, p: nat)
    requires Ieee(f) && p < f.sigBits && sig < Pow2(p + 1) && t == Shl(sig, f.sigBits - 1 - p)
    requires 0 < a <= f.Pad() + 1
    ensures Shl(t, a) + Pow2(a - 1) < Pow2(f.width)
  {
    hide Shl, Pow2;
    WidthRoom(f);
    ShlLess(sig, p + 1, f.sigBits - 1 - p);
    ShlLess(t, f.sigBits, a);
    PowMore(f.sigBits + a, f.sigBits + 3);
    PowMore(a - 1, f.sigBits + 2);
  }

  /** Only a result next to the normal numbers need not fit. */
  lemma RoundedFits(f: Format, neg: bool, significand: nat, exponent: int)
    requires Ieee(f) && significand > 0 && exponent + BitLength(significand) - 1 != f.MinExp()
    ensures Composed(f, neg, significand, exponent) == Some(Compose(f, neg, significand, exponent))
  {
    hide Pow2, Shl, BitLength, ShiftRound, Make;
    LowLess(f.sigBits);
  }

  lemma LowLess(n: nat)
    ensures forall x: nat :: Low(x, n) < Pow2(n)
  {}

  // ----- whole texts -----

  const START := Scan(0, 0, 0, 0, false)

  /** `1.`, digits, and what follows. */
  lemma FractionScanned(f: Format, x: nat, tail: string) returns (n: nat, d: nat, bits: nat)
    requires Ieee(f) && 0 < x < Pow2(4 * f.Nybbles()) && Stops(tail)
    ensures 0 < n <= f.Nybbles() && d < Pow2(4 * n) && x == Shl(d, 4 * f.Nybbles() - 4 * n)
    ensures ScanDigits(f, "1." + HexOf(x, f.Nybbles()) + tail, START) == (Scan(Pow2(4 * n) + d, 0, bits, -4 * n, true), tail)
  {
    hide Pow2, Shl, Low, HexOf;
    var k, st := f.Nybbles(), Scan(1, 0, 4, 0, true);
    OneDot(f, HexOf(x, k) + tail);
    assert "1." + HexOf(x, k) + tail == "1." + (HexOf(x, k) + tail);
    Sixteen();
    ShlZero(1);
    ShlOfPow(1, 4 * k);
    PowMore(4 * k + 1, f.width);
    n := |HexOf(x, k)|;
    d, bits := ScanHex(f, x, k, st, tail);
    ShlOfPow(0, 4 * n);
  }

  lemma OneDot(f: Format, s: string)
    ensures ScanDigits(f, "1." + s, START) == ScanDigits(f, s, Scan(1, 0, 4, 0, true))
  {
    var t := "1." + s;
    assert t[1..] == "." + s && t[1..][1..] == s;
    assert HexValue('1') == Some(1);
    assert ScanDigits(f, "." + s, Scan(1, 0, 4, 0, false)) == ScanDigits(f, s, Scan(1, 0, 4, 0, true));
  }

  lemma OneOnly(f: Format, s: string)
    requires Stops(s)
    ensures ScanDigits(f, "1" + s, START) == (Scan(1, 0, 4, 0, false), s)
  {
    assert ("1" + s)[1..] == s;
    assert HexValue('1') == Some(1);
  }

  lemma ZeroOnly(f: Format, s: string)
    requires Stops(s)
    ensures ScanDigits(f, "0" + s, START) == (Scan(0, 4, 0, 0, false), s)
  {
    assert ("0" + s)[1..] == s;
    assert HexValue('0') == Some(0);
  }

  /** What the parser makes of `0x`, digits, `p` and an exponent. */
  lemma HexParsed(f: Format, s: string, digits: string, e: string, st: Scan)
    requires Unsigned(s) == "0x" + digits + "p" + e && ScanDigits(f, digits + "p" + e, START) == (st, "p" + e)
    ensures ParseHex(f, s) == if st.significand == 0 then Some(Make(f, Negative(s), f.MinExp(), 0))
      else ParseExponent(f, Negative(s), st.significand, if st.seenDot then st.exponent else st.exponent + st.shift, e)
  {
    hide ScanDigits, Make, ParseExponent;
    var t := Unsigned(s);
    assert t == "0x" + (digits + "p" + e);
    assert t[..2] == "0x" && t[2..] == digits + "p" + e;
    assert ("p" + e)[1..] == e;
  }

  lemma AfterP(e: string)
    ensures Stops("p" + e)
  {
    assert HexValue('p') == None;
  }

  lemma NormalRead(f: Format, neg: bool, s: string, exp: int, sig: nat)
    requires Ieee(f) && sig < Pow2(f.sigBits) && f.MinExp() < exp < f.MaxExp()
    requires Unsigned(s) == FiniteText(f, exp, sig) && neg == Negative(s)
    ensures ParseHex(f, s) == Some(Make(f, neg, exp, sig))
  {
    hide Pow2, Shl, Low, HexOf, Make, ExponentText, Rounded, ParseHex, ParseExponent, Decimal;
    var e := ExponentText(exp);
    AfterP(e);
    if sig == 0 {
      OneOnly(f, "p" + e);
      assert "0x1p" + e == "0x" + "1" + "p" + e && "1" + "p" + e == "1" + ("p" + e);
      HexParsed(f, s, "1", e, Scan(1, 0, 4, 0, false));
      ExponentRead(f, neg, 1, 0, exp);
      Sixteen();
      ShlZero(f.Pad());
      ShlZero(4 * f.Nybbles());
      NormalExact(f, 0, 0, 0, exp);
    } else {
      NormalFits(f, sig);
      var y := Shl(sig, f.Pad());
      ShlPositive(sig, f.Pad());
      var digits := "1." + HexOf(y, f.Nybbles());
      var n, d, bits := FractionScanned(f, y, "p" + e);
      assert digits + "p" + e == digits + ("p" + e);
      assert FiniteText(f, exp, sig) == "0x" + digits + "p" + e;
      var digitBits: int := 4 * n;
      var x: int := -digitBits;
      HexParsed(f, s, digits, e, Scan(Pow2(4 * n) + d, 0, bits, x, true));
      ExponentRead(f, neg, Pow2(4 * n) + d, x, exp);
      NormalExact(f, sig, n, d, exp);
    }
  }

  lemma ShlPositive(x: nat, n: nat)
    requires x > 0
    ensures Shl(x, n) > 0
  {
    ShlGrows(x, n);
  }

  lemma SubnormalRead(f: Format, neg: bool, s: string, sig: nat)
    requires Ieee(f) && 0 < sig < Pow2(f.sigBits)
    requires Unsigned(s) == FiniteText(f, f.MinExp(), sig) && neg == Negative(s)
    ensures ParseHex(f, s) == Some(Make(f, neg, f.MinExp(), sig))
  {
    hide Pow2, Shl, Low, HexOf, Make, ExponentText, Rounded, ParseHex, ParseExponent, BitLength, Decimal;
    SubnormalFits(f, sig);
    LengthBounds(sig);
    var p := BitLength(sig) - 1;
    var y, exp := SubnormalFraction(f, sig), f.MinExp() - (f.sigBits - 1 - p);
    var e := ExponentText(exp);
    AfterP(e);
    var digits := "1." + HexOf(y, f.Nybbles());
    assert FiniteText(f, f.MinExp(), sig) == "0x" + digits + "p" + e;
    assert digits + "p" + e == digits + ("p" + e);
    if y == 0 {
      NoFraction(f, p, sig);
      NoDigits(f, "p" + e);
      HexParsed(f, s, digits, e, Scan(1, 0, 4, 0, true));
      ExponentRead(f, neg, 1, 0, exp);
      Sixteen();
      ShlZero(4 * f.Nybbles());
      SubnormalExact(f, sig, p, 0, 0);
    } else {
      var n, d, bits := FractionScanned(f, y, "p" + e);
      var digitBits: int := 4 * n;
      var x: int := -digitBits;
      HexParsed(f, s, digits, e, Scan(Pow2(4 * n) + d, 0, bits, x, true));
      ExponentRead(f, neg, Pow2(4 * n) + d, x, exp);
      SubnormalExact(f, sig, p, n, d);
    }
  }

  lemma NoFraction(f: Format, p: nat, sig: nat)
    requires p <= 4 * f.Nybbles() && sig >= Pow2(p) && Shl(sig - Pow2(p), 4 * f.Nybbles() - p) == 0
    ensures sig == Pow2(p) && HexOf(0, f.Nybbles()) == ""
  {
    hide Pow2, Shl;
    if sig > Pow2(p) { ShlPositive(sig - Pow2(p), 4 * f.Nybbles() - p); }
  }

  lemma NoDigits(f: Format, tail: string)
    requires Stops(tail)
    ensures ScanDigits(f, "1." + HexOf(0, f.Nybbles()) + tail, START) == (Scan(1, 0, 4, 0, true), tail)
  {
    assert "1." + HexOf(0, f.Nybbles()) + tail == "1." + tail;
    OneDot(f, tail);
    ScanStops(f, tail, Scan(1, 0, 4, 0, true));
  }

  lemma ZeroRead(f: Format, neg: bool, s: string)
    requires Unsigned(s) == "0x0p+0" && neg == Negative(s)
    ensures ParseHex(f, s) == Some(Make(f, neg, f.MinExp(), 0))
  {
    AfterP("+0");
    ZeroOnly(f, "p+0");
    assert "0x0p+0" == "0x" + "0" + "p" + "+0" && "0" + "p" + "+0" == "0" + "p+0" && "p" + "+0" == "p+0";
    HexParsed(f, s, "0", "+0", Scan(0, 4, 0, 0, false));
  }

  /** The digits of a payload. */
  lemma {:induction false} TagRead(f: Format, x: nat, tail: string)
    requires 0 < x < Pow2(f.sigBits)
    ensures ParseTag(f, HexNumber(x) + tail, 0) == ParseTag(f, tail, x)
  {
    hide HexChar, HexValue, Pow2;
    if x < 16 {
      CharRead(x);
      assert ([HexChar(x)] + tail)[1..] == tail;
    } else {
      var front, last := HexNumber(x / 16), [HexChar(x % 16)] + tail;
      assert HexNumber(x) + tail == front + last;
      TagRead(f, x / 16, last);
      CharRead(x % 16);
      assert last[1..] == tail;
    }
  }

  lemma NanRead(f: Format, neg: bool, s: string, sig: nat)
    requires 0 < sig < Pow2(f.sigBits) && neg == Negative(s)
    requires Unsigned(s) == if sig == f.QuietTag() then "nan" else "nan:0x" + HexNumber(sig)
    ensures ParseNan(f, s) == Some(Make(f, neg, f.MaxExp(), sig))
  {
    hide Make, HexNumber, Pow2;
    if sig != f.QuietTag() {
      var t := Unsigned(s);
      assert t[..3] == "nan" && t[3..][..3] == ":0x" && t[6..] == HexNumber(sig);
      TagRead(f, sig, "");
      assert HexNumber(sig) + "" == HexNumber(sig);
      assert ParseTag(f, "", sig) == Some(sig);
    }
  }

  lemma {:induction false} TagFits(f: Format, s: string, tag: nat)
    requires tag < Pow2(f.sigBits)
    ensures ParseTag(f, s, tag).Some? ==> 0 < ParseTag(f, s, tag).value < Pow2(f.sigBits)
  {
    hide Pow2, HexValue;
    if s != "" && HexValue(s[0]).Some? && tag * 16 + HexValue(s[0]).value < Pow2(f.sigBits) {
      TagFits(f, s[1..], tag * 16 + HexValue(s[0]).value);
    }
  }

  /** A payload that is accepted fits, and is not zero: what is made is a NaN. */
  lemma NanFits(f: Format, s: string) returns (tag: nat)
    requires Ieee(f)
    ensures ParseNan(f, s).Some? ==> tag > 0 && PartsFit(f, f.MaxExp(), tag) && ParseNan(f, s) == Some(Make(f, Negative(s), f.MaxExp(), tag))
  {
    hide Pow2, Make, ParseTag;
    var t := Unsigned(s);
    PowDouble(f.sigBits - 1);
    tag := f.QuietTag();
    if StartsWith(t, "nan") && |t| > 3 && StartsWith(t[3..], ":0x") {
      TagFits(f, t[6..], 0);
      if ParseTag(f, t[6..], 0).Some? { tag := ParseTag(f, t[6..], 0).value; }
    }
  }

  /** The fields of a pattern make the pattern. */
  lemma FieldsMake(f: Format, bits: nat)
    requires Ieee(f) && bits < Pow2(f.width)
    ensures Sign(f, bits) <= 1
    ensures Make(f, Sign(f, bits) != 0, ExpField(f, bits) - f.bias, SigField(f, bits)) == bits
    ensures f.MinExp() <= ExpField(f, bits) - f.bias <= f.MaxExp()
  {
    hide Pow2, Shl, Shr, Low;
    var b, k := f.sigBits, f.width - f.sigBits - 1;
    var upper := Shr(bits, b);
    Split(bits, b);
    Split(upper, k);
    ShlSum(Shl(Shr(upper, k), k), Low(upper, k), b);
    ShlAdd(Shr(upper, k), k, b);
    ShlLess(Low(upper, k), k, b);
    Parts(bits, Shr(upper, k), Shl(Low(upper, k), b) + Low(bits, b), f.width - 1);
    ShrLess(bits, 1, f.width - 1);
    Sixteen();
    ShlOfPow(0, f.width - 1);
    ShlZero(f.width - 1);
    FieldSize(f, Low(upper, k));
    assert Shl(Low(upper, k), b) == Low(upper, k) * Pow2(b) by { ShlIs(Low(upper, k), b); }
  }

  lemma ShlIs(x: nat, n: nat)
    ensures Shl(x, n) == x * Pow2(n)
  {}

  lemma FieldSize(f: Format, x: nat)
    requires Ieee(f) && x < Pow2(f.width - f.sigBits - 1)
    ensures x <= 2 * f.bias + 1
  {
    assert Pow2(8) == 0x100 && Pow2(11) == 0x800;
  }

  /** Printing in hexadecimal and parsing what was printed, as the kind of literal
      it is, gives back every pattern: signed zeros, subnormals, infinities and
      every NaN payload. */
  lemma PrintParse(f: Format, bits: nat)
    requires Ieee(f) && bits < Pow2(f.width)
    ensures Parse(f, KindOf(f, bits), Printed(f, bits)) == Some(bits)
  {
    hide Pow2, Shr, Low, Make, FiniteText, HexNumber, ParseHex, ParseNan, ExpField, SigField, Sign;
    var neg, exp, sig, s := Sign(f, bits) != 0, ExpField(f, bits) - f.bias, SigField(f, bits), Printed(f, bits);
    FieldsMake(f, bits);
    var body := Body(f, exp, sig);
    BodyStarts(f, exp, sig);
    assert s == (if neg then "-" else "") + body;
    assert Unsigned(s) == body && Negative(s) == neg by { if neg { assert ("-" + body)[1..] == body; } else { assert "" + body == body; } }
    if exp == f.MaxExp() {
      if sig != 0 { NanRead(f, neg, s, sig); } else { assert "infinity"[..8] == "infinity"; }
    } else {
      FiniteRead(f, neg, s, exp, sig);
    }
  }

  lemma FiniteRead(f: Format, neg: bool, s: string, exp: int, sig: nat)
    requires Ieee(f) && sig < Pow2(f.sigBits) && f.MinExp() <= exp < f.MaxExp()
    requires Unsigned(s) == FiniteText(f, exp, sig) && neg == Negative(s)
    ensures ParseHex(f, s) == Some(Make(f, neg, exp, sig))
  {
    hide Pow2, Make, ParseHex, HexOf, ExponentText, BitLength;
    if exp > f.MinExp() {
      NormalRead(f, neg, s, exp, sig);
    } else if sig == 0 {
      ZeroRead(f, neg, s);
    } else {
      SubnormalRead(f, neg, s, sig);
    }
  }

  function Body(f: Format, exp: int, sig: nat): string
    requires sig < Pow2(f.sigBits)
  {
    if exp == f.MaxExp() then if sig == 0 then "infinity" else if sig == f.QuietTag() then "nan" else "nan:0x" + HexNumber(sig)
    else FiniteText(f, exp, sig)
  }

  lemma BodyStarts(f: Format, exp: int, sig: nat)
    requires sig < Pow2(f.sigBits)
    ensures var b := Body(f, exp, sig); b != "" && b[0] != '-' && b[0] != '+'
  {
    hide Pow2, HexNumber, HexOf, ExponentText, BitLength, SubnormalFraction, Shl;
  }
}
