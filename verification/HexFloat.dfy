/** The loops that print and parse hexadecimal floats, digit by digit, on
    patterns of the format's width. */
module HexFloat {
  import opened Wasm
  import opened Powers
  import opened Literal
  import opened LiteralProofs

  // ----- printing -----

  /** The k digits of x, with zeros in front. */
  function HexFixed(x: nat, k: nat): string
    requires x < Pow2(4 * k)
    decreases k
  {
    if k == 0 then ""
    else
      DigitAndRest(x, k);
      [HexChar(Shr(x, 4 * k - 4))] + HexFixed(Low(x, 4 * k - 4), k - 1)
  }

  lemma DigitAndRest(x: nat, k: nat)
    requires x < Pow2(4 * k) && k > 0
    ensures Shr(x, 4 * k - 4) < 16 && Low(x, 4 * k - 4) < Pow2(4 * (k - 1))
  {
    hide Pow2, Shr, Low;
    ShrLess(x, 4, 4 * k - 4);
    Split(x, 4 * k - 4);
    Sixteen();
  }

  lemma {:induction false} FixedSnoc(x: nat, k: nat)
    requires k > 0 && x < Pow2(4 * k)
    ensures x / 16 < Pow2(4 * (k - 1)) && HexFixed(x, k) == HexFixed(x / 16, k - 1) + [HexChar(x % 16)]
    decreases k
  {
    hide Pow2, Shr, Low, HexChar;
    Sixteen();
    PowAdd(4, 4 * k - 4);
    DigitAndRest(x, k);
    var c, r := Shr(x, 4 * k - 4), Low(x, 4 * k - 4);
    Split(x, 4 * k - 4);
    if k == 1 {
      ShlZero(c);
      assert HexFixed(x, 1) == [HexChar(c)] + HexFixed(r, 0);
    } else {
      FixedSnoc(r, k - 1);
      UpperDigit(x, c, r, k);
    }
  }

  lemma UpperDigit(x: nat, c: nat, r: nat, k: nat)
    requires k > 1 && x == Shl(c, 4 * k - 4) + r && r < Pow2(4 * k - 4)
    ensures x % 16 == r % 16 && r / 16 < Pow2(4 * k - 8)
    ensures Shr(x / 16, 4 * k - 8) == c && Low(x / 16, 4 * k - 8) == r / 16
  {
    hide Pow2, Shr, Low, Shl;
    ShlAdd(c, 4 * k - 8, 4);
    SixteenTimes(Shl(c, 4 * k - 8));
    PowAdd(4 * k - 8, 4);
    Sixteen();
    Parts(x / 16, c, r / 16, 4 * k - 8);
  }

  /** Without leading zeros the digits are those of the number. */
  lemma {:induction false} FixedIsNumber(x: nat, k: nat)
    requires k > 0 && x < Pow2(4 * k) && (k > 1 ==> Pow2(4 * k - 4) <= x)
    ensures HexFixed(x, k) == HexNumber(x)
    decreases k
  {
    hide Pow2, Shr, Low, HexChar;
    Sixteen();
    FixedSnoc(x, k);
    if k == 1 {
      assert HexFixed(x / 16, 0) == "";
    } else {
      PowAdd(4, 4 * k - 8);
      PowMore(0, 4 * k - 8);
      FixedIsNumber(x / 16, k - 1);
    }
  }

  /** One more digit has left the pattern: what remains of x stays at its top. */
  lemma Shifted(f: Format, x: nat, k: nat, sig: nat)
    requires 0 < k && 4 * k <= f.width && x < Pow2(4 * k) && sig == Shl(x, f.width - 4 * k)
    ensures Shr(sig, f.width - 4) == Shr(x, 4 * k - 4) < 16
    ensures Low(Shl(sig, 4), f.width) == Shl(Low(x, 4 * k - 4), f.width - 4 * k + 4)
  {
    hide Pow2, Shl, Shr, Low;
    var c, r, n := Shr(x, 4 * k - 4), Low(x, 4 * k - 4), f.width - 4 * k;
    Split(x, 4 * k - 4);
    DigitAndRest(x, k);
    ShlSum(Shl(c, 4 * k - 4), r, n);
    ShlAdd(c, 4 * k - 4, n);
    ShlLess(r, 4 * k - 4, n);
    Parts(sig, c, Shl(r, n), f.width - 4);
    ShlSum(Shl(c, f.width - 4), Shl(r, n), 4);
    ShlAdd(c, f.width - 4, 4);
    ShlAdd(r, n, 4);
    ShlLess(r, 4 * k - 4, n + 4);
    Parts(Shl(sig, 4), c, Shl(r, n + 4), f.width);
  }

  /** The digits of the fraction, until nothing is left of it. */
  method WriteFraction(f: Format, sig: nat, ghost x: nat, ghost k: nat) returns (p: string)
    requires f.width >= 4 && 4 * k <= f.width && x < Pow2(4 * k) && sig == Shl(x, f.width - 4 * k)
    ensures p == HexOf(x, k)
  {
    hide Pow2, Shl, Shr, Low, HexChar;
    p := "";
    var rest: nat := sig;
    ghost var y: nat, j: nat := x, k;
    if sig == 0 { ShlNonzero(x, f.width - 4 * k); }
    while rest != 0
      invariant j <= k && y < Pow2(4 * j) && rest == Shl(y, f.width - 4 * j)
      invariant p + HexOf(y, j) == HexOf(x, k)
      decreases j
    {
      if y == 0 { ShlZero(f.width - 4 * j); }
      TopDigit(y, j);
      Shifted(f, y, j, rest);
      var nybble := Shr(rest, f.width - 4);
      p := p + [HexChar(nybble)];
      rest := Low(Shl(rest, 4), f.width);
      y, j := Low(y, 4 * j - 4), j - 1;
    }
    ShlNonzero(y, f.width - 4 * j);
  }

  lemma ShlNonzero(x: nat, n: nat)
    ensures Shl(x, n) == 0 ==> x == 0
  {
    ShlGrows(x, n);
  }

  /** The payload of a NaN: leading zeros are skipped, the rest is printed. */
  method WriteTag(f: Format, tag: nat) returns (p: string)
    requires Ieee(f) && 0 < tag < Pow2(f.sigBits)
    ensures p == HexNumber(tag)
  {
    hide Pow2, Shl, Shr, Low, HexChar, HexNumber;
    var numNybbles := f.width / 4;
    var sig := tag;
    ShlZero(tag);
    PowMore(f.sigBits, f.width);
    while Shr(sig, f.width - 4) == 0
      invariant 0 < numNybbles <= f.width / 4 && tag < Pow2(4 * numNybbles) && sig == Shl(tag, f.width - 4 * numNybbles)
      decreases numNybbles
    {
      Shifted(f, tag, numNybbles, sig);
      Split(tag, 4 * numNybbles - 4);
      ShlZero(4 * numNybbles - 4);
      sig := Low(Shl(sig, 4), f.width);
      numNybbles := numNybbles - 1;
      NoneLeft(tag, numNybbles);
    }
    Shifted(f, tag, numNybbles, sig);
    TopNonzero(tag, numNybbles);
    FixedIsNumber(tag, numNybbles);
    p := WriteNybbles(f, sig, numNybbles, tag);
  }

  lemma NoneLeft(x: nat, k: nat)
    requires 0 < x < Pow2(4 * k)
    ensures k > 0
  {}

  lemma TopNonzero(x: nat, k: nat)
    requires k > 0 && Shr(x, 4 * k - 4) != 0
    ensures Pow2(4 * k - 4) <= x
  {
    hide Pow2, Shr, Shl, Low;
    Split(x, 4 * k - 4);
    ShlMonotone(1, Shr(x, 4 * k - 4), 4 * k - 4);
    ShlOfPow(0, 4 * k - 4);
    Sixteen();
  }

  method WriteNybbles(f: Format, sig: nat, numNybbles: nat, ghost x: nat) returns (p: string)
    requires f.width >= 4 && 4 * numNybbles <= f.width && x < Pow2(4 * numNybbles) && sig == Shl(x, f.width - 4 * numNybbles)
    ensures p == HexFixed(x, numNybbles)
  {
    hide Pow2, Shl, Shr, Low, HexChar;
    p := "";
    var rest: nat, left: nat := sig, numNybbles;
    ghost var y: nat := x;
    while left != 0
      invariant left <= numNybbles && y < Pow2(4 * left) && rest == Shl(y, f.width - 4 * left)
      invariant p + HexFixed(y, left) == HexFixed(x, numNybbles)
      decreases left
    {
      Shifted(f, y, left, rest);
      DigitAndRest(y, left);
      var nybble := Shr(rest, f.width - 4);
      p := p + [HexChar(nybble)];
      rest := Low(Shl(rest, 4), f.width);
      y := Low(y, 4 * left - 4);
      left := left - 1;
    }
  }

  /** At most four digits; the first of four is a one. */
  method WriteExponent(exp: int) returns (p: string)
    requires -2000 < exp < 2000
    ensures p == ExponentText(exp)
  {
    hide DecChar;
    var e := exp;
    if exp < 0 {
      p := "-";
      e := 0 - exp;
    } else {
      p := "+";
    }
    ghost var sign := p;
    if e >= 1000 { p := p + [DecChar(1)]; }
    if e >= 100 { p := p + [DecChar(e / 100 % 10)]; }
    if e >= 10 { p := p + [DecChar(e / 10 % 10)]; }
    p := p + [DecChar(e % 10)];
    DecimalDigits(e);
    assert p == sign + Decimal(e);
  }

  lemma DecimalDigits(e: nat)
    requires e < 2000
    ensures Decimal(e) == (if e >= 1000 then [DecChar(1)] else []) + (if e >= 100 then [DecChar(e / 100 % 10)] else [])
      + (if e >= 10 then [DecChar(e / 10 % 10)] else []) + [DecChar(e % 10)]
  {
    hide DecChar;
    var a, b, c := e / 10, e / 100, e / 1000;
    assert a / 10 == b && b / 10 == c && a % 10 == e / 10 % 10;
    if e >= 10 {
      assert Decimal(e) == Decimal(a) + [DecChar(e % 10)];
      if e >= 100 {
        assert Decimal(a) == Decimal(b) + [DecChar(a % 10)];
        if e >= 1000 { assert c == 1 && Decimal(b) == Decimal(c) + [DecChar(b % 10)]; }
      }
    }
  }

  /** A subnormal significand moves up until its leading one has left. */
  lemma LeadingOne(f: Format, sig: nat)
    requires Ieee(f) && 0 < sig < Pow2(f.sigBits)
    ensures 0 < BitLength(sig) <= f.sigBits
    ensures f.width - BitLength(Shl(sig, f.width - f.sigBits)) == f.sigBits - BitLength(sig) < f.width - 1
    ensures Low(Shl(Shl(sig, f.width - f.sigBits), f.sigBits - BitLength(sig) + 1), f.width)
      == Shl(SubnormalFraction(f, sig), f.width - 4 * f.Nybbles())
  {
    hide Pow2, Shl, Low, BitLength;
    SubnormalFits(f, sig);
    LengthBounds(sig);
    var p, wide := BitLength(sig) - 1, Shl(sig, f.width - f.sigBits);
    WideLength(sig, f.width - f.sigBits);
    ShlAdd(sig, f.width - f.sigBits, f.sigBits - p);
    PowDouble(p);
    var r := sig - Pow2(p);
    ShlSum(Pow2(p), r, f.width - p);
    ShlOfPow(p, f.width - p);
    ShlLess(r, p, f.width - p);
    ShlOfPow(0, f.width);
    Sixteen();
    Parts(Shl(sig, f.width - p), 1, Shl(r, f.width - p), f.width);
    ShlAdd(r, 4 * f.Nybbles() - p, f.width - 4 * f.Nybbles());
  }

  lemma {:induction false} WideLength(x: nat, n: nat)
    requires x > 0
    ensures BitLength(Shl(x, n)) == BitLength(x) + n
  {
    hide Pow2, Shl, BitLength;
    var len := BitLength(x);
    LengthBounds(x);
    ShlMonotone(Pow2(len - 1), x, n);
    ShlOfPow(len - 1, n);
    ShlLess(x, len, n);
    ShlPositive(x, n);
    LengthBounds(Shl(x, n));
    var m := BitLength(Shl(x, n));
    if m > len + n { PowMore(len + n, m - 1); }
    if m < len + n { PowMore(m, len + n - 1); }
  }

  method WriteFinite(f: Format, exp: int, sig: nat) returns (p: string)
    requires Ieee(f) && sig < Pow2(f.sigBits) && f.MinExp() <= exp < f.MaxExp()
    ensures p == FiniteText(f, exp, sig)
  {
    hide Pow2, Shl, Low, HexOf, ExponentText, BitLength;
    var isZero := sig == 0 && exp == f.MinExp();
    p := "0x" + (if isZero then "0" else "1");
    var e := exp;
    // shift sig up so that its top digit is at the top of the pattern
    var wide := Shl(sig, f.width - f.sigBits);
    if sig == 0 { ShlZero(f.width - f.sigBits); } else { ShlPositive(sig, f.width - f.sigBits); }
    if wide != 0 {
      ghost var x := Shl(sig, f.Pad());
      NormalFits(f, sig);
      ShlAdd(sig, f.Pad(), f.width - 4 * f.Nybbles());
      if exp == f.MinExp() {
        LeadingOne(f, sig);
        SubnormalFits(f, sig);
        x := SubnormalFraction(f, sig);
        var leadingZeroes := f.width - BitLength(wide);
        wide := if leadingZeroes < f.width - 1 then Low(Shl(wide, leadingZeroes + 1), f.width) else 0;
        e := e - leadingZeroes;
      }
      p := p + ".";
      var digits := WriteFraction(f, wide, x, f.Nybbles());
      assert p + digits == "0x1." + digits;
      p := p + digits;
    }
    p := p + "p";
    if isZero {
      p := p + "+0";
    } else {
      var exponent := WriteExponent(e);
      p := p + exponent;
    }
  }

  /** wasm_write_float_hex and wasm_write_double_hex, into a buffer that is large
      enough. */
  method WriteHex(f: Format, bits: nat) returns (p: string)
    requires Ieee(f) && bits < Pow2(f.width)
    ensures p == Printed(f, bits)
  {
    hide Pow2, HexNumber, FiniteText, Sign, ExpField, SigField;
    FieldsMake(f, bits);
    var isNeg, exp, sig := Sign(f, bits) != 0, ExpField(f, bits) - f.bias, SigField(f, bits);
    p := if isNeg then "-" else "";
    if exp == f.MaxExp() {
      if sig == 0 {
        p := p + "infinity";
      } else {
        ghost var sign := p;
        p := p + "nan";
        if sig != f.QuietTag() {
          p := p + ":0x";
          var digits := WriteTag(f, sig);
          p := p + digits;
          assert p == sign + ("nan:0x" + digits);
        }
      }
    } else {
      var finite := WriteFinite(f, exp, sig);
      p := p + finite;
    }
  }

  // ----- parsing -----

  /** The loop over the significand. */
  method ReadSignificand(f: Format, s: string) returns (st: Scan, i: nat)
    ensures i <= |s| && ScanDigits(f, s, START) == (st, s[i..])
  {
    hide HexValue, Shl, Low;
    var significand: nat, shift: nat, bits: nat, exponent: int, seenDot := 0, 0, 0, 0, false;
    i := 0;
    assert s[0..] == s;
    while i < |s| && (s[i] == '.' || HexValue(s[i]).Some?)
      invariant 0 <= i <= |s|
      invariant ScanDigits(f, s[i..], Scan(significand, shift, bits, exponent, seenDot)) == ScanDigits(f, s, START)
    {
      ScanStep(f, s[i..], Scan(significand, shift, bits, exponent, seenDot));
      assert s[i..][0] == s[i] && s[i..][1..] == s[i + 1..];
      if s[i] == '.' {
        if significand != 0 { exponent := exponent + shift; }
        shift, seenDot := 0, true;
      } else {
        var digit := HexValue(s[i]).value;
        shift := shift + 4;
        if digit != 0 && (significand == 0 || bits + shift <= f.sigBits + 1 + 4) {
          if significand != 0 { significand := Low(Shl(significand, shift), f.width); }
          if seenDot { exponent := exponent - shift; }
          significand := significand + digit;
          shift := 0;
          bits := bits + 4;
        }
      }
      i := i + 1;
    }
    st := Scan(significand, shift, bits, exponent, seenDot);
    ScanEnds(f, s[i..], st);
  }

  lemma ScanStep(f: Format, s: string, st: Scan)
    requires s != "" && (s[0] == '.' || HexValue(s[0]).Some?)
    ensures ScanDigits(f, s, st)
      == ScanDigits(f, s[1..], if s[0] == '.' then ScanDot(st) else ScanDigit(f, st, HexValue(s[0]).value))
  {}

  lemma ScanEnds(f: Format, s: string, st: Scan)
    requires s == "" || (s[0] != '.' && HexValue(s[0]).None?)
    ensures ScanDigits(f, s, st) == (st, s)
  {}

  /** The loop over the digits of the exponent; None where the source asserts. */
  method ReadExponent(s: string, add: int, max: int) returns (r: Option<nat>)
    ensures r == ScanExponent(s, 0, add, max)
  {
    var exponent: nat, i := 0, 0;
    assert s[0..] == s;
    while i < |s|
      invariant 0 <= i <= |s| && ScanExponent(s[i..], exponent, add, max) == ScanExponent(s, 0, add, max)
    {
      assert s[i..][0] == s[i] && s[i..][1..] == s[i + 1..];
      if !('0' <= s[i] <= '9') { return None; }
      exponent := exponent * 10 + (s[i] as int - '0' as int);
      if exponent + add >= max { return Some(exponent); }
      i := i + 1;
    }
    r := Some(exponent);
  }

  /** The loop over the digits of a payload. */
  method ReadTag(f: Format, s: string) returns (r: Option<nat>)
    ensures r == ParseTag(f, s, 0)
  {
    hide HexValue, Pow2;
    var tag: nat, i := 0, 0;
    assert s[0..] == s;
    while i < |s|
      invariant 0 <= i <= |s| && ParseTag(f, s[i..], tag) == ParseTag(f, s, 0)
    {
      assert s[i..][0] == s[i] && s[i..][1..] == s[i + 1..];
      var digit := HexValue(s[i]);
      if digit.None? { return None; }
      tag := tag * 16 + digit.value;
      if tag >= Pow2(f.sigBits) { return None; }
      i := i + 1;
    }
    r := if tag == 0 then None else Some(tag);
  }

  /** wasm_parse_float and wasm_parse_double. */
  method ReadLiteral(f: Format, kind: Kind, s: string) returns (r: Option<int>)
    ensures r == Parse(f, kind, s)
  {
    hide Make, Composed, ScanDigits, ScanExponent, ParseTag;
    var isNeg, t := Negative(s), Unsigned(s);
    if kind == Infinity {
      r := if StartsWith(t, "infinity") then Some(Make(f, isNeg, f.MaxExp(), 0)) else None;
    } else if kind == HexFloat {
      r := None;
      if StartsWith(t, "0x") {
        var st, i := ReadSignificand(f, t[2..]);
        var rest := t[2..][i..];
        if rest != "" && rest[0] == 'p' {
          if st.significand == 0 {
            r := Some(Make(f, isNeg, f.MinExp(), 0));
          } else {
            r := ReadScaled(f, isNeg, st.significand, if st.seenDot then st.exponent else st.exponent + st.shift, rest[1..]);
          }
        }
      }
    } else {
      r := None;
      if StartsWith(t, "nan") {
        if |t| == 3 {
          r := Some(Make(f, isNeg, f.MaxExp(), f.QuietTag()));
        } else if StartsWith(t[3..], ":0x") {
          var tag := ReadTag(f, t[6..]);
          if tag.Some? { r := Some(Make(f, isNeg, f.MaxExp(), tag.value)); }
        }
      }
    }
  }

  method ReadScaled(f: Format, isNeg: bool, significand: nat, significandExponent: int, s: string) returns (r: Option<int>)
    requires significand > 0
    ensures r == ParseExponent(f, isNeg, significand, significandExponent, s)
  {
    hide Make, Rounded, ScanExponent;
    r := None;
    if s != "" {
      var exponentIsNeg := s[0] == '-';
      var add := if exponentIsNeg then -significandExponent else if s[0] == '+' then significandExponent else 0;
      var e := ReadExponent(Unsigned(s), add, f.MaxExp());
      if e.Some? {
        var parts := Rounded(f, significand, (if exponentIsNeg then 0 - e.value else e.value) + significandExponent);
        if PartsFit(f, parts.0, parts.1) { r := Some(Make(f, isNeg, parts.0, parts.1)); }
      }
    }
  }
}
