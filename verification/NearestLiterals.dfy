/** Which float a hexadecimal literal is read as, compared with the number that it
    says: its digits and its exponent (src/literal.c:227-363, 564-693). */
module NearestLiterals {
  import opened Wasm
  import opened Powers
  import opened Literal
  import opened LiteralProofs
  import opened HexDigits
  import D = HexDigits
  import opened Nearest
  import opened DroppedDigits

  // ----- the exponent -----

  /** The digits of a negative exponent are read to the last. Reading stops once the
      exponent so far is too large for a positive one, whatever its sign. */
  predicate InFull(f: Format, x: int, e: int) { e <= -10 ==> -e / 10 - x < f.MaxExp() }

  /** The text of an exponent, with a sign or without; without one the digits are
      measured alone, and must be read to the last. */
  predicate Says(f: Format, text: string, x: int, e: int) {
    (text == ExponentText(e) && InFull(f, x, e)) || (e >= 0 && text == Decimal(e) && e / 10 < f.MaxExp())
  }

  /** A positive exponent that is cut short is too large as it is. */
  lemma {:induction false} ScanCut(e: nat, tail: string, add: int, max: int) returns (r: nat)
    requires e / 10 + add >= max
    ensures ScanExponent(Decimal(e) + tail, 0, add, max) == Some(r) && r + add >= max && if e < 10 then r == e else 0 < 10 * r <= e
    decreases e
  {
    hide DecChar;
    if e < 10 {
      r := e;
      DecRead(e);
      assert ([DecChar(e)] + tail)[1..] == tail;
    } else {
      var front, last := Decimal(e / 10), [DecChar(e % 10)] + tail;
      assert Decimal(e) + tail == front + last;
      if e / 10 / 10 + add >= max {
        r := ScanCut(e / 10, last, add, max);
      } else {
        r := e / 10;
        DecimalScanned(e / 10, last, add, max);
      }
    }
  }

  /** Read in full or not, the exponent is right, unless it is negative and cut short. */
  lemma ExponentMeant(f: Format, neg: bool, significand: nat, x: int, text: string, e: int)
    requires significand > 0 && Says(f, text, x, e)
    ensures ParseExponent(f, neg, significand, x, text) == Composed(f, neg, significand, e + x)
  {
    hide Decimal, ScanExponent, Pow2, Make, RoundedNormal, Subnormal, BitLength;
    if text != ExponentText(e) || !InFull(f, x, e) {
      DecimalStarts(e);
      DecimalScanned(e, "", 0, f.MaxExp());
      assert Decimal(e) + "" == Decimal(e);
      EndScanned(e, 0, f.MaxExp());
    } else if e < 0 && -e / 10 - x >= f.MaxExp() {
      var r := ScanCut(-e, "", 0 - x, f.MaxExp());
      assert text[1..] == Decimal(-e);
      DecimalStarts(-e);
      assert Decimal(-e) + "" == Decimal(-e);
    } else if e < 0 || e / 10 + x < f.MaxExp() {
      ExponentRead(f, neg, significand, x, e);
    } else {
      var r := ScanCut(e, "", x, f.MaxExp());
      assert text[1..] == Decimal(e);
      DecimalStarts(e);
      assert Decimal(e) + "" == Decimal(e);
      LengthBounds(significand);
    }
  }

  // ----- the digits -----

  /** The significand fits its type. */
  lemma {:induction false} ScanFits(f: Format, ds: seq<nat>, st: Scan)
    requires Ieee(f) && Digits(ds) && st.significand < Pow2(f.width)
    ensures ScanAll(f, ds, st).significand < Pow2(f.width)
    decreases |ds|
  {
    hide Pow2, Shl, Low, ScanDigit;
    if ds != [] {
      DigitFits(f, ds[0], st);
      ScanFits(f, ds[1..], ScanDigit(f, st, ds[0]));
    }
  }

  lemma DigitFits(f: Format, d: nat, st: Scan)
    requires Ieee(f) && d < 16 && st.significand < Pow2(f.width)
    ensures ScanDigit(f, st, d).significand < Pow2(f.width)
  {
    hide Pow2, Shl, Low;
    PowMore(4, f.width);
    Sixteen();
    if Kept(f, st, d) && st.significand != 0 { LowSixteens(Shl(st.significand, st.shift), f.width, st); }
  }

  /** The low bits of a multiple of sixteen are a multiple of sixteen. */
  lemma LowSixteens(a: nat, w: nat, st: Scan)
    requires w >= 4 && a == Shl(st.significand, st.shift)
    ensures Low(Shl(st.significand, st.shift + 4), w) + 16 <= Pow2(w)
  {
    hide Pow2, Shl, Low, Shr;
    ShlAdd(st.significand, st.shift, 4);
    var q, r := Shr(a, w - 4), Low(a, w - 4);
    Split(a, w - 4);
    ShlSum(Shl(q, w - 4), r, 4);
    ShlAdd(q, w - 4, 4);
    ShlLess(r, w - 4, 4);
    Sixteen();
    Parts(Shl(a, 4), q, Shl(r, 4), w);
  }

  // ----- the number a literal says -----

  /** The sign is a bit of its own. */
  lemma SignApart(f: Format, significand: nat, exponent: int)
    requires significand > 0
    ensures Compose(f, true, significand, exponent) == Pow2(TopBit(f)) + Compose(f, false, significand, exponent)
  {
    hide Pow2, Shl, ShiftRound, BitLength, Subnormal;
  }

  /** The pattern of a number, with its sign. */
  function Signed(f: Format, neg: bool, p: nat): nat { (if neg then Pow2(TopBit(f)) else 0) + p }

  /** What is read of significand and exponent: the float that is composed of them, or
      nothing where an assertion fails. */
  lemma ComposedRead(f: Format, s: string, significand: nat, exponent: int) returns (p: nat)
    requires Ieee(f) && 0 < significand < Pow2(f.width)
    ensures p == Compose(f, false, significand, exponent)
    ensures Composed(f, Negative(s), significand, exponent)
      == if Overflows(f, significand, exponent) then None else Some(Signed(f, Negative(s), p))
  {
    hide Pow2, Compose, Composed, Overflows, RoundOk, IsNearest;
    ComposeNearest(f, significand, exponent);
    ComposedWhen(f, Negative(s), significand, exponent);
    SignApart(f, significand, exponent);
    p := Compose(f, false, significand, exponent);
  }

  /** A literal with a dot that is read to within a unit of its last digit kept, and
      whose exponent is not cut short, becomes the float nearest to what it says
      exactly if the shifts that rounding makes are in order and the digits that are
      dropped do not matter. */
  lemma LiteralNearest(f: Format, s: string, ds: seq<nat>, fs: seq<nat>, text: string, e: int) returns (st: Scan, p: nat)
    requires Ieee(f) && Digits(ds) && Digits(fs) && Unsigned(s) == "0x" + (Chars(ds) + "." + Chars(fs)) + "p" + text
    requires NoneLost(f, ds, START) && NoneLost(f, fs, ScanDot(ScanAll(f, ds, START))) && DotRead(f, ds, fs)
    requires D.Value(ds + fs) > 0 && Says(f, text, ScanAll(f, fs, ScanDot(ScanAll(f, ds, START))).exponent, e)
    ensures st == ScanAll(f, fs, ScanDot(ScanAll(f, ds, START))) && st.significand > 0 && p == Compose(f, false, st.significand, st.exponent + e)
    ensures Parse(f, HexFloat, s) == if Overflows(f, st.significand, st.exponent + e) then None else Some(Signed(f, Negative(s), p))
    ensures var unit := st.exponent + 4 * |fs|;
      && unit >= 0 && Shl(st.significand, unit) <= D.Value(ds + fs)
      && (IsNearest(f, D.Value(ds + fs), e - 4 * |fs|, p) <==>
          RoundOk(f, st.significand, st.exponent + e)
          && TailOk(f, st.significand, st.exponent + e, unit, D.Value(ds + fs) - Shl(st.significand, unit)))
  {
    hide Pow2, Shl, NoneLost, DotRead, DotExact, D.Value, ScanAll, ScanDigits, Compose, Composed, RoundOk, TailOk, Overflows, IsNearest, ParseExponent, Chars, Says;
    var digits := Chars(ds) + "." + Chars(fs);
    AfterP(text);
    st := FractionWithin(f, ds, fs, "p" + text);
    assert digits + ("p" + text) == digits + "p" + text;
    HexParsed(f, s, digits, text, st);
    ScanFits(f, ds, START);
    ScanFits(f, fs, ScanDot(ScanAll(f, ds, START)));
    ExponentMeant(f, Negative(s), st.significand, st.exponent, text, e);
    p := ComposedRead(f, s, st.significand, st.exponent + e);
    var unit := st.exponent + 4 * |fs|;
    TailBelow(st.significand, unit, D.Value(ds + fs));
    TailNearest(f, st.significand, st.exponent + e, unit, D.Value(ds + fs) - Shl(st.significand, unit));
  }

  lemma TailBelow(significand: nat, unit: nat, value: nat)
    requires Shl(significand, unit) <= value < Shl(significand + 1, unit)
    ensures value - Shl(significand, unit) < Pow2(unit) && Number(significand, unit, value - Shl(significand, unit)) == value
  {
    hide Pow2, Shl;
    ShlSum(significand, 1, unit);
    ShlOfPow(0, unit);
    Sixteen();
  }

  /** So does one without a dot of which no bit is lost. */
  lemma WholeNearest(f: Format, s: string, ds: seq<nat>, text: string, e: int) returns (st: Scan, p: nat)
    requires Ieee(f) && Digits(ds) && Unsigned(s) == "0x" + Chars(ds) + "p" + text
    requires NoneLost(f, ds, START) && D.Value(ds) > 0 && Says(f, text, ScanAll(f, ds, START).shift, e)
    ensures st == ScanAll(f, ds, START) && st.significand > 0 && p == Compose(f, false, st.significand, st.shift + e)
    ensures Parse(f, HexFloat, s) == if Overflows(f, st.significand, st.shift + e) then None else Some(Signed(f, Negative(s), p))
    ensures Shl(st.significand, st.shift) <= D.Value(ds)
    ensures IsNearest(f, D.Value(ds), e, p) <==>
      RoundOk(f, st.significand, st.shift + e)
      && TailOk(f, st.significand, st.shift + e, st.shift, D.Value(ds) - Shl(st.significand, st.shift))
  {
    hide Pow2, Shl, NoneLost, D.Value, ScanAll, ScanDigits, Compose, Composed, RoundOk, TailOk, Overflows, IsNearest, ParseExponent, Chars, Says;
    AfterP(text);
    st := WholeRead(f, ds, "p" + text);
    assert Chars(ds) + ("p" + text) == Chars(ds) + "p" + text;
    HexParsed(f, s, Chars(ds), text, st);
    ScanFits(f, ds, START);
    ExponentMeant(f, Negative(s), st.significand, st.shift, text, e);
    p := ComposedRead(f, s, st.significand, st.shift + e);
    TailBelow(st.significand, st.shift, D.Value(ds));
    TailNearest(f, st.significand, st.shift + e, st.shift, D.Value(ds) - Shl(st.significand, st.shift));
  }

  // ----- a digit that matters and an assertion that fails -----

  const TAIL: seq<nat> := [0, 0, 0, 0, 0, 1, 0, 0, 0, 0, 0, 1]

  lemma TailSteps()
    ensures ScanDigit(FLOAT, START, 1) == Scan(1, 0, 4, 0, false)
    ensures var st := Scan(1, 20, 4, 0, true);
      ScanDigit(FLOAT, st, 1) == Scan(0x100_0001, 0, 8, -24, true) && Shl(1, 24) < Pow2(32)
    ensures var st := Scan(0x100_0001, 20, 8, -24, true); ScanDigit(FLOAT, st, 1) == st.(shift := 24) && !Kept(FLOAT, st, 1)
  {
    SmallPowers();
    hide Pow2;
  }

  lemma OneScanned()
    ensures ScanAll(FLOAT, [1], START) == Scan(1, 0, 4, 0, false) && NoneLost(FLOAT, [1], START)
  {
    TailSteps();
    hide Pow2, Low, ScanAll, ScanDigit;
    NextDigit(FLOAT, [1], START);
    Ended(FLOAT, [1][1..], Scan(1, 0, 4, 0, false));
    ShlZero(4);
  }

  lemma TailScanned()
    ensures var dot := Scan(1, 0, 4, 0, true);
      ScanAll(FLOAT, TAIL, dot) == Scan(0x100_0001, 24, 8, -24, true) && NoneLost(FLOAT, TAIL, dot) && NonzeroDropped(FLOAT, TAIL, dot)
  {
    TailSteps();
    hide Pow2, Shl, Low, ScanAll, ScanDigit;
    SomeZeros(FLOAT, TAIL, 5, Scan(1, 0, 4, 0, true));
    NextDigit(FLOAT, TAIL[5..], Scan(1, 20, 4, 0, true));
    assert TAIL[5..][1..] == TAIL[6..];
    TailEnd();
  }

  lemma TailEnd()
    ensures var st := Scan(0x100_0001, 0, 8, -24, true);
      ScanAll(FLOAT, TAIL[6..], st) == st.(shift := 24) && NoneLost(FLOAT, TAIL[6..], st) && NonzeroDropped(FLOAT, TAIL[6..], st)
  {
    TailSteps();
    hide Pow2, Shl, Low, ScanAll, ScanDigit;
    var st := Scan(0x100_0001, 0, 8, -24, true);
    SomeZeros(FLOAT, TAIL[6..], 5, st);
    assert TAIL[6..][5..] == TAIL[11..] == [1];
    NextDigit(FLOAT, [1], st.(shift := 20));
    Ended(FLOAT, [1][1..], st.(shift := 24));
  }

  /** Half a unit is lost of 1 + 2^-24. */
  lemma TailComposed()
    ensures Compose(FLOAT, false, 0x100_0001, -24) == 0x3f80_0000 && !Overflows(FLOAT, 0x100_0001, -24)
    ensures forall tail: nat :: tail > 0 ==> !TailOk(FLOAT, 0x100_0001, -24, 24, tail)
  {
    SmallPowers();
    hide Pow2, BitLength;
    LengthOf(24, 1);
    Sixteen();
  }

  /** 1.000001000001 hexadecimal: the last digit is dropped, and without it the number
      lies half way between two floats, of which it becomes the lower. */
  lemma DigitDropped()
    ensures Parse(FLOAT, HexFloat, "0x1.000001000001p+0") == Some(0x3f80_0000)
    ensures !IsNearest(FLOAT, D.Value([1] + TAIL), -48, 0x3f80_0000)
  {
    OneScanned();
    TailScanned();
    TailComposed();
    hide Pow2, Shl, ScanAll, ScanDigits, Parse, Compose, RoundOk, TailOk, Overflows, IsNearest, Chars, D.Value, NoneLost, NonzeroDropped;
    var s, text := "0x1.000001000001p+0", "+0";
    assert s == "0x" + (Chars([1]) + "." + Chars(TAIL)) + "p" + text by { TailChars(); }
    assert s[0] == '0' && Unsigned(s) == s && Signed(FLOAT, Negative(s), 0x3f80_0000) == 0x3f80_0000;
    var exact := FractionWithin(FLOAT, [1], TAIL, "");
    assert text == ExponentText(0) by { assert Decimal(0) == "0"; }
    var st, p := LiteralNearest(FLOAT, s, [1], TAIL, text, 0);
  }

  lemma TailChars()
    ensures Chars([1]) == "1" && Chars(TAIL) == "000001000001"
  {
    assert HexChar(0) == '0' && HexChar(1) == '1';
  }

  const ONES: seq<nat> := [15, 15, 15, 15, 15, 15]

  lemma OnesSteps()
    ensures ScanDigit(FLOAT, Scan(0x1, 0, 4, 0, true), 15) == Scan(0x1f, 0, 8, -4, true) && Shl(0x1, 4) < Pow2(32)
    ensures ScanDigit(FLOAT, Scan(0x1f, 0, 8, -4, true), 15) == Scan(0x1ff, 0, 12, -8, true) && Shl(0x1f, 4) < Pow2(32)
    ensures ScanDigit(FLOAT, Scan(0x1ff, 0, 12, -8, true), 15) == Scan(0x1fff, 0, 16, -12, true) && Shl(0x1ff, 4) < Pow2(32)
    ensures ScanDigit(FLOAT, Scan(0x1fff, 0, 16, -12, true), 15) == Scan(0x1_ffff, 0, 20, -16, true) && Shl(0x1fff, 4) < Pow2(32)
    ensures ScanDigit(FLOAT, Scan(0x1_ffff, 0, 20, -16, true), 15) == Scan(0x1f_ffff, 0, 24, -20, true) && Shl(0x1_ffff, 4) < Pow2(32)
    ensures ScanDigit(FLOAT, Scan(0x1f_ffff, 0, 24, -20, true), 15) == Scan(0x1ff_ffff, 0, 28, -24, true) && Shl(0x1f_ffff, 4) < Pow2(32)
  {
    SmallPowers();
    hide Pow2;
  }

  /** One digit that is kept. */
  lemma OneStep(f: Format, ds: seq<nat>, st: Scan)
    requires ds != [] && Shl(st.significand, st.shift + 4) < Pow2(f.width)
    ensures ScanAll(f, ds, st) == ScanAll(f, ds[1..], ScanDigit(f, st, ds[0]))
    ensures NoneLost(f, ds, st) <==> NoneLost(f, ds[1..], ScanDigit(f, st, ds[0]))
  {
    hide Pow2, Shl, ScanDigit;
  }

  lemma OnesScanned()
    ensures var dot := Scan(1, 0, 4, 0, true);
      ScanAll(FLOAT, ONES, dot) == Scan(0x1ff_ffff, 0, 28, -24, true) && NoneLost(FLOAT, ONES, dot)
  {
    OnesSteps();
    hide Pow2, Shl, Low, ScanAll, ScanDigit, NoneLost;
    OneStep(FLOAT, ONES, Scan(0x1, 0, 4, 0, true));
    assert ONES[1..] == [15, 15, 15, 15, 15];
    OneStep(FLOAT, [15, 15, 15, 15, 15], Scan(0x1f, 0, 8, -4, true));
    assert [15, 15, 15, 15, 15][1..] == [15, 15, 15, 15];
    OneStep(FLOAT, [15, 15, 15, 15], Scan(0x1ff, 0, 12, -8, true));
    assert [15, 15, 15, 15][1..] == [15, 15, 15];
    OneStep(FLOAT, [15, 15, 15], Scan(0x1fff, 0, 16, -12, true));
    assert [15, 15, 15][1..] == [15, 15];
    OneStep(FLOAT, [15, 15], Scan(0x1_ffff, 0, 20, -16, true));
    assert [15, 15][1..] == [15];
    OneStep(FLOAT, [15], Scan(0x1f_ffff, 0, 24, -20, true));
    NoMore([15][1..], Scan(0x1ff_ffff, 0, 28, -24, true));
  }

  lemma NoMore(ds: seq<nat>, st: Scan)
    requires ds == []
    ensures ScanAll(FLOAT, ds, st) == st && NoneLost(FLOAT, ds, st)
  {}

  /** All bits are set, and the carry goes out of them. */
  lemma OnesComposed()
    ensures Compose(FLOAT, false, 0x1ff_ffff, -151) == 0x80_0000 && Overflows(FLOAT, 0x1ff_ffff, -151)
    ensures RoundOk(FLOAT, 0x1ff_ffff, -151) && TailOk(FLOAT, 0x1ff_ffff, -151, 0, 0)
  {
    SmallPowers();
    hide Pow2, BitLength;
    LengthOf(24, 0xff_ffff);
  }

  /** 1.ffffff * 2^-127 hexadecimal fails an assertion; where assertions are off it
      becomes the least normal float, which is right. */
  lemma AssertionFails()
    ensures Parse(FLOAT, HexFloat, "0x1.ffffffp-127") == None
    ensures Compose(FLOAT, false, 0x1ff_ffff, -151) == 0x80_0000 && IsNearest(FLOAT, D.Value([1] + ONES), -151, 0x80_0000)
  {
    OneScanned();
    OnesScanned();
    OnesComposed();
    OnesSpell();
    hide Pow2, Shl, ScanAll, ScanDigits, Parse, Compose, RoundOk, TailOk, Overflows, IsNearest, Chars, D.Value, NoneLost, NonzeroDropped;
    var s, text := "0x1.ffffffp-127", "-127";
    assert s == "0x" + (Chars([1]) + "." + Chars(ONES)) + "p" + text by { OnesChars(); }
    assert s[0] == '0' && Unsigned(s) == s;
    ShlZero(0x1ff_ffff);
    assert text == ExponentText(-127) by { assert Decimal(127) == "127"; }
    var st, p := LiteralNearest(FLOAT, s, [1], ONES, text, -127);
  }

  lemma OnesSpell()
    ensures D.Value([1] + ONES) == 0x1ff_ffff
  {
    OneScanned();
    OnesScanned();
    hide Pow2, Shl, ScanAll, ScanDigits, Chars, D.Value, NoneLost, NonzeroDropped;
    var within := FractionWithin(FLOAT, [1], ONES, "");
    ShlZero(0x1ff_ffff);
    ShlZero(0x200_0000);
  }

  lemma OnesChars()
    ensures Chars([1]) == "1" && Chars(ONES) == "ffffff"
  {
    assert HexChar(1) == '1' && HexChar(15) == 'f';
  }

  // ----- an exponent that is cut short -----

  /** Half of the least float, or less. */
  predicate NextToNothing(f: Format, significand: nat, exponent: int) {
    UnitExp(f, exponent) < 0 && significand <= Half(0 - UnitExp(f, exponent))
  }

  lemma ZeroNearest(f: Format, significand: nat, exponent: int)
    requires Ieee(f)
    requires significand > 0
    ensures IsNearest(f, significand, exponent, 0) <==> NextToNothing(f, significand, exponent)
  {
    hide Pow2, Shl, Val, Inf, IsNearest;
    var u := UnitExp(f, exponent);
    SmallVal(f, 0);
    ShlZero(Up(-u));
    ShlGrows(significand, Up(u));
    ShlZero(significand);
    ShlZero(1);
    ShlOfPow(0, Up(-u));
    Sixteen();
    if u < 0 { PowDouble(-u - 1); }
    if Shl(significand, Up(u)) <= Pow2(Up(-u)) {
      Between(f, significand, exponent, 0);
    } else {
      TooLow(f, significand, exponent, 1, 0);
    }
  }

  /** What a negative exponent makes that is cut short: it is right exactly if it is
      zero and the number is next to nothing; and that it is, if no digit stands
      behind a dot. */
  lemma CutShort(f: Format, neg: bool, significand: nat, x: int, e: int) returns (r: nat, p: nat)
    requires Ieee(f) && 0 < significand < Pow2(f.width) && e < 0 && !InFull(f, x, e)
    ensures 0 < 10 * r <= -e && p == Compose(f, false, significand, x - r)
    ensures ParseExponent(f, neg, significand, x, ExponentText(e))
      == if Overflows(f, significand, x - r) then None else Some(Signed(f, neg, p))
    ensures IsNearest(f, significand, x + e, p) <==> p == 0 && NextToNothing(f, significand, x + e)
    ensures x >= 0 ==> NextToNothing(f, significand, x + e)
  {
    hide Pow2, Shl, Decimal, ScanExponent, Compose, Composed, Overflows, IsNearest, BitLength, RoundOk;
    r := ScanCut(-e, "", 0 - x, f.MaxExp());
    var text := ExponentText(e);
    assert text[1..] == Decimal(-e);
    DecimalStarts(-e);
    assert Decimal(-e) + "" == Decimal(-e);
    SignApart(f, significand, x - r);
    ComposeNearest(f, significand, x - r);
    ComposedWhen(f, neg, significand, x - r);
    p := Compose(f, false, significand, x - r);
    ShortEnough(f, significand, BitLength(significand));
    HalfToTwice(f, significand, x - r);
    ZeroNearest(f, significand, x + e);
    if p > 0 { FarBelow(f, significand, x - r, x + e, p); }
    if x >= 0 { PowMore(f.width, -UnitExp(f, x + e) - 1); }
  }

  /** What an exponent without a sign makes that is cut short, being measured alone: it
      is right exactly if it is infinity, or zero and the number is next to nothing. */
  lemma CutUnsigned(f: Format, neg: bool, significand: nat, x: int, e: nat) returns (r: nat, p: nat)
    requires Ieee(f) && 0 < significand < Pow2(f.width) && e / 10 >= f.MaxExp()
    ensures 0 < 10 * r <= e && p == Compose(f, false, significand, x + r)
    ensures ParseExponent(f, neg, significand, x, Decimal(e))
      == if Overflows(f, significand, x + r) then None else Some(Signed(f, neg, p))
    ensures IsNearest(f, significand, x + e, p) <==> p == Inf(f) || (p == 0 && NextToNothing(f, significand, x + e))
  {
    hide Pow2, Shl, Val, Inf, Decimal, ScanExponent, Compose, Composed, Overflows, IsNearest, BitLength, RoundOk, NextToNothing;
    r := ScanCut(e, "", 0, f.MaxExp());
    DecimalStarts(e);
    assert Decimal(e) + "" == Decimal(e);
    SignApart(f, significand, x + r);
    ComposeNearest(f, significand, x + r);
    ComposedWhen(f, neg, significand, x + r);
    p := Compose(f, false, significand, x + r);
    ZeroNearest(f, significand, x + e);
    SmallVal(f, 0);
    if x + r + BitLength(significand) - 1 >= f.MaxExp() {
      LargeMade(f, significand, x + r);
      LargeNearest(f, significand, x + e);
    } else if p > 0 {
      HalfToTwice(f, significand, x + r);
      FarAbove(f, significand, x + r, x + e, p);
    }
  }

  /** A pattern of at most twice a number is not the nearest to four times as much or
      more, unless there is none above it. */
  lemma FarAbove(f: Format, significand: nat, low: int, high: int, p: nat)
    requires low + 2 <= high && 0 < p <= Inf(f)
    requires var u := UnitExp(f, low); Shl(Val(f, p), Up(-u)) <= 2 * Shl(significand, Up(u))
    ensures IsNearest(f, significand, high, p) <==> p == Inf(f)
  {
    hide Pow2, Shl, Val, Inf, IsNearest;
    var u, v := UnitExp(f, low), UnitExp(f, high);
    TwiceMore(significand, Val(f, p), u, v);
    if p == Inf(f) {
      AboveAll(f, significand, high);
    } else {
      NextTwice(f, p);
      ShlMonotone(Val(f, p + 1), Val(f, p) + Val(f, p), Up(-v));
      ShlSum(Val(f, p), Val(f, p), Up(-v));
      TooLow(f, significand, high, p + 1, p);
    }
  }

  lemma NextTwice(f: Format, p: nat)
    requires p > 0
    ensures Val(f, p + 1) <= 2 * Val(f, p)
  {
    hide Pow2, Shl, Shr, Low, Val;
    Split(p, f.sigBits);
    var x, s := Shr(p, f.sigBits), Low(p, f.sigBits);
    ValParts(f, x, s);
    ValNext(f, x, s);
    ShlZero(f.sigBits);
    if x > 0 { DoubleEnough(Pow2(f.sigBits) + s, Pow2(f.sigBits) + s + 1, x - 1); }
  }

  lemma TwiceMore(a: nat, b: nat, u: int, v: int)
    requires u + 2 <= v && Shl(b, Up(-u)) <= 2 * Shl(a, Up(u))
    ensures 2 * Shl(b, Up(-v)) <= Shl(a, Up(v))
  {
    hide Shl;
    var k, m := Up(-u) - Up(-v), Up(v) - Up(u);
    assert k >= 0 && m >= 0 && k + m >= 2;
    ShlAdd(b, Up(-v), k);
    ShlAdd(a, Up(u), m);
    FourTimes(Shl(b, Up(-v)), Shl(a, Up(u)), k, m);
  }

  /** A pattern above half of a number is not the nearest to a quarter of it or less. */
  lemma FarBelow(f: Format, significand: nat, high: int, low: int, p: nat)
    requires low + 2 <= high && significand > 0
    requires var u := UnitExp(f, high); Shl(significand, Up(u)) < 2 * Shl(Val(f, p), Up(-u))
    ensures !IsNearest(f, significand, low, p)
  {
    hide Pow2, Shl, Val, Inf, IsNearest;
    var u, v := UnitExp(f, high), UnitExp(f, low);
    var a, b := Shl(significand, Up(v)), Shl(Val(f, p), Up(-v));
    TwiceLess(significand, Val(f, p), u, v);
    SmallVal(f, 0);
    ShlZero(Up(-v));
    InfIs(f);
    assert Off(f, significand, low, 0) == a && Off(f, significand, low, p) == b - a;
    NotNearer(f, significand, low, p, 0);
  }

  lemma NotNearer(f: Format, significand: nat, exponent: int, p: nat, q: nat)
    requires q <= Inf(f) && Off(f, significand, exponent, q) < Off(f, significand, exponent, p)
    ensures !IsNearest(f, significand, exponent, p)
  {}

  /** Less than twice on one scale is less than half on a scale of four times as much. */
  lemma TwiceLess(a: nat, b: nat, u: int, v: int)
    requires v + 2 <= u && Shl(a, Up(u)) < 2 * Shl(b, Up(-u))
    ensures 2 * Shl(a, Up(v)) < Shl(b, Up(-v))
  {
    hide Shl;
    var k, m := Up(u) - Up(v), Up(-v) - Up(-u);
    assert k >= 0 && m >= 0 && k + m >= 2;
    ShlAdd(a, Up(v), k);
    ShlAdd(b, Up(-u), m);
    FourTimes(Shl(a, Up(v)), Shl(b, Up(-u)), k, m);
  }

  lemma FourTimes(a: nat, b: nat, k: nat, m: nat)
    requires k + m >= 2 && Shl(a, k) <= 2 * b
    ensures 2 * a <= Shl(b, m) && (Shl(a, k) < 2 * b ==> 2 * a < Shl(b, m))
  {
    hide Shl, Pow2;
    ShlAdd(a, k, m);
    ShlAdd(a, 2, k + m - 2);
    ShlGrows(Shl(a, 2), k + m - 2);
    ShlSum(b, b, m);
    ShlStrict(Shl(a, k), b + b, m);
    QuadrupleIs(a);
  }

  lemma QuadrupleIs(a: nat)
    ensures Shl(a, 2) == 4 * a
  {
    assert Pow2(2) == 4;
  }

  /** The exponent -1280 is read as -128: its digits are read until they make 128. */
  lemma ExponentCut()
    ensures Parse(FLOAT, HexFloat, "0x1p-1280") == Some(0x20_0000) && !InFull(FLOAT, 0, -1280)
    ensures IsNearest(FLOAT, 1, -1280, 0) && !IsNearest(FLOAT, 1, -1280, 0x20_0000)
  {
    hide Pow2, Shl, Composed, IsNearest;
    CutRead();
    ComposedSmall();
    CutNearest();
  }

  lemma CutRead()
    ensures Parse(FLOAT, HexFloat, "0x1p-1280") == Composed(FLOAT, false, 1, -128)
  {
    hide Pow2, Shl, Composed;
    var s := "0x1p-1280";
    AfterP("-1280");
    OneOnly(FLOAT, "p-1280");
    assert "1" + "p-1280" == "1" + "p" + "-1280" && "p-1280" == "p" + "-1280";
    assert s == "0x" + "1" + "p" + "-1280" && s[0] == '0';
    HexParsed(FLOAT, s, "1", "-1280", Scan(1, 0, 4, 0, false));
    var t := "-1280";
    assert t[1..] == "1280";
    ExponentScanned();
  }

  lemma ExponentScanned()
    ensures ScanExponent("1280", 0, 0, 128) == Some(128)
  {
    var a, b, c := "1280", "280", "80";
    assert a[1..] == b && b[1..] == c;
    assert ScanExponent(c, 12, 0, 128) == Some(128);
    assert ScanExponent(b, 1, 0, 128) == Some(128);
  }

  /** 2^-128, a subnormal. */
  lemma ComposedSmall()
    ensures Composed(FLOAT, false, 1, -128) == Some(0x20_0000)
  {
    hide Pow2, Shl, Low, ShiftRound;
    assert BitLength(1) == 1;
    Sizes();
    ShlOfPow(0, 22);
    Sixteen();
    ShlOfPow(21, 1);
    ShiftExact(FLOAT, Pow2(21), 1);
    LowAll(Pow2(21), 23);
    SubnormalMade(FLOAT, 1, -128, 1, 1);
    RoundedFits(FLOAT, false, 1, -128);
  }

  lemma Sizes()
    ensures Pow2(21) == 0x20_0000 && Pow2(22) == 0x40_0000 && Pow2(23) == 0x80_0000 && Pow2(32) == 0x1_0000_0000
  {
    assert Pow2(8) == 0x100 && Pow2(16) == 0x1_0000 && Pow2(24) == 0x100_0000;
  }

  lemma CutNearest()
    ensures IsNearest(FLOAT, 1, -1280, 0) && !IsNearest(FLOAT, 1, -1280, 0x20_0000)
  {
    hide Pow2, Shl, Low, Val, Inf;
    assert BitLength(1) == 1;
    Sizes();
    SubnormalMade(FLOAT, 1, -1280, 1, 1153);
    TinyNearest(FLOAT, 1, -1280, 1, 1153);
    SmallVal(FLOAT, 0);
    SmallVal(FLOAT, 0x20_0000);
    ShlZero(1131);
    ShlZero(1);
    ShlGrows(0x20_0000, 1131);
    assert Off(FLOAT, 1, -1280, 0) == 1;
    assert Off(FLOAT, 1, -1280, 0x20_0000) > 1;
  }
}
