/** Digits that are dropped (src/literal.c:267-278, 604-615): when the float that is
    nearest to the significand is also the nearest to the number, of which the
    significand is only the beginning. */
module DroppedDigits {
  import opened Powers
  import opened Literal
  import opened LiteralProofs
  import opened Nearest

  /** The number: `unit` more bits than the significand, and in them the tail. */
  function Number(significand: nat, unit: nat, tail: nat): nat { Shl(significand, unit) + tail }

  /** How many bits of the significand the float has no room for. */
  function BitsOver(f: Format, significand: nat, exponent: int): int {
    var n := BitLength(significand);
    if exponent + n - 1 > f.MinExp() then n - (f.sigBits + 1) else f.MinExp() - exponent + 1 - f.sigBits
  }

  /** The tail does not matter: where bits of the significand are lost, it would only
      where these are half a unit and rounded down; where none is, it must be at
      most half a unit of the last place. */
  predicate TailOk(f: Format, significand: nat, exponent: int, unit: nat, tail: nat) {
    var over := BitsOver(f, significand, exponent);
    exponent + BitLength(significand) - 1 >= f.MaxExp()
    || if over > 0 then tail == 0 || Shr(significand, over) % 2 == 1 || Low(significand, over) != Half(over)
       else 2 * Shl(tail, 0 - over) <= Pow2(unit)
  }

  // ----- bits of the significand are lost -----

  lemma ShrTail(s: nat, t: nat, unit: nat, tail: nat)
    requires tail < Pow2(unit)
    ensures Shr(Number(s, unit, tail), t + unit) == Shr(s, t)
    ensures Low(Number(s, unit, tail), t + unit) == Shl(Low(s, t), unit) + tail
  {
    hide Shl, Shr, Low, Pow2;
    Split(s, t);
    ShlSum(Shl(Shr(s, t), t), Low(s, t), unit);
    ShlAdd(Shr(s, t), t, unit);
    ShlLess(Low(s, t), t, unit);
    Parts(Number(s, unit, tail), Shr(s, t), Shl(Low(s, t), unit) + tail, t + unit);
  }

  /** A tail on what is lost does not change on which side of half a unit it is, but
      half a unit becomes more. */
  lemma HalfTail(low: nat, t: nat, unit: nat, tail: nat)
    requires t > 0 && tail < Pow2(unit)
    ensures 2 * (Shl(low, unit) + tail) <= Pow2(t + unit) <==> low < Half(t) || (low == Half(t) && tail == 0)
    ensures 2 * (Shl(low, unit) + tail) >= Pow2(t + unit) <==> low >= Half(t)
  {
    hide Shl, Pow2;
    PowDouble(t + unit - 1);
    ShlOfPow(t - 1, unit);
    ShlOrdered(low, Half(t), unit);
    ShlOrdered(Half(t), low, unit);
    if low < Half(t) {
      ShlMonotone(low + 1, Half(t), unit);
      ShlSum(low, 1, unit);
      ShlOfPow(0, unit);
      Sixteen();
    }
  }

  /** The neighbours are the same, and the nearer one is, but for a tie. */
  lemma PlacedTail(f: Format, s: nat, exponent: int, low: nat, j: nat, t: nat, unit: nat, tail: nat, p: nat)
    requires Placed(f, s, exponent, low, j, t) && t > 0 && tail < Pow2(unit) && p <= low + 1
    ensures IsNearest(f, Number(s, unit, tail), exponent - unit, p)
      <==> IsNearest(f, s, exponent, p) && !(tail > 0 && p == low && Low(s, t) == Half(t))
    ensures p < low ==> !IsNearest(f, s, exponent, p)
  {
    var v := Number(s, unit, tail);
    ShrTail(s, t, unit, tail);
    HalfTail(Low(s, t), t, unit, tail);
    PowDouble(t - 1);
    hide Val, Shl, Shr, Low, Pow2, Inf, IsNearest, Nearer;
    assert Placed(f, v, exponent - unit, low, j, t + unit);
    PlacedNearest(f, s, exponent, low, j, t);
    PlacedNearest(f, v, exponent - unit, low, j, t + unit);
    NearerHalf(s, t);
    NearerHalf(v, t + unit);
  }

  /** Which neighbour it is if half a unit is lost. */
  predicate TieEven(s: nat, t: nat, low: nat, p: int) {
    Low(s, t) == Half(t) ==> if Shr(s, t) % 2 == 0 then p <= low else p != low
  }

  /** Nothing, or at least half of the upper neighbour. */
  ghost predicate HalfOrNone(f: Format, q: nat, j: nat, p: nat) { p == 0 || Shl(q + 1, j) <= 2 * Val(f, p) }

  lemma DoubleEnough(a: nat, b: nat, j: nat)
    requires b <= 2 * a
    ensures Shl(b, j) <= 2 * Shl(a, j)
  {
    hide Shl;
    ShlMonotone(b, a + a, j);
    ShlSum(a, a, j);
  }

  lemma NormalTie(f: Format, s: nat, exponent: int, n: nat, x: nat) returns (low: nat, j: nat)
    requires Ieee(f) && s > 0 && n == BitLength(s) && f.sigBits + 1 < n && s < Pow2(f.width)
    requires x == exponent + n - 1 - f.MinExp() && 1 <= x < f.MaxExp() - f.MinExp()
    ensures var t, p := n - f.sigBits - 1, Compose(f, false, s, exponent);
      Placed(f, s, exponent, low, j, t) && 0 <= p <= low + 1 && TieEven(s, t, low, p) && HalfOrNone(f, Shr(s, t), j, p)
    ensures Shr(s, n - f.sigBits - 1) > 0
  {
    hide Val, Shl, Shr, Low, Pow2, BitLength, Inf, ShiftRound, Compose;
    var t := n - f.sigBits - 1;
    var q := Shr(s, t);
    ShortEnough(f, s, n);
    NormalComposed(f, s, exponent, n, x);
    NormalPlaced(f, s, exponent, n, x);
    Shifted(f, s, t);
    low, j := NormalPattern(f, x, q), x - 1;
    if q == Pow2(f.sigBits) { EvenTop(f); }
    KeptBits(f, s, n, t);
    PowDouble(f.sigBits);
    ValParts(f, x, 0);
    DoubleEnough(Pow2(f.sigBits), q + 1, j);
    DoubleEnough(q, q + 1, j);
    DoubleEnough(q + 1, q + 1, j);
  }

  lemma SubnormalTie(f: Format, s: nat, n: nat, shift: nat)
    requires Ieee(f) && s > 0 && n == BitLength(s) && shift < f.sigBits < shift + n && s < Pow2(f.width)
    ensures var t := shift + n - f.sigBits; TieEven(s, t, Shr(s, t), Subnormal(f, s, n, shift))
  {
    hide Pow2, Shl, Shr, Low, BitLength, ShiftRound;
    var t := shift + n - f.sigBits;
    SubnormalBits(f, s, n, shift);
    ShortEnough(f, s, n);
    if n <= f.sigBits {
      ShortRound(f, s, n, shift);
      Shifted(f, s, t);
    } else if shift == 0 {
      Shifted(f, s, t);
    } else if Low(s, t) == Half(t) {
      TwiceTie(f, s, n, shift);
    }
  }

  lemma TwiceTie(f: Format, s: nat, n: nat, shift: nat)
    requires Ieee(f) && s > 0 && n == BitLength(s) && 0 < shift < f.sigBits < n && s < Pow2(f.width)
    requires Low(s, n - f.sigBits + shift) == Half(n - f.sigBits + shift)
    ensures var q := Shr(s, n - f.sigBits + shift);
      if q % 2 == 0 then Subnormal(f, s, n, shift) <= q else Subnormal(f, s, n, shift) != q
  {
    hide Pow2, Shl, Shr, Low, BitLength, ShiftRound;
    var a, b := n - f.sigBits, shift;
    var q1 := Shr(s, a);
    var q, w, r1 := Shr(s, a + b), Low(q1, b), Low(s, a);
    SubnormalBits(f, s, n, shift);
    SubnormalBits(f, s, n, 0);
    ShortEnough(f, s, n);
    WidthRoom(f);
    PowMore(shift - 1, f.sigBits);
    PowDouble(f.sigBits);
    PowDouble(f.sigBits + 1);
    PowDouble(f.sigBits + 2);
    PowMore(f.sigBits - shift, f.sigBits - 1);
    PowDouble(f.sigBits - 1);
    Shifted(f, s, a);
    if q1 % 2 == 1 && s + Half(a) >= Pow2(f.width) {
      RoundNothing(f, shift);
    } else {
      TwiceShifted(f, s, a, b);
      HalfParts(s, a, b);
      LowAll(ShiftRound(f, ShiftRound(f, s, a), shift), f.sigBits);
    }
  }

  /** Half a unit is half of what the second shift loses, and nothing of the first. */
  lemma HalfParts(s: nat, a: nat, b: nat)
    requires a > 0 && b > 0 && Low(s, a + b) == Half(a + b)
    ensures Low(Shr(s, a), b) == Half(b) < Pow2(b) && Low(s, a) == 0 && Half(a) > 0
  {
    hide Pow2, Shl, Shr, Low;
    ShrTwice(s, a, b);
    Split(s, a);
    ShlOfPow(b - 1, a);
    PowDouble(b - 1);
    Parts(Half(a + b), Half(b), 0, a);
    Parts(Half(a + b), Low(Shr(s, a), b), Low(s, a), a);
  }

  /** The neighbours of what composing rounds. */
  lemma ComposeTie(f: Format, s: nat, exponent: int) returns (low: nat, j: nat)
    requires Ieee(f) && 0 < s < Pow2(f.width) && exponent + BitLength(s) - 1 < f.MaxExp() && BitsOver(f, s, exponent) > 0
    ensures var t, p := BitsOver(f, s, exponent), Compose(f, false, s, exponent);
      Placed(f, s, exponent, low, j, t) && 0 <= p <= low + 1 && TieEven(s, t, low, p) && HalfOrNone(f, Shr(s, t), j, p)
    ensures Compose(f, false, s, exponent) > 0 ==> Shr(s, BitsOver(f, s, exponent)) > 0
  {
    hide Val, Shl, Shr, Low, Pow2, BitLength, Inf, Compose, Subnormal, Placed, TieEven, SubnormalOk, Nearer;
    var n := BitLength(s);
    var shift := f.MinExp() - (exponent + n - 1);
    LengthBounds(s);
    if shift < 0 {
      low, j := NormalTie(f, s, exponent, n, -shift);
    } else {
      var t := shift + n - f.sigBits;
      j := 0;
      SubnormalMade(f, s, exponent, n, shift);
      if shift >= f.sigBits {
        low := 0;
        TinyPlaced(f, s, exponent, n, t);
      } else {
        low := Shr(s, t);
        SubnormalBits(f, s, n, shift);
        SmallPlaced(f, s, exponent, t);
        SubnormalRound(f, s, n, shift);
        SubnormalTie(f, s, n, shift);
        SmallVal(f, low);
        ShlZero(low + 1);
      }
    }
  }

  lemma TinyPlaced(f: Format, s: nat, exponent: int, n: nat, t: nat)
    requires n == BitLength(s) && s > 0 && n <= t && UnitExp(f, exponent) + t == 0
    ensures Placed(f, s, exponent, 0, 0, t) && TieEven(s, t, 0, 0)
  {
    hide Val, Shl, Shr, Low, Pow2, BitLength, Inf, Placed;
    LengthBounds(s);
    PowMore(n, t);
    ShlZero(t);
    Parts(s, 0, s, t);
    SmallPlaced(f, s, exponent, t);
  }

  // ----- none is lost -----

  /** The scale on which the number is whole, and the distances on it. */
  lemma ExactTail(f: Format, s: nat, exponent: int, p: nat, c: nat, j: nat, unit: nat, tail: nat)
    requires Exactly(f, s, exponent, p, c, j) && tail < Pow2(unit)
    ensures IsNearest(f, Number(s, unit, tail), exponent - unit, p) <==> 2 * Shl(tail, c) <= Pow2(unit)
  {
    hide Val, Shl, Shr, Low, Pow2, Inf, IsNearest;
    var v, u := Number(s, unit, tail), c + j - unit;
    var off, gap := Shl(tail, Up(u)), Shl(1, j + Up(-u));
    OnScale(f, s, p, c, j, unit, tail);
    SameScale(tail, c, j, unit);
    if gap <= off {
      TooLow(f, v, exponent - unit, p + 1, p);
    } else {
      Between(f, v, exponent - unit, p);
    }
  }

  lemma OnScale(f: Format, s: nat, p: nat, c: nat, j: nat, unit: nat, tail: nat)
    requires Val(f, p) == Shl(Shl(s, c), j) && Val(f, p + 1) == Shl(Shl(s, c) + 1, j)
    ensures var u := c + j - unit;
      && Shl(Number(s, unit, tail), Up(u)) == Shl(Val(f, p), Up(-u)) + Shl(tail, Up(u))
      && Shl(Val(f, p + 1), Up(-u)) == Shl(Val(f, p), Up(-u)) + Shl(1, j + Up(-u))
  {
    hide Val, Shl;
    var u := c + j - unit;
    ShlSum(Shl(s, unit), tail, Up(u));
    ShlAdd(s, unit, Up(u));
    ShlAdd(s, c, j);
    ShlAdd(s, c + j, Up(-u));
    ShlSum(Shl(s, c), 1, j);
    ShlSum(Shl(Shl(s, c), j), Shl(1, j), Up(-u));
    ShlAdd(1, j, Up(-u));
  }

  /** The tail is less than the gap, or than half of it, on every scale. */
  lemma SameScale(tail: nat, c: nat, j: nat, unit: nat)
    ensures var u := c + j - unit;
      var off, gap := Shl(tail, Up(u)), Shl(1, j + Up(-u));
      gap > 0 && (2 * off <= gap <==> 2 * Shl(tail, c) <= Pow2(unit))
  {
    hide Shl, Pow2;
    var u := c + j - unit;
    var k := c + j - Up(u);
    var off, gap := Shl(tail, Up(u)), Shl(1, j + Up(-u));
    ShlPositive(1, j + Up(-u));
    ShlSum(off, off, k);
    ShlSum(Shl(tail, c), Shl(tail, c), j);
    ShlAdd(tail, Up(u), k);
    ShlAdd(tail, c, j);
    ShlAdd(1, j + Up(-u), k);
    ShlAdd(1, unit, j);
    ShlOfPow(0, unit);
    Sixteen();
    ShlOrdered(2 * off, gap, k);
    ShlOrdered(2 * Shl(tail, c), Shl(1, unit), j);
  }

  /** What is composed is zero, or more than half of the number and at most twice. */
  lemma HalfToTwice(f: Format, s: nat, exponent: int)
    requires Ieee(f) && 0 < s < Pow2(f.width) && exponent + BitLength(s) - 1 < f.MaxExp()
    ensures var p, u := Compose(f, false, s, exponent), UnitExp(f, exponent);
      p == 0 || (0 < p <= Inf(f) && Shl(s, Up(u)) < 2 * Shl(Val(f, p), Up(-u)) && Shl(Val(f, p), Up(-u)) <= 2 * Shl(s, Up(u)))
  {
    hide Val, Shl, Shr, Low, Pow2, BitLength, Inf, Compose, Placed, TieEven;
    var n, u, t := BitLength(s), UnitExp(f, exponent), BitsOver(f, s, exponent);
    var exp := exponent + n - 1;
    LengthBounds(s);
    if t > 0 {
      var low, j := ComposeTie(f, s, exponent);
      var p := Compose(f, false, s, exponent);
      if p > 0 {
        HalfScaled(f, s, exponent, low, j, t, p);
        TwiceScaled(f, s, exponent, low, j, t, p);
      }
    } else {
      if exp > f.MinExp() { NormalExactly(f, s, exponent, n, exp - f.MinExp()); } else { SubnormalExactly(f, s, exponent, n, f.MinExp() - exp); }
      var c := 0 - t;
      var j := u - c;
      ShlAdd(s, c, j);
      ShlZero(Val(f, Compose(f, false, s, exponent)));
      ShlPositive(s, u);
    }
  }

  lemma HalfScaled(f: Format, s: nat, exponent: int, low: nat, j: nat, t: nat, p: nat)
    requires Placed(f, s, exponent, low, j, t) && p > 0 && HalfOrNone(f, Shr(s, t), j, p)
    ensures var u := UnitExp(f, exponent); Shl(s, Up(u)) < 2 * Shl(Val(f, p), Up(-u))
  {
    hide Val, Shl, Shr, Low, Pow2, Inf;
    var u, q := UnitExp(f, exponent), Shr(s, t);
    Split(s, t);
    ShlSum(q, 1, t);
    ShlOfPow(0, t);
    Sixteen();
    ShlLater(s, Up(u));
    ShlMonotone(s + 1, Shl(q + 1, t), Up(u));
    ShlAdd(q + 1, t, Up(u));
    ShlAdd(q + 1, j, Up(-u));
    ShlMonotone(Shl(q + 1, j), 2 * Val(f, p), Up(-u));
    ShlSum(Val(f, p), Val(f, p), Up(-u));
  }

  lemma TwiceScaled(f: Format, s: nat, exponent: int, low: nat, j: nat, t: nat, p: nat)
    requires Placed(f, s, exponent, low, j, t) && p <= low + 1 && Shr(s, t) > 0
    ensures var u := UnitExp(f, exponent); p <= Inf(f) && Shl(Val(f, p), Up(-u)) <= 2 * Shl(s, Up(u))
  {
    hide Val, Shl, Shr, Low, Pow2, Inf;
    var u, q := UnitExp(f, exponent), Shr(s, t);
    Split(s, t);
    ValMonotone(f, p, low + 1);
    ShlMonotone(Val(f, p), Shl(q + 1, j), Up(-u));
    ShlAdd(q + 1, j, Up(-u));
    ShlAdd(q, t, Up(u));
    DoubleEnough(q, q + 1, t + Up(u));
    ShlMonotone(Shl(q, t), s, Up(u));
  }

  // ----- all results -----

  lemma LongerBy(s: nat, unit: nat, tail: nat)
    requires s > 0 && tail < Pow2(unit)
    ensures BitLength(Number(s, unit, tail)) == BitLength(s) + unit && Number(s, unit, tail) > 0
  {
    hide Pow2, Shl, BitLength;
    var v, len := Number(s, unit, tail), BitLength(s);
    LengthBounds(s);
    ShlMonotone(Pow2(len - 1), s, unit);
    ShlOfPow(len - 1, unit);
    ShlLess(s, len, unit);
    ShlPositive(s, unit);
    LengthBounds(v);
    var m := BitLength(v);
    if m > len + unit { PowMore(len + unit, m - 1); }
    if m < len + unit { PowMore(m, len + unit - 1); }
  }

  /** The float that is composed of a significand is the nearest to the number exactly
      if it is the nearest to the significand and the tail does not matter. */
  lemma TailNearest(f: Format, significand: nat, exponent: int, unit: nat, tail: nat)
    requires Ieee(f) && 0 < significand < Pow2(f.width) && tail < Pow2(unit)
    ensures Compose(f, false, significand, exponent) >= 0
    ensures IsNearest(f, Number(significand, unit, tail), exponent - unit, Compose(f, false, significand, exponent))
      <==> RoundOk(f, significand, exponent) && TailOk(f, significand, exponent, unit, tail)
  {
    hide Val, Shl, Shr, Low, Pow2, BitLength, Inf, IsNearest, Compose, Placed, Exactly, Number, ShiftOk, TwoOk;
    ComposeNearest(f, significand, exponent);
    var n, p := BitLength(significand), Compose(f, false, significand, exponent);
    var exp, over := exponent + n - 1, BitsOver(f, significand, exponent);
    LengthBounds(significand);
    if exp >= f.MaxExp() {
      LongerBy(significand, unit, tail);
      LargeNearest(f, Number(significand, unit, tail), exponent - unit);
      LargeMade(f, significand, exponent);
    } else if over > 0 {
      hide RoundOk;
      var low, j := ComposeTie(f, significand, exponent);
      PlacedTail(f, significand, exponent, low, j, over, unit, tail, p);
    } else if exp > f.MinExp() {
      NormalExactly(f, significand, exponent, n, exp - f.MinExp());
      ExactTail(f, significand, exponent, p, f.sigBits + 1 - n, exp - f.MinExp() - 1, unit, tail);
    } else {
      SubnormalExactly(f, significand, exponent, n, f.MinExp() - exp);
      ExactTail(f, significand, exponent, p, 0 - over, 0, unit, tail);
    }
  }
}
