/** When the parser of hexadecimal floats gives the float nearest to a literal
    (src/literal.c:178-185, 283-362, 619-692): a condition on the bits that are
    lost, for normal and for subnormal results, which are shifted twice. */
module Nearest {
  import opened Wasm
  import opened Powers
  import opened Literal
  import opened LiteralProofs

  // ----- the values of patterns -----

  /** The value of a pattern without its sign, in units of the least float. */
  function Val(f: Format, p: nat): nat {
    Split(p, f.sigBits);
    var x, s := Shr(p, f.sigBits), Low(p, f.sigBits);
    if x == 0 then s else Shl(Pow2(f.sigBits) + s, x - 1)
  }

  /** The pattern of infinity, which rounding takes for a float. */
  function Inf(f: Format): nat { Shl(2 * f.bias + 1, f.sigBits) }

  /** The exponent of significand * 2^exponent, in the same units. */
  function UnitExp(f: Format, exponent: int): int { exponent - (f.MinExp() - f.sigBits + 1) }

  function Up(u: int): nat { if u >= 0 then u else 0 }

  function Distance(x: nat, y: nat): nat { if x <= y then y - x else x - y }

  /** How far a pattern is from significand * 2^exponent, on a scale on which both
      are whole. */
  function Off(f: Format, significand: nat, exponent: int, p: nat): nat {
    var u := UnitExp(f, exponent);
    Distance(Shl(significand, Up(u)), Shl(Val(f, p), Up(-u)))
  }

  /** No pattern is nearer. */
  ghost predicate IsNearest(f: Format, significand: nat, exponent: int, p: nat) {
    forall q: nat :: q <= Inf(f) ==> Off(f, significand, exponent, p) <= Off(f, significand, exponent, q)
  }

  lemma ValParts(f: Format, x: nat, s: nat)
    requires s < Pow2(f.sigBits)
    ensures Val(f, Shl(x, f.sigBits) + s) == if x == 0 then s else Shl(Pow2(f.sigBits) + s, x - 1)
  {
    Parts(Shl(x, f.sigBits) + s, x, s, f.sigBits);
  }

  /** The next pattern: the same exponent, or the next one. */
  lemma ValNext(f: Format, x: nat, s: nat)
    requires s < Pow2(f.sigBits)
    ensures Val(f, Shl(x, f.sigBits) + s + 1) == if x == 0 then s + 1 else Shl(Pow2(f.sigBits) + s + 1, x - 1)
  {
    hide Shl, Shr, Low, Val, Pow2;
    var top := Pow2(f.sigBits);
    if s + 1 < top {
      ValParts(f, x, s + 1);
    } else {
      ShlSum(x, 1, f.sigBits);
      ShlOfPow(0, f.sigBits);
      Sixteen();
      ValParts(f, x + 1, 0);
      ShlZero(top);
      if x > 0 {
        ShlAdd(top, 1, x - 1);
        PowDouble(f.sigBits);
        ShlOfPow(f.sigBits, 1);
      }
    }
  }

  lemma ValGrows(f: Format, p: nat)
    ensures Val(f, p) < Val(f, p + 1)
  {
    hide Shl, Shr, Low, Val, Pow2;
    Split(p, f.sigBits);
    var x, s := Shr(p, f.sigBits), Low(p, f.sigBits);
    ValParts(f, x, s);
    ValNext(f, x, s);
    if x > 0 { ShlLater(Pow2(f.sigBits) + s, x - 1); }
  }

  lemma ShlLater(a: nat, n: nat)
    ensures Shl(a, n) < Shl(a + 1, n)
  {
    ShlSum(a, 1, n);
  }

  lemma {:induction false} ValMonotone(f: Format, p: nat, q: nat)
    requires p <= q
    ensures Val(f, p) <= Val(f, q)
    decreases q - p
  {
    hide Val;
    if p < q {
      ValGrows(f, q - 1);
      ValMonotone(f, p, q - 1);
    }
  }

  /** Between two neighbours the nearer one is the nearest of all. */
  lemma Between(f: Format, significand: nat, exponent: int, p: nat)
    requires p < Inf(f)
    requires var u := UnitExp(f, exponent);
      Shl(Val(f, p), Up(-u)) <= Shl(significand, Up(u)) <= Shl(Val(f, p + 1), Up(-u))
    ensures IsNearest(f, significand, exponent, p) <==> Off(f, significand, exponent, p) <= Off(f, significand, exponent, p + 1)
    ensures IsNearest(f, significand, exponent, p + 1) <==> Off(f, significand, exponent, p + 1) <= Off(f, significand, exponent, p)
  {
    hide Val, Shl, Inf;
    var u := UnitExp(f, exponent);
    forall q: nat | q <= Inf(f)
      ensures Off(f, significand, exponent, q) >= Off(f, significand, exponent, p) || Off(f, significand, exponent, q) >= Off(f, significand, exponent, p + 1)
    {
      if q <= p {
        ValMonotone(f, q, p);
        ShlMonotone(Val(f, q), Val(f, p), Up(-u));
      } else {
        ValMonotone(f, p + 1, q);
        ShlMonotone(Val(f, p + 1), Val(f, q), Up(-u));
      }
    }
  }

  /** What lies below the lower neighbour is not nearest, if the value is above it. */
  lemma TooLow(f: Format, significand: nat, exponent: int, p: nat, low: nat)
    requires low < p <= Inf(f)
    requires var u := UnitExp(f, exponent); Shl(Val(f, p), Up(-u)) <= Shl(significand, Up(u))
    ensures !IsNearest(f, significand, exponent, low)
  {
    hide Val, Shl, Inf;
    var u := UnitExp(f, exponent);
    ValMonotone(f, low, p - 1);
    ValGrows(f, p - 1);
    ShlLater(Val(f, p) - 1, Up(-u));
    ShlMonotone(Val(f, low), Val(f, p) - 1, Up(-u));
    assert Off(f, significand, exponent, p) < Off(f, significand, exponent, low);
  }

  // ----- one shift -----

  /** Half a unit of the lowest bit that stays. */
  function Half(t: nat): nat { if t > 0 then Pow2(t - 1) else 0 }

  /** One shift rounds to nearest: where the lowest bit that stays is set, half a
      unit is added, and must fit; elsewhere nothing is, and no more than half may
      be lost. */
  predicate ShiftOk(f: Format, s: nat, t: nat) {
    if Shr(s, t) % 2 == 1 then s + Half(t) < Pow2(f.width) else Low(s, t) <= Half(t)
  }

  /** What a shift makes of the bits that stay. */
  lemma Shifted(f: Format, s: nat, t: nat)
    requires t > 0 && s < Pow2(f.width) && t <= f.width
    ensures Pow2(t) == 2 * Half(t) && s == Shl(Shr(s, t), t) + Low(s, t) && Low(s, t) < Pow2(t)
    ensures ShiftRound(f, s, t)
      == if Shr(s, t) % 2 == 0 then Shr(s, t)
         else if s + Half(t) >= Pow2(f.width) then 0
         else Shr(s, t) + if Low(s, t) >= Half(t) then 1 else 0
  {
    hide Shl, Shr, Low, Pow2;
    Split(s, t);
    PowDouble(t - 1);
    if Shr(s, t) % 2 == 1 {
      if s + Half(t) >= Pow2(f.width) { AddedOver(f, s, t); } else { AddedHalf(f, s, t); }
    }
  }

  /** The half that is added does not fit. */
  lemma AddedOver(f: Format, s: nat, t: nat)
    requires 0 < t <= f.width && s < Pow2(f.width) <= s + Half(t)
    ensures Shr(Low(s + Half(t), f.width), t) == 0
  {
    hide Shl, Shr, Low, Pow2;
    var over := s + Half(t) - Pow2(f.width);
    PowMore(t, f.width);
    PowDouble(t - 1);
    ShlOfPow(0, f.width);
    Sixteen();
    Parts(s + Half(t), 1, over, f.width);
    ShlZero(t);
    Parts(over, 0, over, t);
  }

  /** It carries where half a unit or more is lost. */
  lemma AddedHalf(f: Format, s: nat, t: nat)
    requires t > 0 && s + Half(t) < Pow2(f.width)
    ensures Shr(Low(s + Half(t), f.width), t) == Shr(s, t) + if Low(s, t) >= Half(t) then 1 else 0
  {
    hide Shl, Shr, Low, Pow2;
    var q, r, half := Shr(s, t), Low(s, t), Half(t);
    Split(s, t);
    PowDouble(t - 1);
    ShlSum(q, 1, t);
    ShlOfPow(0, t);
    Sixteen();
    LowAll(s + half, f.width);
    if r < half { Parts(s + half, q, r + half, t); } else { Parts(s + half, q + 1, r - half, t); }
  }

  /** Of the two multiples of 2^t next to s, r is the nearer one. */
  predicate Nearer(s: nat, t: nat, r: nat) {
    Distance(Shl(r, t), s) <= Distance(Shl(if r == Shr(s, t) then r + 1 else Shr(s, t), t), s)
  }

  lemma NearerHalf(s: nat, t: nat)
    ensures Nearer(s, t, Shr(s, t)) <==> 2 * Low(s, t) <= Pow2(t)
    ensures Nearer(s, t, Shr(s, t) + 1) <==> 2 * Low(s, t) >= Pow2(t)
  {
    hide Shl, Shr, Low, Pow2;
    Split(s, t);
    ShlSum(Shr(s, t), 1, t);
    ShlOfPow(0, t);
    Sixteen();
  }

  /** One shift gives the nearer multiple exactly if it is in order. */
  lemma ShiftNearer(f: Format, s: nat, t: nat)
    requires t > 0 && s < Pow2(f.width) && t <= f.width
    ensures var q, r := Shr(s, t), ShiftRound(f, s, t);
      (ShiftOk(f, s, t) ==> (r == q || r == q + 1) && Nearer(s, t, r)) && (!ShiftOk(f, s, t) ==> (r == q && !Nearer(s, t, r)) || (r == 0 && q % 2 == 1))
  {
    hide Shl, Shr, Low, Pow2, ShiftRound, Nearer;
    Shifted(f, s, t);
    NearerHalf(s, t);
  }

  // ----- two shifts -----

  /** The first shift carries: the lowest bit that it keeps is set, and it loses
      half a unit or more. */
  predicate Carries(f: Format, s: nat, a: nat) { Shr(s, a) % 2 == 1 && Low(s, a) >= Half(a) }

  /** Two shifts, one after the other, round to nearest. Where the lowest bit that
      stays is not set, only a carry through all bits between can round up; where
      it is set, the carry must not bring just less than half up to half. */
  predicate TwoOk(f: Format, s: nat, a: nat, b: nat) {
    var q, w := Shr(s, a + b), Low(Shr(s, a), b);
    && (Shr(s, a) % 2 == 1 ==> s + Half(a) < Pow2(f.width))
    && (if q % 2 == 0 then Low(s, a + b) <= Half(a + b) || (w == Pow2(b) - 1 && Carries(f, s, a))
        else !(w + 1 == Half(b) && Carries(f, s, a)))
  }

  /** Shifting twice is shifting once, as far as the bits go. */
  lemma ShrTwice(s: nat, a: nat, b: nat)
    ensures Shr(Shr(s, a), b) == Shr(s, a + b) && Low(s, a + b) == Shl(Low(Shr(s, a), b), a) + Low(s, a)
    ensures s == Shl(Shr(s, a + b), a + b) + Low(s, a + b)
  {
    hide Shl, Shr, Low, Pow2;
    var q1, r1 := Shr(s, a), Low(s, a);
    var q, w := Shr(q1, b), Low(q1, b);
    Split(s, a);
    Split(q1, b);
    ShlSum(Shl(q, b), w, a);
    ShlAdd(q, b, a);
    ShlLess(w, b, a);
    Parts(s, q, Shl(w, a) + r1, a + b);
  }

  /** The result of two shifts. */
  lemma TwiceShifted(f: Format, s: nat, a: nat, b: nat)
    requires a > 0 && b > 0 && s < Pow2(f.width) && a + b <= f.width && Shr(s, a) + 1 + Half(b) < Pow2(f.width)
    requires Shr(s, a) % 2 == 1 ==> s + Half(a) < Pow2(f.width)
    ensures var q, w, c := Shr(s, a + b), Low(Shr(s, a), b), if Carries(f, s, a) then 1 else 0;
      ShiftRound(f, ShiftRound(f, s, a), b)
        == if w + c == Pow2(b) then q + 1 else if q % 2 == 1 && w + c >= Half(b) then q + 1 else q
  {
    hide Shl, Shr, Low, Pow2, ShiftRound;
    var q1 := Shr(s, a);
    var q, w, c := Shr(s, a + b), Low(q1, b), if Carries(f, s, a) then 1 else 0;
    Shifted(f, s, a);
    ShrTwice(s, a, b);
    Split(q1, b);
    var r1 := q1 + c;
    Shifted(f, r1, b);
    ShlSum(q, 1, b);
    ShlOfPow(0, b);
    Sixteen();
    if w + c == Pow2(b) { Parts(r1, q + 1, 0, b); } else { Parts(r1, q, w + c, b); }
  }

  /** Two shifts give the nearer multiple exactly if they are in order. */
  lemma TwiceNearer(f: Format, s: nat, a: nat, b: nat)
    requires a > 0 && b > 0 && s < Pow2(f.width) && a + b <= f.width && Shr(s, a) + 1 + Half(b) < Pow2(f.width)
    requires Shr(s, a) % 2 == 1 ==> s + Half(a) < Pow2(f.width)
    ensures var q, r := Shr(s, a + b), ShiftRound(f, ShiftRound(f, s, a), b);
      (r == q || r == q + 1) && (TwoOk(f, s, a, b) <==> Nearer(s, a + b, r))
  {
    hide Shl, Shr, Low, Pow2, ShiftRound, Nearer;
    var w, c := Low(Shr(s, a), b), if Carries(f, s, a) then 1 else 0;
    TwiceShifted(f, s, a, b);
    NearerHalf(s, a + b);
    ShrTwice(s, a, b);
    LostParts(s, a, b);
  }

  /** What two shifts lose, by what the second loses. */
  lemma LostParts(s: nat, a: nat, b: nat)
    requires a > 0 && b > 0
    ensures var w, r1, lost := Low(Shr(s, a), b), Low(s, a), Low(s, a + b);
      && Pow2(a + b) == 2 * Half(a + b) && Pow2(b) == 2 * Half(b) && w < Pow2(b)
      && (w >= Half(b) ==> lost >= Half(a + b)) && (w < Half(b) ==> lost < Half(a + b))
      && (w == Pow2(b) - 1 && r1 >= Half(a) ==> lost > Half(a + b))
      && (b > 1 ==> Half(b) % 2 == 0)
  {
    hide Shl, Shr, Low, Pow2;
    var w, r1 := Low(Shr(s, a), b), Low(s, a);
    ShrTwice(s, a, b);
    Split(s, a);
    Split(Shr(s, a), b);
    PowDouble(a + b - 1);
    PowDouble(b - 1);
    PowDouble(a - 1);
    ShlOfPow(b - 1, a);
    if w >= Half(b) { ShlMonotone(Half(b), w, a); } else { ShlMonotone(w + 1, Half(b), a); ShlSum(w, 1, a); ShlOfPow(0, a); Sixteen(); }
    if b > 1 { PowDouble(b - 2); }
  }

  // ----- composing a float -----

  /** Where the shift that composing makes is in order. */
  predicate RoundOk(f: Format, significand: nat, exponent: int) {
    var n := BitLength(significand);
    var exp := exponent + n - 1;
    if exp >= f.MaxExp() then true
    else if exp > f.MinExp() then n <= f.sigBits + 1 || ShiftOk(f, significand, n - (f.sigBits + 1))
    else SubnormalOk(f, significand, n, f.MinExp() - exp)
  }

  /** The significand is brought to the width of the field, and then to its place. */
  predicate SubnormalOk(f: Format, significand: nat, n: nat, shift: nat) {
    if shift >= f.sigBits then significand <= Half(if shift + n > f.sigBits then shift + n - f.sigBits else 0)
    else if shift + n <= f.sigBits then true
    else if n > f.sigBits && shift > 0 then TwoOk(f, significand, n - f.sigBits, shift)
    else ShiftOk(f, significand, shift + n - f.sigBits)
  }

  /** Patterns at which the value is known, on both sides of significand * 2^exponent. */
  ghost predicate Placed(f: Format, significand: nat, exponent: int, p: nat, j: nat, t: nat) {
    var u, q := UnitExp(f, exponent), Shr(significand, t);
    p < Inf(f) && Val(f, p) == Shl(q, j) && Val(f, p + 1) == Shl(q + 1, j) && j + Up(-u) == t + Up(u)
  }

  /** There the nearest pattern is the one of the nearer multiple. */
  lemma PlacedNearest(f: Format, significand: nat, exponent: int, p: nat, j: nat, t: nat)
    requires Placed(f, significand, exponent, p, j, t)
    ensures IsNearest(f, significand, exponent, p) <==> Nearer(significand, t, Shr(significand, t))
    ensures IsNearest(f, significand, exponent, p + 1) <==> Nearer(significand, t, Shr(significand, t) + 1)
    ensures forall low: nat :: low < p ==> !IsNearest(f, significand, exponent, low)
  {
    hide Val, Shl, Shr, Low, Pow2, Inf, IsNearest;
    var u, q := UnitExp(f, exponent), Shr(significand, t);
    var k := Up(u);
    Split(significand, t);
    ShlAdd(q, j, Up(-u));
    ShlAdd(q, t, k);
    ShlAdd(q + 1, j, Up(-u));
    ShlAdd(q + 1, t, k);
    ShlSum(q, 1, t);
    ShlOfPow(0, t);
    Sixteen();
    ShlMonotone(Shl(q, t), significand, k);
    ShlMonotone(significand, Shl(q + 1, t), k);
    Between(f, significand, exponent, p);
    ShlDistance(significand, Shl(q, t), k);
    ShlDistance(significand, Shl(q + 1, t), k);
    ShlOrdered(Distance(significand, Shl(q, t)), Distance(significand, Shl(q + 1, t)), k);
    ShlOrdered(Distance(significand, Shl(q + 1, t)), Distance(significand, Shl(q, t)), k);
    forall low: nat | low < p ensures !IsNearest(f, significand, exponent, low) { TooLow(f, significand, exponent, p, low); }
  }

  lemma ShlDistance(x: nat, y: nat, k: nat)
    ensures Distance(Shl(x, k), Shl(y, k)) == Shl(Distance(x, y), k)
  {
    hide Shl;
    if x <= y { ShlSum(x, y - x, k); ShlMonotone(x, y, k); } else { ShlSum(y, x - y, k); ShlMonotone(y, x, k); }
  }

  lemma ShlOrdered(a: nat, b: nat, k: nat)
    ensures a <= b <==> Shl(a, k) <= Shl(b, k)
  {
    hide Shl;
    if a <= b { ShlMonotone(a, b, k); } else { ShlMonotone(b, a - 1, k); ShlLater(a - 1, k); }
  }

  /** Above the greatest pattern it is the nearest. */
  lemma AboveAll(f: Format, significand: nat, exponent: int)
    requires var u := UnitExp(f, exponent); Shl(Val(f, Inf(f)), Up(-u)) <= Shl(significand, Up(u))
    ensures IsNearest(f, significand, exponent, Inf(f))
  {
    hide Shl, Val, Inf;
    forall q: nat | q <= Inf(f) ensures Off(f, significand, exponent, Inf(f)) <= Off(f, significand, exponent, q) {
      ValMonotone(f, q, Inf(f));
      ShlMonotone(Val(f, q), Val(f, Inf(f)), Up(-UnitExp(f, exponent)));
    }
  }

  /** What is too large is infinity. */
  lemma LargeNearest(f: Format, significand: nat, exponent: int)
    requires Ieee(f) && significand > 0 && exponent + BitLength(significand) - 1 >= f.MaxExp()
    ensures IsNearest(f, significand, exponent, Inf(f))
  {
    hide Val, Shl, Pow2, BitLength, Inf;
    var n, u, x := BitLength(significand), UnitExp(f, exponent), 2 * f.bias + 1;
    LengthBounds(significand);
    ShlZero(Pow2(f.sigBits));
    ValParts(f, x, 0);
    assert Inf(f) == Shl(x, f.sigBits) + 0 by { InfIs(f); }
    ShlOfPow(f.sigBits, x - 1);
    ShlOfPow(f.sigBits + x - 1, Up(-u));
    ShlMonotone(Pow2(n - 1), significand, Up(u));
    ShlOfPow(n - 1, Up(u));
    PowMore(f.sigBits + x - 1 + Up(-u), n - 1 + Up(u));
    AboveAll(f, significand, exponent);
  }

  lemma LargeMade(f: Format, significand: nat, exponent: int)
    requires Ieee(f) && significand > 0 && exponent + BitLength(significand) - 1 >= f.MaxExp()
    ensures Compose(f, false, significand, exponent) == Inf(f)
  {
    hide Shl, Pow2, BitLength, Inf;
    MadeIs(f, 2 * f.bias + 1, 0);
    InfIs(f);
  }

  lemma InfIs(f: Format)
    ensures Inf(f) == Shl(2 * f.bias + 1, f.sigBits)
  {}

  // ----- normal results -----

  /** The bits that stay of a significand of more than sigBits + 1 bits. */
  lemma KeptBits(f: Format, significand: nat, n: nat, t: nat)
    requires n == BitLength(significand) && significand > 0 && n == t + f.sigBits + 1
    ensures Pow2(f.sigBits) <= Shr(significand, t) < Pow2(f.sigBits + 1)
    ensures significand < Pow2(n)
  {
    hide Shl, Shr, Low, Pow2, BitLength;
    LengthBounds(significand);
    Split(significand, t);
    var q := Shr(significand, t);
    ShrLess(significand, f.sigBits + 1, t);
    if q < Pow2(f.sigBits) { ShlLess(q, f.sigBits, t); }
  }

  /** The pattern of a normal number with these bits. */
  function NormalPattern(f: Format, x: nat, q: nat): nat
    requires q >= Pow2(f.sigBits)
  {
    Shl(x, f.sigBits) + (q - Pow2(f.sigBits))
  }

  lemma NormalPlaced(f: Format, significand: nat, exponent: int, n: nat, x: nat)
    requires Ieee(f) && significand > 0 && n == BitLength(significand) && n > f.sigBits + 1
    requires x == exponent + n - 1 - f.MinExp() && 1 <= x < f.MaxExp() - f.MinExp()
    ensures var t := n - f.sigBits - 1;
      && Pow2(f.sigBits) <= Shr(significand, t)
      && Placed(f, significand, exponent, NormalPattern(f, x, Shr(significand, t)), x - 1, t)
  {
    hide Val, Shl, Shr, Low, Pow2, BitLength, Inf;
    var t := n - f.sigBits - 1;
    var q, top := Shr(significand, t), Pow2(f.sigBits);
    KeptBits(f, significand, n, t);
    PowDouble(f.sigBits);
    ValParts(f, x, q - top);
    ValNext(f, x, q - top);
    BelowInf(f, x, q - top);
  }

  ghost predicate Made(f: Format, x: nat, q: nat, r: nat, p: int) {
    && q >= Pow2(f.sigBits)
    && (r == q || r == q + 1 ==> p == NormalPattern(f, x, q) + (r - q))
    && (r == 0 ==> p == Shl(x, f.sigBits))
  }

  /** What composing makes of the rounded bits. */
  lemma NormalComposed(f: Format, significand: nat, exponent: int, n: nat, x: nat)
    requires Ieee(f) && significand > 0 && n == BitLength(significand) && n > f.sigBits + 1
    requires x == exponent + n - 1 - f.MinExp() && 1 <= x < f.MaxExp() - f.MinExp()
    ensures var t := n - f.sigBits - 1;
      Made(f, x, Shr(significand, t), ShiftRound(f, significand, t), Compose(f, false, significand, exponent))
  {
    hide Val, Shl, Shr, Low, Pow2, BitLength, Inf, ShiftRound;
    var t := n - f.sigBits - 1;
    var q, r, top := Shr(significand, t), ShiftRound(f, significand, t), Pow2(f.sigBits);
    KeptBits(f, significand, n, t);
    PowDouble(f.sigBits);
    MadeIs(f, x, Low(r, f.sigBits));
    MadeIs(f, x + 1, Low(r, f.sigBits));
    ShlSum(x, 1, f.sigBits);
    ShlOfPow(0, f.sigBits);
    ShlOfPow(f.sigBits, 1);
    Sixteen();
    ShlZero(f.sigBits);
    if r == 0 {
      LowAll(0, f.sigBits);
    } else if r < 2 * top && r >= top {
      LowOver(f, r);
    } else if r == 2 * top {
      LowTwice(f);
    }
  }

  lemma MadeIs(f: Format, x: nat, s: nat)
    ensures Make(f, false, x + f.MinExp(), s) == Shl(x, f.sigBits) + s
  {}

  lemma LowOver(f: Format, r: nat)
    requires Pow2(f.sigBits) <= r < 2 * Pow2(f.sigBits)
    ensures Low(r, f.sigBits) == r - Pow2(f.sigBits)
  {
    hide Pow2, Low;
    ShlOfPow(0, f.sigBits);
    Sixteen();
    Parts(r, 1, r - Pow2(f.sigBits), f.sigBits);
  }

  lemma LowTwice(f: Format)
    ensures Low(2 * Pow2(f.sigBits), f.sigBits) == 0
  {
    hide Pow2, Low;
    ShlOfPow(1, f.sigBits);
    Sixteen();
    PowDouble(f.sigBits);
    Parts(2 * Pow2(f.sigBits), 2, 0, f.sigBits);
  }

  lemma NormalNearest(f: Format, significand: nat, exponent: int, n: nat, x: nat)
    requires Ieee(f) && significand > 0 && n == BitLength(significand) && f.sigBits + 1 < n && significand < Pow2(f.width)
    requires x == exponent + n - 1 - f.MinExp() && 1 <= x < f.MaxExp() - f.MinExp()
    ensures Compose(f, false, significand, exponent) >= 0
    ensures IsNearest(f, significand, exponent, Compose(f, false, significand, exponent)) <==> ShiftOk(f, significand, n - (f.sigBits + 1))
  {
    hide Val, Shl, Shr, Low, Pow2, BitLength, Inf, ShiftRound, Compose, IsNearest, Nearer, Placed;
    var t := n - f.sigBits - 1;
    var q := Shr(significand, t);
    ShortEnough(f, significand, n);
    NormalComposed(f, significand, exponent, n, x);
    NormalPlaced(f, significand, exponent, n, x);
    PlacedNearest(f, significand, exponent, NormalPattern(f, x, q), x - 1, t);
    ShiftNearer(f, significand, t);
    if q == Pow2(f.sigBits) { EvenTop(f); }
  }

  lemma EvenTop(f: Format)
    requires Ieee(f)
    ensures Pow2(f.sigBits) % 2 == 0
  {
    hide Pow2;
    PowDouble(f.sigBits - 1);
  }

  /** A number below a power has no more bits. */
  lemma ShortEnough(f: Format, significand: nat, n: nat)
    requires significand > 0 && n == BitLength(significand) && significand < Pow2(f.width)
    ensures n <= f.width
  {
    hide Pow2, BitLength;
    LengthBounds(significand);
    if n > f.width { PowMore(f.width, n - 1); }
  }

  /** A pattern that is the value itself, 2^j times the significand with c more bits;
      the next one is 2^j more. */
  ghost predicate Exactly(f: Format, significand: nat, exponent: int, p: int, c: nat, j: nat) {
    && 0 <= p < Inf(f) && UnitExp(f, exponent) == c + j
    && Val(f, p) == Shl(Shl(significand, c), j) && Val(f, p + 1) == Shl(Shl(significand, c) + 1, j)
  }

  lemma ExactNearest(f: Format, significand: nat, exponent: int, p: nat, c: nat, j: nat)
    requires Exactly(f, significand, exponent, p, c, j)
    ensures IsNearest(f, significand, exponent, p)
  {
    hide Val, Shl, Inf;
    ShlAdd(significand, c, j);
    ShlZero(Val(f, p));
  }

  /** Where no bit is lost. */
  lemma NormalExactly(f: Format, significand: nat, exponent: int, n: nat, x: nat)
    requires Ieee(f) && significand > 0 && n == BitLength(significand) && n <= f.sigBits + 1
    requires x == exponent + n - 1 - f.MinExp() && 1 <= x < f.MaxExp() - f.MinExp()
    ensures Compose(f, false, significand, exponent) >= 0
    ensures Exactly(f, significand, exponent, Compose(f, false, significand, exponent), f.sigBits + 1 - n, x - 1)
  {
    hide Val, Shl, Shr, Low, Pow2, BitLength, Inf, ShiftRound;
    var c, top := f.sigBits + 1 - n, Pow2(f.sigBits);
    var r := Shl(significand, c);
    LengthBounds(significand);
    ShlLess(significand, n, c);
    ShlMonotone(Pow2(n - 1), significand, c);
    ShlOfPow(n - 1, c);
    PowDouble(f.sigBits);
    LowOver(f, r);
    MadeIs(f, x, Low(r, f.sigBits));
    ValParts(f, x, r - top);
    ValNext(f, x, r - top);
    BelowInf(f, x, r - top);
  }

  lemma BelowInf(f: Format, x: nat, s: nat)
    requires x <= 2 * f.bias && s < Pow2(f.sigBits)
    ensures Shl(x, f.sigBits) + s < Inf(f)
  {
    hide Shl, Pow2;
    InfIs(f);
    ShlSum(x, 1, f.sigBits);
    ShlOfPow(0, f.sigBits);
    Sixteen();
    ShlMonotone(x + 1, 2 * f.bias + 1, f.sigBits);
  }

  // ----- subnormal results -----

  /** Small patterns are their own values. */
  lemma SmallVal(f: Format, p: nat)
    requires p < Pow2(f.sigBits)
    ensures Val(f, p) == p == Shl(p, 0) && Val(f, p + 1) == p + 1 == Shl(p + 1, 0) && p < Inf(f)
  {
    hide Val, Pow2, Shl, Inf;
    ShlZero(f.sigBits);
    ShlZero(p);
    ShlZero(p + 1);
    ValParts(f, 0, p);
    ValNext(f, 0, p);
    InfIs(f);
    ShlOfPow(0, f.sigBits);
    Sixteen();
    ShlMonotone(1, 2 * f.bias + 1, f.sigBits);
  }

  lemma SmallPlaced(f: Format, significand: nat, exponent: int, t: nat)
    requires UnitExp(f, exponent) + t == 0 && Shr(significand, t) < Pow2(f.sigBits)
    ensures Placed(f, significand, exponent, Shr(significand, t), 0, t)
  {
    hide Val, Pow2, Shl, Shr, Inf;
    SmallVal(f, Shr(significand, t));
  }

  /** Less than the least float. */
  lemma TinyNearest(f: Format, significand: nat, exponent: int, n: nat, shift: nat)
    requires Ieee(f) && significand > 0 && n == BitLength(significand) && shift == f.MinExp() - (exponent + n - 1) && shift >= f.sigBits
    ensures IsNearest(f, significand, exponent, 0) <==> SubnormalOk(f, significand, n, shift)
  {
    hide Val, Pow2, Shl, Shr, Low, Inf, BitLength, IsNearest, Placed, Nearer;
    var t := shift + n - f.sigBits;
    LengthBounds(significand);
    PowMore(n, t);
    ShlZero(t);
    Parts(significand, 0, significand, t);
    SmallPlaced(f, significand, exponent, t);
    PlacedNearest(f, significand, exponent, 0, 0, t);
    NearerHalf(significand, t);
    PowDouble(t - 1);
  }

  /** The bits that stay of a subnormal. */
  lemma SubnormalBits(f: Format, significand: nat, n: nat, shift: nat)
    requires significand > 0 && n == BitLength(significand) && shift < f.sigBits < shift + n
    ensures var t := shift + n - f.sigBits;
      0 < Shr(significand, t) < Pow2(f.sigBits - shift) <= Pow2(f.sigBits)
  {
    hide Pow2, Shl, Shr, Low, BitLength;
    var t := shift + n - f.sigBits;
    LengthBounds(significand);
    ShrLess(significand, f.sigBits - shift, t);
    PowMore(f.sigBits - shift, f.sigBits);
    Split(significand, t);
    ShlZero(t);
    if Shr(significand, t) == 0 { PowMore(t, n - 1); }
  }

  /** Shifting left first changes nothing. */
  lemma AlignedRound(f: Format, s: nat, c: nat, t: nat)
    requires t > 0 && t + c <= f.width && Shl(s, c) + Pow2(t + c - 1) < Pow2(f.width)
    ensures s + Half(t) < Pow2(f.width) && ShiftRound(f, Shl(s, c), t + c) == ShiftRound(f, s, t)
  {
    hide Pow2, Shl, Shr, Low, ShiftRound;
    var q, r := Shr(s, t), Low(s, t);
    Split(s, t);
    ShlSum(Shl(q, t), r, c);
    ShlAdd(q, t, c);
    ShlLess(r, t, c);
    Parts(Shl(s, c), q, Shl(r, c), t + c);
    ShlOfPow(t - 1, c);
    ShlGrows(s, c);
    ShlGrows(Pow2(t - 1), c);
    ShlOrdered(Half(t), r, c);
    Shifted(f, Shl(s, c), t + c);
    Shifted(f, s, t);
  }

  lemma SubnormalMade(f: Format, significand: nat, exponent: int, n: nat, shift: nat)
    requires Ieee(f) && significand > 0 && n == BitLength(significand) && shift == f.MinExp() - (exponent + n - 1) && shift >= 0
    ensures Compose(f, false, significand, exponent) == if shift < f.sigBits then Subnormal(f, significand, n, shift) else 0
  {
    hide Pow2, Shl, BitLength, Subnormal;
    ShlZero(f.sigBits);
    MadeIs(f, 0, if shift < f.sigBits then Subnormal(f, significand, n, shift) else 0);
  }

  /** No bit is lost. */
  lemma SubnormalExactly(f: Format, significand: nat, exponent: int, n: nat, shift: nat)
    requires Ieee(f) && significand > 0 && n == BitLength(significand) && shift == f.MinExp() - (exponent + n - 1) && shift + n <= f.sigBits
    ensures Compose(f, false, significand, exponent) >= 0
    ensures Exactly(f, significand, exponent, Compose(f, false, significand, exponent), f.sigBits - n - shift, 0)
  {
    hide Val, Pow2, Shl, Shr, Low, Inf, BitLength, ShiftRound, Compose;
    var c := f.sigBits - n - shift;
    var p := Shl(significand, c);
    LengthBounds(significand);
    ShlLess(significand, n, c);
    ShlAdd(significand, c, shift);
    ShlZero(Shl(significand, c));
    PowMore(n + c, f.sigBits);
    SubnormalMade(f, significand, exponent, n, shift);
    if shift > 0 {
      WidthRoom(f);
      ShlLess(significand, n, c + shift);
      PowMore(shift - 1, f.sigBits);
      PowMore(f.sigBits, f.sigBits + 2);
      PowMore(f.sigBits, f.sigBits + 3);
      ShiftExact(f, p, shift);
      LowAll(p, f.sigBits);
    }
    SmallVal(f, p);
  }

  /** The result of the shifts. */
  lemma SubnormalRound(f: Format, significand: nat, n: nat, shift: nat)
    requires Ieee(f) && significand > 0 && n == BitLength(significand) && shift < f.sigBits < shift + n && significand < Pow2(f.width)
    ensures var t, r := shift + n - f.sigBits, Subnormal(f, significand, n, shift);
      var q := Shr(significand, t);
      && (SubnormalOk(f, significand, n, shift) ==> (r == q || r == q + 1) && Nearer(significand, t, r))
      && (!SubnormalOk(f, significand, n, shift) ==> ((r == q || r == q + 1) && !Nearer(significand, t, r)) || r == 0 < q)
  {
    hide Pow2, Shl, Shr, Low, BitLength, ShiftRound, Nearer, TwoOk, ShiftOk;
    var t := shift + n - f.sigBits;
    SubnormalBits(f, significand, n, shift);
    ShortEnough(f, significand, n);
    if n > f.sigBits && shift > 0 {
      SubnormalTwice(f, significand, n, shift);
    } else {
      if n <= f.sigBits {
        ShortRound(f, significand, n, shift);
      }
      ShiftNearer(f, significand, t);
    }
  }

  /** A short significand is shifted left, and then right. */
  lemma ShortRound(f: Format, significand: nat, n: nat, shift: nat)
    requires Ieee(f) && significand > 0 && n == BitLength(significand) && shift < f.sigBits < shift + n && n <= f.sigBits
    ensures Subnormal(f, significand, n, shift) == ShiftRound(f, significand, shift + n - f.sigBits)
  {
    hide Pow2, Shl, Shr, Low, BitLength, ShiftRound;
    var t, c := shift + n - f.sigBits, f.sigBits - n;
    SubnormalBits(f, significand, n, shift);
    LengthBounds(significand);
    WidthRoom(f);
    ShlLess(significand, n, c);
    PowMore(shift - 1, f.sigBits);
    PowMore(f.sigBits, f.sigBits + 2);
    PowMore(f.sigBits, f.sigBits + 3);
    AlignedRound(f, significand, c, t);
    ShlGrows(significand, c);
    Shifted(f, significand, t);
    PowMore(f.sigBits - shift, f.sigBits - 1);
    PowDouble(f.sigBits - 1);
    LowAll(ShiftRound(f, significand, t), f.sigBits);
  }

  lemma SubnormalTwice(f: Format, significand: nat, n: nat, shift: nat)
    requires Ieee(f) && significand > 0 && n == BitLength(significand) && 0 < shift < f.sigBits < n && significand < Pow2(f.width)
    ensures var t, r := shift + n - f.sigBits, Subnormal(f, significand, n, shift);
      var q := Shr(significand, t);
      && (TwoOk(f, significand, n - f.sigBits, shift) ==> (r == q || r == q + 1) && Nearer(significand, t, r))
      && (!TwoOk(f, significand, n - f.sigBits, shift) ==> ((r == q || r == q + 1) && !Nearer(significand, t, r)) || r == 0 < q)
  {
    hide Pow2, Shl, Shr, Low, BitLength, ShiftRound, Nearer;
    var a, t := n - f.sigBits, shift + n - f.sigBits;
    SubnormalBits(f, significand, n, shift);
    SubnormalBits(f, significand, n, 0);
    ShortEnough(f, significand, n);
    WidthRoom(f);
    PowMore(shift - 1, f.sigBits);
    PowDouble(f.sigBits);
    PowDouble(f.sigBits + 1);
    PowDouble(f.sigBits + 2);
    PowMore(f.sigBits - shift, f.sigBits - 1);
    PowDouble(f.sigBits - 1);
    Shifted(f, significand, a);
    if Shr(significand, a) % 2 == 1 && significand + Half(a) >= Pow2(f.width) {
      RoundNothing(f, shift);
    } else {
      TwiceNearer(f, significand, a, shift);
      LowAll(ShiftRound(f, ShiftRound(f, significand, a), shift), f.sigBits);
    }
  }

  lemma RoundNothing(f: Format, t: nat)
    ensures ShiftRound(f, 0, t) == 0 && Low(0, f.sigBits) == 0
  {
    hide Pow2, Shl;
    ShlZero(t);
    ShlZero(f.sigBits);
    Parts(0, 0, 0, t);
    Parts(0, 0, 0, f.sigBits);
  }

  lemma SubnormalNearest(f: Format, significand: nat, exponent: int, n: nat, shift: nat)
    requires Ieee(f) && significand > 0 && n == BitLength(significand) && shift == f.MinExp() - (exponent + n - 1)
    requires significand < Pow2(f.width)
    ensures Compose(f, false, significand, exponent) >= 0
    ensures IsNearest(f, significand, exponent, Compose(f, false, significand, exponent)) <==> SubnormalOk(f, significand, n, shift)
  {
    hide Pow2, Shl, Shr, Low, BitLength, Val, Inf, Compose, Subnormal, IsNearest, Nearer, Placed, Exactly, TwoOk, ShiftOk;
    SubnormalMade(f, significand, exponent, n, shift);
    if shift >= f.sigBits {
      TinyNearest(f, significand, exponent, n, shift);
    } else if shift + n <= f.sigBits {
      SubnormalExactly(f, significand, exponent, n, shift);
      ExactNearest(f, significand, exponent, Compose(f, false, significand, exponent), f.sigBits - n - shift, 0);
    } else {
      var t := shift + n - f.sigBits;
      SubnormalBits(f, significand, n, shift);
      SmallPlaced(f, significand, exponent, t);
      PlacedNearest(f, significand, exponent, Shr(significand, t), 0, t);
      hide SubnormalOk;
      SubnormalRound(f, significand, n, shift);
    }
  }

  // ----- all results -----

  /** Composing gives the float nearest to significand * 2^exponent exactly if its
      shift, or both its shifts, are in order. */
  lemma ComposeNearest(f: Format, significand: nat, exponent: int)
    requires Ieee(f) && 0 < significand < Pow2(f.width)
    ensures Compose(f, false, significand, exponent) >= 0
    ensures IsNearest(f, significand, exponent, Compose(f, false, significand, exponent)) <==> RoundOk(f, significand, exponent)
  {
    hide Pow2, Shl, Shr, Low, BitLength, Val, Inf, IsNearest, SubnormalOk, ShiftOk, Exactly, Compose;
    var n := BitLength(significand);
    var exp := exponent + n - 1;
    if exp >= f.MaxExp() {
      LargeNearest(f, significand, exponent);
      LargeMade(f, significand, exponent);
    } else if exp <= f.MinExp() {
      SubnormalNearest(f, significand, exponent, n, f.MinExp() - exp);
    } else if n <= f.sigBits + 1 {
      NormalExactly(f, significand, exponent, n, exp - f.MinExp());
      ExactNearest(f, significand, exponent, Compose(f, false, significand, exponent), f.sigBits + 1 - n, exp - f.MinExp() - 1);
    } else {
      NormalNearest(f, significand, exponent, n, exp - f.MinExp());
    }
  }

  // ----- parts that do not fit -----

  /** Just below the normal numbers rounding carries out of all bits, and nothing takes
      the carry away: the significand is brought to the width of the field, and is
      then in its place. */
  predicate Overflows(f: Format, significand: nat, exponent: int) {
    var n := BitLength(significand);
    exponent + n - 1 == f.MinExp() && f.sigBits < n < f.width && significand + Half(n - f.sigBits) >= Pow2(n)
  }

  /** There, and only there, an assertion of make_float fails. */
  lemma ComposedWhen(f: Format, neg: bool, significand: nat, exponent: int)
    requires Ieee(f) && 0 < significand < Pow2(f.width)
    ensures Composed(f, neg, significand, exponent)
      == if Overflows(f, significand, exponent) then None else Some(Compose(f, neg, significand, exponent))
  {
    hide Pow2, Shl, Shr, Low, BitLength, ShiftRound, Make;
    var n := BitLength(significand);
    if exponent + n - 1 != f.MinExp() {
      RoundedFits(f, neg, significand, exponent);
    } else {
      LengthBounds(significand);
      if n <= f.sigBits {
        ShlLess(significand, n, f.sigBits - n);
      } else {
        ShortEnough(f, significand, n);
        CarriesOut(f, significand, n);
      }
    }
  }

  lemma CarriesOut(f: Format, significand: nat, n: nat)
    requires Ieee(f) && significand < Pow2(n) && f.sigBits < n <= f.width
    ensures ShiftRound(f, significand, n - f.sigBits) >= Pow2(f.sigBits) <==> n < f.width && significand + Half(n - f.sigBits) >= Pow2(n)
  {
    hide Pow2, Shl, Shr, Low, ShiftRound;
    var a := n - f.sigBits;
    var q := Shr(significand, a);
    PowMore(n, f.width);
    Shifted(f, significand, a);
    ShrLess(significand, f.sigBits, a);
    EvenTop(f);
    ShlOfPow(f.sigBits, a);
    if q + 1 < Pow2(f.sigBits) { ShlMonotone(q + 2, Pow2(f.sigBits), a); }
    ShlSum(q, 1, a);
    ShlSum(q, 2, a);
    ShlOfPow(0, a);
    Sixteen();
    TwiceOne(a);
    if n < f.width {
      PowDouble(n);
      PowMore(n + 1, f.width);
      PowMore(a - 1, n);
    }
  }

  lemma TwiceOne(a: nat)
    ensures Shl(2, a) == 2 * Pow2(a)
  {}
}
