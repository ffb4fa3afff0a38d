/** The range tests in front of the float-to-integer conversions
    (src/interpreter.c:281-299, 346-364) compare bit patterns. Section 4.3.4 of
    the WebAssembly Core Specification 1.0 asks whether the truncated value fits
    the integer type. */
module TruncRange {
  import opened Powers
  import opened Literal
  import LiteralProofs
  import N = Nearest

  // ----- the tests -----

  const F32_NEG_ZERO := 0x8000_0000
  const F32_NEG_ONE := 0xbf80_0000
  const F64_NEG_ZERO := 0x8000_0000_0000_0000
  const F64_NEG_ONE := 0xbff0_0000_0000_0000

  predicate InRangeI32TruncSF32(bits: nat) { bits < 0x4f00_0000 || F32_NEG_ZERO <= bits <= 0xcf00_0000 }

  predicate InRangeI64TruncSF32(bits: nat) { bits < 0x5f00_0000 || F32_NEG_ZERO <= bits <= 0xdf00_0000 }

  predicate InRangeI32TruncUF32(bits: nat) { bits < 0x4f80_0000 || F32_NEG_ZERO <= bits < F32_NEG_ONE }

  predicate InRangeI64TruncUF32(bits: nat) { bits < 0x5f80_0000 || F32_NEG_ZERO <= bits < F32_NEG_ONE }

  predicate InRangeI32TruncSF64(bits: nat) {
    bits <= 0x41df_ffff_ffc0_0000 || F64_NEG_ZERO <= bits <= 0xc1e0_0000_0000_0000
  }

  predicate InRangeI32TruncUF64(bits: nat) { bits <= 0x41ef_ffff_ffe0_0000 || F64_NEG_ZERO <= bits < F64_NEG_ONE }

  predicate InRangeI64TruncSF64(bits: nat) {
    bits < 0x43e0_0000_0000_0000 || F64_NEG_ZERO <= bits <= 0xc3e0_0000_0000_0000
  }

  predicate InRangeI64TruncUF64(bits: nat) { bits < 0x43f0_0000_0000_0000 || F64_NEG_ZERO <= bits < F64_NEG_ONE }

  // ----- the values -----

  /** The number one, on that scale. */
  function Unit(f: Format): (one: nat)
    requires Ieee(f)
    ensures one > 0
  {
    Pow2(f.bias + f.sigBits - 1)
  }

  predicate IsNegative(f: Format, bits: nat) { bits >= Pow2(TopBit(f)) }

  function Magnitude(f: Format, bits: nat): nat { if IsNegative(f, bits) then bits - Pow2(TopBit(f)) else bits }

  /** Truncation toward zero. An infinity, read as a number, is out of range of
      every integer type. */
  function Truncated(f: Format, bits: nat): int
    requires Ieee(f)
  {
    var t: int := N.Val(f, Magnitude(f, bits)) / Unit(f);
    if IsNegative(f, bits) then -t else t
  }

  predicate FitsSigned(x: int, n: nat)
    requires n > 0
  {
    var bound: int := Pow2(n - 1);
    -bound <= x < bound
  }

  predicate FitsUnsigned(x: int, n: nat) { 0 <= x < Pow2(n) }

  // ----- patterns are ordered as their values are -----

  lemma ShlStep(x: nat, n: nat)
    ensures Shl(x, n) < Shl(x + 1, n) == Shl(x, n) + Pow2(n)
  {}

  lemma ValOrders(f: Format, a: nat, b: nat)
    ensures a < b <==> N.Val(f, a) < N.Val(f, b)
    ensures a <= b <==> N.Val(f, a) <= N.Val(f, b)
  {
    hide N.Val;
    if a < b {
      N.ValGrows(f, a);
      N.ValMonotone(f, a + 1, b);
    } else {
      N.ValMonotone(f, b, a);
      if b < a {
        N.ValGrows(f, b);
        N.ValMonotone(f, b + 1, a);
      }
    }
  }

  /** The pattern of 2^k. */
  lemma PowerPattern(f: Format, k: nat, mag: nat)
    requires Ieee(f) && mag == Shl(f.bias + k, f.sigBits)
    ensures N.Val(f, mag) == Shl(Unit(f), k)
    ensures k >= f.sigBits ==> N.Val(f, mag + 1) >= Shl(Unit(f), k) + Unit(f)
  {
    hide Shl, Shr, Low, Pow2;
    var b := f.sigBits;
    Positive(b);
    Parts(mag, f.bias + k, 0, b);
    ShlIsPow(b, f.bias + k - 1);
    ShlIsPow(f.bias + b - 1, k);
    if k >= b {
      Big(b);
      Parts(mag + 1, f.bias + k, 1, b);
      ShlStep(Pow2(b), f.bias + k - 1);
      PowMore(f.bias + b - 1, f.bias + k - 1);
    }
  }

  lemma Positive(n: nat)
    ensures 0 < Pow2(n)
  {}

  lemma Big(n: nat)
    requires n > 0
    ensures 1 < Pow2(n)
  {
    assert Pow2(n) == 2 * Pow2(n - 1);
  }

  lemma ShlIsPow(a: nat, b: nat)
    ensures Shl(Pow2(a), b) == Pow2(a + b)
  {
    PowAdd(a, b);
  }

  /** Below a multiple of one is below that integer once truncated. */
  lemma FloorBelow(s: nat, n: nat, one: nat)
    requires one > 0
    ensures s < n * one <==> s / one < n
  {
    var q, r := s / one, s % one;
    assert s == q * one + r;
    if q < n { MulLess(q, n, one); } else if q > n { MulLess(n, q, one); }
  }

  lemma Above(f: Format, k: nat, mag: nat, thr: nat)
    requires Ieee(f) && thr == Shl(f.bias + k, f.sigBits)
    ensures mag < thr <==> N.Val(f, mag) / Unit(f) < Pow2(k)
  {
    hide N.Val, Unit, Pow2, Shl;
    PowerPattern(f, k, thr);
    ValOrders(f, mag, thr);
    ShlCommutes(Unit(f), k);
    FloorBelow(N.Val(f, mag), Pow2(k), Unit(f));
  }

  lemma ShlCommutes(x: nat, k: nat)
    ensures Shl(x, k) == Pow2(k) * x
  {}

  lemma AtMost(f: Format, k: nat, mag: nat, thr: nat)
    requires Ieee(f) && thr == Shl(f.bias + k, f.sigBits) && k >= f.sigBits
    ensures mag <= thr <==> N.Val(f, mag) / Unit(f) <= Pow2(k)
  {
    hide N.Val, Unit, Pow2, Shl;
    PowerPattern(f, k, thr);
    ValOrders(f, mag, thr);
    ValOrders(f, mag, thr + 1);
    ShlCommutes(Unit(f), k);
    var n := Pow2(k) + 1;
    assert n * Unit(f) == Pow2(k) * Unit(f) + Unit(f);
    FloorBelow(N.Val(f, mag), n, Unit(f));
    N.ValGrows(f, thr);
    Below(N.Val(f, thr), n, Unit(f));
  }

  lemma Below(s: nat, n: nat, one: nat)
    requires one > 0 && n > 0 && s == (n - 1) * one
    ensures s < n * one
  {
    MulLess(n - 1, n, one);
  }

  // ----- the tests decide the ranges -----

  lemma Sizes()
    ensures Pow2(23) == 0x80_0000 && Pow2(31) == 0x8000_0000 && Pow2(32) == 0x1_0000_0000
    ensures Pow2(52) == 0x10_0000_0000_0000 && Pow2(63) == 0x8000_0000_0000_0000 && Pow2(0) == 1
    ensures Pow2(64) == 0x1_0000_0000_0000_0000
  {
    assert Pow2(8) == 0x100 && Pow2(16) == 0x1_0000 && Pow2(24) == 0x100_0000;
    hide Pow2;
    PowAdd(16, 16);
    PowAdd(32, 32);
    PowAdd(8, 23);
    PowAdd(32, 31);
    PowAdd(24, 24);
    PowAdd(48, 4);
    Sixteen();
    assert Pow2(32) == Pow2(16) * Pow2(16) && Pow2(48) == Pow2(24) * Pow2(24);
  }

  /** Signed targets of n bits, where one is not lost at the end of the range. */
  lemma SignedTest(f: Format, n: nat, bits: nat, thr: nat)
    requires Ieee(f) && n > 0 && n - 1 >= f.sigBits && thr == Shl(f.bias + n - 1, f.sigBits)
    ensures FitsSigned(Truncated(f, bits), n) <==> if IsNegative(f, bits) then Magnitude(f, bits) <= thr else bits < thr
  {
    hide N.Val, Unit, Pow2, Shl;
    Above(f, n - 1, Magnitude(f, bits), thr);
    AtMost(f, n - 1, Magnitude(f, bits), thr);
  }

  lemma UnsignedTest(f: Format, n: nat, bits: nat, thr: nat)
    requires Ieee(f) && thr == Shl(f.bias + n, f.sigBits)
    ensures FitsUnsigned(Truncated(f, bits), n)
      <==> if IsNegative(f, bits) then Magnitude(f, bits) < Shl(f.bias, f.sigBits) else bits < thr
  {
    hide N.Val, Unit, Pow2, Shl;
    Above(f, n, Magnitude(f, bits), thr);
    Above(f, 0, Magnitude(f, bits), Shl(f.bias, f.sigBits));
    Sizes();
  }

  /** The tests on f32 patterns hold exactly when the truncated value fits. */
  lemma F32Decides(bits: nat)
    requires bits < 0x1_0000_0000
    ensures InRangeI32TruncSF32(bits) <==> FitsSigned(Truncated(FLOAT, bits), 32)
    ensures InRangeI64TruncSF32(bits) <==> FitsSigned(Truncated(FLOAT, bits), 64)
    ensures InRangeI32TruncUF32(bits) <==> FitsUnsigned(Truncated(FLOAT, bits), 32)
    ensures InRangeI64TruncUF32(bits) <==> FitsUnsigned(Truncated(FLOAT, bits), 64)
  {
    hide Truncated, Pow2;
    Sizes();
    SignedTest(FLOAT, 32, bits, Shl(158, 23));
    SignedTest(FLOAT, 64, bits, Shl(190, 23));
    UnsignedTest(FLOAT, 32, bits, Shl(159, 23));
    UnsignedTest(FLOAT, 64, bits, Shl(191, 23));
  }

  /** So do the tests on f64 patterns for the 64-bit types. */
  lemma F64Decides(bits: nat)
    requires bits < 0x1_0000_0000_0000_0000
    ensures InRangeI64TruncSF64(bits) <==> FitsSigned(Truncated(DOUBLE, bits), 64)
    ensures InRangeI64TruncUF64(bits) <==> FitsUnsigned(Truncated(DOUBLE, bits), 64)
  {
    hide Truncated, Pow2;
    Sizes();
    SignedTest(DOUBLE, 64, bits, Shl(1086, 52));
    UnsignedTest(DOUBLE, 64, bits, Shl(1087, 52));
  }

  // ----- where they do not -----

  /** The value itself, not truncated, lies between two integers. */
  predicate Between(f: Format, bits: nat, lo: nat, hi: nat)
    requires Ieee(f)
  {
    N.Val(f, Magnitude(f, bits)) <= (if IsNegative(f, bits) then lo else hi) * Unit(f)
  }

  lemma LargestPattern(k: nat, n: nat, mag: nat)
    requires k <= 52 && n < Pow2(52 - k + 1) && mag == Shl(1023 + 52 - k, 52) + (Shl(n, k) - Pow2(52)) && Pow2(52) <= Shl(n, k) < 2 * Pow2(52)
    ensures N.Val(DOUBLE, mag) == n * Unit(DOUBLE)
  {
    hide Shl, Shr, Low, Pow2;
    Parts(mag, 1075 - k, Shl(n, k) - Pow2(52), 52);
    ShlAdd(n, k, 1074 - k);
    ShlCommutes(n, 1074);
  }

  /** The tests on f64 patterns for the 32-bit types ask more: that the value
      fits before it is truncated. */
  lemma F64ToI32Asks(bits: nat)
    requires bits < 0x1_0000_0000_0000_0000
    ensures InRangeI32TruncSF64(bits) <==> Between(DOUBLE, bits, 0x8000_0000, 0x7fff_ffff)
    ensures InRangeI32TruncUF64(bits) <==> if IsNegative(DOUBLE, bits)
      then N.Val(DOUBLE, Magnitude(DOUBLE, bits)) < Unit(DOUBLE) else Between(DOUBLE, bits, 0, 0xffff_ffff)
    ensures InRangeI32TruncSF64(bits) ==> FitsSigned(Truncated(DOUBLE, bits), 32)
    ensures InRangeI32TruncUF64(bits) ==> FitsUnsigned(Truncated(DOUBLE, bits), 32)
  {
    hide N.Val, Unit, Pow2, Shl;
    Sizes();
    var mag := Magnitude(DOUBLE, bits);
    ShlCommutes(0x7fff_ffff, 22);
    assert Pow2(22) == 0x40_0000 by { PowDown(); }
    ShlCommutes(1053, 52);
    ShlCommutes(1054, 52);
    LargestPattern(22, 0x7fff_ffff, 0x41df_ffff_ffc0_0000);
    ValOrders(DOUBLE, mag, 0x41df_ffff_ffc0_0000);
    PowerPattern(DOUBLE, 31, 0x41e0_0000_0000_0000);
    ValOrders(DOUBLE, mag, 0x41e0_0000_0000_0000);
    ShlCommutes(Unit(DOUBLE), 31);
    Quotient(N.Val(DOUBLE, mag), 0x7fff_ffff, Unit(DOUBLE));
    Quotient(N.Val(DOUBLE, mag), 0x8000_0000, Unit(DOUBLE));
    UnsignedSound(bits);
    UnsignedAsks(bits);
  }

  lemma PowDown()
    ensures Pow2(22) == 0x40_0000 && Pow2(21) == 0x20_0000 && Pow2(30) == 0x4000_0000 && Pow2(31) == 0x8000_0000
  {
    assert Pow2(8) == 0x100 && Pow2(16) == 0x1_0000;
  }

  lemma Quotient(s: nat, n: nat, one: nat)
    requires one > 0
    ensures s <= n * one ==> s / one <= n
  {
    if s <= n * one {
      MulLess(n, n + 1, one);
      FloorBelow(s, n + 1, one);
    }
  }

  lemma UnsignedAsks(bits: nat)
    requires bits < 0x1_0000_0000_0000_0000
    ensures InRangeI32TruncUF64(bits) <==> if IsNegative(DOUBLE, bits)
      then N.Val(DOUBLE, Magnitude(DOUBLE, bits)) < Unit(DOUBLE) else Between(DOUBLE, bits, 0, 0xffff_ffff)
  {
    hide N.Val, Unit, Pow2, Shl;
    Sizes();
    PowDown();
    ShlCommutes(0xffff_ffff, 21);
    ShlCommutes(1054, 52);
    ShlCommutes(1023, 52);
    LargestPattern(21, 0xffff_ffff, 0x41ef_ffff_ffe0_0000);
    ValOrders(DOUBLE, bits, 0x41ef_ffff_ffe0_0000);
    PowerPattern(DOUBLE, 0, 0x3ff0_0000_0000_0000);
    LiteralProofs.ShlZero(Unit(DOUBLE));
    ValOrders(DOUBLE, Magnitude(DOUBLE, bits), 0x3ff0_0000_0000_0000);
  }

  lemma UnsignedSound(bits: nat)
    requires bits < 0x1_0000_0000_0000_0000
    ensures InRangeI32TruncUF64(bits) ==> FitsUnsigned(Truncated(DOUBLE, bits), 32)
  {
    hide Truncated, Pow2, Shl;
    Sizes();
    ShlCommutes(1055, 52);
    ShlCommutes(1023, 52);
    UnsignedTest(DOUBLE, 32, bits, 0x41f0_0000_0000_0000);
  }

  /** 2147483647.5 fits once truncated, and is refused. */
  lemma Refused()
    ensures FitsSigned(Truncated(DOUBLE, 0x41df_ffff_ffe0_0000), 32) && !InRangeI32TruncSF64(0x41df_ffff_ffe0_0000)
  {
    hide N.Val, Unit, Pow2, Shl;
    Sizes();
    ShlCommutes(1054, 52);
    PowerPattern(DOUBLE, 31, 0x41e0_0000_0000_0000);
    ValOrders(DOUBLE, 0x41df_ffff_ffe0_0000, 0x41e0_0000_0000_0000);
    ShlCommutes(Unit(DOUBLE), 31);
    FloorBelow(N.Val(DOUBLE, 0x41df_ffff_ffe0_0000), 0x8000_0000, Unit(DOUBLE));
  }

  /** The magnitude lies strictly between n and n + 1. */
  predicate Inside(f: Format, bits: nat, n: nat)
    requires Ieee(f)
  {
    n * Unit(f) < N.Val(f, Magnitude(f, bits)) < (n + 1) * Unit(f)
  }

  /** The tests on f64 patterns for the 32-bit types are wrong about exactly the
      values between the largest integer of the type and the next, and between
      the least of the signed type and the one below. */
  lemma F64ToI32Agrees(bits: nat)
    requires bits < 0x1_0000_0000_0000_0000
    ensures (InRangeI32TruncSF64(bits) <==> FitsSigned(Truncated(DOUBLE, bits), 32))
      <==> !Inside(DOUBLE, bits, if IsNegative(DOUBLE, bits) then 0x8000_0000 else 0x7fff_ffff)
    ensures (InRangeI32TruncUF64(bits) <==> FitsUnsigned(Truncated(DOUBLE, bits), 32))
      <==> IsNegative(DOUBLE, bits) || !Inside(DOUBLE, bits, 0xffff_ffff)
  {
    hide N.Val, Unit, Pow2, Shl, InRangeI32TruncSF64, InRangeI32TruncUF64;
    Sizes();
    F64ToI32Asks(bits);
    var s, one := N.Val(DOUBLE, Magnitude(DOUBLE, bits)), Unit(DOUBLE);
    FloorBelow(s, 1, one);
    FloorBelow(s, 0x8000_0000, one);
    FloorBelow(s, 0x8000_0001, one);
    FloorBelow(s, 0x1_0000_0000, one);
  }

  /** -2147483648.5 */
  lemma RefusedNegative()
    ensures FitsSigned(Truncated(DOUBLE, 0xc1e0_0000_0010_0000), 32) && !InRangeI32TruncSF64(0xc1e0_0000_0010_0000)
  {
    hide N.Val, Unit, Pow2, Shl;
    Sizes();
    PowDown();
    ShlCommutes(0x8000_0001, 21);
    ShlCommutes(1054, 52);
    LargestPattern(21, 0x8000_0001, 0x41e0_0000_0020_0000);
    ValOrders(DOUBLE, 0x41e0_0000_0010_0000, 0x41e0_0000_0020_0000);
    FloorBelow(N.Val(DOUBLE, 0x41e0_0000_0010_0000), 0x8000_0001, Unit(DOUBLE));
  }

  /** 4294967295.5 */
  lemma RefusedUnsigned()
    ensures FitsUnsigned(Truncated(DOUBLE, 0x41ef_ffff_fff0_0000), 32) && !InRangeI32TruncUF64(0x41ef_ffff_fff0_0000)
  {
    hide N.Val, Unit, Pow2, Shl;
    Sizes();
    ShlCommutes(1055, 52);
    PowerPattern(DOUBLE, 32, 0x41f0_0000_0000_0000);
    ValOrders(DOUBLE, 0x41ef_ffff_fff0_0000, 0x41f0_0000_0000_0000);
    ShlCommutes(Unit(DOUBLE), 32);
    FloorBelow(N.Val(DOUBLE, 0x41ef_ffff_fff0_0000), 0x1_0000_0000, Unit(DOUBLE));
  }
}
