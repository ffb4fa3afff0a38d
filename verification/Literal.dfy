/** Hexadecimal floating-point literals (src/literal.c:170-377, 416-503, 506-834).
    The source has every function twice, for 32 and for 64 bits; a format stands
    for the constants in which they differ. Shifts and masks are written as
    multiplication, division and remainder by powers of two. */
module Literal {
  import opened Wasm
  import opened Powers

  /** Width of the bit pattern, width of the significand field, exponent bias. */
  datatype Format = Format(width: nat, sigBits: nat, bias: nat) {
    function MaxExp(): int { bias + 1 }
    function MinExp(): int { 0 - bias }
    function QuietTag(): nat { Pow2(if sigBits > 0 then sigBits - 1 else 0) }
    /** Hexadecimal digits of the significand, and the padding of the last. */
    function Nybbles(): nat { (sigBits + 3) / 4 }
    function Pad(): nat { 4 * Nybbles() - sigBits }
  }

  const FLOAT := Format(32, 23, 127)
  const DOUBLE := Format(64, 52, 1023)

  predicate Ieee(f: Format) { f == FLOAT || f == DOUBLE }

  // ----- characters -----

  function HexChar(d: nat): char
    requires d < 16
  {
    "0123456789abcdef"[d]
  }

  /** wasm_parse_hexdigit: the letters go one too far. */
  function HexValue(c: char): Option<nat> {
    if '0' <= c <= '9' then Some(c as int - '0' as int)
    else if 'a' <= c <= 'g' then Some(10 + (c as int - 'a' as int))
    else if 'A' <= c <= 'G' then Some(10 + (c as int - 'A' as int))
    else None
  }

  function DecChar(d: nat): char
    requires d < 10
  {
    "0123456789"[d]
  }

  // ----- the printed text -----

  /** The k hexadecimal digits of x without the zeros at the end. */
  function HexOf(x: nat, k: nat): string
    requires x < Pow2(4 * k)
    decreases k
  {
    if x == 0 then ""
    else
      TopDigit(x, k);
      [HexChar(Shr(x, 4 * k - 4))] + HexOf(Low(x, 4 * k - 4), k - 1)
  }

  lemma TopDigit(x: nat, k: nat)
    requires 0 < x < Pow2(4 * k)
    ensures k > 0 && Shr(x, 4 * k - 4) < 16 && Low(x, 4 * k - 4) < Pow2(4 * (k - 1))
  {
    if k > 0 {
      ShrLess(x, 4, 4 * k - 4);
      Split(x, 4 * k - 4);
      Sixteen();
    }
  }

  lemma Sixteen()
    ensures Pow2(4) == 16 && Pow2(0) == 1 && Pow2(1) == 2
  {
    assert Pow2(2) == 4 && Pow2(3) == 8;
  }

  function HexNumber(x: nat): string {
    if x < 16 then [HexChar(x)] else HexNumber(x / 16) + [HexChar(x % 16)]
  }

  function Decimal(e: nat): string {
    if e < 10 then [DecChar(e)] else Decimal(e / 10) + [DecChar(e % 10)]
  }

  function ExponentText(e: int): string {
    if e < 0 then "-" + Decimal(-e) else "+" + Decimal(e)
  }

  function BitLength(x: nat): nat {
    if x == 0 then 0 else 1 + BitLength(x / 2)
  }

  /** What is left of a subnormal significand without its leading one, as a
      fraction of Nybbles() digits. */
  function SubnormalFraction(f: Format, sig: nat): nat
    requires 0 < sig < Pow2(f.sigBits)
  {
    LengthBounds(sig);
    LengthAtMost(sig, f.sigBits);
    Shl(sig - Pow2(BitLength(sig) - 1), 4 * f.Nybbles() - (BitLength(sig) - 1))
  }

  lemma {:induction false} LengthBounds(x: nat)
    requires x > 0
    ensures BitLength(x) > 0 && Pow2(BitLength(x) - 1) <= x < Pow2(BitLength(x))
  {
    if x > 1 { LengthBounds(x / 2); } else { assert BitLength(0) == 0 && Pow2(1) == 2 * Pow2(0); }
  }

  lemma LengthAtMost(x: nat, b: nat)
    requires 0 < x < Pow2(b)
    ensures BitLength(x) <= b
  {
    LengthBounds(x);
    if BitLength(x) > b { PowMore(b, BitLength(x) - 1); }
  }

  function FiniteText(f: Format, exp: int, sig: nat): string
    requires sig < Pow2(f.sigBits)
  {
    if sig == 0 then
      if exp == f.MinExp() then "0x0p+0" else "0x1p" + ExponentText(exp)
    else if exp == f.MinExp() then
      SubnormalFits(f, sig);
      "0x1." + HexOf(SubnormalFraction(f, sig), f.Nybbles()) + "p" + ExponentText(exp - (f.sigBits - BitLength(sig)))
    else
      NormalFits(f, sig);
      "0x1." + HexOf(Shl(sig, f.Pad()), f.Nybbles()) + "p" + ExponentText(exp)
  }

  lemma NormalFits(f: Format, sig: nat)
    requires sig < Pow2(f.sigBits)
    ensures Shl(sig, f.Pad()) < Pow2(4 * f.Nybbles())
  {
    ShlLess(sig, f.sigBits, f.Pad());
  }

  lemma SubnormalFits(f: Format, sig: nat)
    requires 0 < sig < Pow2(f.sigBits)
    ensures SubnormalFraction(f, sig) < Pow2(4 * f.Nybbles()) && 0 < BitLength(sig) <= f.sigBits
  {
    hide Shl, BitLength;
    LengthBounds(sig);
    LengthAtMost(sig, f.sigBits);
    var p := BitLength(sig) - 1;
    ShlLess(sig - Pow2(p), p, 4 * f.Nybbles() - p);
  }

  function TopBit(f: Format): nat { if f.width > 0 then f.width - 1 else 0 }

  function Sign(f: Format, bits: nat): nat { Shr(bits, TopBit(f)) }

  function ExpField(f: Format, bits: nat): nat {
    Low(Shr(bits, f.sigBits), if f.width > f.sigBits then f.width - f.sigBits - 1 else 0)
  }

  function SigField(f: Format, bits: nat): (sig: nat)
    ensures sig < Pow2(f.sigBits)
  {
    Split(bits, f.sigBits);
    Low(bits, f.sigBits)
  }

  /** wasm_write_float_hex and wasm_write_double_hex. */
  function Printed(f: Format, bits: nat): string {
    var exp, sig := ExpField(f, bits) - f.bias, SigField(f, bits);
    (if Sign(f, bits) != 0 then "-" else "")
    + if exp == f.MaxExp() then
        if sig == 0 then "infinity" else if sig == f.QuietTag() then "nan" else "nan:0x" + HexNumber(sig)
      else FiniteText(f, exp, sig)
  }

  // ----- parsing -----

  /** make_float and make_double assert that exponent and significand fit. */
  predicate PartsFit(f: Format, exp: int, sig: nat) { f.MinExp() <= exp <= f.MaxExp() && sig < Pow2(f.sigBits) }

  /** The bits of a value. */
  function Make(f: Format, neg: bool, exp: int, sig: nat): int {
    (if neg then Pow2(TopBit(f)) else 0) + (exp + f.bias) * Pow2(f.sigBits) + sig
  }

  /** Shifts right; what is lost rounds, in a way that is not quite to nearest. */
  function ShiftRound(f: Format, significand: nat, shift: nat): nat {
    Shr(if Shr(significand, shift) % 2 == 1 then Low(significand + Pow2(if shift > 0 then shift - 1 else 0), f.width)
      else significand, shift)
  }

  /** Significand, pending shift, its bits, exponent, and whether a dot was seen. */
  datatype Scan = Scan(significand: nat, shift: nat, bits: nat, exponent: int, seenDot: bool)

  function ScanDigit(f: Format, st: Scan, digit: nat): Scan {
    var shift := st.shift + 4;
    if digit != 0 && (st.significand == 0 || st.bits + shift <= f.sigBits + 1 + 4) then
      Scan((if st.significand != 0 then Low(Shl(st.significand, shift), f.width) else 0) + digit, 0, st.bits + 4,
        st.exponent - (if st.seenDot then shift else 0), st.seenDot)
    else st.(shift := shift)
  }

  function ScanDot(st: Scan): Scan {
    st.(exponent := st.exponent + (if st.significand != 0 then st.shift else 0), shift := 0, seenDot := true)
  }

  /** The loop over the significand, up to the first other character. */
  function ScanDigits(f: Format, s: string, st: Scan): (Scan, string) {
    if s == "" then (st, s)
    else if s[0] == '.' then ScanDigits(f, s[1..], ScanDot(st))
    else
      match HexValue(s[0])
      case None => (st, s)
      case Some(digit) => ScanDigits(f, s[1..], ScanDigit(f, st, digit))
  }

  /** The loop over the digits of the exponent; it stops early once the value is
      certain to be too large. None where the source asserts. */
  function ScanExponent(s: string, exponent: nat, add: int, max: int): Option<nat> {
    if s == "" then Some(exponent)
    else if !('0' <= s[0] <= '9') then None
    else
      var exponent' := exponent * 10 + (s[0] as int - '0' as int);
      if exponent' + add >= max then Some(exponent') else ScanExponent(s[1..], exponent', add, max)
  }

  /** From significand and exponent to those of a float, with rounding; a leading
      one is left out. */
  function Rounded(f: Format, significand: nat, exponent: int): (int, nat)
    requires significand > 0
  {
    var n := BitLength(significand);
    var exp := exponent + n - 1;
    if exp >= f.MaxExp() then (f.MaxExp(), 0)
    else if exp <= f.MinExp() then
      var shift := f.MinExp() - exp;
      (f.MinExp(), if shift < f.sigBits then Subnormal(f, significand, n, shift) else 0)
    else RoundedNormal(f, significand, n, exp)
  }

  function Subnormal(f: Format, significand: nat, n: nat, shift: nat): nat {
    var aligned := if n > f.sigBits then ShiftRound(f, significand, n - f.sigBits) else Shl(significand, f.sigBits - n);
    if shift > 0 then Low(ShiftRound(f, aligned, shift), f.sigBits) else aligned
  }

  function RoundedNormal(f: Format, significand: nat, n: nat, exp: int): (int, nat) {
    if n > f.sigBits + 1 then
      var rounded := ShiftRound(f, significand, n - (f.sigBits + 1));
      (exp + (if rounded >= Pow2(f.sigBits + 1) then 1 else 0), Low(rounded, f.sigBits))
    else (exp, Low(Shl(significand, f.sigBits + 1 - n), f.sigBits))
  }

  /** The bits of what rounding makes. */
  function Compose(f: Format, neg: bool, significand: nat, exponent: int): int
    requires significand > 0
  {
    var parts := Rounded(f, significand, exponent);
    Make(f, neg, parts.0, parts.1)
  }

  /** The same, or None where an assertion fails: rounding does not see to it that
      the parts fit. */
  function Composed(f: Format, neg: bool, significand: nat, exponent: int): Option<int>
    requires significand > 0
  {
    var parts := Rounded(f, significand, exponent);
    if PartsFit(f, parts.0, parts.1) then Some(Compose(f, neg, significand, exponent)) else None
  }

  predicate StartsWith(s: string, prefix: string) { |prefix| <= |s| && s[..|prefix|] == prefix }

  function Unsigned(s: string): string { if s != "" && (s[0] == '-' || s[0] == '+') then s[1..] else s }

  predicate Negative(s: string) { s != "" && s[0] == '-' }

  /** parse_float_hex and parse_double_hex. */
  function ParseHex(f: Format, s: string): Option<int> {
    var t := Unsigned(s);
    if !StartsWith(t, "0x") then None
    else
      var (st, rest) := ScanDigits(f, t[2..], Scan(0, 0, 0, 0, false));
      if rest == "" || rest[0] != 'p' then None
      else if st.significand == 0 then Some(Make(f, Negative(s), f.MinExp(), 0))
      else ParseExponent(f, Negative(s), st.significand, if st.seenDot then st.exponent else st.exponent + st.shift, rest[1..])
  }

  function ParseExponent(f: Format, neg: bool, significand: nat, significandExponent: int, s: string): Option<int>
    requires significand > 0
  {
    if s == "" then None
    else
      var isNeg := s[0] == '-';
      var add := if isNeg then -significandExponent else if s[0] == '+' then significandExponent else 0;
      match ScanExponent(Unsigned(s), 0, add, f.MaxExp())
      case None => None
      case Some(e) => Composed(f, neg, significand, (if isNeg then 0 - e else e) + significandExponent)
  }

  /** The digits of a NaN payload. */
  function ParseTag(f: Format, s: string, tag: nat): Option<nat> {
    if s == "" then (if tag == 0 then None else Some(tag))
    else
      match HexValue(s[0])
      case None => None
      case Some(digit) =>
        if tag * 16 + digit >= Pow2(f.sigBits) then None else ParseTag(f, s[1..], tag * 16 + digit)
  }

  function ParseNan(f: Format, s: string): Option<int> {
    var t := Unsigned(s);
    if !StartsWith(t, "nan") then None
    else if |t| == 3 then Some(Make(f, Negative(s), f.MaxExp(), f.QuietTag()))
    else if !StartsWith(t[3..], ":0x") then None
    else
      match ParseTag(f, t[6..], 0)
      case None => None
      case Some(tag) => Some(Make(f, Negative(s), f.MaxExp(), tag))
  }

  function ParseInfinity(f: Format, s: string): Option<int> {
    if StartsWith(Unsigned(s), "infinity") then Some(Make(f, Negative(s), f.MaxExp(), 0)) else None
  }

  datatype Kind = HexFloat | Infinity | Nan

  /** wasm_parse_float and wasm_parse_double for the literals that are not
      decimal. */
  function Parse(f: Format, kind: Kind, s: string): Option<int> {
    match kind
    case HexFloat => ParseHex(f, s)
    case Infinity => ParseInfinity(f, s)
    case Nan => ParseNan(f, s)
  }

  /** The kind of literal a pattern is printed as. */
  function KindOf(f: Format, bits: nat): Kind {
    if ExpField(f, bits) - f.bias != f.MaxExp() then HexFloat else if SigField(f, bits) == 0 then Infinity else Nan
  }
}
