/**
 Rounding of exact numbers to binary32 and binary64.

 `Round` is the specification: it names the spacing of the format around a number, rounds to a
 multiple of it with ties to even, and rejects what leaves the range. `IeeeValue` is the stepwise
 computation on a numerator and a denominator. The lemmas relate `Round` to the definition of
 section 4.3.1 of IEEE 754-2019, which speaks only about the finite numbers of the format.
 */
module Ieee {
  import opened Outcomes
  import opened Powers

  // ---------------------------------------------------------------- formats

  /** Significand bits with the hidden one, and the exponents of the normal numbers. */
  datatype RawFormat = Format(digits: int, low: int, high: int) {
    /** Exponent of the smallest spacing, that of the subnormal numbers. */
    function Least(): int { low - digits + 1 }

    /** Every significand is below this in magnitude. */
    function Bound(): int
      requires digits > 0
    {
      PowNat(Two, digits)
    }

    /** Smallest significand of a normal number. */
    function Hidden(): int
      requires digits > 0
    {
      PowNat(Two, digits - 1)
    }
  }

  type Format = f: RawFormat | 2 <= f.digits && f.low <= f.high witness Format(2, 0, 0)

  const FLOAT: Format := Format(24, -126, 127)
  const DOUBLE: Format := Format(53, -1022, 1023)

  datatype LiteralError = Overflow | RoundsToZero | NotAnInteger | NotANumber | Unhashable

  function Abs(x: real): real {
    if x < 0.0 then -x else x
  }

  /** y is the number m * 2^k, with m and k within the limits of the format. */
  ghost predicate Encodes(f: Format, m: int, k: int, y: real) {
    && f.Least() <= k <= f.high - f.digits + 1
    && -f.Bound() < m < f.Bound()
    && y == Scaled(Two, m as real, k)
  }

  /** The encoding whose significand has its leading bit set, unless y is subnormal. */
  ghost predicate Canonical(f: Format, m: int, k: int, y: real)
  {
    && Encodes(f, m, k, y)
    && (k == f.Least() || m <= -f.Hidden() || f.Hidden() <= m)
  }

  ghost predicate Finite(f: Format, y: real) {
    exists m: int, k: int :: Encodes(f, m, k, y)
  }

  ghost predicate EvenSignificand(f: Format, y: real)
  {
    exists m: int, k: int :: Canonical(f, m, k, y) && m % 2 == 0
  }

  /** roundTiesToEven of section 4.3.1 of IEEE 754-2019. */
  ghost predicate RoundsTo(f: Format, x: real, y: real)
  {
    && Finite(f, y)
    && (forall z :: Finite(f, z) ==> Abs(x - y) <= Abs(x - z))
    && (forall z :: Finite(f, z) && z != y && Abs(x - z) == Abs(x - y) ==> EvenSignificand(f, y))
  }

  // ---------------------------------------------------------------- specification

  /** Nearest integer, ties to even: Python's round. */
  function RoundHalfEven(x: real): int {
    var n := x.Floor;
    var rest := x - n as real;
    if rest < 0.5 || (rest == 0.5 && n % 2 == 0) then n else n + 1
  }

  /** The exponent of the spacing of the format around x. */
  function Spacing(f: Format, x: real): int
    requires x != 0.0
  {
    var e := Scale(Two, Abs(x));
    (if e < f.low then f.low else e) - f.digits + 1
  }

  function Significand(f: Format, x: real): int
    requires x != 0.0
  {
    RoundHalfEven(Scaled(Two, Abs(x), -Spacing(f, x)))
  }

  /** |x| rounded to a multiple of its spacing, without an upper limit. */
  function Magnitude(f: Format, x: real): real
    requires x != 0.0
  {
    Scaled(Two, Significand(f, x) as real, Spacing(f, x))
  }

  function Round(f: Format, x: real): Result<real, LiteralError> {
    if x == 0.0 then Ok(0.0)
    else
      var y := Magnitude(f, x);
      if y >= Pow(Two, f.high + 1) then Err(Overflow)
      else if y == 0.0 then Err(RoundsToZero)
      else Ok(if x < 0.0 then -y else y)
  }

  // ---------------------------------------------------------------- the stepwise computation

  datatype RawFraction = Fraction(num: int, den: int) {
    function Value(): real
      requires den != 0
    {
      num as real / den as real
    }
  }

  type Fraction = q: RawFraction | q.den > 0 witness Fraction(0, 1)

  function BitLength(n: nat): (b: int)
    ensures b >= 0
    ensures n > 0 ==> b > 0 && PowNat(Two, b - 1) <= n < PowNat(Two, b)
  {
    if n == 0 then 0 else BitLength(n / 2) + 1
  }

  /** The binary exponent of a positive quotient, guessed from the bit lengths and corrected once. */
  method BinaryExponent(num: int, den: int, size: real) returns (exponent: int)
    requires num > 0 && den > 0 && size == num as real / den as real > 0.0
    ensures exponent == Scale(Two, size)
  {
    exponent := BitLength(num) - BitLength(den);
    BitLengthGuess(num, den, size);
    if size < Pow(Two, exponent) {
      exponent := exponent - 1;
    }
    ScaleUnique(Two, size, exponent);
  }

  method IeeeValue(f: Format, exact: Fraction) returns (r: Result<real, LiteralError>)
    ensures r == Round(f, exact.Value())
  {
    if exact.num == 0 {
      return Ok(0.0);
    }
    ghost var x := exact.Value();
    var num := if exact.num < 0 then -exact.num else exact.num;
    var size := num as real / exact.den as real;
    SizeIsAbs(exact, num, size);
    var exponent := BinaryExponent(num, exact.den, size);
    exponent := if exponent < f.low then f.low else exponent;
    var quantum := Pow(Two, exponent - f.digits + 1);
    var significand := Quantized(size, exponent - f.digits + 1, quantum);
    SignificandBounds(f, x);
    RangeTest(f, x);
    if significand == PowNat(Two, f.digits) {
      Carry(f, exponent - f.digits + 1);
      significand, exponent, quantum := PowNat(Two, f.digits - 1), exponent + 1, quantum * 2.0;
    }
    assert quantum == Pow(Two, exponent - f.digits + 1);
    assert Scaled(Two, significand as real, exponent - f.digits + 1) == Magnitude(f, x);
    if exponent > f.high {
      return Err(Overflow);
    }
    if significand == 0 {
      return Err(RoundsToZero);
    }
    var result := Restored(significand, exponent - f.digits + 1, quantum);
    return Ok(if exact.num < 0 then -result else result);
  }

  method Quantized(size: real, k: int, quantum: real) returns (significand: int)
    requires quantum == Pow(Two, k)
    ensures significand == RoundHalfEven(Scaled(Two, size, -k))
  {
    OverPower(Two, size, k);
    significand := RoundHalfEven(size / quantum);
  }

  method Restored(significand: int, k: int, quantum: real) returns (result: real)
    requires quantum == Pow(Two, k)
    ensures result == Scaled(Two, significand as real, k)
  {
    TimesPower(Two, significand as real, k);
    result := significand as real * quantum;
  }

  lemma SizeIsAbs(exact: Fraction, num: int, size: real)
    requires exact.num != 0
    requires num == if exact.num < 0 then -exact.num else exact.num
    requires size == num as real / exact.den as real
    ensures size == Abs(exact.Value()) > 0.0
    ensures exact.num < 0 <==> exact.Value() < 0.0
  {
    var x, d := exact.Value(), exact.den as real;
    assert x * d == exact.num as real;
    assert size * d == num as real;
    if exact.num < 0 {
      assert x < 0.0;
      assert (size + x) * d == 0.0;
    } else {
      assert x > 0.0;
    }
  }

  /** The bit lengths give the binary scale of a quotient up to one. */
  lemma BitLengthGuess(num: int, den: int, size: real)
    requires num > 0 && den > 0 && size == num as real / den as real
    ensures Pow(Two, BitLength(num) - BitLength(den) - 1) <= size
    ensures size < Pow(Two, BitLength(num) - BitLength(den) + 1)
  {
    var a, b := BitLength(num), BitLength(den);
    var n, d := num as real, den as real;
    QuotientBound(n, d, size, a - b - 1);
    QuotientBound(n, d, size, a - b + 1);
    ScaledOrder(Two, d, Pow(Two, b), a - b - 1);
    ScaledScaled(Two, 1.0, b, a - b - 1);
    ScaledOrder(Two, Pow(Two, b - 1), d, a - b + 1);
    ScaledScaled(Two, 1.0, b - 1, a - b + 1);
  }

  lemma QuotientBound(n: real, d: real, q: real, e: int)
    requires d > 0.0 && q == n / d
    ensures n < Scaled(Two, d, e) <==> q < Pow(Two, e)
  {
    TimesPower(Two, d, e);
    QuotientOrder(n, d, q, Pow(Two, e));
  }

  lemma QuotientOrder(n: real, d: real, q: real, p: real)
    requires d > 0.0 && q == n / d
    ensures n < d * p <==> q < p
  {
    assert q * d == n;
    if q < p {
      assert (p - q) * d > 0.0;
    } else {
      assert (q - p) * d >= 0.0;
    }
  }

  /** The carry into the next binade keeps the value. */
  lemma Carry(f: Format, k: int)
    ensures Scaled(Two, f.Bound() as real, k) == Scaled(Two, f.Hidden() as real, k + 1) == Pow(Two, f.digits + k)
    ensures Pow(Two, k + 1) == Pow(Two, k) * 2.0
  {
    ScaledScaled(Two, 1.0, f.digits, k);
    ScaledScaled(Two, 1.0, f.digits - 1, k + 1);
  }

  // ---------------------------------------------------------------- the spacing around a number

  lemma SpacingFacts(f: Format, x: real, t: real)
    requires x != 0.0 && t == Scaled(Two, Abs(x), -Spacing(f, x))
    ensures f.Least() <= Spacing(f, x)
    ensures Abs(x) == Scaled(Two, t, Spacing(f, x))
    ensures 0.0 < t < f.Bound() as real
    ensures Spacing(f, x) > f.Least() ==> f.Hidden() as real <= t
  {
    var e, k := Scale(Two, Abs(x)), Spacing(f, x);
    ScaledScaled(Two, Abs(x), -k, k);
    ScaledGrows(Two, 1.0, e + 1, k + f.digits);
    ScaledOrder(Two, Abs(x), Pow(Two, k + f.digits), -k);
    ScaledOrder(Two, 0.0, Abs(x), -k);
    ScaledScaled(Two, 1.0, k + f.digits, -k);
    ScaledOrder(Two, Abs(x), Pow(Two, e), -k);
    ScaledScaled(Two, 1.0, k + f.digits - 1, -k);
  }

  lemma HalfEven(t: real, m: int)
    requires m == RoundHalfEven(t)
    ensures m as real - 0.5 <= t <= m as real + 0.5
    ensures Abs(t - m as real) == 0.5 ==> m % 2 == 0
  {
  }

  lemma SignificandBounds(f: Format, x: real)
    requires x != 0.0
    ensures 0 <= Significand(f, x) <= f.Bound()
    ensures Spacing(f, x) > f.Least() ==> f.Hidden() <= Significand(f, x)
  {
    var t := Scaled(Two, Abs(x), -Spacing(f, x));
    SpacingFacts(f, x, t);
    HalfEven(t, Significand(f, x));
  }

  /** The magnitude leaves the range exactly when the exponent after the carry does. */
  lemma RangeTest(f: Format, x: real)
    requires x != 0.0
    ensures var e := Spacing(f, x) + f.digits - 1;
            Magnitude(f, x) >= Pow(Two, f.high + 1) <==>
            (if Significand(f, x) == f.Bound() then e + 1 else e) > f.high
    ensures Magnitude(f, x) == 0.0 <==> Significand(f, x) == 0
    ensures 0.0 <= Magnitude(f, x) <= Pow(Two, Spacing(f, x) + f.digits)
  {
    SignificandBounds(f, x);
    var k, m := Spacing(f, x), Significand(f, x) as real;
    var e := k + f.digits - 1;
    Carry(f, k);
    Carry(f, k - 1);
    ScaledOrder(Two, m, f.Bound() as real, k);
    ScaledOrder(Two, m, f.Hidden() as real, k);
    ScaledOrder(Two, 0.0, m, k);
    if e + 1 <= f.high + 1 {
      ScaledGrows(Two, 1.0, e + 1, f.high + 1);
    }
    if e + 1 < f.high + 1 {
      PowGrows(Two, e + 1, f.high + 1);
    }
    if e >= f.high + 1 {
      ScaledGrows(Two, 1.0, f.high + 1, e);
    }
    if e + 1 >= f.high + 1 {
      ScaledGrows(Two, 1.0, f.high + 1, e + 1);
    }
  }
}
