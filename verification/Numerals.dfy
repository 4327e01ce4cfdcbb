/**
 Decimal numerals: their characters, their exact value, and the shortest width at which a printed
 floating value still reads back as itself.
 */
module Numerals {
  import opened Outcomes
  import opened Powers
  import opened Ieee
  import opened IeeeProperties

  // ---------------------------------------------------------------- digits

  predicate IsDigit(c: char) {
    '0' <= c <= '9'
  }

  function DigitChar(d: nat): (c: char)
    requires d < 10
    ensures IsDigit(c) && DigitOf(c) == d
  {
    (d as char) + '0'
  }

  function DigitOf(c: char): nat
    requires IsDigit(c)
  {
    (c - '0') as nat
  }

  predicate AllDigits(s: string) {
    forall i :: 0 <= i < |s| ==> IsDigit(s[i])
  }

  function DigitsValue(s: string): nat
    requires forall i :: 0 <= i < |s| ==> IsDigit(s[i])
  {
    if s == "" then 0 else 10 * DigitsValue(s[..|s| - 1]) + DigitOf(s[|s| - 1])
  }

  /** Exactly w digits of n, the last ones. */
  function Padded(n: nat, w: nat): (s: string)
    ensures |s| == w && AllDigits(s)
  {
    if w == 0 then "" else Padded(n / 10, w - 1) + [DigitChar(n % 10)]
  }

  /** The digits of n without leading zeros. */
  function Digits(n: nat): (s: string)
    ensures |s| > 0 && AllDigits(s)
    ensures |s| > 1 ==> s[0] != '0'
    ensures n > 0 ==> s[0] != '0'
  {
    if n < 10 then [DigitChar(n)] else Digits(n / 10) + [DigitChar(n % 10)]
  }

  lemma {:induction false} PaddedReadsBack(n: nat, w: nat)
    requires n < PowNat(Ten, w)
    ensures DigitsValue(Padded(n, w)) == n
  {
    if w > 0 {
      PaddedReadsBack(n / 10, w - 1);
      assert Padded(n, w)[..w - 1] == Padded(n / 10, w - 1);
    }
  }

  lemma {:induction false} DigitsReadBack(n: nat)
    ensures DigitsValue(Digits(n)) == n
  {
    var s := Digits(n);
    if n >= 10 {
      DigitsReadBack(n / 10);
      assert s[..|s| - 1] == Digits(n / 10);
    } else {
      assert s[..0] == "";
    }
  }

  // ---------------------------------------------------------------- numerals

  /** The parts of a JSON number token with a fraction or an exponent. */
  datatype Numeral = Numeral(negative: bool, whole: string, fraction: string, exponent: int) {
    ghost predicate Valid() {
      AllDigits(whole) && AllDigits(fraction) && |whole| > 0
    }

    /** The exact number the token stands for. */
    ghost function Value(): real
      requires Valid()
    {
      var size := Scaled(Ten, DigitsValue(whole + fraction) as real, exponent - |fraction|);
      if negative then -size else size
    }
  }

  /** The significand and decimal exponent of "%.{width-1}e" for a positive number. */
  function ScientificParts(width: nat, y: real): (p: (nat, int))
    requires width > 0 && y > 0.0
    ensures PowNat(Ten, width - 1) <= p.0 < PowNat(Ten, width)
    ensures Abs(Scaled(Ten, p.0 as real, p.1 - width + 1) - y) <= Scaled(Ten, 0.5, Scale(Ten, y) - width + 1)
  {
    var e := Scale(Ten, y);
    var k := e - width + 1;
    var t := Scaled(Ten, y, -k);
    var sig := RoundHalfEven(t);
    PartsBounds(width, y, e, t, sig);
    if sig == PowNat(Ten, width) then (PowNat(Ten, width - 1), e + 1) else (sig, e)
  }

  lemma PartsBounds(width: nat, y: real, e: int, t: real, sig: int)
    requires width > 0 && y > 0.0 && e == Scale(Ten, y)
    requires t == Scaled(Ten, y, -(e - width + 1)) && sig == RoundHalfEven(t)
    ensures PowNat(Ten, width - 1) <= sig <= PowNat(Ten, width)
    ensures Abs(Scaled(Ten, sig as real, e - width + 1) - y) <= Scaled(Ten, 0.5, e - width + 1)
    ensures Scaled(Ten, PowNat(Ten, width) as real, e - width + 1)
            == Scaled(Ten, PowNat(Ten, width - 1) as real, e + 1 - width + 1)
  {
    var k := e - width + 1;
    ScaledOrder(Ten, y, Pow(Ten, e + 1), -k);
    ScaledOrder(Ten, y, Pow(Ten, e), -k);
    ScaledScaled(Ten, 1.0, e + 1, -k);
    ScaledScaled(Ten, 1.0, e, -k);
    HalfEven(t, sig);
    ScaledScaled(Ten, y, -k, k);
    var s := sig as real;
    ScaledSum(Ten, s, t, k);
    ScaledSum(Ten, t, s, k);
    ScaledOrder(Ten, 0.5, s - t, k);
    ScaledOrder(Ten, 0.5, t - s, k);
    ScaledScaled(Ten, 1.0, width, k);
    ScaledScaled(Ten, 1.0, width - 1, k + 1);
  }

  /** "%.{width-1}e" of a number: one digit, a point, width - 1 digits and an exponent. */
  function Scientific(width: nat, y: real): (n: Numeral)
    requires width > 0
    ensures n.Valid() && |n.whole| == 1 && |n.fraction| == width - 1
    ensures n.negative == (y < 0.0)
  {
    if y == 0.0 then
      Numeral(false, Padded(0, 1), Padded(0, width - 1), 0)
    else
      var p := ScientificParts(width, Abs(y));
      var digits := Padded(p.0, width);
      Numeral(y < 0.0, digits[..1], digits[1..], p.1)
  }

  // ---------------------------------------------------------------- printed values read back

  /** Two finite numbers differ by at least their own size over 2^digits. */
  lemma RelativeGap(f: Format, y: real, z: real)
    requires Finite(f, y) && Finite(f, z) && y > 0.0 && z != y
    ensures Scaled(Two, y, -f.digits) <= Abs(z - y)
  {
    var m, k :| Encodes(f, m, k, y);
    var n, j :| Encodes(f, n, j, z);
    var a := m as real;
    ScaledScaled(Two, a, k, -f.digits);
    if k <= j {
      var n' := EncodedMultiple(f, n, j, z, k);
      GapOnGrid(f, m, n', k);
    } else if Abs(z) >= y {
      var m' := EncodedMultiple(f, m, k, y, j);
      ScaledOrder(Two, n as real, m' as real, j);
      GapFromAbove(f, y, m', n, j, z);
    } else {
      GapBelow(f, m, k, y, n, j, z);
    }
  }

  /** Distinct multiples of one power of two are at least that power apart. */
  lemma GridGap(m: int, n: int, k: int)
    requires m != n
    ensures Pow(Two, k) <= Abs(Scaled(Two, n as real, k) - Scaled(Two, m as real, k))
  {
    Distance(n as real, m as real, k);
    ScaledOrder(Two, Abs(n as real - m as real), 1.0, k);
  }

  lemma GapOnGrid(f: Format, m: int, n: int, k: int)
    requires m < f.Bound() && Scaled(Two, m as real, k) != Scaled(Two, n as real, k)
    ensures Scaled(Two, m as real, k - f.digits) <= Abs(Scaled(Two, n as real, k) - Scaled(Two, m as real, k))
  {
    GridGap(m, n, k);
    ScaledOrder(Two, m as real, f.Bound() as real, k - f.digits);
    Carry(f, k - f.digits);
  }

  lemma GapFromAbove(f: Format, y: real, m: int, n: int, j: int, z: real)
    requires 0.0 < y <= Abs(z) && z != y
    requires y == Scaled(Two, m as real, j) && z == Scaled(Two, n as real, j) && -f.Bound() < n < f.Bound()
    ensures Scaled(Two, y, -f.digits) <= Abs(z - y)
  {
    GridGap(m, n, j);
    var b := f.Bound() as real;
    ScaledOrder(Two, n as real, b, j);
    ScaledOrder(Two, -b, n as real, j);
    ScaledSum(Two, 0.0, b, j);
    ScaledOrder(Two, 0.0, b, j);
    Carry(f, j);
    ScaledOrder(Two, y, Pow(Two, f.digits + j), -f.digits);
    ScaledScaled(Two, 1.0, f.digits + j, -f.digits);
  }

  /** z is below y and on a finer grid: the gap of a binade boundary, half a spacing of y. */
  lemma GapBelow(f: Format, m: int, k: int, y: real, n: int, j: int, z: real)
    requires Encodes(f, m, k, y) && Encodes(f, n, j, z) && j < k && Abs(z) < y
    ensures Scaled(Two, y, -f.digits) <= y - z
    decreases k - j
  {
    var a := m as real;
    ScaledScaled(Two, a, k, -f.digits);
    ScaledOrder(Two, 0.0, a, k);
    if m < f.Hidden() {
      // y < 2^(digits - 1) spacings: half a spacing is enough, and z is on the next finer grid or below.
      var half := ScaledInt(m, 1);
      ScaledScaled(Two, a, 1, k - 1);
      if j == k - 1 {
        ScaledScaled(Two, half as real, k - 1, -f.digits);
        GapOnGrid(f, half, n, k - 1);
      } else {
        GapBelow(f, half, k - 1, y, n, j, z);
      }
    } else {
      FinerTop(f, n, j, z, k);
      var h := f.Hidden() as real;
      // (m - h) spacings down to the binade boundary, then at least half a spacing.
      ScaledSum(Two, a, h, k);
      ScaledSum(Two, h, a - h, k - f.digits);
      ScaledOrder(Two, 0.0, a - h, k - f.digits);
      ScaledGrows(Two, a - h, k - f.digits, k);
      Carry(f, k - f.digits - 1);
    }
  }

  /** The largest number on a finer grid stays half a spacing below the binade boundary. */
  lemma FinerTop(f: Format, n: int, j: int, z: real, k: int)
    requires Encodes(f, n, j, z) && j < k
    ensures z <= Scaled(Two, f.Hidden() as real, k) - Pow(Two, k - 1)
  {
    var top := (f.Bound() - 1) as real;
    ScaledOrder(Two, n as real, top, j);
    ScaledGrows(Two, top, j, k - 1);
    ScaledSum(Two, f.Bound() as real, 1.0, k - 1);
    Carry(f, k - 1);
  }

  /** A number closer to y than half its relative gap rounds to y. */
  lemma NearbyRounds(f: Format, y: real, d: real)
    requires Finite(f, y) && y > 0.0
    requires Abs(d - y) < Scaled(Two, y, -f.digits - 1)
    ensures Round(f, d) == Ok(y)
  {
    NearbyAccepted(f, y, d);
    RoundIsNearestEven(f, d);
    var r := Round(f, d).value;
    assert Abs(d - r) <= Abs(d - y);
    if r != y {
      RelativeGap(f, y, r);
      ScaledStep(Two, y, -f.digits - 1);
    }
  }

  lemma NearbyAccepted(f: Format, y: real, d: real)
    requires Finite(f, y) && y > 0.0
    requires Abs(d - y) < Scaled(Two, y, -f.digits - 1)
    ensures Round(f, d).Ok?
  {
    FiniteInRange(f, y);
    AcceptedRange(f, d);
    var e := Scaled(Two, y, -f.digits - 1);
    PowPositive(Two, f.high - f.digits + 1);
    ScaledOrder(Two, y, Pow(Two, f.high + 1), -f.digits - 1);
    ScaledScaled(Two, 1.0, f.high + 1, -f.digits - 1);
    ScaledStep(Two, 1.0, f.high - f.digits);
    ScaledGrows(Two, y, -f.digits - 1, -1);
    assert Scaled(Two, y, -1) == y / 2.0;
    ScaledStep(Two, 1.0, f.low - f.digits);
  }

  /** Enough decimal digits for a format: 10^(width-1) > 2^digits. */
  ghost predicate WideEnough(f: Format, width: nat) {
    width > 0 && f.Bound() < PowNat(Ten, width - 1)
  }

  lemma FormatWidths()
    ensures WideEnough(FLOAT, 9) && WideEnough(DOUBLE, 17)
  {
    assert PowNat(Two, 8) == 256;
    assert PowNat(Two, 16) == 65536;
    assert PowNat(Two, 24) == 16777216;
    assert PowNat(Two, 32) == 4294967296;
    assert PowNat(Two, 40) == 1099511627776;
    assert PowNat(Two, 48) == 281474976710656;
    assert PowNat(Two, 53) == 9007199254740992;
    assert PowNat(Ten, 8) == 100000000;
    assert PowNat(Ten, 16) == 10000000000000000;
  }

  /** y / 10^w < y / 2^d when 2^d < 10^w. */
  lemma DecimalFiner(y: real, w: nat, d: nat)
    requires y > 0.0 && PowNat(Two, d) < PowNat(Ten, w)
    ensures Scaled(Ten, y, -(w as int)) < Scaled(Two, y, -(d as int))
  {
    var u, v := Scaled(Ten, y, -(w as int)), Scaled(Two, y, -(d as int));
    ScaledScaled(Ten, y, -(w as int), w);
    ScaledScaled(Two, y, -(d as int), d);
    TimesPower(Ten, u, w);
    TimesPower(Two, v, d);
    SmallerFactor(u, PowNat(Ten, w) as real, v, PowNat(Two, d) as real, y);
  }

  lemma SmallerFactor(u: real, p: real, v: real, q: real, y: real)
    requires 0.0 < q < p && y > 0.0 && u * p == y && v * q == y
    ensures u < v
  {
    assert u > 0.0;
    assert u * (p - q) > 0.0;
    assert (v - u) * q > 0.0;
  }

  /** Printed values lose nothing: the digits round back to the value, for every finite number. */
  lemma PrintedReadsBack(f: Format, width: nat, y: real)
    requires Finite(f, y) && WideEnough(f, width)
    ensures Round(f, Scientific(width, y).Value()) == Ok(y)
  {
    var n := Scientific(width, y);
    if y == 0.0 {
      ZeroValue(width);
    } else {
      var s := Abs(y);
      var p := ScientificParts(width, s);
      var digits := Padded(p.0, width);
      PaddedReadsBack(p.0, width);
      assert digits[..1] + digits[1..] == digits;
      var d := Scaled(Ten, p.0 as real, p.1 - width + 1);
      assert n.Value() == if y < 0.0 then -d else d;
      PrintedNearby(f, width, s, d);
      Negated(f, y);
      NearbyRounds(f, s, d);
      RoundIsOdd(f, d);
    }
  }

  lemma ZeroValue(width: nat)
    requires width > 0
    ensures Scientific(width, 0.0).Value() == 0.0
  {
    var n := Scientific(width, 0.0);
    PaddedZero(width);
    assert n.whole + n.fraction == Padded(0, 1) + Padded(0, width - 1);
    ZeroDigits(1, width - 1);
    ScaledOrder(Ten, 0.0, 0.0, 0 - (width - 1));
  }

  lemma {:induction false} PaddedZero(w: nat)
    ensures DigitsValue(Padded(0, w)) == 0
  {
    PaddedReadsBack(0, w);
  }

  lemma {:induction false} ZeroDigits(a: nat, b: nat)
    ensures DigitsValue(Padded(0, a) + Padded(0, b)) == 0
  {
    var s := Padded(0, a) + Padded(0, b);
    if b == 0 {
      assert s == Padded(0, a);
      PaddedZero(a);
    } else {
      ZeroDigits(a, b - 1);
      assert s[..|s| - 1] == Padded(0, a) + Padded(0, b - 1);
    }
  }

  /** The printed decimal is off by less than half the relative gap. */
  lemma PrintedNearby(f: Format, width: nat, y: real, d: real)
    requires y > 0.0 && WideEnough(f, width)
    requires Abs(d - y) <= Scaled(Ten, 0.5, Scale(Ten, y) - width + 1)
    ensures Abs(d - y) < Scaled(Two, y, -f.digits - 1)
  {
    var e := Scale(Ten, y);
    var w := width - 1;
    var half := y / 2.0;
    // 10^e <= y, so half a unit of the last digit is at most y / 2 / 10^(width-1).
    ScaledScaled(Ten, 0.5, e, -w);
    HalfTen(e);
    ScaledOrder(Ten, half, Scaled(Ten, 0.5, e), -w);
    DecimalFiner(half, w, f.digits);
    ScaledScaled(Two, y, -1, -f.digits);
    assert Scaled(Two, y, -1) == half;
  }

  lemma {:induction false} HalfTen(e: int)
    ensures Scaled(Ten, 0.5, e) == Pow(Ten, e) / 2.0
    decreases if e < 0 then -e else e
  {
    if e > 0 {
      HalfTen(e - 1);
    } else if e < 0 {
      HalfTen(e + 1);
    }
  }
}
