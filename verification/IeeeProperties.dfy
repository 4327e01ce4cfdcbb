/** What `Ieee.Round` guarantees, in terms of the finite numbers of a format only. */
module IeeeProperties {
  import opened Outcomes
  import opened Powers
  import opened Ieee

  // ---------------------------------------------------------------- multiples of one spacing

  lemma Distance(t: real, n: real, k: int)
    ensures Abs(Scaled(Two, t, k) - Scaled(Two, n, k)) == Scaled(Two, Abs(t - n), k)
  {
    ScaledSum(Two, t, n, k);
    ScaledSum(Two, n, t, k);
    ScaledOrder(Two, t, n, k);
  }

  /** Rounding to an integer picks the nearest multiple, and the even one of two. */
  lemma NearestMultiple(t: real, m: int, n: int, k: int)
    requires m == RoundHalfEven(t)
    ensures var x, y, z := Scaled(Two, t, k), Scaled(Two, m as real, k), Scaled(Two, n as real, k);
            && Abs(x - y) <= Abs(x - z)
            && (Abs(x - y) == Abs(x - z) && y != z ==> m % 2 == 0 && (n == m + 1 || n == m - 1))
  {
    HalfEven(t, m);
    Distance(t, m as real, k);
    Distance(t, n as real, k);
    ScaledOrder(Two, Abs(t - m as real), Abs(t - n as real), k);
    ScaledOrder(Two, Abs(t - n as real), Abs(t - m as real), k);
  }

  lemma EncodedMultiple(f: Format, m: int, j: int, z: real, k: int) returns (n: int)
    requires Encodes(f, m, j, z) && k <= j
    ensures z == Scaled(Two, n as real, k)
    ensures m % 2 == 0 ==> n % 2 == 0
  {
    n := ScaledInt(m, j - k);
    ScaledScaled(Two, m as real, j - k, k);
  }

  /** A number with a finer encoding lies below the binade of that spacing. */
  lemma FinerIsSmaller(f: Format, m: int, j: int, z: real, k: int)
    requires Encodes(f, m, j, z) && j < k
    ensures Abs(z) < Pow(Two, k + f.digits - 1) == Scaled(Two, f.Hidden() as real, k)
  {
    var b := f.Bound() as real;
    ScaledOrder(Two, m as real, b, j);
    ScaledOrder(Two, -b, m as real, j);
    ScaledSum(Two, 0.0, b, j);
    ScaledOrder(Two, 0.0, b, j);
    Carry(f, j);
    ScaledGrows(Two, 1.0, f.digits + j, k + f.digits - 1);
    Carry(f, k - 1);
  }

  /** No finite number is nearer to x than its rounded magnitude; a tie means an even significand. */
  lemma NearestFinite(f: Format, x: real, z: real)
    requires x > 0.0 && Finite(f, z)
    ensures Abs(x - Magnitude(f, x)) <= Abs(x - z)
    ensures Abs(x - Magnitude(f, x)) == Abs(x - z) && z != Magnitude(f, x) ==>
              Significand(f, x) % 2 == 0
              && (|| z == Scaled(Two, (Significand(f, x) + 1) as real, Spacing(f, x))
                  || z == Scaled(Two, (Significand(f, x) - 1) as real, Spacing(f, x)))
  {
    var m, j :| Encodes(f, m, j, z);
    var k := Spacing(f, x);
    var t := Scaled(Two, x, -k);
    SpacingFacts(f, x, t);
    if k <= j {
      var n := EncodedMultiple(f, m, j, z, k);
      NearestMultiple(t, Significand(f, x), n, k);
    } else {
      FinerIsSmaller(f, m, j, z, k);
      NearestMultiple(t, Significand(f, x), f.Hidden(), k);
      ScaledOrder(Two, t, f.Hidden() as real, k);
    }
  }

  // ---------------------------------------------------------------- signs

  lemma RoundIsOdd(f: Format, x: real)
    ensures Round(f, -x) == match Round(f, x) case Ok(y) => Ok(-y) case Err(e) => Err(e)
  {
  }

  lemma Negated(f: Format, y: real)
    ensures Finite(f, y) <==> Finite(f, -y)
    ensures EvenSignificand(f, y) <==> EvenSignificand(f, -y)
  {
    NegatedOne(f, y);
    NegatedOne(f, -y);
  }

  lemma NegatedOne(f: Format, y: real)
    ensures Finite(f, y) ==> Finite(f, -y)
    ensures EvenSignificand(f, y) ==> EvenSignificand(f, -y)
  {
    forall m, k | Encodes(f, m, k, y)
      ensures Encodes(f, -m, k, -y)
      ensures Canonical(f, m, k, y) ==> Canonical(f, -m, k, -y)
    {
      ScaledSum(Two, 0.0, m as real, k);
      ScaledOrder(Two, 0.0, 0.0, k);
    }
  }

  // ---------------------------------------------------------------- the rounded number is finite

  /** The canonical encoding of the rounded magnitude. */
  lemma Encoding(f: Format, x: real) returns (m: int, k: int)
    requires x != 0.0 && Magnitude(f, x) < Pow(Two, f.high + 1)
    ensures Canonical(f, m, k, Magnitude(f, x))
    ensures Significand(f, x) % 2 == 0 ==> m % 2 == 0
  {
    SignificandBounds(f, x);
    RangeTest(f, x);
    m, k := Significand(f, x), Spacing(f, x);
    SpacingFacts(f, x, Scaled(Two, Abs(x), -k));
    Carry(f, k);
    if m == f.Bound() {
      m, k := f.Hidden(), k + 1;
    }
  }

  /** The central law: an accepted value is the roundTiesToEven value. */
  lemma RoundIsNearestEven(f: Format, x: real)
    requires Round(f, x).Ok?
    ensures RoundsTo(f, x, Round(f, x).value)
  {
    var y := Round(f, x).value;
    if x == 0.0 {
      ScaledOrder(Two, 0.0, 0.0, f.Least());
      assert Canonical(f, 0, f.Least(), y);
    } else {
      var m, k := Encoding(f, x);
      Negated(f, Magnitude(f, x));
      forall z | Finite(f, z)
        ensures Abs(x - y) <= Abs(x - z)
        ensures z != y && Abs(x - z) == Abs(x - y) ==> EvenSignificand(f, y)
      {
        Negated(f, z);
        NearestFinite(f, Abs(x), if x < 0.0 then -z else z);
      }
    }
  }

  /** The law determines the value: nothing else satisfies it. */
  lemma RoundIsUnique(f: Format, x: real, y: real)
    requires Round(f, x).Ok? && RoundsTo(f, x, y)
    ensures Round(f, x).value == y
  {
    RoundIsNearestEven(f, x);
    var r := Round(f, x).value;
    assert Abs(x - r) == Abs(x - y);
    if r != y {
      assert EvenSignificand(f, y);
      Negated(f, y);
      RivalIsOdd(f, Abs(x), if x < 0.0 then -y else y);
    }
  }

  /** A finite number as near as the rounded one, but different, has an odd significand. */
  lemma RivalIsOdd(f: Format, x: real, z: real)
    requires x > 0.0 && Finite(f, z)
    requires z != Magnitude(f, x) && Abs(x - z) == Abs(x - Magnitude(f, x))
    ensures !EvenSignificand(f, z)
  {
    NearestFinite(f, x, z);
    var m := Significand(f, x);
    OddMultiple(f, x, z, if z == Scaled(Two, (m + 1) as real, Spacing(f, x)) then m + 1 else m - 1);
  }

  /** An odd multiple of the spacing of x that ties with the rounded value is not even. */
  lemma OddMultiple(f: Format, x: real, z: real, n: int)
    requires x > 0.0 && n % 2 != 0
    requires z == Scaled(Two, n as real, Spacing(f, x))
    requires Abs(x - Magnitude(f, x)) == Abs(x - z)
    ensures !EvenSignificand(f, z)
  {
    var k := Spacing(f, x);
    forall m, j | Canonical(f, m, j, z) && m % 2 == 0
      ensures false
    {
      if k <= j {
        var n' := EncodedMultiple(f, m, j, z, k);
        ScaledOrder(Two, n as real, n' as real, k);
      } else {
        FinerIsSmaller(f, m, j, z, k);
        var t := Scaled(Two, x, -k);
        SpacingFacts(f, x, t);
        NearestMultiple(t, Significand(f, x), f.Hidden(), k);
        ScaledOrder(Two, t, f.Hidden() as real, k);
      }
    }
  }

  // ---------------------------------------------------------------- consequences

  lemma RoundIsMonotone(f: Format, x1: real, x2: real)
    requires x1 <= x2 && Round(f, x1).Ok? && Round(f, x2).Ok?
    ensures Round(f, x1).value <= Round(f, x2).value
  {
    RoundIsNearestEven(f, x1);
    RoundIsNearestEven(f, x2);
    var y1, y2 := Round(f, x1).value, Round(f, x2).value;
    assert Abs(x1 - y1) <= Abs(x1 - y2);
    assert Abs(x2 - y2) <= Abs(x2 - y1);
  }

  /** Which numbers are accepted, and why the others are not. */
  lemma AcceptedRange(f: Format, x: real)
    ensures Round(f, x) == Err(RoundsToZero) <==> 0.0 < Abs(x) <= Pow(Two, f.low - f.digits)
    ensures Round(f, x) == Err(Overflow) <==>
            Pow(Two, f.high + 1) - Pow(Two, f.high - f.digits) <= Abs(x)
    ensures Round(f, x).Ok? <==>
            x == 0.0 ||
            Pow(Two, f.low - f.digits) < Abs(x) < Pow(Two, f.high + 1) - Pow(Two, f.high - f.digits)
  {
    PowPositive(Two, f.low - f.digits);
    PowGrows(Two, f.low - f.digits, f.high);
    PowGrows(Two, f.high, f.high + 1);
    PowGrows(Two, f.high - f.digits, f.high);
    if x != 0.0 {
      RangeTest(f, x);
      AcceptedLow(f, x);
      AcceptedHigh(f, x);
    }
  }

  lemma AcceptedLow(f: Format, x: real)
    requires x != 0.0
    ensures Significand(f, x) == 0 <==> Abs(x) <= Pow(Two, f.low - f.digits)
  {
    var k := Spacing(f, x);
    var t := Scaled(Two, Abs(x), -k);
    SpacingFacts(f, x, t);
    SignificandBounds(f, x);
    HalfEven(t, Significand(f, x));
    if k == f.Least() {
      ScaledOrder(Two, 0.5, t, k);
      HalfPower(k);
    } else {
      ScaledOrder(Two, t, f.Hidden() as real, k);
      Carry(f, k - 1);
      PowGrows(Two, f.low - f.digits, f.digits + k - 1);
    }
  }

  lemma HalfPower(k: int)
    ensures Scaled(Two, 0.5, k) == Pow(Two, k - 1)
  {
    ScaledScaled(Two, 1.0, -1, k);
    assert Scaled(Two, 1.0, -1) == 0.5;
  }

  lemma AcceptedHigh(f: Format, x: real)
    requires x != 0.0
    ensures Magnitude(f, x) >= Pow(Two, f.high + 1) <==>
            Pow(Two, f.high + 1) - Pow(Two, f.high - f.digits) <= Abs(x)
  {
    RangeTest(f, x);
    var k := Spacing(f, x);
    var t := Scaled(Two, Abs(x), -k);
    var e := k + f.digits - 1;
    SpacingFacts(f, x, t);
    if e > f.high {
      PowPositive(Two, f.high - f.digits);
      ScaledGrows(Two, 1.0, f.high + 1, e);
      ScaledOrder(Two, t, f.Hidden() as real, k);
      Carry(f, k - 1);
    } else if e == f.high {
      AcceptedTop(f, x, t);
    } else {
      Carry(f, k);
      ScaledOrder(Two, t, f.Bound() as real, k);
      ScaledGrows(Two, 1.0, e + 1, f.high);
      PowGrows(Two, f.high - f.digits, f.high);
      ScaledStep(Two, 1.0, f.high);
    }
  }

  /** In the topmost binade a number overflows from half a spacing below the next power. */
  lemma AcceptedTop(f: Format, x: real, t: real)
    requires x != 0.0 && Spacing(f, x) == f.high - f.digits + 1
    requires t == Scaled(Two, Abs(x), -Spacing(f, x))
    ensures Significand(f, x) == f.Bound() <==>
            Pow(Two, f.high + 1) - Pow(Two, f.high - f.digits) <= Abs(x)
  {
    var k := Spacing(f, x);
    SpacingFacts(f, x, t);
    SignificandBounds(f, x);
    HalfEven(t, Significand(f, x));
    var edge := f.Bound() as real - 0.5;
    ScaledSum(Two, f.Bound() as real, 0.5, k);
    HalfPower(k);
    ScaledOrder(Two, t, edge, k);
    Carry(f, k);
    assert f.Bound() == 2 * f.Hidden();
    assert Significand(f, x) == f.Bound() <==> edge <= t;
  }

  lemma RoundKeepsFinite(f: Format, y: real)
    requires Finite(f, y)
    ensures Round(f, y) == Ok(y)
  {
    FiniteInRange(f, y);
    RoundIsNearestEven(f, y);
    assert Abs(y - Round(f, y).value) <= Abs(y - y);
  }

  lemma FiniteInRange(f: Format, y: real)
    requires Finite(f, y)
    ensures Abs(y) <= Pow(Two, f.high + 1) - Pow(Two, f.high - f.digits + 1)
    ensures y != 0.0 ==> Pow(Two, f.Least()) <= Abs(y)
    ensures Round(f, y).Ok?
  {
    var m, k :| Encodes(f, m, k, y);
    var n := if m < 0 then -m else m;
    Negated(f, y);
    assert Abs(y) == Scaled(Two, n as real, k) by {
      ScaledSum(Two, 0.0, m as real, k);
      ScaledOrder(Two, 0.0, m as real, k);
    }
    var top := (f.Bound() - 1) as real;
    var last := f.high - f.digits + 1;
    ScaledOrder(Two, n as real, top, k);
    ScaledGrows(Two, top, k, last);
    ScaledSum(Two, f.Bound() as real, 1.0, last);
    Carry(f, last);
    if y != 0.0 {
      ScaledOrder(Two, 0.0, n as real, k);
      ScaledOrder(Two, 1.0, n as real, k);
      ScaledGrows(Two, 1.0, f.Least(), k);
    }
    AcceptedRange(f, y);
    PowGrows(Two, f.low - f.digits, f.Least());
    PowGrows(Two, f.high - f.digits, last);
  }
}
