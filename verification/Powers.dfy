/**
 Exact scaling by powers of two and of ten.

 `Scaled(b, x, e)` is x times b^e for any integer e. Writing it this way, and not as a product,
 keeps every fact about it linear.
 */
module Powers {

  datatype Base = Two | Ten

  function Times(b: Base, x: real): real {
    match b case Two => 2.0 * x case Ten => 10.0 * x
  }

  function Over(b: Base, x: real): real {
    match b case Two => x / 2.0 case Ten => x / 10.0
  }

  function Scaled(b: Base, x: real, e: int): real
    decreases if e < 0 then -e else e
  {
    if e == 0 then x
    else if e > 0 then Times(b, Scaled(b, x, e - 1))
    else Over(b, Scaled(b, x, e + 1))
  }

  function Pow(b: Base, e: int): real {
    Scaled(b, 1.0, e)
  }

  lemma ScaledStep(b: Base, x: real, e: int)
    ensures Scaled(b, x, e + 1) == Times(b, Scaled(b, x, e))
  {
  }

  lemma {:induction false} ScaledScaled(b: Base, x: real, e1: int, e2: int)
    ensures Scaled(b, Scaled(b, x, e1), e2) == Scaled(b, x, e1 + e2)
    decreases if e2 < 0 then -e2 else e2
  {
    if e2 > 0 {
      ScaledScaled(b, x, e1, e2 - 1);
      ScaledStep(b, x, e1 + e2 - 1);
    } else if e2 < 0 {
      ScaledScaled(b, x, e1, e2 + 1);
      ScaledStep(b, x, e1 + e2);
    }
  }

  lemma {:induction false} ScaledSum(b: Base, x: real, y: real, e: int)
    ensures Scaled(b, x + y, e) == Scaled(b, x, e) + Scaled(b, y, e)
    ensures Scaled(b, x - y, e) == Scaled(b, x, e) - Scaled(b, y, e)
    decreases if e < 0 then -e else e
  {
    if e > 0 {
      ScaledSum(b, x, y, e - 1);
    } else if e < 0 {
      ScaledSum(b, x, y, e + 1);
    }
  }

  lemma {:induction false} ScaledOrder(b: Base, x: real, y: real, e: int)
    ensures x < y <==> Scaled(b, x, e) < Scaled(b, y, e)
    ensures x == y <==> Scaled(b, x, e) == Scaled(b, y, e)
    ensures Scaled(b, 0.0, e) == 0.0
    decreases if e < 0 then -e else e
  {
    if e > 0 {
      ScaledOrder(b, x, y, e - 1);
    } else if e < 0 {
      ScaledOrder(b, x, y, e + 1);
    }
  }

  lemma {:induction false} ScaledGrows(b: Base, x: real, e1: int, e2: int)
    requires x >= 0.0 && e1 <= e2
    ensures Scaled(b, x, e1) <= Scaled(b, x, e2)
    ensures e1 < e2 ==> Times(b, Scaled(b, x, e1)) <= Scaled(b, x, e2)
    decreases e2 - e1
  {
    ScaledOrder(b, 0.0, x, e1);
    if e1 < e2 {
      ScaledGrows(b, x, e1, e2 - 1);
      ScaledStep(b, x, e2 - 1);
    }
  }

  lemma PowPositive(b: Base, e: int)
    ensures Pow(b, e) > 0.0
  {
    ScaledOrder(b, 0.0, 1.0, e);
  }

  lemma PowGrows(b: Base, e1: int, e2: int)
    requires e1 < e2
    ensures Pow(b, e1) < Times(b, Pow(b, e1)) <= Pow(b, e2)
  {
    PowPositive(b, e1);
    ScaledGrows(b, 1.0, e1, e2);
  }

  lemma {:induction false} TimesPower(b: Base, x: real, e: int)
    ensures x * Pow(b, e) == Scaled(b, x, e)
    decreases if e < 0 then -e else e
  {
    if e > 0 {
      TimesPower(b, x, e - 1);
    } else if e < 0 {
      TimesPower(b, x, e + 1);
    }
  }

  lemma OverPower(b: Base, x: real, e: int)
    ensures Pow(b, e) > 0.0 && x / Pow(b, e) == Scaled(b, x, -e)
  {
    PowPositive(b, e);
    TimesPower(b, Scaled(b, x, -e), e);
    ScaledScaled(b, x, -e, e);
    Quotient(Scaled(b, x, -e), Pow(b, e), x);
  }

  lemma Quotient(q: real, d: real, x: real)
    requires d > 0.0 && q * d == x
    ensures x / d == q
  {
    var r := x / d;
    assert r * d == x;
    assert (r - q) * d == 0.0;
  }

  /** With a natural exponent the power is a natural number. */
  function PowNat(b: Base, e: nat): (r: int)
    ensures r > 0
    ensures r as real == Pow(b, e)
  {
    if e == 0 then 1 else
      match b case Two => 2 * PowNat(b, e - 1) case Ten => 10 * PowNat(b, e - 1)
  }

  /** An integer scaled up by powers of two is an integer. */
  function ScaledInt(m: int, e: nat): (r: int)
    ensures r as real == Scaled(Two, m as real, e)
    ensures m % 2 == 0 ==> r % 2 == 0
  {
    if e == 0 then m else 2 * ScaledInt(m, e - 1)
  }

  /** The exponent of the power at or just below x: b^e <= x < b^(e+1). */
  function Scale(b: Base, x: real): (e: int)
    requires x > 0.0
    ensures Pow(b, e) <= x < Pow(b, e + 1)
    decreases if x >= Times(b, 1.0) then x.Floor else if x < 1.0 then (1.0 / x).Floor else 0
  {
    if x >= Times(b, 1.0) then
      var e := Scale(b, Over(b, x));
      ScaledStep(b, 1.0, e);
      ScaledStep(b, 1.0, e + 1);
      e + 1
    else if x < 1.0 then
      ScaleUp(b, x);
      var e := Scale(b, Times(b, x));
      ScaledStep(b, 1.0, e - 1);
      ScaledStep(b, 1.0, e);
      e - 1
    else
      assert Pow(b, 1) == Times(b, Pow(b, 0));
      0
  }

  lemma ScaleUp(b: Base, x: real)
    requires 0.0 < x < 1.0
    ensures (1.0 / x).Floor >= 1
    ensures Times(b, x) < 1.0 ==> (1.0 / Times(b, x)).Floor < (1.0 / x).Floor
  {
    var s, t := 1.0 / x, 1.0 / Times(b, x);
    assert s * x == 1.0;
    assert s > 1.0;
    assert t * Times(b, x) == 1.0;
    assert Times(b, t) == s by {
      assert Times(b, t) * x == 1.0;
      assert (Times(b, t) - s) * x == 0.0;
    }
  }

  /** Scale is the only exponent with that property. */
  lemma ScaleUnique(b: Base, x: real, e: int)
    requires x > 0.0
    requires Pow(b, e) <= x < Pow(b, e + 1)
    ensures e == Scale(b, x)
  {
    var s := Scale(b, x);
    if s < e {
      ScaledGrows(b, 1.0, s + 1, e);
    } else if e < s {
      ScaledGrows(b, 1.0, e + 1, s);
    }
  }
}
