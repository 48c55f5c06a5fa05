/** Decimal arithmetic as the scoring core uses it: every operation is exact and
    is then rounded half-even to 28 significant digits.  Values are reals; the two
    roundings (to significant digits, and to a fixed number of places) are explicit. */
module Decimal {
  import opened Wrappers
  import opened Reals

  const PRECISION: int := 28

  // ---------------------------------------------------------------- moving the decimal point

  /** x times ten to the k. */
  function Scaleb(x: real, k: int): real
    decreases if k < 0 then -k else k
  {
    if k == 0 then x else if k > 0 then 10.0 * Scaleb(x, k - 1) else Scaleb(x, k + 1) / 10.0
  }

  lemma ScalebStep(x: real, k: int)
    ensures Scaleb(x, k + 1) == 10.0 * Scaleb(x, k)
  {
  }

  lemma {:induction false} ScalebScaleb(x: real, a: int, b: int)
    ensures Scaleb(Scaleb(x, a), b) == Scaleb(x, a + b)
    decreases if b < 0 then -b else b
  {
    if b > 0 {
      ScalebScaleb(x, a, b - 1);
      ScalebStep(x, a + b - 1);
    } else if b < 0 {
      ScalebScaleb(x, a, b + 1);
      ScalebStep(x, a + b);
    }
  }

  lemma {:induction false} ScalebLinear(x: real, y: real, k: int)
    ensures Scaleb(x + y, k) == Scaleb(x, k) + Scaleb(y, k)
    ensures Scaleb(x - y, k) == Scaleb(x, k) - Scaleb(y, k)
    ensures Scaleb(-x, k) == -Scaleb(x, k)
    ensures Scaleb(0.5 * x, k) == 0.5 * Scaleb(x, k)
    decreases if k < 0 then -k else k
  {
    if k > 0 {
      ScalebLinear(x, y, k - 1);
    } else if k < 0 {
      ScalebLinear(x, y, k + 1);
    }
  }

  lemma {:induction false} ScalebOrder(x: real, y: real, k: int)
    ensures x <= y <==> Scaleb(x, k) <= Scaleb(y, k)
    ensures x < y <==> Scaleb(x, k) < Scaleb(y, k)
    ensures Scaleb(0.0, k) == 0.0
    decreases if k < 0 then -k else k
  {
    if k > 0 {
      ScalebOrder(x, y, k - 1);
    } else if k < 0 {
      ScalebOrder(x, y, k + 1);
    }
  }

  lemma {:induction false} ScalebGrows(x: real, a: int, b: int)
    requires x >= 0.0 && a <= b
    ensures Scaleb(x, a) <= Scaleb(x, b)
    decreases b - a
  {
    if a < b {
      ScalebGrows(x, a, b - 1);
      ScalebStep(x, b - 1);
      ScalebOrder(0.0, x, b - 1);
    }
  }

  /** An integer followed by n zeros. */
  function Shifted(c: int, n: nat): (r: int)
    ensures r as real == Scaleb(c as real, n)
  {
    if n == 0 then c else 10 * Shifted(c, n - 1)
  }

  /** The power of ten whose digit is at position k. */
  function Pow10(k: int): (p: real)
    ensures p > 0.0
  {
    ScalebOrder(0.0, 1.0, k);
    Scaleb(1.0, k)
  }

  // ---------------------------------------------------------------- half-even rounding

  /** The nearest integer, ties to even. */
  function HalfEven(x: real): int {
    var f := x.Floor;
    var d := x - f as real;
    if d < 0.5 || (d == 0.5 && f % 2 == 0) then f else f + 1
  }

  ghost predicate IsNearestEven(n: int, x: real) {
    && Abs(n as real - x) <= 0.5
    && (Abs(n as real - x) == 0.5 ==> n % 2 == 0)
  }

  /** Nearest-with-ties-to-even determines the result. */
  lemma HalfEvenIsNearest(x: real, n: int)
    ensures n == HalfEven(x) <==> IsNearestEven(n, x)
  {
    var f := x.Floor;
    if IsNearestEven(n, x) {
      assert f - 1 < n < f + 2;
    }
  }

  lemma HalfEvenMonotone(x: real, y: real)
    requires x <= y
    ensures HalfEven(x) <= HalfEven(y)
  {
    HalfEvenIsNearest(x, HalfEven(x));
    HalfEvenIsNearest(y, HalfEven(y));
  }

  lemma HalfEvenNegate(x: real)
    ensures HalfEven(-x) == -HalfEven(x)
  {
    HalfEvenIsNearest(x, HalfEven(x));
    HalfEvenIsNearest(-x, -HalfEven(x));
  }

  lemma HalfEvenInteger(n: int)
    ensures HalfEven(n as real) == n
  {
    HalfEvenIsNearest(n as real, n);
  }

  // ---------------------------------------------------------------- rounding at a digit

  /** Half-even rounding to a multiple of ten to the k. */
  function RoundAt(x: real, k: int): real {
    Scaleb(HalfEven(Scaleb(x, -k)) as real, k)
  }

  lemma RoundAtMonotone(x: real, y: real, k: int)
    requires x <= y
    ensures RoundAt(x, k) <= RoundAt(y, k)
  {
    ScalebOrder(x, y, -k);
    HalfEvenMonotone(Scaleb(x, -k), Scaleb(y, -k));
    ScalebOrder(HalfEven(Scaleb(x, -k)) as real, HalfEven(Scaleb(y, -k)) as real, k);
  }

  lemma RoundAtNegate(x: real, k: int)
    ensures RoundAt(-x, k) == -RoundAt(x, k)
  {
    ScalebLinear(x, 0.0, -k);
    HalfEvenNegate(Scaleb(x, -k));
    ScalebLinear(HalfEven(Scaleb(x, -k)) as real, 0.0, k);
  }

  /** Multiples of ten to the k, or of a higher power, are kept. */
  lemma RoundAtExact(c: int, j: int, k: int)
    requires k <= j
    ensures RoundAt(Scaleb(c as real, j), k) == Scaleb(c as real, j)
  {
    ScalebScaleb(c as real, j, -k);
    HalfEvenInteger(Shifted(c, j - k));
    ScalebScaleb(c as real, j - k, k);
  }

  lemma RoundAtError(x: real, k: int)
    ensures Abs(RoundAt(x, k) - x) <= 0.5 * Pow10(k)
  {
    var y := Scaleb(x, -k);
    var n := HalfEven(y) as real;
    HalfEvenIsNearest(y, HalfEven(y));
    ScalebScaleb(x, -k, k);
    ScalebLinear(n, y, k); ScalebLinear(1.0, 0.0, k); ScalebLinear(0.5, 0.0, k);
    ScalebOrder(n - y, 0.5, k); ScalebOrder(-0.5, n - y, k);
  }

  // ---------------------------------------------------------------- 28 significant digits

  /** The position of the first significant digit. */
  function Exponent(x: real): (e: int)
    requires x > 0.0
    ensures Pow10(e) <= x < Pow10(e + 1)
    decreases if x >= 10.0 then x.Floor else if x < 1.0 then (1.0 / x).Floor else 0
  {
    if x >= 10.0 then
      var e := Exponent(x / 10.0);
      ScalebStep(1.0, e); ScalebStep(1.0, e + 1);
      e + 1
    else if x < 1.0 then
      ShrinkReciprocal(x);
      var e := Exponent(x * 10.0);
      ScalebStep(1.0, e); ScalebStep(1.0, e - 1);
      e - 1
    else
      0
  }

  lemma ShrinkReciprocal(x: real)
    requires 0.0 < x < 1.0
    ensures (1.0 / x).Floor >= 1
    ensures x * 10.0 < 1.0 ==> (1.0 / (x * 10.0)).Floor < (1.0 / x).Floor
  {
    assert 1.0 / x > 1.0;
    var r := 1.0 / x;
    assert (r / 10.0) * (x * 10.0) == 1.0;
  }

  /** One rounding of the 28-digit half-even context. */
  function Round(x: real): real {
    if x == 0.0 then 0.0 else RoundAt(x, Exponent(Abs(x)) - (PRECISION - 1))
  }

  predicate Representable(x: real) {
    Round(x) == x
  }

  /** Rounding lands between the powers of ten around its argument. */
  lemma RoundWithinDecade(x: real)
    requires x > 0.0
    ensures Pow10(Exponent(x)) <= Round(x) <= Pow10(Exponent(x) + 1)
  {
    var e := Exponent(x);
    RoundAtMonotone(Pow10(e), x, e - 27);
    RoundAtMonotone(x, Pow10(e + 1), e - 27);
    RoundAtExact(1, e, e - 27);
    RoundAtExact(1, e + 1, e - 27);
  }

  lemma RoundNegate(x: real)
    ensures Round(-x) == -Round(x)
  {
    if x != 0.0 { RoundAtNegate(x, Exponent(Abs(x)) - 27); }
  }

  lemma RoundSign(x: real)
    ensures x >= 0.0 ==> Round(x) >= 0.0
    ensures x > 0.0 ==> Round(x) > 0.0
  {
    if x > 0.0 { RoundWithinDecade(x); }
  }

  lemma RoundMonotonePositive(x: real, y: real)
    requires 0.0 < x <= y
    ensures Round(x) <= Round(y)
  {
    hide RoundAt, Scaleb;
    var e, k := Exponent(x), Exponent(y);
    RoundWithinDecade(x); RoundWithinDecade(y);
    if k < e {
      ScalebGrows(1.0, k + 1, e);
    } else if e < k {
      ScalebGrows(1.0, e + 1, k);
    } else {
      RoundAtMonotone(x, y, e - 27);
    }
  }

  /** The 28-digit context is monotone. */
  lemma RoundMonotone(x: real, y: real)
    requires x <= y
    ensures Round(x) <= Round(y)
  {
    RoundSign(y); RoundNegate(x); RoundSign(-x);
    if x > 0.0 {
      RoundMonotonePositive(x, y);
    } else if y < 0.0 {
      RoundNegate(y);
      RoundMonotonePositive(-y, -x);
    }
  }

  /** It is exact on every number with at most 28 digits, whatever its exponent. */
  lemma RoundExact(c: int, k: int)
    requires -Shifted(1, 28) <= c <= Shifted(1, 28)
    ensures Representable(Scaleb(c as real, k))
  {
    hide Round, Shifted;
    ScalebOrder(0.0, 0.0, k);
    if c > 0 {
      RoundExactPositive(c, k);
    } else if c < 0 {
      RoundExactPositive(-c, k);
      ScalebLinear((-c) as real, 0.0, k);
      RoundNegate(Scaleb((-c) as real, k));
    } else {
      RoundSign(0.0); RoundNegate(0.0);
    }
  }

  lemma RoundExactPositive(c: int, k: int)
    requires 0 < c <= Shifted(1, 28)
    ensures Representable(Scaleb(c as real, k))
  {
    hide RoundAt, HalfEven, Shifted, Scaleb;
    ScalebOrder(0.0, c as real, k); ScalebOrder(0.0, 1.0, k + 28);
    var x := Scaleb(c as real, k);
    var e := Exponent(x);
    ScalebOrder(c as real, Shifted(1, 28) as real, k);
    ScalebScaleb(1.0, 28, k);
    if e - 27 <= k {
      RoundAtExact(c, k, e - 27);
    } else {
      ScalebGrows(1.0, k + 28, e);
      assert x == Pow10(k + 28) == Pow10(e);
      RoundAtExact(1, e, e - 27);
    }
  }

  /** Every rounded value has at most 28 digits, so rounding again changes nothing. */
  lemma RoundIdempotent(x: real)
    ensures Representable(Round(x))
  {
    hide Round;
    if x >= 0.0 {
      RoundIdempotentPositive(x);
    } else {
      RoundIdempotentPositive(-x);
      RoundNegate(-x); RoundNegate(Round(-x));
    }
  }

  lemma RoundIdempotentPositive(x: real)
    requires x >= 0.0
    ensures Representable(Round(x))
  {
    if x != 0.0 {
      var e := Exponent(x);
      CoefficientBound(x, e);
      RoundExact(HalfEven(Scaleb(x, 27 - e)), e - 27);
    }
  }

  lemma CoefficientBound(x: real, e: int)
    requires 0.0 < x < Pow10(e + 1)
    ensures 0 <= HalfEven(Scaleb(x, 27 - e)) <= Shifted(1, 28)
  {
    hide HalfEven, Scaleb;
    ScalebScaleb(1.0, e + 1, 27 - e);
    ScalebOrder(0.0, x, 27 - e); ScalebOrder(x, Pow10(e + 1), 27 - e);
    HalfEvenInteger(Shifted(1, 28)); HalfEvenInteger(0);
    HalfEvenMonotone(0.0, Scaleb(x, 27 - e));
    HalfEvenMonotone(Scaleb(x, 27 - e), Shifted(1, 28) as real);
  }

  lemma RoundInteger(c: int)
    requires -1000 <= c <= 1000
    ensures Representable(c as real)
  {
    assert Shifted(1, 4) == 10000;
    ScalebGrows(1.0, 4, 28);
    RoundExact(c, 0);
  }

  /** Every operation's relative error is at most half a unit in the 28th digit. */
  lemma RoundError(x: real)
    ensures Abs(Round(x) - x) <= 0.5 * Scaleb(Abs(x), -27)
  {
    ScalebOrder(0.0, 0.0, -27);
    if x != 0.0 {
      var e := Exponent(Abs(x));
      RoundAtError(x, e - 27);
      ScalebScaleb(1.0, e, -27);
      ScalebOrder(Pow10(e), Abs(x), -27);
    }
  }

  // ---------------------------------------------------------------- quantize

  /** Decimal.quantize to a number of places: None is InvalidOperation, raised when
      the result would need more than 28 digits. */
  function Quantize(x: real, places: int): (r: Option<real>) {
    var c := HalfEven(Scaleb(x, places));
    if -Shifted(1, PRECISION) < c < Shifted(1, PRECISION) then Some(Scaleb(c as real, -places)) else None
  }

  /** Quantize is monotone wherever it succeeds, and succeeds between two successes. */
  lemma QuantizeMonotone(x: real, y: real, places: int)
    requires x <= y && Quantize(x, places).Some? && Quantize(y, places).Some?
    ensures Quantize(x, places).value <= Quantize(y, places).value
    ensures forall z :: x <= z <= y ==> Quantize(z, places).Some?
  {
    hide HalfEven, Scaleb;
    RoundAtMonotone(x, y, -places);
    forall z | x <= z <= y ensures Quantize(z, places).Some? {
      ScalebOrder(x, z, places); ScalebOrder(z, y, places);
      HalfEvenMonotone(Scaleb(x, places), Scaleb(z, places));
      HalfEvenMonotone(Scaleb(z, places), Scaleb(y, places));
    }
  }

  lemma QuantizeError(x: real, places: int)
    requires Quantize(x, places).Some?
    ensures Abs(Quantize(x, places).value - x) <= 0.5 * Pow10(-places)
  {
    RoundAtError(x, -places);
  }

  /** Quantizing again changes nothing. */
  lemma QuantizeIdempotent(x: real, places: int)
    requires Quantize(x, places).Some?
    ensures Quantize(Quantize(x, places).value, places) == Quantize(x, places)
  {
    var c := HalfEven(Scaleb(x, places));
    ScalebScaleb(c as real, -places, places);
    HalfEvenInteger(c);
  }

  /** Zero and one survive quantize whenever one has at most 28 digits. */
  lemma QuantizeUnit(places: int)
    requires 0 <= places < PRECISION
    ensures Quantize(0.0, places) == Some(0.0)
    ensures Quantize(1.0, places) == Some(1.0)
  {
    ScalebOrder(0.0, 0.0, places); ScalebOrder(0.0, 0.0, -places);
    HalfEvenInteger(0); HalfEvenInteger(Shifted(1, places));
    ScalebScaleb(1.0, places, -places);
    ScalebGrows(1.0, places, 27); ScalebStep(1.0, 27);
    ScalebOrder(0.0, 1.0, 27);
    ScalebGrows(1.0, 0, places);
  }
}
