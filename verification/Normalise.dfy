/** Piecewise-linear normalisation of one metric under the 28-digit context. */
module Normalise {
  import opened Wrappers
  import opened Reals
  import opened Decimal
  import opened ScoringSpec

  // ---------------------------------------------------------------- specification

  /** The first cut at or above the value, or the number of cuts. */
  function FirstCut(value: real, cuts: seq<real>): (i: nat)
    ensures i <= |cuts|
    ensures forall j :: 0 <= j < i ==> cuts[j] < value
    ensures i < |cuts| ==> value <= cuts[i]
  {
    if cuts == [] || value <= cuts[0] then 0 else 1 + FirstCut(value, cuts[1..])
  }

  /** Where the value falls in its segment, every operation rounded. */
  function Position(v: real, lo: real, hi: real): real
    requires lo < hi
  {
    RoundSign(hi - lo);
    Round(Over(Round(v - lo), Round(hi - lo)))
  }

  /** The point at that position on the segment's line, every operation rounded. */
  function Place(position: real, nlo: real, nhi: real): real {
    Round(nlo + Round(Times(position, Round(nhi - nlo))))
  }

  function Interpolate(v: real, lo: real, hi: real, nlo: real, nhi: real): real
    requires lo < v <= hi
  {
    Place(Position(v, lo, hi), nlo, nhi)
  }

  /** The same segment in exact arithmetic. */
  function ExactInterpolate(v: real, lo: real, hi: real, nlo: real, nhi: real): real
    requires lo < v <= hi
  {
    nlo + Times(Over(v - lo, hi - lo), nhi - nlo)
  }

  /** The normalised value before it is quantized. */
  function Blend(value: real, rule: Rule): real
    requires |rule.cuts| > 0 && |rule.normalised| == |rule.cuts| + 1
  {
    var i := FirstCut(value, rule.cuts);
    if i == 0 then rule.normalised[0]
    else if i == |rule.cuts| then rule.normalised[i]
    else Interpolate(value, rule.cuts[i - 1], rule.cuts[i], rule.normalised[i - 1], rule.normalised[i])
  }

  function ExactBlend(value: real, rule: Rule): real
    requires |rule.cuts| > 0 && |rule.normalised| == |rule.cuts| + 1
  {
    var i := FirstCut(value, rule.cuts);
    if i == 0 then rule.normalised[0]
    else if i == |rule.cuts| then rule.normalised[i]
    else ExactInterpolate(value, rule.cuts[i - 1], rule.cuts[i], rule.normalised[i - 1], rule.normalised[i])
  }

  function Normalised(value: real, rule: Rule, places: int): Option<real>
    requires |rule.cuts| > 0 && |rule.normalised| == |rule.cuts| + 1
  {
    Quantize(Blend(value, rule), places)
  }

  // ---------------------------------------------------------------- the search loop

  /** Needs no order on the cuts: a segment is entered only when it has positive length,
      so the division is defined even when a cut is repeated. */
  method NormaliseMetric(value: real, rule: Rule, places: int) returns (r: Option<real>)
    requires |rule.cuts| > 0 && |rule.normalised| == |rule.cuts| + 1
    ensures r == Normalised(value, rule, places)
  {
    hide Round, Times, Over, Quantize;
    var cuts, normalised := rule.cuts, rule.normalised;
    if value <= cuts[0] {
      return Quantize(normalised[0], places);
    }
    for index := 1 to |cuts|
      invariant forall j :: 0 <= j < index ==> cuts[j] < value
    {
      var upperCut := cuts[index];
      if value <= upperCut {
        var lowerCut, lowerNorm, upperNorm := cuts[index - 1], normalised[index - 1], normalised[index];
        var span := Round(upperCut - lowerCut);
        RoundSign(upperCut - lowerCut);
        var position := Round(Over(Round(value - lowerCut), span));
        var result := Round(lowerNorm + Round(Times(position, Round(upperNorm - lowerNorm))));
        assert FirstCut(value, cuts) == index;
        return Quantize(result, places);
      }
    }
    return Quantize(normalised[|normalised| - 1], places);
  }

  // ---------------------------------------------------------------- monotonicity

  /** Ascending values whose digits, and whose gaps' digits, fit the context. */
  ghost predicate ShortAscending(ns: seq<real>) {
    && Ascending(ns)
    && (forall i :: 0 <= i < |ns| ==> Representable(ns[i]))
    && (forall i :: 0 < i < |ns| ==> Representable(ns[i] - ns[i - 1]))
  }

  /** Rounding never takes the position outside the unit interval, nor reorders positions. */
  lemma PositionMonotone(v: real, w: real, lo: real, hi: real)
    requires lo < v <= w <= hi
    ensures 0.0 <= Position(v, lo, hi) <= Position(w, lo, hi) <= 1.0
  {
    hide Round, Over;
    RoundSign(hi - lo); RoundSign(v - lo); RoundInteger(1);
    RoundMonotone(v - lo, w - lo); RoundMonotone(w - lo, hi - lo);
    var a, b, span := Round(v - lo), Round(w - lo), Round(hi - lo);
    OverOrder(0.0, a, span); OverOrder(a, b, span); OverOrder(b, span, span);
    RoundSign(Over(a, span));
    RoundMonotone(Over(a, span), Over(b, span));
    RoundMonotone(Over(b, span), 1.0);
  }

  lemma PlaceMonotone(p: real, q: real, nlo: real, nhi: real)
    requires 0.0 <= p <= q <= 1.0 && nlo <= nhi
    requires Representable(nlo) && Representable(nhi) && Representable(nhi - nlo)
    ensures nlo <= Place(p, nlo, nhi) <= Place(q, nlo, nhi) <= nhi
  {
    hide Round, Times;
    var d := nhi - nlo;
    TimesOrder(0.0, p, d); TimesOrder(p, q, d); TimesOrder(q, 1.0, d);
    RoundSign(Times(p, d)); RoundMonotone(Times(p, d), Times(q, d)); RoundMonotone(Times(q, d), d);
    RoundMonotone(nlo, nlo + Round(Times(p, d)));
    RoundMonotone(nlo + Round(Times(p, d)), nlo + Round(Times(q, d)));
    RoundMonotone(nlo + Round(Times(q, d)), nhi);
  }

  lemma InterpolateMonotone(v: real, w: real, lo: real, hi: real, nlo: real, nhi: real)
    requires lo < v <= w <= hi && nlo <= nhi
    requires Representable(nlo) && Representable(nhi) && Representable(nhi - nlo)
    ensures nlo <= Interpolate(v, lo, hi, nlo, nhi) <= Interpolate(w, lo, hi, nlo, nhi) <= nhi
  {
    PositionMonotone(v, w, lo, hi);
    PlaceMonotone(Position(v, lo, hi), Position(w, lo, hi), nlo, nhi);
  }

  lemma BlendInSegment(value: real, rule: Rule)
    requires WellFormedRule(rule) && ShortAscending(rule.normalised)
    ensures var i := FirstCut(value, rule.cuts);
            && (if i == 0 then 0 else i - 1) < |rule.normalised|
            && rule.normalised[if i == 0 then 0 else i - 1] <= Blend(value, rule) <= rule.normalised[i]
  {
    hide Round, Times, Over, Interpolate, FirstCut;
    var i := FirstCut(value, rule.cuts);
    if 0 < i < |rule.cuts| {
      InterpolateMonotone(value, value, rule.cuts[i - 1], rule.cuts[i], rule.normalised[i - 1], rule.normalised[i]);
    }
  }

  /** Monotone inside each segment, across segments, and over the final jump. */
  lemma BlendMonotone(v: real, w: real, rule: Rule)
    requires WellFormedRule(rule) && ShortAscending(rule.normalised)
    requires v <= w
    ensures Blend(v, rule) <= Blend(w, rule)
  {
    hide Round, Times, Over, Interpolate, FirstCut;
    var i, j := FirstCut(v, rule.cuts), FirstCut(w, rule.cuts);
    BlendInSegment(v, rule); BlendInSegment(w, rule);
    assert i <= j by {
      if j < i { assert false; }
    }
    if 0 < i == j < |rule.cuts| {
      InterpolateMonotone(v, w, rule.cuts[i - 1], rule.cuts[i], rule.normalised[i - 1], rule.normalised[i]);
    }
  }

  /** The metric's normalised value is monotone in the raw value, lies between the first
      and the last normalised value, and exists whenever those two can be quantized. */
  lemma NormalisedMonotone(v: real, w: real, rule: Rule, places: int)
    requires WellFormedRule(rule) && ShortAscending(rule.normalised)
    requires v <= w
    requires Quantize(rule.normalised[0], places).Some?
    requires Quantize(rule.normalised[|rule.cuts|], places).Some?
    ensures Normalised(v, rule, places).Some? && Normalised(w, rule, places).Some?
    ensures Quantize(rule.normalised[0], places).value
         <= Normalised(v, rule, places).value
         <= Normalised(w, rule, places).value
         <= Quantize(rule.normalised[|rule.cuts|], places).value
  {
    var first, last := rule.normalised[0], rule.normalised[|rule.cuts|];
    BlendInSegment(v, rule); BlendInSegment(w, rule);
    assert first <= Blend(v, rule) <= last && first <= Blend(w, rule) <= last;
    QuantizeMonotone(first, last, places);
    BlendMonotone(v, w, rule);
    QuantizeMonotone(first, Blend(v, rule), places);
    QuantizeMonotone(Blend(v, rule), Blend(w, rule), places);
    QuantizeMonotone(Blend(w, rule), last, places);
  }

  lemma DifferenceRepresentable(a: int, b: int, k: int)
    requires Short(a) && Short(b)
    ensures Representable(Scaleb(a as real, k))
    ensures Representable(Scaleb(a as real, k) - Scaleb(b as real, k))
  {
    hide Round, Scaleb;
    ScalebLinear(a as real, b as real, k);
    assert (a - b) as real == a as real - b as real;
    assert Shifted(1, 28) == 10 * Shifted(1, 27);
    RoundExact(a - b, k);
    RoundExact(a, k);
  }

  predicate Short(c: int) {
    -Shifted(1, 27) <= c <= Shifted(1, 27)
  }

  /** A condition on the text of a rule that makes its values short: at most 27 digits once
      all of them are written with the same number of decimal places. */
  lemma ScaledIntegersAreShort(ns: seq<real>, cs: seq<int>, places: int)
    requires |cs| == |ns|
    requires forall i :: 0 <= i < |ns| ==> Short(cs[i]) && ns[i] == Scaleb(cs[i] as real, -places)
    requires forall i, j :: 0 <= i < j < |cs| ==> cs[i] <= cs[j]
    ensures ShortAscending(ns)
  {
    hide Round, Scaleb, Short;
    forall i, j | 0 <= i < j < |ns| ensures ns[i] <= ns[j] {
      ScalebOrder(cs[i] as real, cs[j] as real, -places);
    }
    forall i | 0 <= i < |ns| ensures Representable(ns[i]) {
      DifferenceRepresentable(cs[i], cs[i], -places);
    }
    forall i | 0 < i < |ns| ensures Representable(ns[i] - ns[i - 1]) {
      DifferenceRepresentable(cs[i], cs[i - 1], -places);
    }
  }

  // ---------------------------------------------------------------- error of the roundings

  /** Half a unit in the 28th digit of a number with one digit before the point. */
  const HALF_ULP: real := 0.5 * Pow10(-27)

  lemma {:induction false} ScalebProduct(x: real, k: int)
    requires k >= 0
    ensures Scaleb(x, -k) == Times(x, Pow10(-k))
  {
    if k > 0 {
      ScalebProduct(x, k - 1);
      var p := Pow10(-(k - 1));
      assert x * (p / 10.0) == x * p / 10.0;
    }
  }

  lemma RelativeError(x: real)
    ensures Abs(Round(x) - x) <= Times(HALF_ULP, Abs(x))
  {
    RoundError(x);
    ScalebProduct(Abs(x), 27);
    HalfTimes(Pow10(-27), Abs(x));
  }

  lemma HalfTimes(p: real, x: real)
    ensures 0.5 * Times(x, p) == Times(0.5 * p, x)
  {
  }

  lemma HalfUlpIsSmall()
    ensures 0.0 < HALF_ULP <= 0.05
  {
    ScalebGrows(1.0, -27, -1);
  }

  lemma RoundErrorUnder(x: real, bound: real)
    requires Abs(x) <= bound
    ensures Abs(Round(x) - x) <= Times(bound, HALF_ULP)
  {
    hide Round, Scaleb, Times, HALF_ULP;
    RelativeError(x); HalfUlpIsSmall();
    TimesOrder(Abs(x), bound, HALF_ULP);
    TimesDistributes(Abs(x), bound, HALF_ULP);
  }

  /** A rounded quotient of rounded operands, compared with the exact quotient. */
  lemma QuotientError(x: real, h: real, a: real, s: real, u: real)
    requires 0.0 < x <= h && 0.0 < u <= 0.05
    requires Abs(a - x) <= Times(u, x) && Abs(s - h) <= Times(u, h)
    requires 0.0 < a <= s
    ensures Abs(Over(a, s) - Over(x, h)) <= 3.0 * u
  {
    hide Times, Over;
    var r, t := Over(a, s), Over(x, h);
    OverOrder(a, s, s); OverOrder(0.0, x, h); OverOrder(x, x, h);
    SmallProduct(t, s - h, Times(u, h));
    Reassociate(t, u, h);
    assert Abs(Times(t, s - h)) <= Times(u, x);
    TimesDistributes(r, t, s); TimesDistributes(s, h, t);
    TimesDistributes(h, h, t); TimesDistributes(s - h, s, t);
    assert Times(r - t, s) == (a - x) - Times(t, s - h);
    SpanBound(h, s, u);
    TimesOrder(2.0 * x, 3.0 * s, u);
    DoubleTriple(u, x, s);
    CancelFactor(r - t, 3.0 * u, s);
  }

  lemma SpanBound(h: real, s: real, u: real)
    requires 0.0 < h && 0.0 < u <= 0.05 && Abs(s - h) <= Times(u, h)
    ensures 2.0 * h <= 3.0 * s
  {
    hide Times;
    TimesOrder(u, 0.05, h);
    TimesFactor(0.05, h);
  }

  lemma TimesFactor(c: real, x: real)
    ensures Times(c, x) == c * x
  {
  }

  lemma Reassociate(t: real, u: real, h: real)
    ensures Times(t, Times(u, h)) == Times(u, Times(t, h))
  {
  }

  lemma DoubleTriple(u: real, x: real, s: real)
    ensures Times(u, 2.0 * x) == 2.0 * Times(u, x)
    ensures Times(u, 3.0 * s) == Times(3.0 * u, s)
  {
  }

  lemma CancelFactor(e: real, bound: real, s: real)
    requires s > 0.0 && Abs(Times(e, s)) <= Times(bound, s)
    ensures Abs(e) <= bound
  {
    if e > bound { assert (e - bound) * s > 0.0; }
    if -e > bound { assert (-e - bound) * s > 0.0; }
  }

  lemma SmallProduct(t: real, e: real, bound: real)
    requires t >= 0.0 && Abs(e) <= bound
    ensures Abs(Times(t, e)) <= Times(t, bound)
  {
    assert t * (bound - e) >= 0.0 && t * (bound + e) >= 0.0;
  }

  lemma PositionError(v: real, lo: real, hi: real)
    requires lo < v <= hi
    ensures Abs(Position(v, lo, hi) - Over(v - lo, hi - lo)) <= 4.0 * HALF_ULP
  {
    hide Round, Scaleb, Times, Over, HALF_ULP;
    var x, h := v - lo, hi - lo;
    HalfUlpIsSmall();
    RelativeError(x); RelativeError(h); RoundSign(x); RoundMonotone(x, h);
    var a, s := Round(x), Round(h);
    QuotientError(x, h, a, s, HALF_ULP);
    OverOrder(0.0, a, s); OverOrder(a, s, s);
    RoundErrorUnder(Over(a, s), 1.0);
    TimesOrder(0.0, 1.0, HALF_ULP);
  }

  lemma PlaceError(p: real, t: real, nlo: real, nhi: real, bound: real)
    requires 0.0 <= p <= 1.0 && Abs(p - t) <= 4.0 * HALF_ULP
    requires -bound <= nlo <= nhi <= bound
    requires Representable(nlo) && Representable(nhi) && Representable(nhi - nlo)
    ensures Abs(Place(p, nlo, nhi) - (nlo + Times(t, nhi - nlo))) <= Times(5.0 * (nhi - nlo) + bound, HALF_ULP)
  {
    hide Round, Scaleb, Times, HALF_ULP;
    var d := nhi - nlo;
    HalfUlpIsSmall();
    TimesDistributes(p, t, d); TimesDistributes(p - t, p - t, d);
    SmallProduct(d, p - t, 4.0 * HALF_ULP);
    TimesOrder(0.0, p, d); TimesOrder(p, 1.0, d); TimesOrder(0.0, 1.0, d);
    RoundErrorUnder(Times(p, d), d);
    RoundMonotone(Times(p, d), d); RoundSign(Times(p, d));
    RoundErrorUnder(nlo + Round(Times(p, d)), bound);
    FiveTimes(d, bound, HALF_ULP);
  }

  lemma FiveTimes(d: real, bound: real, u: real)
    ensures Times(5.0 * d + bound, u) == Times(d, 4.0 * u) + Times(d, u) + Times(bound, u)
  {
  }

  /** Interpolating in 28 digits is, of the exact line, within five half-units for every unit of the
      segment's height and one for every unit of its magnitude. */
  lemma InterpolateError(v: real, lo: real, hi: real, nlo: real, nhi: real, bound: real)
    requires lo < v <= hi && -bound <= nlo <= nhi <= bound
    requires Representable(nlo) && Representable(nhi) && Representable(nhi - nlo)
    ensures Abs(Interpolate(v, lo, hi, nlo, nhi) - ExactInterpolate(v, lo, hi, nlo, nhi))
         <= Times(5.0 * (nhi - nlo) + bound, HALF_ULP)
  {
    hide Round, Scaleb, Times, Over, HALF_ULP, Position, Place;
    PositionMonotone(v, v, lo, hi);
    PositionError(v, lo, hi);
    PlaceError(Position(v, lo, hi), Over(v - lo, hi - lo), nlo, nhi, bound);
  }

  /** The difference between a rule's last and first normalised value. */
  function Height(rule: Rule): real
    requires |rule.normalised| > 0
  {
    rule.normalised[|rule.normalised| - 1] - rule.normalised[0]
  }

  /** The same for a whole rule, whatever range its normalised values span. */
  lemma BlendError(value: real, rule: Rule, bound: real)
    requires WellFormedRule(rule) && ShortAscending(rule.normalised)
    requires -bound <= rule.normalised[0] && rule.normalised[|rule.normalised| - 1] <= bound
    ensures Abs(Blend(value, rule) - ExactBlend(value, rule)) <= Times(5.0 * Height(rule) + bound, HALF_ULP)
  {
    hide Round, Times, Over, HALF_ULP, Interpolate, ExactInterpolate, FirstCut;
    HalfUlpIsSmall();
    BlendInSegment(value, rule);
    var i, ns := FirstCut(value, rule.cuts), rule.normalised;
    assert ns[0] <= ns[|ns| - 1];
    if 0 < i < |rule.cuts| {
      InterpolateError(value, rule.cuts[i - 1], rule.cuts[i], ns[i - 1], ns[i], bound);
      TimesOrder(5.0 * (ns[i] - ns[i - 1]) + bound, 5.0 * Height(rule) + bound, HALF_ULP);
    } else {
      TimesOrder(0.0, 5.0 * Height(rule) + bound, HALF_ULP);
      TimesFactor(0.0, HALF_ULP);
    }
  }

  predicate UnitRule(rule: Rule) {
    |rule.normalised| > 0 && rule.normalised[0] >= 0.0 && rule.normalised[|rule.normalised| - 1] <= 1.0
  }

  /** Six half-units, for values in the unit interval. */
  lemma UnitBlendError(value: real, rule: Rule)
    requires WellFormedRule(rule) && ShortAscending(rule.normalised) && UnitRule(rule)
    ensures Abs(Blend(value, rule) - ExactBlend(value, rule)) <= 6.0 * HALF_ULP
    ensures 0.0 <= Blend(value, rule) <= 1.0
  {
    hide Round, Times, HALF_ULP, Blend, ExactBlend;
    HalfUlpIsSmall();
    BlendError(value, rule, 1.0);
    BlendInSegment(value, rule);
    TimesOrder(5.0 * Height(rule) + 1.0, 6.0, HALF_ULP);
    TimesFactor(6.0, HALF_ULP);
  }
}
