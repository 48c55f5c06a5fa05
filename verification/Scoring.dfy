/** The weighted score of one repository, from raw metrics to the quantized blend. */
module Scoring {
  import opened Wrappers
  import opened Reals
  import opened Decimal
  import opened DecimalText
  import opened ScoringSpec
  import opened Normalise

  /** A raw metric: a number and the text recorded for it, text that is no number, or another type. */
  datatype RawMetric = Raw(number: real, text: string) | Garbage | Unsupported

  datatype ScoringFailure =
    | MissingMetric(metric: Metric)
    | WrongType(metric: Metric)
    | InvalidOperation
    | InvalidFormat
    | BadMode
    | BadCommit

  datatype Spec = Spec(
    specVersion: string, specHash: string, weights: map<Metric, real>, rules: map<Metric, Rule>,
    decimalPlaces: SafeInt, toolDigests: seq<(string, string)>)

  datatype MetricRecord = MetricRecord(raw: string, normalised: string)

  datatype Scored = Scored(metrics: seq<MetricRecord>, score: real)

  /** What the loader guarantees about a spec. */
  ghost predicate Loaded(spec: Spec) {
    && (forall m: Metric :: m in spec.weights && m in spec.rules && WellFormedRule(spec.rules[m]))
    && Total(Weights(spec)) == 1.0
  }

  function Weights(spec: Spec): (ws: seq<real>)
    requires forall m: Metric :: m in spec.weights
    ensures |ws| == |METRIC_NAMES| && forall i :: 0 <= i < |ws| ==> ws[i] == spec.weights[METRIC_NAMES[i]]
  {
    Values(spec.weights, METRIC_NAMES)
  }

  function DecimalString(value: real, places: int): Result<string, ScoringFailure> {
    if Quantize(value, places).None? then Err(InvalidOperation)
    else if places < 0 then Err(InvalidFormat)
    else Ok(FixedPoint(HalfEven(Scaleb(Quantize(value, places).value, places)), places))
  }

  // ---------------------------------------------------------------- specification

  /** The metrics' contributions, added up in order with every operation rounded. */
  function PartialScore(ns: seq<real>, ws: seq<real>): real
    requires |ns| == |ws|
  {
    if ns == [] then 0.0
    else
      var k := |ns| - 1;
      Round(PartialScore(ns[..k], ws[..k]) + Round(Times(ns[k], ws[k])))
  }

  function ExactSum(fs: seq<real>, ws: seq<real>): real
    requires |fs| == |ws|
  {
    if fs == [] then 0.0
    else
      var k := |fs| - 1;
      ExactSum(fs[..k], ws[..k]) + Times(fs[k], ws[k])
  }

  ghost predicate Usable(spec: Spec, raw: map<Metric, RawMetric>)
    requires Loaded(spec)
  {
    && (forall m: Metric :: m in raw && raw[m].Raw?)
    && (forall m: Metric :: Normalised(raw[m].number, spec.rules[m], spec.decimalPlaces).Some?)
    && spec.decimalPlaces >= 0
  }

  ghost function NormalisedValues(spec: Spec, raw: map<Metric, RawMetric>): (ns: seq<real>)
    requires Loaded(spec) && Usable(spec, raw)
    ensures |ns| == |METRIC_NAMES|
  {
    seq(|METRIC_NAMES|, i requires 0 <= i < |METRIC_NAMES| =>
      Normalised(raw[METRIC_NAMES[i]].number, spec.rules[METRIC_NAMES[i]], spec.decimalPlaces).value)
  }

  ghost function MetricRecords(spec: Spec, raw: map<Metric, RawMetric>): seq<MetricRecord>
    requires Loaded(spec) && Usable(spec, raw)
  {
    seq(|METRIC_NAMES|, i requires 0 <= i < |METRIC_NAMES| =>
      var m := METRIC_NAMES[i];
      var c := HalfEven(Scaleb(Blend(raw[m].number, spec.rules[m]), spec.decimalPlaces));
      MetricRecord(raw[m].text, FixedPoint(c, spec.decimalPlaces)))
  }

  // ---------------------------------------------------------------- the accumulation loop

  method ScoreMetrics(spec: Spec, raw: map<Metric, RawMetric>) returns (r: Result<Scored, ScoringFailure>)
    requires Loaded(spec)
    ensures r.Ok? <==> (Usable(spec, raw) && Score(spec, raw).Some?)
    ensures r.Ok? ==> r.value == Scored(MetricRecords(spec, raw), Score(spec, raw).value)
    ensures r.Err? && r.error.MissingMetric? ==> r.error.metric !in raw
    ensures r.Err? && r.error.WrongType? ==> r.error.metric in raw && raw[r.error.metric].Unsupported?
  {
    hide Round, Times, Blend, FixedPoint, Quantize, HalfEven, Scaleb, Recorded;
    var metricRecords: seq<MetricRecord> := [];
    var score := 0.0;
    ghost var ns: seq<real> := [];
    var ws := Weights(spec);
    for i := 0 to |METRIC_NAMES|
      invariant |ns| == |metricRecords| == i
      invariant score == PartialScore(ns, ws[..i])
      invariant forall k :: 0 <= k < i ==> Recorded(spec, raw, METRIC_NAMES[k], ns[k], metricRecords[k])
    {
      var metric := METRIC_NAMES[i];
      if metric !in raw { return Err(MissingMetric(metric)); }
      if raw[metric].Garbage? { return Err(InvalidOperation); }
      if raw[metric].Unsupported? { return Err(WrongType(metric)); }
      var normalised := NormaliseMetric(raw[metric].number, spec.rules[metric], spec.decimalPlaces);
      if normalised.None? { return Err(InvalidOperation); }
      score := Round(score + Round(Times(normalised.value, spec.weights[metric])));
      var text := DecimalString(normalised.value, spec.decimalPlaces);
      RecordedText(spec, raw, metric, normalised, text);
      if text.Err? { return Err(text.error); }
      metricRecords := metricRecords + [MetricRecord(raw[metric].text, text.value)];
      assert (ns + [normalised.value])[..i] == ns && ws[..i + 1][..i] == ws[..i];
      ns := ns + [normalised.value];
    }
    AllRecorded(spec, raw, ns, metricRecords);
    assert ws[..|METRIC_NAMES|] == ws;
    var quantized := Quantize(score, spec.decimalPlaces);
    if quantized.None? { return Err(InvalidOperation); }
    r := Ok(Scored(metricRecords, quantized.value));
  }

  /** One metric has been scored: its normalised value and its record are as specified. */
  ghost predicate Recorded(spec: Spec, raw: map<Metric, RawMetric>, m: Metric, n: real, record: MetricRecord)
    requires Loaded(spec)
  {
    && m in raw && raw[m].Raw? && spec.decimalPlaces >= 0
    && Normalised(raw[m].number, spec.rules[m], spec.decimalPlaces) == Some(n)
    && record == MetricRecord(raw[m].text, FixedPoint(
                   HalfEven(Scaleb(Blend(raw[m].number, spec.rules[m]), spec.decimalPlaces)), spec.decimalPlaces))
  }

  lemma RecordedText(spec: Spec, raw: map<Metric, RawMetric>, m: Metric, n: Option<real>,
                     text: Result<string, ScoringFailure>)
    requires Loaded(spec) && m in raw && raw[m].Raw?
    requires n.Some? && n == Normalised(raw[m].number, spec.rules[m], spec.decimalPlaces)
    requires text == DecimalString(n.value, spec.decimalPlaces)
    ensures text.Ok? <==> spec.decimalPlaces >= 0
    ensures text.Ok? ==> Recorded(spec, raw, m, n.value, MetricRecord(raw[m].text, text.value))
  {
    hide Blend, FixedPoint, HalfEven, Scaleb;
    QuantizeIdempotent(Blend(raw[m].number, spec.rules[m]), spec.decimalPlaces);
    QuantizedCoefficient(Blend(raw[m].number, spec.rules[m]), spec.decimalPlaces);
  }

  lemma AllRecorded(spec: Spec, raw: map<Metric, RawMetric>, ns: seq<real>, records: seq<MetricRecord>)
    requires Loaded(spec) && |ns| == |records| == |METRIC_NAMES|
    requires forall k :: 0 <= k < |METRIC_NAMES| ==> Recorded(spec, raw, METRIC_NAMES[k], ns[k], records[k])
    ensures Usable(spec, raw) && ns == NormalisedValues(spec, raw) && records == MetricRecords(spec, raw)
  {
    hide Blend, FixedPoint, HalfEven, Scaleb, Quantize;
    forall m: Metric ensures m in raw && raw[m].Raw?
      ensures Normalised(raw[m].number, spec.rules[m], spec.decimalPlaces).Some?
    {
      EveryMetric(m);
    }
  }

  lemma QuantizedCoefficient(x: real, places: int)
    requires Quantize(x, places).Some?
    ensures HalfEven(Scaleb(Quantize(x, places).value, places)) == HalfEven(Scaleb(x, places))
  {
    var c := HalfEven(Scaleb(x, places));
    ScalebScaleb(c as real, -places, places);
    HalfEvenInteger(c);
  }

  /** The text a metric was given, and one that reads as its normalised value. */
  ghost predicate Records(r: MetricRecord, raw: RawMetric, value: Option<real>, places: nat) {
    raw.Raw? && r.raw == raw.text && value.Some? && ReadFixed(r.normalised) as real == Scaleb(value.value, places)
  }

  /** What is recorded for each metric. */
  lemma MetricTexts(spec: Spec, raw: map<Metric, RawMetric>)
    requires Loaded(spec) && Usable(spec, raw)
    ensures forall m: Metric :: m in raw && raw[m].Raw?
    ensures var records, places := MetricRecords(spec, raw), spec.decimalPlaces;
            && |records| == 5
            && Records(records[0], raw[Cyclomatic],
                       Normalised(raw[Cyclomatic].number, spec.rules[Cyclomatic], places), places)
            && Records(records[1], raw[Cognitive],
                       Normalised(raw[Cognitive].number, spec.rules[Cognitive], places), places)
            && Records(records[2], raw[NestingDepth],
                       Normalised(raw[NestingDepth].number, spec.rules[NestingDepth], places), places)
            && Records(records[3], raw[FunctionLength],
                       Normalised(raw[FunctionLength].number, spec.rules[FunctionLength], places), places)
            && Records(records[4], raw[FileLength],
                       Normalised(raw[FileLength].number, spec.rules[FileLength], places), places)
  {
    hide Blend, Records, Normalised, FixedPoint, HalfEven, Scaleb;
    forall i | 0 <= i < 5
      ensures var m := METRIC_NAMES[i];
              Records(MetricRecords(spec, raw)[i], raw[m],
                      Normalised(raw[m].number, spec.rules[m], spec.decimalPlaces), spec.decimalPlaces)
    {
      OneText(spec, raw, METRIC_NAMES[i]);
    }
  }

  /** The text of a number already quantized reads as that number. */
  lemma ScoreReads(x: real, places: int, text: string)
    requires DecimalString(x, places) == Ok(text) && Quantize(x, places) == Some(x)
    ensures places >= 0 && ReadFixed(text) as real == Scaleb(x, places)
    ensures places > 0 ==> |text| > places + 1 && text[|text| - places - 1] == '.'
  {
    hide *;
    TextOfQuantized(x, places, text);
    QuantizedIs(x, places);
    var c := HalfEven(Scaleb(x, places));
    FixedPointRoundTrip(c, places);
    ScalebScaleb(c as real, -places, places);
    ScalebNone(c as real);
  }

  lemma TextOfQuantized(x: real, places: int, text: string)
    requires DecimalString(x, places) == Ok(text) && Quantize(x, places) == Some(x)
    ensures places >= 0 && text == FixedPoint(HalfEven(Scaleb(x, places)), places)
  {
    hide FixedPoint, HalfEven, Scaleb, Quantize;
  }

  lemma QuantizedIs(x: real, places: int)
    requires Quantize(x, places).Some?
    ensures Quantize(x, places).value == Scaleb(HalfEven(Scaleb(x, places)) as real, -places)
  {
    hide HalfEven, Scaleb;
  }

  lemma ScalebNone(x: real)
    ensures Scaleb(x, 0) == x
  {
  }

  lemma OneText(spec: Spec, raw: map<Metric, RawMetric>, m: Metric)
    requires Loaded(spec) && Usable(spec, raw)
    ensures var c := HalfEven(Scaleb(Blend(raw[m].number, spec.rules[m]), spec.decimalPlaces));
            Records(MetricRecord(raw[m].text, FixedPoint(c, spec.decimalPlaces)), raw[m],
                    Normalised(raw[m].number, spec.rules[m], spec.decimalPlaces), spec.decimalPlaces)
  {
    hide Blend, FixedPoint, HalfEven, Scaleb, ReadFixed;
    var c := HalfEven(Scaleb(Blend(raw[m].number, spec.rules[m]), spec.decimalPlaces));
    FixedPointRoundTrip(c, spec.decimalPlaces);
    ScalebScaleb(c as real, -spec.decimalPlaces, spec.decimalPlaces);
    ScalebNone(c as real);
  }

  // ---------------------------------------------------------------- the score's range and order

  ghost predicate UnitWeights(ws: seq<real>) {
    forall i :: 0 <= i < |ws| ==> ws[i] >= 0.0 && Representable(ws[i])
  }

  predicate UnitValues(ns: seq<real>) {
    forall i :: 0 <= i < |ns| ==> 0.0 <= ns[i] <= 1.0
  }

  /** The running score never passes the running total of the weights, roundings included. */
  lemma {:induction false} PartialScoreBounds(ns: seq<real>, ws: seq<real>)
    requires |ns| == |ws| && UnitWeights(ws) && UnitValues(ns)
    ensures 0.0 <= PartialScore(ns, ws) <= Total(ws)
  {
    hide Round, Times;
    if ns != [] {
      var k := |ns| - 1;
      PartialScoreBounds(ns[..k], ws[..k]);
      TimesOrder(0.0, ns[k], ws[k]); TimesOrder(ns[k], 1.0, ws[k]);
      var t := Times(ns[k], ws[k]);
      RoundSign(t); RoundMonotone(t, ws[k]);
      RoundSign(PartialScore(ns[..k], ws[..k]) + Round(t));
      RoundMonotone(PartialScore(ns[..k], ws[..k]) + Round(t), Total(ws[..k]) + ws[k]);
    }
  }

  predicate NonNegative(ws: seq<real>) {
    forall i :: 0 <= i < |ws| ==> ws[i] >= 0.0
  }

  lemma {:induction false} PartialScoreMonotone(ns: seq<real>, ms: seq<real>, ws: seq<real>)
    requires |ns| == |ms| == |ws| && NonNegative(ws)
    requires forall i :: 0 <= i < |ns| ==> ns[i] <= ms[i]
    ensures PartialScore(ns, ws) <= PartialScore(ms, ws)
  {
    hide Round, Times;
    if ns != [] {
      var k := |ns| - 1;
      PartialScoreMonotone(ns[..k], ms[..k], ws[..k]);
      TimesOrder(ns[k], ms[k], ws[k]);
      RoundMonotone(Times(ns[k], ws[k]), Times(ms[k], ws[k]));
      RoundMonotone(PartialScore(ns[..k], ws[..k]) + Round(Times(ns[k], ws[k])),
                    PartialScore(ms[..k], ws[..k]) + Round(Times(ms[k], ws[k])));
    }
  }

  /** What the loader does not check, and the order of scores needs: weights are not negative, and
      each rule's normalised values ascend and have, with their differences, at most 28 digits. */
  ghost predicate OrderedSpec(spec: Spec) {
    && Loaded(spec)
    && NonNegative(Weights(spec))
    && (forall m: Metric :: ShortAscending(spec.rules[m].normalised))
  }

  /** What makes every score exist and lie in [0, 1], and the shipped spec satisfies: further, weights
      have at most 28 digits, normalised values lie in [0, 1], and so few places are asked for that one
      fits. */
  ghost predicate UnitSpec(spec: Spec) {
    && Loaded(spec)
    && UnitWeights(Weights(spec))
    && (forall m: Metric :: ShortAscending(spec.rules[m].normalised) && UnitRule(spec.rules[m]))
    && 0 <= spec.decimalPlaces < PRECISION
  }

  ghost predicate AllNumbers(raw: map<Metric, RawMetric>) {
    forall m: Metric :: m in raw && raw[m].Raw?
  }

  ghost function Score(spec: Spec, raw: map<Metric, RawMetric>): Option<real>
    requires Loaded(spec) && Usable(spec, raw)
  {
    Quantize(PartialScore(NormalisedValues(spec, raw), Weights(spec)), spec.decimalPlaces)
  }

  lemma NormalisedInUnit(spec: Spec, m: Metric, v: real, w: real)
    requires UnitSpec(spec) && v <= w
    ensures Normalised(v, spec.rules[m], spec.decimalPlaces).Some?
            && Normalised(w, spec.rules[m], spec.decimalPlaces).Some?
    ensures 0.0 <= Normalised(v, spec.rules[m], spec.decimalPlaces).value
                <= Normalised(w, spec.rules[m], spec.decimalPlaces).value <= 1.0
  {
    hide Quantize, Blend;
    var rule, dp := spec.rules[m], spec.decimalPlaces;
    var first, last := rule.normalised[0], rule.normalised[|rule.cuts|];
    QuantizeUnit(dp);
    QuantizeMonotone(0.0, 1.0, dp);
    assert 0.0 <= first <= last <= 1.0;
    QuantizeMonotone(0.0, first, dp); QuantizeMonotone(last, 1.0, dp);
    NormalisedMonotone(v, w, rule, dp);
  }

  predicate InUnit(x: Option<real>) {
    x.Some? && 0.0 <= x.value <= 1.0
  }

  lemma UsableInUnit(spec: Spec, raw: map<Metric, RawMetric>)
    requires UnitSpec(spec) && AllNumbers(raw)
    ensures Usable(spec, raw)
    ensures UnitValues(NormalisedValues(spec, raw))
  {
    hide Quantize, Blend, Normalised, UnitWeights, ShortAscending, UnitRule, Total;
    forall m: Metric ensures InUnit(Normalised(raw[m].number, spec.rules[m], spec.decimalPlaces)) {
      NormalisedInUnit(spec, m, raw[m].number, raw[m].number);
    }
    var ns := NormalisedValues(spec, raw);
    forall i | 0 <= i < |ns| ensures 0.0 <= ns[i] <= 1.0 {
      assert InUnit(Normalised(raw[METRIC_NAMES[i]].number, spec.rules[METRIC_NAMES[i]], spec.decimalPlaces));
    }
  }

  /** Scoring numbers under such a spec always succeeds, with a score in [0, 1]. */
  lemma ScoreInUnit(spec: Spec, raw: map<Metric, RawMetric>)
    requires UnitSpec(spec) && AllNumbers(raw)
    ensures Usable(spec, raw) && Score(spec, raw).Some? && 0.0 <= Score(spec, raw).value <= 1.0
  {
    hide Round, Quantize, Normalised;
    UsableInUnit(spec, raw);
    var s := PartialScore(NormalisedValues(spec, raw), Weights(spec));
    PartialScoreBounds(NormalisedValues(spec, raw), Weights(spec));
    QuantizeUnit(spec.decimalPlaces);
    QuantizeMonotone(0.0, 1.0, spec.decimalPlaces);
    QuantizeMonotone(0.0, s, spec.decimalPlaces);
    QuantizeMonotone(s, 1.0, spec.decimalPlaces);
  }

  ghost predicate NoSmaller(raw: map<Metric, RawMetric>, raw': map<Metric, RawMetric>)
    requires AllNumbers(raw) && AllNumbers(raw')
  {
    forall m: Metric :: raw[m].number <= raw'[m].number
  }

  lemma NormalisedOrder(v: real, w: real, rule: Rule, places: int)
    requires WellFormedRule(rule) && ShortAscending(rule.normalised) && v <= w
    requires Normalised(v, rule, places).Some? && Normalised(w, rule, places).Some?
    ensures Normalised(v, rule, places).value <= Normalised(w, rule, places).value
  {
    hide Quantize, Blend;
    BlendMonotone(v, w, rule);
    QuantizeMonotone(Blend(v, rule), Blend(w, rule), places);
  }

  /** Raising any raw metric never lowers the score, whatever the roundings do and whatever range the
      normalised values span, as long as there are two scores to compare. */
  lemma ScoreMonotone(spec: Spec, raw: map<Metric, RawMetric>, raw': map<Metric, RawMetric>)
    requires OrderedSpec(spec) && Usable(spec, raw) && Usable(spec, raw') && NoSmaller(raw, raw')
    requires Score(spec, raw).Some? && Score(spec, raw').Some?
    ensures Score(spec, raw).value <= Score(spec, raw').value
  {
    hide Round, Quantize, Normalised, ShortAscending, Total;
    var ns, ms := NormalisedValues(spec, raw), NormalisedValues(spec, raw');
    forall i | 0 <= i < |ns| ensures ns[i] <= ms[i] {
      var m := METRIC_NAMES[i];
      NormalisedOrder(raw[m].number, raw'[m].number, spec.rules[m], spec.decimalPlaces);
    }
    PartialScoreMonotone(ns, ms, Weights(spec));
    QuantizeMonotone(PartialScore(ns, Weights(spec)), PartialScore(ms, Weights(spec)), spec.decimalPlaces);
  }

  /** Under a spec in [0, 1] there always are. */
  lemma UnitScoreMonotone(spec: Spec, raw: map<Metric, RawMetric>, raw': map<Metric, RawMetric>)
    requires UnitSpec(spec) && AllNumbers(raw) && AllNumbers(raw') && NoSmaller(raw, raw')
    ensures Usable(spec, raw) && Usable(spec, raw')
    ensures Score(spec, raw).Some? && Score(spec, raw').Some?
    ensures Score(spec, raw).value <= Score(spec, raw').value
  {
    UnitIsOrdered(spec);
    hide UnitSpec, OrderedSpec, Usable, Score, NoSmaller;
    ScoreInUnit(spec, raw); ScoreInUnit(spec, raw');
    ScoreMonotone(spec, raw, raw');
  }

  lemma UnitIsOrdered(spec: Spec)
    requires UnitSpec(spec)
    ensures OrderedSpec(spec)
  {
    hide ShortAscending, Total;
  }

  // ---------------------------------------------------------------- distance to the exact blend

  /** The blend with no rounding anywhere. */
  ghost function ExactScore(spec: Spec, raw: map<Metric, RawMetric>): real
    requires Loaded(spec) && AllNumbers(raw)
  {
    ExactSum(ExactBlends(spec, raw), Weights(spec))
  }

  ghost function ExactBlends(spec: Spec, raw: map<Metric, RawMetric>): (fs: seq<real>)
    requires Loaded(spec) && AllNumbers(raw)
    ensures |fs| == |METRIC_NAMES|
  {
    seq(|METRIC_NAMES|, i requires 0 <= i < |METRIC_NAMES| =>
      ExactBlend(raw[METRIC_NAMES[i]].number, spec.rules[METRIC_NAMES[i]]))
  }

  function ExactTotal(ws: seq<real>): real {
    if ws == [] then 0.0 else ExactTotal(ws[..|ws| - 1]) + ws[|ws| - 1]
  }

  lemma TotalRepresentable(ws: seq<real>)
    ensures Representable(Total(ws))
  {
    hide Round;
    if ws == [] { RoundInteger(0); } else { RoundIdempotent(Total(ws[..|ws| - 1]) + ws[|ws| - 1]); }
  }

  /** The running total is at least its last addend and its previous value. */
  lemma TotalGrows(ws: seq<real>)
    requires ws != [] && UnitWeights(ws)
    ensures var k := |ws| - 1; 0.0 <= ws[k] <= Total(ws) && 0.0 <= Total(ws[..k]) <= Total(ws)
    decreases |ws|
  {
    hide Round;
    var k := |ws| - 1;
    if k > 0 { TotalGrows(ws[..k]); }
    TotalRepresentable(ws[..k]);
    RoundMonotone(ws[k], Total(ws[..k]) + ws[k]);
    RoundMonotone(Total(ws[..k]), Total(ws[..k]) + ws[k]);
  }

  lemma {:induction false} TotalError(ws: seq<real>)
    requires UnitWeights(ws) && Total(ws) <= 1.0
    ensures Abs(Total(ws) - ExactTotal(ws)) <= |ws| as real * 2.0 * HALF_ULP
  {
    hide Round, HALF_ULP;
    if ws != [] {
      var k := |ws| - 1;
      TotalGrows(ws);
      TotalError(ws[..k]);
      RoundErrorUnder(Total(ws[..k]) + ws[k], 2.0);
      TimesFactor(2.0, HALF_ULP);
      assert (k + 1) as real * 2.0 * HALF_ULP == k as real * 2.0 * HALF_ULP + 2.0 * HALF_ULP;
    }
  }

  /** One term of the score: rounding it and adding it costs at most three half-units. */
  lemma TermError(s: real, n: real, f: real, w: real, e: real)
    requires 0.0 <= s <= 1.0 && 0.0 <= n <= 1.0 && 0.0 <= w <= 1.0 && Representable(w) && Abs(n - f) <= e
    ensures Abs(Round(s + Round(Times(n, w))) - (s + Times(f, w))) <= 3.0 * HALF_ULP + Times(w, e)
  {
    hide Round, HALF_ULP, Times;
    var t := Times(n, w);
    TimesOrder(0.0, n, w); TimesOrder(n, 1.0, w);
    RoundErrorUnder(t, 1.0);
    RoundSign(t); RoundMonotone(t, w);
    RoundErrorUnder(s + Round(t), 2.0);
    TimesFactor(1.0, HALF_ULP); TimesFactor(2.0, HALF_ULP);
    SmallProduct(w, n - f, e);
    TimesDistributes(n, f, w); TimesDistributes(n - f, 0.0, w);
  }

  lemma {:induction false} PartialScoreError(ns: seq<real>, fs: seq<real>, ws: seq<real>, e: real)
    requires |ns| == |fs| == |ws| && UnitWeights(ws) && Total(ws) <= 1.0 && UnitValues(ns) && e >= 0.0
    requires forall i :: 0 <= i < |ns| ==> Abs(ns[i] - fs[i]) <= e
    ensures Abs(PartialScore(ns, ws) - ExactSum(fs, ws)) <= |ns| as real * 3.0 * HALF_ULP + Times(ExactTotal(ws), e)
  {
    hide Round, HALF_ULP, Times;
    if ns == [] {
      TimesOrder(0.0, 0.0, e);
    } else {
      var k := |ns| - 1;
      TotalGrows(ws);
      PartialScoreError(ns[..k], fs[..k], ws[..k], e);
      PartialScoreBounds(ns[..k], ws[..k]);
      TermError(PartialScore(ns[..k], ws[..k]), ns[k], fs[k], ws[k], e);
      TimesDistributes(ExactTotal(ws[..k]), ws[k], e);
      assert (k + 1) as real * 3.0 * HALF_ULP == k as real * 3.0 * HALF_ULP + 3.0 * HALF_ULP;
    }
  }

  /** The score is within one unit in the last place of the exact blend, plus 29 halves of a unit
      in the 28th digit for every rounding of every intermediate value. */
  lemma ScoreError(spec: Spec, raw: map<Metric, RawMetric>)
    requires UnitSpec(spec) && AllNumbers(raw)
    ensures Usable(spec, raw) && Score(spec, raw).Some?
    ensures Abs(Score(spec, raw).value - ExactScore(spec, raw)) <= Pow10(-spec.decimalPlaces) + 29.0 * HALF_ULP
  {
    hide Round, HALF_ULP, Times, Quantize, Blend, ExactBlend, Pow10, Scaleb;
    ScoreInUnit(spec, raw); UsableInUnit(spec, raw); HalfUlpIsSmall();
    var ns, fs, ws := NormalisedValues(spec, raw), ExactBlends(spec, raw), Weights(spec);
    var q, u := Pow10(-spec.decimalPlaces), HALF_ULP;
    var e := 0.5 * q + 6.0 * u;
    forall i | 0 <= i < |ns| ensures Abs(ns[i] - fs[i]) <= e {
      var m := METRIC_NAMES[i];
      UnitBlendError(raw[m].number, spec.rules[m]);
      QuantizeError(Blend(raw[m].number, spec.rules[m]), spec.decimalPlaces);
    }
    PartialScoreError(ns, fs, ws, e);
    TotalError(ws);
    UnitQuantum(spec.decimalPlaces);
    assert ExactTotal(ws) <= 1.0 + 10.0 * u;
    TimesOrder(ExactTotal(ws), 1.0 + 10.0 * u, e);
    Expand(q, u, e);
    QuantizeError(PartialScore(ns, ws), spec.decimalPlaces);
  }

  lemma UnitQuantum(places: int)
    requires places >= 0
    ensures Pow10(-places) <= 1.0
  {
    ScalebGrows(1.0, -places, 0);
  }

  lemma Expand(q: real, u: real, e: real)
    requires 0.0 < u <= 0.05 && 0.0 < q <= 1.0 && e == 0.5 * q + 6.0 * u
    ensures Times(1.0 + 10.0 * u, e) <= 0.5 * q + 14.0 * u
  {
    assert u * q <= u by { assert u * (1.0 - q) >= 0.0; }
    assert u * u <= 0.05 * u by { assert u * (0.05 - u) >= 0.0; }
    assert (1.0 + 10.0 * u) * e == 0.5 * q + 6.0 * u + 5.0 * (u * q) + 60.0 * (u * u);
  }

  /** When the 28-digit context happens to change no intermediate value, the bound is one unit
      in the last place. */
  lemma ScoreErrorExactIntermediates(spec: Spec, raw: map<Metric, RawMetric>)
    requires UnitSpec(spec) && AllNumbers(raw) && Usable(spec, raw)
    requires forall m: Metric :: Blend(raw[m].number, spec.rules[m]) == ExactBlend(raw[m].number, spec.rules[m])
    requires PartialScore(NormalisedValues(spec, raw), Weights(spec)) ==
             ExactSum(NormalisedValues(spec, raw), Weights(spec))
    requires ExactTotal(Weights(spec)) == 1.0
    ensures Score(spec, raw).Some?
    ensures Abs(Score(spec, raw).value - ExactScore(spec, raw)) <= Pow10(-spec.decimalPlaces)
  {
    hide Round, Times, Quantize, Blend, ExactBlend, Pow10;
    ScoreInUnit(spec, raw);
    var ns, fs, ws := NormalisedValues(spec, raw), ExactBlends(spec, raw), Weights(spec);
    var q := Pow10(-spec.decimalPlaces);
    forall i | 0 <= i < |ns| ensures Abs(ns[i] - fs[i]) <= 0.5 * q {
      var m := METRIC_NAMES[i];
      QuantizeError(Blend(raw[m].number, spec.rules[m]), spec.decimalPlaces);
    }
    ExactSumError(ns, fs, ws, 0.5 * q);
    TimesOrder(0.0, 1.0, 0.5 * q);
    QuantizeError(PartialScore(ns, ws), spec.decimalPlaces);
  }

  lemma {:induction false} ExactSumError(ns: seq<real>, fs: seq<real>, ws: seq<real>, e: real)
    requires |ns| == |fs| == |ws| && e >= 0.0
    requires forall i :: 0 <= i < |ns| ==> Abs(ns[i] - fs[i]) <= e && ws[i] >= 0.0
    ensures Abs(ExactSum(ns, ws) - ExactSum(fs, ws)) <= Times(ExactTotal(ws), e)
  {
    hide Times;
    if ns == [] {
      TimesOrder(0.0, 0.0, e);
    } else {
      var k := |ns| - 1;
      ExactSumError(ns[..k], fs[..k], ws[..k], e);
      SmallProduct(ws[k], ns[k] - fs[k], e);
      TimesDistributes(ns[k], fs[k], ws[k]); TimesDistributes(ns[k] - fs[k], 0.0, ws[k]);
      TimesDistributes(ExactTotal(ws[..k]), ws[k], e);
    }
  }

  // ---------------------------------------------------------------- the shipped specification

  /** 30, 30, 15, 15 and 10 hundredths. */
  const SHIPPED_WEIGHTS: seq<int> := [30, 30, 15, 15, 10]

  const SHIPPED_NORMALISED: seq<int> := [0, 25, 50, 75, 100]

  ghost predicate Shipped(spec: Spec) {
    && (forall m: Metric :: m in spec.weights && m in spec.rules && WellFormedRule(spec.rules[m]))
    && (forall i :: 0 <= i < 5 ==> Weights(spec)[i] == Scaleb(SHIPPED_WEIGHTS[i] as real, -2))
    && (forall m: Metric :: |spec.rules[m].normalised| == 5)
    && (forall m: Metric, i :: 0 <= i < 5 ==> spec.rules[m].normalised[i] == Scaleb(SHIPPED_NORMALISED[i] as real, -2))
    && spec.decimalPlaces == 4
  }

  lemma SmallIsShort(c: int)
    requires -1000 <= c <= 1000
    ensures Short(c)
  {
    hide Scaleb;
    ScalebGrows(1.0, 4, 27);
    assert Shifted(1, 4) == 10000;
  }

  lemma Hundredths(a: int, b: int)
    requires -1000 <= a <= 1000 && -1000 <= b <= 1000
    ensures Round(Scaleb(a as real, -2) + Scaleb(b as real, -2)) == Scaleb((a + b) as real, -2)
    ensures Representable(Scaleb(b as real, -2))
  {
    hide Round, Scaleb, Short;
    SmallIsShort(a); SmallIsShort(-b); SmallIsShort(b);
    DifferenceRepresentable(a, -b, -2); DifferenceRepresentable(b, b, -2);
    ScalebLinear(a as real, b as real, -2); ScalebLinear(b as real, 0.0, -2);
    assert (a + b) as real == a as real + b as real;
  }

  lemma HundredthsOrder(a: int, b: int)
    requires a <= b
    ensures Scaleb(a as real, -2) <= Scaleb(b as real, -2)
    ensures Scaleb(0.0, -2) == 0.0 && Scaleb(100.0, -2) == 1.0
  {
    ScalebOrder(a as real, b as real, -2);
  }

  lemma HundredthsTotal(ws: seq<real>, cs: seq<int>)
    requires |ws| == |cs| <= 5
    requires forall i :: 0 <= i < |ws| ==> 0 <= cs[i] <= 100 && ws[i] == Scaleb(cs[i] as real, -2)
    ensures 0 <= SumOf(cs) <= 100 * |cs|
    ensures Total(ws) == Scaleb(SumOf(cs) as real, -2)
    decreases |ws|
  {
    hide Round, Scaleb;
    HundredthsOrder(0, 0);
    if ws != [] {
      var k := |ws| - 1;
      HundredthsTotal(ws[..k], cs[..k]);
      Hundredths(SumOf(cs[..k]), cs[k]);
    }
  }

  function SumOf(cs: seq<int>): int {
    if cs == [] then 0 else SumOf(cs[..|cs| - 1]) + cs[|cs| - 1]
  }

  lemma SumAppend(cs: seq<int>, c: int)
    ensures SumOf(cs + [c]) == SumOf(cs) + c
  {
    assert (cs + [c])[..|cs|] == cs;
  }

  lemma ShippedSum()
    ensures SumOf(SHIPPED_WEIGHTS) == 100
  {
    SumAppend([], 30); SumAppend([30], 30); SumAppend([30, 30], 15);
    SumAppend([30, 30, 15], 15); SumAppend([30, 30, 15, 15], 10);
    assert [] + [30] == [30] && [30] + [30] == [30, 30] && [30, 30] + [15] == [30, 30, 15]
        && [30, 30, 15] + [15] == [30, 30, 15, 15] && [30, 30, 15, 15] + [10] == SHIPPED_WEIGHTS;
  }

  lemma ShippedTotal(ws: seq<real>)
    requires |ws| == 5 && forall i :: 0 <= i < 5 ==> ws[i] == Scaleb(SHIPPED_WEIGHTS[i] as real, -2)
    ensures Total(ws) == 1.0 && UnitWeights(ws)
  {
    hide Round, Scaleb, Total, SumOf;
    forall i | 0 <= i < |ws| ensures ws[i] >= 0.0 && Representable(ws[i]) {
      Hundredths(0, SHIPPED_WEIGHTS[i]); HundredthsOrder(0, SHIPPED_WEIGHTS[i]);
    }
    HundredthsTotal(ws, SHIPPED_WEIGHTS);
    ShippedSum();
    HundredthsOrder(0, 0);
  }

  lemma ShippedRule(rule: Rule)
    requires |rule.normalised| == 5
    requires forall i :: 0 <= i < 5 ==> rule.normalised[i] == Scaleb(SHIPPED_NORMALISED[i] as real, -2)
    ensures ShortAscending(rule.normalised) && UnitRule(rule)
  {
    hide Round, Scaleb, Short;
    forall i | 0 <= i < 5 ensures Short(SHIPPED_NORMALISED[i]) { SmallIsShort(SHIPPED_NORMALISED[i]); }
    ScaledIntegersAreShort(rule.normalised, SHIPPED_NORMALISED, 2);
    HundredthsOrder(0, 0);
  }

  /** The shipped spec meets every assumption of the score's range, order and error bound. */
  lemma ShippedSpecIsUnit(spec: Spec)
    requires Shipped(spec)
    ensures UnitSpec(spec)
  {
    hide Round, Scaleb, ShortAscending, UnitRule, UnitWeights;
    ShippedTotal(Weights(spec));
    forall m: Metric ensures ShortAscending(spec.rules[m].normalised) && UnitRule(spec.rules[m]) {
      ShippedRule(spec.rules[m]);
    }
  }
}
