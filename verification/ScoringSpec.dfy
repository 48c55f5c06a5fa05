/** The scoring rules a spec file may contain, and the checks made when it is loaded. */
module ScoringSpec {
  import opened Wrappers
  import opened Decimal

  datatype Metric = Cyclomatic | Cognitive | NestingDepth | FunctionLength | FileLength

  const METRIC_NAMES: seq<Metric> := [Cyclomatic, Cognitive, NestingDepth, FunctionLength, FileLength]

  datatype Rule = Rule(cuts: seq<real>, normalised: seq<real>)

  /** A YAML scalar: a quoted decimal, quoted text that is no number, or anything else. */
  datatype Scalar = Quoted(number: real) | QuotedText | Unquoted

  /** None stands for a value that is missing or not a list. */
  datatype RawRule = RawRule(cuts: Option<seq<Scalar>>, normalised: Option<seq<Scalar>>)

  datatype SpecError =
    | NotAMapping
    | WrongMethod
    | MissingRule(metric: Metric)
    | NotQuoted(metric: Metric)
    | NotANumber
    | EmptyOrNoList
    | WrongTotal
    | WrongLengths(metric: Metric)
    | NotAscending(metric: Metric)

  predicate Ascending(xs: seq<real>) {
    forall i, j :: 0 <= i < j < |xs| ==> xs[i] <= xs[j]
  }

  predicate WellFormedRule(rule: Rule) {
    |rule.cuts| > 0 && |rule.normalised| == |rule.cuts| + 1 && Ascending(rule.cuts)
  }

  /** The running total as the 28-digit context computes it. */
  function Total(ws: seq<real>): real {
    if ws == [] then 0.0 else Round(Total(ws[..|ws| - 1]) + ws[|ws| - 1])
  }

  function Values(m: map<Metric, real>, names: seq<Metric>): (vs: seq<real>)
    requires forall name :: name in names ==> name in m
    ensures |vs| == |names|
    ensures forall i :: 0 <= i < |names| ==> vs[i] == m[names[i]]
  {
    seq(|names|, i requires 0 <= i < |names| => m[names[i]])
  }

  lemma EveryMetric(m: Metric)
    ensures m in METRIC_NAMES
  {
    assert METRIC_NAMES[0] == Cyclomatic && METRIC_NAMES[1] == Cognitive && METRIC_NAMES[2] == NestingDepth
        && METRIC_NAMES[3] == FunctionLength && METRIC_NAMES[4] == FileLength;
  }

  predicate AllQuoted(raw: map<Metric, Scalar>) {
    forall m: Metric :: m in raw && raw[m].Quoted?
  }

  function NumberOf(raw: map<Metric, Scalar>): (w: map<Metric, real>)
    requires AllQuoted(raw)
    ensures forall m: Metric :: m in w && w[m] == raw[m].number
  {
    map m: Metric :: raw[m].number
  }

  /** Accepts exactly the weights that are all quoted numbers and whose rounded total is one. */
  method ParseWeights(value: Option<map<Metric, Scalar>>) returns (r: Result<map<Metric, real>, SpecError>)
    ensures r.Ok? ==> value.Some? && AllQuoted(value.value)
    ensures r.Ok? ==> r.value == NumberOf(value.value)
    ensures r.Ok? ==> Total(Values(r.value, METRIC_NAMES)) == 1.0
    ensures value.Some? && AllQuoted(value.value) ==>
              var w := NumberOf(value.value);
              r == if Total(Values(w, METRIC_NAMES)) == 1.0 then Ok(w) else Err(WrongTotal)
    ensures value.None? ==> r == Err(NotAMapping)
  {
    hide Round;
    if value.None? { return Err(NotAMapping); }
    var weights: map<Metric, real> := map[];
    for i := 0 to |METRIC_NAMES|
      invariant weights.Keys == set k | 0 <= k < i :: METRIC_NAMES[k]
      invariant forall m :: m in weights ==> m in value.value && value.value[m] == Quoted(weights[m])
    {
      var metric := METRIC_NAMES[i];
      if metric !in value.value || value.value[metric].Unquoted? { return Err(NotQuoted(metric)); }
      if value.value[metric].QuotedText? { return Err(NotANumber); }
      weights := weights[metric := value.value[metric].number];
    }
    forall m: Metric ensures m in weights { EveryMetric(m); }
    var ws := Values(weights, METRIC_NAMES);
    var total := 0.0;
    for i := 0 to |ws|
      invariant total == Total(ws[..i])
    {
      assert ws[..i + 1][..i] == ws[..i];
      total := Round(total + ws[i]);
    }
    assert ws[..|ws|] == ws;
    assert weights == NumberOf(value.value);
    r := if total == 1.0 then Ok(weights) else Err(WrongTotal);
  }

  predicate Numbers(value: Option<seq<Scalar>>) {
    value.Some? && value.value != [] && forall i :: 0 <= i < |value.value| ==> value.value[i].Quoted?
  }

  function NumbersOf(value: seq<Scalar>): (xs: seq<real>)
    requires forall i :: 0 <= i < |value| ==> value[i].Quoted?
    ensures |xs| == |value| && forall i :: 0 <= i < |value| ==> xs[i] == value[i].number
  {
    seq(|value|, i requires 0 <= i < |value| => value[i].number)
  }

  method ParseDecimalTuple(value: Option<seq<Scalar>>, metric: Metric) returns (r: Result<seq<real>, SpecError>)
    ensures r.Ok? <==> Numbers(value)
    ensures r.Ok? ==> r.value == NumbersOf(value.value)
  {
    if value.None? || value.value == [] { return Err(EmptyOrNoList); }
    var decimals: seq<real> := [];
    for i := 0 to |value.value|
      invariant |decimals| == i
      invariant forall k :: 0 <= k < i ==> value.value[k] == Quoted(decimals[k])
    {
      match value.value[i]
      case Unquoted => return Err(NotQuoted(metric));
      case QuotedText => return Err(NotANumber);
      case Quoted(x) => decimals := decimals + [x];
    }
    r := Ok(decimals);
  }

  /** A raw rule that the loader keeps, and what it keeps. */
  predicate Loads(raw: RawRule, rule: Rule) {
    && Numbers(raw.cuts) && Numbers(raw.normalised)
    && rule == Rule(NumbersOf(raw.cuts.value), NumbersOf(raw.normalised.value))
    && WellFormedRule(rule)
  }

  predicate NoneFalls(cuts: seq<Scalar>) {
    forall i :: 0 < i < |cuts| ==> cuts[i - 1].Quoted? && cuts[i].Quoted? ==> cuts[i - 1].number <= cuts[i].number
  }

  /** A rule is kept exactly when both lists are of quoted numbers, there is a cut, there is one more
      value than cuts, and no cut is below the one before it; equal cuts are kept. */
  lemma LoadsWhen(raw: RawRule)
    ensures (exists rule :: Loads(raw, rule)) <==>
            && raw.cuts.Some? && raw.normalised.Some? && raw.cuts.value != []
            && |raw.normalised.value| == |raw.cuts.value| + 1
            && (forall i :: 0 <= i < |raw.cuts.value| ==> raw.cuts.value[i].Quoted?)
            && (forall i :: 0 <= i < |raw.normalised.value| ==> raw.normalised.value[i].Quoted?)
            && NoneFalls(raw.cuts.value)
  {
    if Numbers(raw.cuts) && Numbers(raw.normalised) {
      var rule := Rule(NumbersOf(raw.cuts.value), NumbersOf(raw.normalised.value));
      if NoneFalls(raw.cuts.value) {
        forall i, j | 0 <= i <= j < |rule.cuts| ensures rule.cuts[i] <= rule.cuts[j] {
          Climbs(raw.cuts.value, i, j);
        }
        assert Ascending(rule.cuts);
      }
      assert |raw.normalised.value| == |raw.cuts.value| + 1 && NoneFalls(raw.cuts.value) ==> Loads(raw, rule);
      if kept :| Loads(raw, kept) {
        assert kept == rule;
        forall i | 0 < i < |raw.cuts.value| ensures raw.cuts.value[i - 1].number <= raw.cuts.value[i].number {
          assert rule.cuts[i - 1] <= rule.cuts[i];
        }
      }
    }
  }

  lemma {:induction false} Climbs(cuts: seq<Scalar>, i: int, j: int)
    requires 0 <= i <= j < |cuts| && NoneFalls(cuts)
    requires forall k :: 0 <= k < |cuts| ==> cuts[k].Quoted?
    ensures cuts[i].number <= cuts[j].number
    decreases j
  {
    if i < j { Climbs(cuts, i, j - 1); }
  }

  /** Accepts exactly when every metric has a rule of matching lengths with ascending cuts. */
  method ParseNormalisation(methodOk: bool, value: Option<map<Metric, RawRule>>)
    returns (r: Result<map<Metric, Rule>, SpecError>)
    ensures r.Ok? ==> value.Some? && methodOk
    ensures r.Ok? ==> forall m: Metric :: m in r.value && m in value.value && Loads(value.value[m], r.value[m])
    ensures r.Err? && methodOk && value.Some? ==>
              exists m: Metric :: m !in value.value || forall rule :: !Loads(value.value[m], rule)
  {
    if value.None? { return Err(NotAMapping); }
    if !methodOk { return Err(WrongMethod); }
    var rules: map<Metric, Rule> := map[];
    for i := 0 to |METRIC_NAMES|
      invariant rules.Keys == set k | 0 <= k < i :: METRIC_NAMES[k]
      invariant forall m :: m in rules ==> m in value.value && Loads(value.value[m], rules[m])
    {
      var metric := METRIC_NAMES[i];
      if metric !in value.value { return Err(MissingRule(metric)); }
      var cuts := ParseDecimalTuple(value.value[metric].cuts, metric);
      if cuts.Err? { return Err(cuts.error); }
      var normalised := ParseDecimalTuple(value.value[metric].normalised, metric);
      if normalised.Err? { return Err(normalised.error); }
      if |cuts.value| + 1 != |normalised.value| { return Err(WrongLengths(metric)); }
      if !Ascending(cuts.value) { return Err(NotAscending(metric)); }
      rules := rules[metric := Rule(cuts.value, normalised.value)];
    }
    forall m: Metric ensures m in rules { EveryMetric(m); }
    r := Ok(rules);
  }
}
