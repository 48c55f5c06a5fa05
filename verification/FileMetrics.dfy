/** The metrics of one file: each the maximum over its functions. */
module FileMetrics {
  import opened Tally
  import opened Counting

  datatype Metrics = Metrics(
    cyclomatic: nat, cognitive: nat, nestingDepth: nat, functionLength: int, fileLength: nat)

  function MaxInt(a: int, b: int): int {
    if a < b then b else a
  }

  /** Each metric's maximum over some functions; there is at least one. */
  function Maxima(ms: seq<FunctionMetrics>): Metrics
    requires ms != []
  {
    if |ms| == 1 then Metrics(ms[0].cyclomatic, ms[0].cognitive, ms[0].nestingDepth, ms[0].functionLength, 0)
    else
      var r := Maxima(ms[1..]);
      Metrics(Max(ms[0].cyclomatic, r.cyclomatic), Max(ms[0].cognitive, r.cognitive),
              Max(ms[0].nestingDepth, r.nestingDepth), MaxInt(ms[0].functionLength, r.functionLength), 0)
  }

  /** Every metric is an upper bound over the functions, and some function attains it. */
  lemma {:induction false} MaximaMeaning(ms: seq<FunctionMetrics>)
    requires ms != []
    ensures forall i :: 0 <= i < |ms| ==>
              && ms[i].cyclomatic <= Maxima(ms).cyclomatic && ms[i].cognitive <= Maxima(ms).cognitive
              && ms[i].nestingDepth <= Maxima(ms).nestingDepth && ms[i].functionLength <= Maxima(ms).functionLength
    ensures exists i :: 0 <= i < |ms| && ms[i].cyclomatic == Maxima(ms).cyclomatic
    ensures exists i :: 0 <= i < |ms| && ms[i].cognitive == Maxima(ms).cognitive
    ensures exists i :: 0 <= i < |ms| && ms[i].nestingDepth == Maxima(ms).nestingDepth
    ensures exists i :: 0 <= i < |ms| && ms[i].functionLength == Maxima(ms).functionLength
  {
    if |ms| > 1 {
      var r := ms[1..];
      MaximaMeaning(r);
      assert forall i :: 0 <= i < |r| ==> r[i] == ms[i + 1];
      var a :| 0 <= a < |r| && r[a].cyclomatic == Maxima(r).cyclomatic;
      var b :| 0 <= b < |r| && r[b].cognitive == Maxima(r).cognitive;
      var c :| 0 <= c < |r| && r[c].nestingDepth == Maxima(r).nestingDepth;
      var d :| 0 <= d < |r| && r[d].functionLength == Maxima(r).functionLength;
      assert ms[if ms[0].cyclomatic < Maxima(r).cyclomatic then a + 1 else 0].cyclomatic == Maxima(ms).cyclomatic;
      assert ms[if ms[0].cognitive < Maxima(r).cognitive then b + 1 else 0].cognitive == Maxima(ms).cognitive;
      assert ms[if ms[0].nestingDepth < Maxima(r).nestingDepth then c + 1 else 0].nestingDepth ==
             Maxima(ms).nestingDepth;
      assert ms[if ms[0].functionLength < Maxima(r).functionLength then d + 1 else 0].functionLength ==
             Maxima(ms).functionLength;
    } else {
      assert ms[0].cyclomatic == Maxima(ms).cyclomatic && ms[0].cognitive == Maxima(ms).cognitive;
      assert ms[0].nestingDepth == Maxima(ms).nestingDepth && ms[0].functionLength == Maxima(ms).functionLength;
    }
  }

  // ---------------------------------------------------------------- geometry

  /** d(d+1)/2 <= cognitive, for nesting depth d. */
  ghost predicate CostsItsNesting(cognitive: nat, nestingDepth: nat) {
    Times(nestingDepth, nestingDepth + 1) <= 2 * cognitive
  }

  /** cognitive <= (cyclomatic - 1) * max(1, d). */
  ghost predicate CostsNoMore(cyclomatic: nat, cognitive: nat, nestingDepth: nat) {
    cyclomatic >= 1 && cognitive <= Times(cyclomatic - 1, Max(1, nestingDepth))
  }

  ghost predicate FunctionGeometry(m: FunctionMetrics) {
    CostsItsNesting(m.cognitive, m.nestingDepth) && CostsNoMore(m.cyclomatic, m.cognitive, m.nestingDepth)
  }

  ghost predicate FileGeometry(m: Metrics) {
    CostsItsNesting(m.cognitive, m.nestingDepth) && CostsNoMore(m.cyclomatic, m.cognitive, m.nestingDepth)
  }

  lemma TallyGeometry(t: Tally, length: int)
    requires Geometric(t, 0)
    ensures FunctionGeometry(OfTally(t, length))
  {
  }

  /** Larger factors, larger product. */
  lemma BothGrow(a: nat, b: nat, c: nat, d: nat)
    requires a <= c && b <= d
    ensures Times(a, b) <= Times(c, d)
  {
    hide Times;
    TimesFacts(a, c - a, b, d);
    TimesFacts(a, c - a, d, d);
    assert a + (c - a) == c;
  }

  /** Both inequalities survive taking maxima, each metric on its own. */
  lemma MaximaGeometry(ms: seq<FunctionMetrics>)
    requires ms != [] && forall i :: 0 <= i < |ms| ==> FunctionGeometry(ms[i])
    ensures FileGeometry(Maxima(ms))
  {
    hide Maxima, Times;
    MaximaMeaning(ms);
    var m := Maxima(ms);
    var a :| 0 <= a < |ms| && ms[a].nestingDepth == m.nestingDepth;
    assert FunctionGeometry(ms[a]);
    var b :| 0 <= b < |ms| && ms[b].cognitive == m.cognitive;
    assert FunctionGeometry(ms[b]);
    BothGrow(ms[b].cyclomatic - 1, Max(1, ms[b].nestingDepth), m.cyclomatic - 1, Max(1, m.nestingDepth));
  }
}
