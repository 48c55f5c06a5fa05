/** What both syntax-tree counters accumulate: a number of branches, a cognitive cost in which
    a branch costs one more than the branches around it, and the deepest nesting reached. */
module Tally {

  datatype Tally = Tally(branches: nat, cognitive: nat, deepest: nat)

  const NONE: Tally := Tally(0, 0, 0)

  function Max(a: nat, b: nat): nat {
    if a < b then b else a
  }

  function Plus(a: Tally, b: Tally): Tally {
    Tally(a.branches + b.branches, a.cognitive + b.cognitive, Max(a.deepest, b.deepest))
  }

  /** A branch entered below `depth` others, with what it contains. */
  function Branch(inner: Tally, depth: nat): Tally {
    Tally(inner.branches + 1, inner.cognitive + 1 + depth, Max(inner.deepest, depth + 1))
  }

  /** Extra decision points that cost one each and nest nothing. */
  function Extra(inner: Tally, n: nat): Tally {
    Tally(inner.branches + n, inner.cognitive + n, inner.deepest)
  }

  lemma PlusIsMonoid(a: Tally, b: Tally, c: Tally)
    ensures Plus(a, Plus(b, c)) == Plus(Plus(a, b), c)
    ensures Plus(a, b) == Plus(b, a)
    ensures Plus(a, NONE) == a
  {
  }

  lemma Identity(t: Tally)
    ensures Plus(NONE, t) == t == Plus(t, NONE)
  {
  }

  // ---------------------------------------------------------------- reference definition

  /** The tally of a list of branches, each given by the number of branches around it. */
  function OfDepths(depths: seq<nat>): Tally {
    if depths == [] then NONE else Branch(OfDepths(depths[1..]), depths[0])
  }

  lemma BranchPlus(a: Tally, b: Tally, depth: nat)
    ensures Branch(Plus(a, b), depth) == Plus(Branch(a, depth), b)
  {
  }

  lemma {:induction false} OfDepthsAppend(a: seq<nat>, b: seq<nat>)
    ensures OfDepths(a + b) == Plus(OfDepths(a), OfDepths(b))
  {
    hide Plus, Branch;
    if a == [] {
      assert a + b == b;
      PlusIsMonoid(OfDepths(b), NONE, NONE); PlusIsMonoid(NONE, OfDepths(b), NONE);
    } else {
      OfDepthsAppend(a[1..], b);
      assert (a + b)[1..] == a[1..] + b && (a + b)[0] == a[0];
      BranchPlus(OfDepths(a[1..]), OfDepths(b), a[0]);
    }
  }

  function Sum(xs: seq<nat>): nat {
    if xs == [] then 0 else xs[0] + Sum(xs[1..])
  }

  /** The three numbers of a list of branches: how many, the sum of the costs, the deepest one. */
  lemma {:induction false} OfDepthsMeaning(depths: seq<nat>)
    ensures OfDepths(depths).branches == |depths|
    ensures OfDepths(depths).cognitive == Sum(depths) + |depths|
    ensures forall i :: 0 <= i < |depths| ==> depths[i] < OfDepths(depths).deepest
    ensures depths != [] ==> OfDepths(depths).deepest > 0 && OfDepths(depths).deepest - 1 in depths
  {
    if depths != [] {
      OfDepthsMeaning(depths[1..]);
      forall i | 0 <= i < |depths| ensures depths[i] < OfDepths(depths).deepest {
        if i > 0 { assert depths[1..][i - 1] == depths[i]; }
      }
    }
  }

  // ---------------------------------------------------------------- geometry

  /** Nesting to depth k below `depth` needs a branch at every level on the way, and no branch
      costs more than the deepest nesting. */
  ghost predicate Geometric(t: Tally, depth: nat) {
    && (t.deepest == 0 || t.deepest > depth)
    && (t.deepest > depth ==> 2 * t.cognitive >= Times(t.deepest, t.deepest + 1) - Times(depth, depth + 1))
    && t.cognitive <= Times(t.branches, Max(1, t.deepest))
  }

  function Times(n: nat, d: nat): nat {
    n * d
  }

  lemma TimesFacts(n: nat, m: nat, a: nat, b: nat)
    ensures a <= b ==> Times(n, a) <= Times(n, b)
    ensures Times(n + m, a) == Times(n, a) + Times(m, a)
    ensures Times(1, a) == a == Times(a, 1)
  {
    if a <= b { assert n * (b - a) >= 0; }
  }

  lemma GeometricPlus(a: Tally, b: Tally, depth: nat)
    requires Geometric(a, depth) && Geometric(b, depth)
    ensures Geometric(Plus(a, b), depth)
  {
    hide Times;
    var d := Max(1, Plus(a, b).deepest);
    TimesFacts(a.branches, b.branches, Max(1, a.deepest), d);
    TimesFacts(b.branches, b.branches, Max(1, b.deepest), d);
    TimesFacts(a.branches, b.branches, d, d);
  }

  lemma GeometricBranch(t: Tally, depth: nat)
    requires Geometric(t, depth + 1)
    ensures Geometric(Branch(t, depth), depth)
  {
    hide Times;
    var d := Branch(t, depth).deepest;
    TimesFacts(t.branches, 1, Max(1, t.deepest), d);
    TimesFacts(t.branches, 1, d, d);
    TimesFacts(depth + 2, 0, depth, depth + 1);
    TriangleStep(depth);
  }

  lemma TriangleStep(depth: nat)
    ensures Times(depth + 1, depth + 2) == Times(depth, depth + 1) + 2 * (depth + 1)
  {
  }

  lemma GeometricExtra(t: Tally, n: nat, depth: nat)
    requires Geometric(t, depth)
    ensures Geometric(Extra(t, n), depth)
  {
    hide Times;
    var d := Max(1, t.deepest);
    TimesFacts(n, 0, 1, d); TimesFacts(0, 0, n, n);
    TimesFacts(t.branches, n, d, d);
  }
}
