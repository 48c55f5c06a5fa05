/** The Python counter: a visitor that mutates its counters, and the outer visitor that records
    one measurement per outermost function. */
module PythonCounter {
  import opened Wrappers
  import opened Tally
  import opened Trees
  import opened Counting
  import opened FileMetrics

  datatype Kind =
    | FunctionDef | AsyncFunctionDef
    | If | For | AsyncFor | While | Try | ExceptHandler | IfExp | Match
    | BoolOp(values: nat)
    | Other(name: string)

  datatype Syntax = Syntax(kind: Kind, line: int, endLine: int)

  /** A syntax-tree node with its child nodes in field order. */
  type Node = Tree<Syntax>

  predicate IsFunction(n: Node) {
    n.tag.kind.FunctionDef? || n.tag.kind.AsyncFunctionDef?
  }

  predicate IsBranch(n: Node) {
    var k := n.tag.kind;
    k.If? || k.For? || k.AsyncFor? || k.While? || k.Try? || k.ExceptHandler? || k.IfExp? || k.Match?
  }

  /** What a boolean operation adds: one per operand after the first. */
  function BoolExtra(n: Node): nat {
    if n.tag.kind.BoolOp? && n.tag.kind.values > 0 then n.tag.kind.values - 1 else 0
  }

  // ---------------------------------------------------------------- compositional specification

  /** Everything is entered, nested functions included, and nesting is not cut off. */
  function PyRules(): Rules<Syntax> {
    Rules((n: Node) => false, (n: Node) => IsBranch(n), (n: Node) => BoolExtra(n), None)
  }

  /** Functions are not entered, so that only outermost ones are found. */
  function PyWalk(): Walk<Syntax> {
    Walk((n: Node) => IsFunction(n), false, None)
  }

  // ---------------------------------------------------------------- the mutable visitor

  class FunctionCounter {
    var cyclomatic: nat
    var cognitive: nat
    var depth: nat
    var maxDepth: nat

    constructor ()
      ensures cyclomatic == 1 && cognitive == 0 && depth == 0 && maxDepth == 0
    {
      cyclomatic, cognitive, depth, maxDepth := 1, 0, 0, 0;
    }

    ghost function Counted(): Tally
      reads this
      requires cyclomatic >= 1
    {
      Tally(cyclomatic - 1, cognitive, maxDepth)
    }

    /** Adds the node's tally at the current depth, and puts the depth back. */
    method GenericVisit(n: Node)
      requires cyclomatic >= 1
      modifies this
      ensures cyclomatic >= 1 && depth == old(depth)
      ensures Counted() == Plus(old(Counted()), CountNode(n, old(depth), PyRules()))
      decreases n, 1
    {
      hide CountForest, CountNode, IsBranch, Plus;
      CountNodeMeans(n, depth);
      if IsBranch(n) {
        BranchThenForest(Counted(), CountForest(n.children, depth + 1, PyRules()), depth);
        cyclomatic := cyclomatic + 1;
        cognitive := cognitive + 1 + depth;
        depth := depth + 1;
        maxDepth := Max(maxDepth, depth);
        VisitChildren(n.children);
        depth := depth - 1;
        return;
      }
      ExtraThenForest(Counted(), CountForest(n.children, depth, PyRules()), BoolExtra(n));
      if n.tag.kind.BoolOp? {
        var increment := Max(n.tag.kind.values, 1) - 1;
        cyclomatic := cyclomatic + increment;
        cognitive := cognitive + increment;
      }
      VisitChildren(n.children);
    }

    method VisitChildren(ts: seq<Node>)
      requires cyclomatic >= 1
      modifies this
      ensures cyclomatic >= 1 && depth == old(depth)
      ensures Counted() == Plus(old(Counted()), CountForest(ts, old(depth), PyRules()))
      decreases ts, 0
    {
      hide CountNode, Plus, PyRules;
      ghost var start, r := Counted(), PyRules();
      Identity(start);
      for i := 0 to |ts|
        invariant cyclomatic >= 1 && depth == old(depth)
        invariant Counted() == Plus(start, CountForest(ts[..i], old(depth), r))
      {
        ForestAppend(ts[..i], ts[i], depth, r);
        PlusIsMonoid(start, CountForest(ts[..i], depth, r), CountNode(ts[i], depth, r));
        assert ts[..i + 1] == ts[..i] + [ts[i]];
        GenericVisit(ts[i]);
      }
      assert ts[..|ts|] == ts;
    }
  }

  lemma CountNodeMeans(n: Node, depth: nat)
    ensures CountNode(n, depth, PyRules()) ==
            if IsBranch(n) then Branch(CountForest(n.children, depth + 1, PyRules()), depth)
            else Extra(CountForest(n.children, depth, PyRules()), BoolExtra(n))
  {
  }

  lemma BranchThenForest(acc: Tally, inner: Tally, depth: nat)
    ensures Plus(Branch(acc, depth), inner) == Plus(acc, Branch(inner, depth))
  {
  }

  lemma ExtraThenForest(acc: Tally, inner: Tally, n: nat)
    ensures Plus(Extra(acc, n), inner) == Plus(acc, Extra(inner, n))
  {
  }

  // ---------------------------------------------------------------- the outer visitor

  function Measure(f: Node): FunctionMetrics {
    OfTally(CountNode(f, 0, PyRules()), f.tag.endLine - f.tag.line + 1)
  }

  function Measures(fs: seq<Node>): (r: seq<FunctionMetrics>)
    ensures |r| == |fs| && forall k :: 0 <= k < |fs| ==> r[k] == Measure(fs[k])
  {
    seq(|fs|, k requires 0 <= k < |fs| => Measure(fs[k]))
  }

  function Deepest(ms: seq<FunctionMetrics>): nat {
    if ms == [] then 0 else Max(Deepest(ms[..|ms| - 1]), ms[|ms| - 1].nestingDepth)
  }

  lemma DeepestAppend(ms: seq<FunctionMetrics>, m: FunctionMetrics)
    ensures Deepest(ms + [m]) == Max(Deepest(ms), m.nestingDepth)
  {
    assert (ms + [m])[..|ms|] == ms;
  }

  class MetricVisitor {
    var cyclomaticValues: seq<nat>
    var cognitiveValues: seq<nat>
    var functionLengths: seq<int>
    var maxNestingDepth: nat

    constructor ()
      ensures Recorded([])
    {
      cyclomaticValues, cognitiveValues, functionLengths, maxNestingDepth := [], [], [], 0;
    }

    /** The lists hold these measurements, in order, and the maximum is theirs. */
    ghost predicate Recorded(ms: seq<FunctionMetrics>)
      reads this
    {
      && |cyclomaticValues| == |cognitiveValues| == |functionLengths| == |ms|
      && (forall i :: 0 <= i < |ms| ==> cyclomaticValues[i] == ms[i].cyclomatic && cognitiveValues[i] == ms[i].cognitive
                                        && functionLengths[i] == ms[i].functionLength)
      && maxNestingDepth == Deepest(ms)
    }

    method RecordFunction(f: Node, ghost ms: seq<FunctionMetrics>)
      requires Recorded(ms)
      modifies this
      ensures Recorded(ms + [Measure(f)])
    {
      hide CountNode, Plus, Deepest;
      var counter := new FunctionCounter();
      Identity(CountNode(f, 0, PyRules()));
      counter.GenericVisit(f);
      functionLengths := functionLengths + [f.tag.endLine - f.tag.line + 1];
      cyclomaticValues := cyclomaticValues + [counter.cyclomatic];
      cognitiveValues := cognitiveValues + [counter.cognitive];
      maxNestingDepth := Max(maxNestingDepth, counter.maxDepth);
      DeepestAppend(ms, Measure(f));
    }

    /** Records exactly the outermost functions at and below the node, in preorder. */
    method Visit(n: Node, ghost ms: seq<FunctionMetrics>, ghost level: nat)
      requires Recorded(ms)
      modifies this
      ensures Recorded(ms + Measures(Selected(n, level, PyWalk())))
      decreases n, 1
    {
      hide SelectedBelow, Selected, Recorded, Measure, Measures;
      SelectedMeans(n, level);
      if IsFunction(n) {
        RecordFunction(n, ms);
        MeasuresOne(n);
      } else {
        VisitAll(n.children, ms, level + 1);
      }
    }

    method VisitAll(ts: seq<Node>, ghost ms: seq<FunctionMetrics>, ghost level: nat)
      requires Recorded(ms)
      modifies this
      ensures Recorded(ms + Measures(SelectedBelow(ts, level, PyWalk())))
      decreases ts, 0
    {
      hide Selected, Recorded, Measure, Measures, PyWalk;
      ghost var done, found := ms, [];
      MeasuresNone();
      for i := 0 to |ts|
        invariant found == SelectedBelow(ts[..i], level, PyWalk())
        invariant done == ms + Measures(found)
        invariant Recorded(done)
      {
        Visit(ts[i], done, level);
        assert ts[..i + 1] == ts[..i] + [ts[i]];
        SelectedAppend(ts[..i], ts[i], level, PyWalk());
        ghost var more := Selected(ts[i], level, PyWalk());
        MeasuresAppend(found, more);
        assert done + Measures(more) == ms + (Measures(found) + Measures(more));
        done, found := done + Measures(more), found + more;
      }
      assert ts[..|ts|] == ts;
    }
  }

  lemma SelectedMeans(n: Node, level: nat)
    ensures Selected(n, level, PyWalk()) ==
            if IsFunction(n) then [n] else SelectedBelow(n.children, level + 1, PyWalk())
  {
  }

  lemma MeasuresNone()
    ensures Measures([]) == []
  {
  }

  lemma MeasuresOne(f: Node)
    ensures Measures([f]) == [Measure(f)]
  {
  }

  lemma MeasuresAppend(a: seq<Node>, b: seq<Node>)
    ensures Measures(a + b) == Measures(a) + Measures(b)
  {
    hide Measure;
  }

  // ---------------------------------------------------------------- one file

  /** The metrics of a file with no function in it. */
  const NO_FUNCTIONS: Metrics := Metrics(0, 0, 0, 0, 0)

  /** What a parsed file scores. */
  function FileMetricsOf(root: Node): Metrics {
    var ms := Measures(Selected(root, 0, PyWalk()));
    if ms == [] then NO_FUNCTIONS else Maxima(ms)
  }

  /** max(xs, default=0) */
  function MaxOf(xs: seq<int>): int {
    if xs == [] then 0 else if |xs| == 1 then xs[0] else MaxInt(xs[0], MaxOf(xs[1..]))
  }

  lemma {:induction false} DeepestFirst(ms: seq<FunctionMetrics>)
    requires ms != []
    ensures Deepest(ms) == Max(ms[0].nestingDepth, Deepest(ms[1..]))
    decreases |ms|
  {
    var k := |ms| - 1;
    if k > 0 {
      DeepestFirst(ms[..k]);
      assert ms[..k][1..] == ms[1..][..k - 1];
    } else {
      assert ms[..0] == [] == ms[1..];
    }
  }

  /** The maxima of the recorded lists are the file's maxima. */
  lemma {:induction false} ListMaxima(ms: seq<FunctionMetrics>, cyc: seq<int>, cog: seq<int>, len: seq<int>)
    requires |cyc| == |cog| == |len| == |ms| > 0
    requires forall i :: 0 <= i < |ms| ==>
               cyc[i] == ms[i].cyclomatic && cog[i] == ms[i].cognitive && len[i] == ms[i].functionLength
    ensures var m := Maxima(ms);
            MaxOf(cyc) == m.cyclomatic && MaxOf(cog) == m.cognitive && MaxOf(len) == m.functionLength
            && Deepest(ms) == m.nestingDepth && m.fileLength == 0
    decreases |ms|
  {
    DeepestFirst(ms);
    if |ms| > 1 { ListMaxima(ms[1..], cyc[1..], cog[1..], len[1..]); }
  }

  /** None stands for source text that does not parse. */
  method AnalysePython(parsed: Option<Node>) returns (r: Result<Metrics, string>)
    ensures parsed.None? ==> r.Err?
    ensures parsed.Some? ==> r == Ok(FileMetricsOf(parsed.value))
    ensures parsed.Some? && Selected(parsed.value, 0, PyWalk()) == [] ==> r == Ok(Metrics(0, 0, 0, 0, 0))
  {
    hide Maxima, MaxOf, Deepest, Measures, Selected;
    if parsed.None? { return Err("failed to parse Python source"); }
    MeasuresNone();
    var visitor := new MetricVisitor();
    visitor.Visit(parsed.value, [], 0);
    ghost var ms := Measures(Selected(parsed.value, 0, PyWalk()));
    assert [] + ms == ms;
    if ms != [] {
      ListMaxima(ms, visitor.cyclomaticValues, visitor.cognitiveValues, visitor.functionLengths);
    }
    NoMaxima();
    r := Ok(Metrics(MaxOf(visitor.cyclomaticValues), MaxOf(visitor.cognitiveValues), visitor.maxNestingDepth,
                    MaxOf(visitor.functionLengths), 0));
  }

  lemma NoMaxima()
    ensures MaxOf([]) == 0 && Deepest([]) == 0
  {
  }

  // ---------------------------------------------------------------- what the numbers mean

  /** The paths of the functions found. */
  function Found(root: Node): seq<Path> {
    SelectedPaths(root, 0, PyWalk())
  }

  lemma FunctionKinds()
    ensures forall n: Node :: IsFunction(n) <==> n.tag.kind in [FunctionDef, AsyncFunctionDef]
  {
  }

  /** The visitor records exactly the functions inside no other function, in preorder. */
  lemma VisitFindsOutermost(root: Node)
    ensures forall p :: p in Found(root) <==>
              Valid(root, p) && At(root, p).tag.kind in [FunctionDef, AsyncFunctionDef]
              && forall j :: 0 <= j < |p| ==>
                   Valid(root, p[..j]) && At(root, p[..j]).tag.kind !in [FunctionDef, AsyncFunctionDef]
    ensures InPreorder(Found(root))
    ensures |Selected(root, 0, PyWalk())| == |Found(root)|
    ensures forall k :: 0 <= k < |Found(root)| ==>
              Valid(root, Found(root)[k]) && Selected(root, 0, PyWalk())[k] == At(root, Found(root)[k])
  {
    FunctionKinds();
    hide SelectedPaths, Selected, InPreorder, IsFunction;
    WalkMeaning(root, PyWalk());
  }

  /** The branches at and below a node. */
  function Branches(f: Node): seq<Site> {
    Sites(f, 0, PyRules())
  }

  /** A branch at this path, below this many others. */
  ghost predicate IsBranchSite(f: Node, s: Site) {
    Valid(f, s.path) && IsBranch(At(f, s.path)) && s.depth == CountedAbove(f, s.path, PyRules())
  }

  /** The operands after the first of every boolean operation at and below a node. */
  function BoolExtras(f: Node): nat
  {
    Extras(f, 0, PyRules())
  }

  /** The boolean operations at and below a node, and their operands: one operation of n operands for
      each node that has some. */
  function Operations(n: Node): nat
    decreases n, 1
  {
    (if n.tag.kind.BoolOp? && n.tag.kind.values > 0 then 1 else 0) + OperationsBelow(n.children)
  }

  function OperationsBelow(ts: seq<Node>): nat
    decreases ts, 0
  {
    if ts == [] then 0 else Operations(ts[0]) + OperationsBelow(ts[1..])
  }

  function Operands(n: Node): nat
    decreases n, 1
  {
    (if n.tag.kind.BoolOp? then n.tag.kind.values else 0) + OperandsBelow(n.children)
  }

  function OperandsBelow(ts: seq<Node>): nat
    decreases ts, 0
  {
    if ts == [] then 0 else Operands(ts[0]) + OperandsBelow(ts[1..])
  }

  /** Every operand counts but the first of its operation. */
  lemma {:induction false} ExtrasAreOperands(n: Node, depth: nat)
    ensures Extras(n, depth, PyRules()) + Operations(n) == Operands(n)
    decreases n, 1
  {
    hide ExtrasBelow, OperationsBelow, OperandsBelow;
    ExtrasAreOperandsBelow(n.children, Inner(PyRules(), n, depth));
  }

  lemma {:induction false} ExtrasAreOperandsBelow(ts: seq<Node>, depth: nat)
    ensures ExtrasBelow(ts, depth, PyRules()) + OperationsBelow(ts) == OperandsBelow(ts)
    decreases ts, 0
  {
    hide Extras, Operations, Operands, PyRules;
    if ts != [] {
      ExtrasAreOperands(ts[0], depth);
      ExtrasAreOperandsBelow(ts[1..], depth);
    }
  }

  /** What a node below `depth` branches adds to what is below it. */
  lemma NodeRule(n: Node, depth: nat)
    ensures var plain := CountForest(n.children, depth, PyRules());
            var nested := CountForest(n.children, depth + 1, PyRules());
            CountNode(n, depth, PyRules()) ==
            match n.tag.kind
            case If => Branch(nested, depth)
            case For => Branch(nested, depth)
            case AsyncFor => Branch(nested, depth)
            case While => Branch(nested, depth)
            case Try => Branch(nested, depth)
            case ExceptHandler => Branch(nested, depth)
            case IfExp => Branch(nested, depth)
            case Match => Branch(nested, depth)
            case BoolOp(operands) =>
              Tally(plain.branches + (if operands == 0 then 0 else operands - 1),
                    plain.cognitive + (if operands == 0 then 0 else operands - 1), plain.deepest)
            case FunctionDef => plain
            case AsyncFunctionDef => plain
            case Other(_) => plain
  {
    hide CountForest;
  }

  /** A function's metrics come from the list of all branches inside it: one plus their number, the
      sum of one more than the branches around each, and the most branches on a path; boolean
      operands add to the first two. */
  lemma MetricsMeaning(f: Node)
    ensures forall s :: s in Branches(f) <==> IsBranchSite(f, s)
    ensures InPreorder(Paths(Branches(f)))
    ensures var m, ds, extras := Measure(f), Depths(Branches(f)), BoolExtras(f);
            && extras + Operations(f) == Operands(f)
            && m.cyclomatic == 1 + |ds| + extras
            && m.cognitive == Sum(ds) + |ds| + extras
            && (forall k :: 0 <= k < |ds| ==> ds[k] < m.nestingDepth)
            && (ds != [] ==> m.nestingDepth > 0 && m.nestingDepth - 1 in ds)
            && (ds == [] ==> m.nestingDepth == 0)
            && m.functionLength == f.tag.endLine - f.tag.line + 1
  {
    hide Sites, CountNode, Extras, InPreorder, IsBranch, CountedAbove, Reaches, Valid, At, Operations, Operands;
    var r := PyRules();
    ExtrasAreOperands(f, 0);
    forall s ensures s in Branches(f) <==> IsBranchSite(f, s) {
      SiteMember(f, 0, s, r);
      if Reaches(f, s.path, 0, s.depth, r) { ReachesMeaning(f, s.path, 0, s.depth, r); }
      if IsBranchSite(f, s) {
        forall j | 0 <= j <= |s.path| ensures Valid(f, s.path[..j]) { PrefixValid(f, s.path, j); }
        ReachesWhen(f, s.path, 0, r);
      }
    }
    SitesOrder(f, 0, r);
    TallyOfSites(f, 0, r);
    OfDepthsMeaning(Depths(Branches(f)));
  }

  lemma {:induction false} PrefixValid(n: Node, p: Path, j: nat)
    requires Valid(n, p) && j <= |p|
    ensures Valid(n, p[..j])
    decreases |p|
  {
    if j > 0 {
      PrefixValid(n.children[p[0]], p[1..], j - 1);
      assert p[..j][1..] == p[1..][..j - 1];
    }
  }

  /** Nesting and cost of one Python function. */
  lemma MeasureGeometry(f: Node)
    ensures FunctionGeometry(Measure(f))
  {
    hide CountNode, Geometric, FunctionGeometry;
    NodeGeometry(f, 0, PyRules());
    TallyGeometry(CountNode(f, 0, PyRules()), f.tag.endLine - f.tag.line + 1);
  }

  /** A Python file obeys the lower bound always, and the upper bound exactly when it has a
      function, that is, when its cyclomatic metric is not zero. */
  lemma FileObeysGeometry(root: Node)
    ensures var m := FileMetricsOf(root);
            && CostsItsNesting(m.cognitive, m.nestingDepth)
            && (FileGeometry(m) <==> m.cyclomatic >= 1)
            && (m.cyclomatic >= 1 <==> Selected(root, 0, PyWalk()) != [])
  {
    hide Selected, Maxima, FunctionGeometry, Measure;
    var fs := Selected(root, 0, PyWalk());
    forall i | 0 <= i < |fs| ensures FunctionGeometry(Measures(fs)[i]) {
      MeasureGeometry(fs[i]);
    }
    if fs != [] { MaximaGeometry(Measures(fs)); }
  }
}
