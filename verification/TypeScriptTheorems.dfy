/** What the TypeScript counters report for a whole syntax tree, told by paths from its root. */
module TypeScriptTheorems {
  import opened Tally
  import opened Trees
  import opened Counting
  import opened FileMetrics
  import opened TypeScriptCounter

  // ---------------------------------------------------------------- what each kind of node costs

  /** What a node below `depth` branches adds to what is below it: a function hides all of it; a branch
      nests it; an `else` that holds an `if`, and an operation that is not logical, leave it as it is. */
  lemma NodeRule(n: Node, depth: nat, source: string)
    requires depth < 256
    ensures var plain := CountForest(n.children, depth, TsRules(source));
            var nested := CountForest(n.children, depth + 1, TsRules(source));
            CountNode(n, depth, TsRules(source)) ==
            match n.tag.kind
            case IfStatement => Branch(nested, depth)
            case ForStatement => Branch(nested, depth)
            case ForInStatement => Branch(nested, depth)
            case WhileStatement => Branch(nested, depth)
            case DoStatement => Branch(nested, depth)
            case SwitchCase => Branch(nested, depth)
            case SwitchDefault => Branch(nested, depth)
            case TernaryExpression => Branch(nested, depth)
            case CatchClause => Branch(nested, depth)
            case ElseClause =>
              if exists i :: 0 <= i < |n.children| && n.children[i].tag.kind == IfStatement then plain
              else Branch(nested, depth)
            case BinaryExpression =>
              if exists i :: && 0 <= i < |n.children| && (n.children[i].tag.kind == OperatorToken
                                                          || !n.children[i].tag.named)
                             && Slice(source, n.children[i].tag.startByte, n.children[i].tag.endByte)
                                in ["&&", "||", "??"]
              then Branch(nested, depth) else plain
            case OperatorToken => plain
            case Other(_) => plain
            case FunctionDeclaration => NONE
            case FunctionExpression => NONE
            case ArrowFunction => NONE
            case MethodDefinition => NONE
            case GeneratorFunctionDeclaration => NONE
            case GeneratorFunction => NONE
  {
    hide CountForest, Slice;
    forall i | 0 <= i < |n.children|
      ensures IsOperator(n.children[i], source) <==>
              && (n.children[i].tag.kind == OperatorToken || !n.children[i].tag.named)
              && Slice(source, n.children[i].tag.startByte, n.children[i].tag.endByte) in ["&&", "||", "??"]
    {
    }
    hide IsOperator;
  }

  /** However many branches there are around it, an `else if` costs no more than its `if`. */
  lemma ElseIfIsFree(n: Node, depth: nat, source: string)
    requires n.tag.kind == ElseClause && |n.children| == 1 && n.children[0].tag.kind == IfStatement
    ensures CountNode(n, depth, TsRules(source)) == CountNode(n.children[0], depth, TsRules(source))
  {
    var child := n.children[0];
    assert n.children == [child] && [child][1..] == [];
    assert CountForest([child], depth, TsRules(source)) == Plus(CountNode(child, depth, TsRules(source)), NONE);
    if depth < 256 { NodeRule(n, depth, source); }
    hide CountForest;
  }

  // ---------------------------------------------------------------- the functions found

  /** The paths of the functions found. */
  function Found(root: Node): seq<Path> {
    SelectedPaths(root, 0, TsWalk())
  }

  const FUNCTION_KINDS: seq<Kind> := [
    FunctionDeclaration, FunctionExpression, ArrowFunction, MethodDefinition, GeneratorFunctionDeclaration,
    GeneratorFunction]

  lemma FunctionKinds()
    ensures forall n: Node :: IsFunction(n) <==> n.tag.kind in FUNCTION_KINDS
  {
  }

  /** The walk reports exactly the functions at tree level at most 256, in preorder. */
  lemma WalkFindsFunctions(root: Node)
    ensures forall p :: p in Found(root) <==>
              Valid(root, p) && At(root, p).tag.kind in FUNCTION_KINDS && |p| <= 256
    ensures InPreorder(Found(root))
    ensures |Selected(root, 0, TsWalk())| == |Found(root)|
    ensures forall k :: 0 <= k < |Found(root)| ==>
              Valid(root, Found(root)[k]) && Selected(root, 0, TsWalk())[k] == At(root, Found(root)[k])
  {
    FunctionKinds();
    hide SelectedPaths, Selected, InPreorder, IsFunction, FUNCTION_KINDS;
    WalkMeaning(root, TsWalk());
  }

  // ---------------------------------------------------------------- the branches one function is charged for

  /** The branches of a function's own body. */
  function Body(f: Node, source: string): seq<Site> {
    SitesBelow(f.children, 0, 0, TsRules(source))
  }

  /** Below the function lies, at this path, a branch in this many others, with no function and
      fewer than 256 counted branches between. */
  ghost predicate ChargedTo(f: Node, s: Site, source: string) {
    && s.path != [] && Valid(f, s.path) && Counts(At(f, s.path), source)
    && (forall j :: 0 < j <= |s.path| ==> Valid(f, s.path[..j]) && !IsFunction(At(f, s.path[..j])))
    && s.depth < 256
    && s.depth == CountedAbove(f.children[s.path[0]], s.path[1..], TsRules(source))
  }

  /** Prefixes of a path from f, as prefixes of the path from the child it enters. */
  lemma ChildPrefix(f: Node, p: Path, j: nat)
    requires p != [] && p[0] < |f.children| && 0 < j <= |p|
    ensures Valid(f, p[..j]) <==> Valid(f.children[p[0]], p[1..][..j - 1])
    ensures Valid(f, p[..j]) ==> At(f, p[..j]) == At(f.children[p[0]], p[1..][..j - 1])
  {
    assert p[..j][1..] == p[1..][..j - 1];
  }

  lemma BodyMember(f: Node, s: Site, source: string)
    ensures s in Body(f, source) <==> ChargedTo(f, s, source)
  {
    hide Counts, IsFunction, SitesBelow, Reaches, Valid, At;
    SiteBelowMember(f.children, 0, 0, s, TsRules(source));
    if s in Body(f, source) { BodyIsCharged(f, s, source); }
    if ChargedTo(f, s, source) { ChargedIsBody(f, s, source); }
  }

  lemma BodyIsCharged(f: Node, s: Site, source: string)
    requires s.path != [] && s.path[0] < |f.children|
    requires Reaches(f.children[s.path[0]], s.path[1..], 0, s.depth, TsRules(source))
    ensures ChargedTo(f, s, source)
  {
    hide Counts, IsFunction, Reaches, CountedAbove;
    ReachesMeaning(f.children[s.path[0]], s.path[1..], 0, s.depth, TsRules(source));
    forall j | 0 < j <= |s.path| ensures Valid(f, s.path[..j]) && !IsFunction(At(f, s.path[..j])) {
      ChildPrefix(f, s.path, j);
    }
  }

  lemma ChargedIsBody(f: Node, s: Site, source: string)
    requires ChargedTo(f, s, source)
    ensures s.path[0] < |f.children|
    ensures Reaches(f.children[s.path[0]], s.path[1..], 0, s.depth, TsRules(source))
  {
    hide Counts, IsFunction, Reaches, CountedAbove;
    var child, p, r := f.children[s.path[0]], s.path[1..], TsRules(source);
    forall j | 0 <= j <= |p| ensures Valid(child, p[..j]) && !r.stops(At(child, p[..j])) {
      ChildPrefix(f, s.path, j + 1);
    }
    ReachesWhen(child, p, 0, r);
  }

  /** A function's metrics come from the list of the branches it is charged for: their number plus
      one, the sum of one more than the nesting of each, and the deepest nesting. */
  lemma MetricsMeaning(f: Node, source: string)
    ensures forall s :: s in Body(f, source) <==> ChargedTo(f, s, source)
    ensures InPreorder(Paths(Body(f, source)))
    ensures var m, ds := Measure(f, source), Depths(Body(f, source));
            && m.cyclomatic == 1 + |ds|
            && m.cognitive == Sum(ds) + |ds|
            && (forall k :: 0 <= k < |ds| ==> ds[k] < m.nestingDepth)
            && (ds != [] ==> m.nestingDepth > 0 && m.nestingDepth - 1 in ds)
            && (ds == [] ==> m.nestingDepth == 0)
            && m.functionLength == f.tag.endRow - f.tag.startRow + 1
  {
    hide SitesBelow, Reaches, CountForest, ChargedTo, ExtrasBelow, InPreorder;
    forall s ensures s in Body(f, source) <==> ChargedTo(f, s, source) {
      BodyMember(f, s, source);
    }
    SitesBelowOrder(f.children, 0, 0, TsRules(source));
    ForestDescription(f.children, 0, TsRules(source));
    NoExtras(f.children, 0, source);
  }

  lemma {:induction false} NoExtras(ts: seq<Node>, depth: nat, source: string)
    ensures ExtrasBelow(ts, depth, TsRules(source)) == 0
    decreases ts, 0
  {
    hide Pruned, Inner;
    if ts != [] {
      NoExtras(ts[0].children, Inner(TsRules(source), ts[0], depth), source);
      NoExtras(ts[1..], depth, source);
    }
  }

  /** Nesting and cost of one TypeScript function. */
  lemma MeasureGeometry(f: Node, source: string)
    ensures FunctionGeometry(Measure(f, source)) && Measure(f, source).nestingDepth <= 256
  {
    hide CountForest, Geometric, FunctionGeometry;
    ForestGeometry(f.children, 0, TsRules(source));
    TallyGeometry(CountForest(f.children, 0, TsRules(source)), f.tag.endRow + 1 - (f.tag.startRow + 1) + 1);
  }

  /** What analysing a TypeScript file returns obeys the geometry, whatever the file contains. */
  lemma FileObeysGeometry(blank: bool, root: Node, source: string)
    ensures FileGeometry(FileMetricsOf(blank, root, source)) && FileMetricsOf(blank, root, source).cyclomatic >= 1
  {
    PlainGeometry();
    hide Selected, Maxima, FunctionGeometry, FileGeometry, Measure;
    var ms := Measures(Selected(root, 0, TsWalk()), source);
    forall i | 0 <= i < |ms| ensures FunctionGeometry(ms[i]) {
      MeasureGeometry(Selected(root, 0, TsWalk())[i], source);
    }
    if ms != [] { MaximaGeometry(ms); AtLeastOne(Maxima(ms)); }
  }

  lemma PlainGeometry()
    ensures FileGeometry(PLAIN_FILE)
  {
  }

  lemma AtLeastOne(m: Metrics)
    requires FileGeometry(m)
    ensures m.cyclomatic >= 1
  {
  }

  // ---------------------------------------------------------------- each branch is charged once

  /** At path q lies the innermost function around the node at path p. */
  ghost predicate Innermost(n: Node, q: Path, p: Path) {
    && |q| < |p| && q == p[..|q|] && Valid(n, p) && Valid(n, q) && IsFunction(At(n, q))
    && forall j :: |q| < j < |p| ==> Valid(n, p[..j]) && !IsFunction(At(n, p[..j]))
  }

  /** A branch charged to the function at q has that function as its innermost one. */
  lemma ChargedToInnermost(root: Node, q: Path, s: Site, source: string)
    requires Valid(root, q) && IsFunction(At(root, q)) && ChargedTo(At(root, q), s, source)
    ensures Innermost(root, q, q + s.path)
    ensures Counts(At(root, q + s.path), source)
  {
    hide Counts, IsFunction;
    var f, p := At(root, q), q + s.path;
    AtAppend(root, q, s.path);
    assert p[..|q|] == q;
    forall j | |q| < j < |p| ensures Valid(root, p[..j]) && !IsFunction(At(root, p[..j])) {
      var r := s.path[..j - |q|];
      assert p[..j] == q + r;
      AtAppend(root, q, r);
    }
  }

  /** No branch is charged twice, to one function or to two. */
  lemma ChargedOnce(root: Node, q: Path, s: Site, q': Path, s': Site, source: string)
    requires Valid(root, q) && IsFunction(At(root, q)) && ChargedTo(At(root, q), s, source)
    requires Valid(root, q') && IsFunction(At(root, q')) && ChargedTo(At(root, q'), s', source)
    requires q + s.path == q' + s'.path
    ensures q == q' && s == s'
  {
    hide Counts, IsFunction;
    ChargedToInnermost(root, q, s, source);
    ChargedToInnermost(root, q', s', source);
    var p := q + s.path;
    assert q == p[..|q|] && q' == p[..|q'|];
    if |q| < |q'| { assert false; }
    if |q'| < |q| { assert false; }
    assert s.path == p[|q|..] && s'.path == p[|q'|..];
  }

  // ---------------------------------------------------------------- conservation

  /** Branch nodes at and below a node, when `below` says whether some function contains it. */
  function BranchesInFunctions(n: Node, below: bool, source: string): nat
    decreases n, 1
  {
    (if below && !IsFunction(n) && Counts(n, source) then 1 else 0)
    + BranchesInFunctionsBelow(n.children, below || IsFunction(n), source)
  }

  function BranchesInFunctionsBelow(ts: seq<Node>, below: bool, source: string): nat
    decreases ts, 0
  {
    if ts == [] then 0
    else BranchesInFunctions(ts[0], below, source) + BranchesInFunctionsBelow(ts[1..], below, source)
  }

  /** Where a node stands: outside every function; inside one that the walk finds, below that
      many counted branches; or inside one that lies too deep to be found. */
  datatype Place = Outside | Inside(depth: nat) | TooDeep

  function Enter(n: Node, level: nat, at: Place, source: string): Place {
    if IsFunction(n) then (if level <= 256 then Inside(0) else TooDeep)
    else if at.Inside? && Counts(n, source) then Inside(at.depth + 1)
    else at
  }

  /** Branches inside functions that no function is charged for: the function lies below tree
      level 256, or 256 counted branches nest around the branch. */
  function Uncharged(n: Node, level: nat, at: Place, source: string): nat
    decreases n, 1
  {
    (if !IsFunction(n) && Counts(n, source) && (at.TooDeep? || (at.Inside? && at.depth >= 256))
     then 1 else 0)
    + UnchargedBelow(n.children, level + 1, Enter(n, level, at, source), source)
  }

  function UnchargedBelow(ts: seq<Node>, level: nat, at: Place, source: string): nat
    decreases ts, 0
  {
    if ts == [] then 0 else Uncharged(ts[0], level, at, source) + UnchargedBelow(ts[1..], level, at, source)
  }

  /** The sum of cyclomatic - 1 over a list of functions. */
  function SumBranches(ms: seq<FunctionMetrics>): int {
    if ms == [] then 0 else ms[0].cyclomatic - 1 + SumBranches(ms[1..])
  }

  lemma {:induction false} SumBranchesAppend(a: seq<FunctionMetrics>, b: seq<FunctionMetrics>)
    ensures SumBranches(a + b) == SumBranches(a) + SumBranches(b)
  {
    if a == [] {
      assert a + b == b;
    } else {
      SumBranchesAppend(a[1..], b);
      assert (a + b)[1..] == a[1..] + b;
    }
  }

  /** The functions the walk reports from a tree level, when it gets that far. */
  function FoundFrom(n: Node, level: nat, source: string): seq<FunctionMetrics> {
    Measures(if level > 256 then [] else Selected(n, level, TsWalk()), source)
  }

  function FoundBelow(ts: seq<Node>, level: nat, source: string): seq<FunctionMetrics> {
    Measures(if level > 256 then [] else SelectedBelow(ts, level, TsWalk()), source)
  }

  /** What the function around a node is charged for at and below it. */
  function Share(n: Node, at: Place, source: string): nat {
    if at.Inside? then CountNode(n, at.depth, TsRules(source)).branches else 0
  }

  function ShareBelow(ts: seq<Node>, at: Place, source: string): nat {
    if at.Inside? then CountForest(ts, at.depth, TsRules(source)).branches else 0
  }

  lemma {:induction false} Conserve(n: Node, level: nat, at: Place, source: string)
    ensures SumBranches(FoundFrom(n, level, source)) + Share(n, at, source) + Uncharged(n, level, at, source)
         == BranchesInFunctions(n, !at.Outside?, source)
    decreases n, 1
  {
    hide Counts, IsFunction, SumBranches, CountForest, SelectedBelow, Selected, Measures;
    ConserveForest(n.children, level + 1, Enter(n, level, at, source), source);
    FoundSplits(n, level, source);
    ShareOf(n, at, source);
  }

  /** The function's own branches, and those of the functions below it. */
  lemma FoundSplits(n: Node, level: nat, source: string)
    ensures SumBranches(FoundFrom(n, level, source)) ==
            (if IsFunction(n) && level <= 256
             then CountForest(n.children, 0, TsRules(source)).branches else 0)
            + SumBranches(FoundBelow(n.children, level + 1, source))
  {
    hide SelectedBelow, Selected, CountForest, Measure, IsFunction, Measures, SumBranches;
    SumBranchesNone(); MeasuresNone(source);
    if level <= 256 {
      SelectedMeans(n, level);
      var own := if IsFunction(n) then [n] else [];
      var below := if level >= 256 then [] else SelectedBelow(n.children, level + 1, TsWalk());
      MeasuresAppend(own, below, source);
      SumBranchesAppend(Measures(own, source), Measures(below, source));
      if IsFunction(n) { SumBranchesOne(n, source); }
    }
  }

  lemma MeasuresAppend(a: seq<Node>, b: seq<Node>, source: string)
    ensures Measures(a + b, source) == Measures(a, source) + Measures(b, source)
  {
    hide Measure;
  }

  lemma MeasuresNone(source: string)
    ensures Measures([], source) == []
  {
  }

  lemma SumBranchesOne(n: Node, source: string)
    ensures SumBranches(Measures([n], source)) == CountForest(n.children, 0, TsRules(source)).branches
  {
    hide CountForest;
    MeasureMeans(n, source);
    assert Measures([n], source) == [Measure(n, source)] && [Measure(n, source)][1..] == [];
  }

  /** A node's share is its own branch and its children's share. */
  lemma ShareOf(n: Node, at: Place, source: string)
    ensures IsFunction(n) || !at.Inside? ==> Share(n, at, source) == 0
    ensures !IsFunction(n) && at.Inside? && at.depth >= 256 ==>
              Share(n, at, source) == 0
              && forall d :: d >= 256 ==> ShareBelow(n.children, Inside(d), source) == 0
    ensures !IsFunction(n) && at.Inside? && at.depth < 256 ==>
              Share(n, at, source) == (if Counts(n, source) then 1 else 0)
                                      + ShareBelow(n.children,
                                                   if Counts(n, source) then Inside(at.depth + 1) else at, source)
  {
    hide Counts, IsFunction, CountForest;
    forall d: nat | d >= 256 ensures ShareBelow(n.children, Inside(d), source) == 0 {
      CapReached(n.children, d, source);
    }
  }

  lemma {:induction false} CapReached(ts: seq<Node>, depth: nat, source: string)
    requires depth >= 256
    ensures CountForest(ts, depth, TsRules(source)) == NONE
    decreases |ts|
  {
    hide CountNode, IsFunction;
    if ts != [] {
      CountNodeMeans(ts[0], depth, source);
      CapReached(ts[1..], depth, source);
    }
  }

  lemma {:induction false} ConserveForest(ts: seq<Node>, level: nat, at: Place, source: string)
    ensures SumBranches(FoundBelow(ts, level, source)) + ShareBelow(ts, at, source)
          + UnchargedBelow(ts, level, at, source)
         == BranchesInFunctionsBelow(ts, !at.Outside?, source)
    decreases ts, 0
  {
    hide Counts, IsFunction, SumBranches, CountNode, Selected, Uncharged, BranchesInFunctions, Measure, Measures;
    SumBranchesNone(); MeasuresNone(source);
    if ts != [] {
      Conserve(ts[0], level, at, source);
      ConserveForest(ts[1..], level, at, source);
      SumBranchesAppend(FoundFrom(ts[0], level, source), FoundBelow(ts[1..], level, source));
      if level <= 256 {
        MeasuresAppend(Selected(ts[0], level, TsWalk()), SelectedBelow(ts[1..], level, TsWalk()), source);
      }
    }
  }

  lemma SumBranchesNone()
    ensures SumBranches([]) == 0
  {
  }

  /** In a tree no deeper than 256 the caps cost nothing. */
  lemma {:induction false} NothingUncharged(n: Node, level: nat, at: Place, source: string)
    requires level + Height(n) <= 256
    requires !at.TooDeep? && (at.Inside? ==> at.depth < level)
    ensures Uncharged(n, level, at, source) == 0
    decreases n, 1
  {
    hide Counts, IsFunction;
    NothingUnchargedBelow(n.children, level, Enter(n, level, at, source), source);
  }

  lemma {:induction false} NothingUnchargedBelow(ts: seq<Node>, level: nat, at: Place, source: string)
    requires level + ForestHeight(ts) <= 256
    requires !at.TooDeep? && (at.Inside? ==> at.depth < level + 1)
    ensures UnchargedBelow(ts, level + 1, at, source) == 0
    decreases ts, 0
  {
    hide Uncharged, Height;
    if ts != [] {
      NothingUncharged(ts[0], level + 1, at, source);
      NothingUnchargedBelow(ts[1..], level, at, source);
    }
  }

  /** Conservation: over the functions the walk reports, the branches charged are the branches
      inside functions, less those beyond the two caps. */
  lemma Conservation(root: Node, source: string)
    ensures SumBranches(Measures(Selected(root, 0, TsWalk()), source)) + Uncharged(root, 0, Outside, source)
         == BranchesInFunctions(root, false, source)
    ensures Height(root) <= 256 ==>
              SumBranches(Measures(Selected(root, 0, TsWalk()), source)) == BranchesInFunctions(root, false, source)
  {
    Conserve(root, 0, Outside, source);
    if Height(root) <= 256 { NothingUncharged(root, 0, Outside, source); }
  }
}
