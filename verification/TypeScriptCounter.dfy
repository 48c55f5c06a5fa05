/** The TypeScript counters: two depth-first traversals with explicit stacks, specified by
    recursion on the syntax tree. */
module TypeScriptCounter {
  import opened Wrappers
  import opened Tally
  import opened Trees
  import opened Counting
  import opened FileMetrics

  const MAX_NESTING_DEPTH: nat := 256

  /** The node types the counters look at; every other type is Other. */
  datatype Kind =
    | IfStatement | ElseClause | ForStatement | ForInStatement | WhileStatement | DoStatement
    | SwitchCase | SwitchDefault | TernaryExpression | CatchClause | BinaryExpression
    | FunctionDeclaration | FunctionExpression | ArrowFunction | MethodDefinition
    | GeneratorFunctionDeclaration | GeneratorFunction
    | OperatorToken
    | Other(name: string)

  predicate IsBranchType(k: Kind) {
    k.IfStatement? || k.ElseClause? || k.ForStatement? || k.ForInStatement? || k.WhileStatement? || k.DoStatement?
    || k.SwitchCase? || k.SwitchDefault? || k.TernaryExpression? || k.CatchClause? || k.BinaryExpression?
  }

  predicate IsFunctionType(k: Kind) {
    k.FunctionDeclaration? || k.FunctionExpression? || k.ArrowFunction? || k.MethodDefinition?
    || k.GeneratorFunctionDeclaration? || k.GeneratorFunction?
  }

  /** "&&", "||" or "??": as the type of an operator token, and as source text. */
  predicate IsLogicalOperator(text: string) {
    text == "&&" || text == "||" || text == "??"
  }

  /** A syntax-tree node: its type, whether it is named, its byte span, its rows. */
  datatype Syntax = Syntax(kind: Kind, named: bool, startByte: nat, endByte: nat, startRow: nat, endRow: nat)

  type Node = Tree<Syntax>

  // ---------------------------------------------------------------- which nodes count

  predicate IsFunction(n: Node) {
    IsFunctionType(n.tag.kind)
  }

  /** A slice of the source text, cut off at its end. */
  function Slice(source: string, start: nat, end: nat): string {
    if start >= |source| || end <= start then ""
    else if end <= |source| then source[start..end] else source[start..]
  }

  predicate IsOperator(c: Node, source: string) {
    && (!c.tag.named || c.tag.kind.OperatorToken?)
    && IsLogicalOperator(Slice(source, c.tag.startByte, c.tag.endByte))
  }

  predicate IsLogical(n: Node, source: string) {
    exists i :: 0 <= i < |n.children| && IsOperator(n.children[i], source)
  }

  predicate IsElseIf(n: Node) {
    exists i :: 0 <= i < |n.children| && n.children[i].tag.kind.IfStatement?
  }

  /** A branch type that is neither a non-logical binary expression nor the `else` of an `else if`. */
  predicate Counts(n: Node, source: string) {
    && IsBranchType(n.tag.kind)
    && (n.tag.kind.BinaryExpression? ==> IsLogical(n, source))
    && (n.tag.kind.ElseClause? ==> !IsElseIf(n))
  }

  // ---------------------------------------------------------------- recursive specification

  /** Nested functions are not entered, every branch counts, and nesting is cut off at 256. */
  function TsRules(source: string): Rules<Syntax> {
    Rules((n: Node) => IsFunction(n), (n: Node) => Counts(n, source), (n: Node) => 0, Some(MAX_NESTING_DEPTH))
  }

  /** Every function is found, inside other functions too, down to tree level 256. */
  function TsWalk(): Walk<Syntax> {
    Walk((n: Node) => IsFunction(n), true, Some(MAX_NESTING_DEPTH))
  }

  function Measure(f: Node, source: string): FunctionMetrics {
    OfTally(CountForest(f.children, 0, TsRules(source)), f.tag.endRow + 1 - (f.tag.startRow + 1) + 1)
  }

  function Measures(fs: seq<Node>, source: string): (r: seq<FunctionMetrics>)
    ensures |r| == |fs| && forall k :: 0 <= k < |fs| ==> r[k] == Measure(fs[k], source)
  {
    seq(|fs|, k requires 0 <= k < |fs| => Measure(fs[k], source))
  }

  // ---------------------------------------------------------------- stacks

  function Size(n: Node): (s: nat)
    ensures s > 0
    decreases n, 1
  {
    1 + ForestSize(n.children)
  }

  function ForestSize(ts: seq<Node>): nat
    decreases ts, 0
  {
    if ts == [] then 0 else Size(ts[0]) + ForestSize(ts[1..])
  }

  function StackSize(stack: seq<(Node, nat)>): nat {
    if stack == [] then 0 else StackSize(stack[..|stack| - 1]) + Size(stack[|stack| - 1].0)
  }

  /** Children as they lie on the stack: the first on top. */
  function Reversed(ts: seq<Node>, depth: nat): (r: seq<(Node, nat)>)
    ensures |r| == |ts|
    ensures forall i :: 0 <= i < |ts| ==> r[i] == (ts[|ts| - 1 - i], depth)
  {
    if ts == [] then [] else Reversed(ts[1..], depth) + [(ts[0], depth)]
  }

  function StackTally(stack: seq<(Node, nat)>, source: string): Tally {
    if stack == [] then NONE
    else
      var k := |stack| - 1;
      Plus(CountNode(stack[k].0, stack[k].1, TsRules(source)), StackTally(stack[..k], source))
  }

  function StackWalk(stack: seq<(Node, nat)>): seq<Node> {
    if stack == [] then []
    else
      var k := |stack| - 1;
      Selected(stack[k].0, stack[k].1, TsWalk()) + StackWalk(stack[..k])
  }

  lemma PushedTop(stack: seq<(Node, nat)>, ts: seq<Node>, depth: nat)
    ensures ts == [] ==> stack + Reversed(ts, depth) == stack
    ensures ts != [] ==>
              var whole, k := stack + Reversed(ts, depth), |stack| + |ts| - 1;
              |whole| == k + 1 && whole[..k] == stack + Reversed(ts[1..], depth) && whole[k] == (ts[0], depth)
  {
  }

  lemma {:induction false} PushedSize(stack: seq<(Node, nat)>, ts: seq<Node>, depth: nat)
    ensures StackSize(stack + Reversed(ts, depth)) == StackSize(stack) + ForestSize(ts)
    decreases |ts|
  {
    hide Size, Reversed;
    PushedTop(stack, ts, depth);
    if ts != [] { PushedSize(stack, ts[1..], depth); }
  }

  lemma {:induction false} PushedTally(stack: seq<(Node, nat)>, ts: seq<Node>, depth: nat, source: string)
    ensures StackTally(stack + Reversed(ts, depth), source)
         == Plus(CountForest(ts, depth, TsRules(source)), StackTally(stack, source))
    decreases |ts|
  {
    hide CountNode, Plus, Reversed;
    PushedTop(stack, ts, depth);
    if ts == [] {
      Identity(StackTally(stack, source));
    } else {
      PushedTally(stack, ts[1..], depth, source);
      PlusIsMonoid(CountNode(ts[0], depth, TsRules(source)), CountForest(ts[1..], depth, TsRules(source)),
                   StackTally(stack, source));
    }
  }

  lemma {:induction false} PushedWalk(stack: seq<(Node, nat)>, ts: seq<Node>, depth: nat)
    ensures StackWalk(stack + Reversed(ts, depth)) == SelectedBelow(ts, depth, TsWalk()) + StackWalk(stack)
    decreases |ts|
  {
    hide Selected, Reversed;
    PushedTop(stack, ts, depth);
    if ts != [] {
      PushedWalk(stack, ts[1..], depth);
      Regroup([], Selected(ts[0], depth, TsWalk()), SelectedBelow(ts[1..], depth, TsWalk()), StackWalk(stack));
    }
  }

  /** Taking the top off a stack. */
  lemma Popped(stack: seq<(Node, nat)>, source: string)
    requires stack != []
    ensures var k := |stack| - 1; var (n, depth) := stack[k]; var rest := stack[..k];
            && StackSize(stack) == StackSize(rest) + 1 + ForestSize(n.children)
            && StackTally(stack, source) == Plus(CountNode(n, depth, TsRules(source)), StackTally(rest, source))
            && StackWalk(stack) == Selected(n, depth, TsWalk()) + StackWalk(rest)
  {
  }

  /** Pushes children right to left, so that they come off left to right. */
  method PushReversed(stack: seq<(Node, nat)>, children: seq<Node>, depth: nat) returns (r: seq<(Node, nat)>)
    ensures r == stack + Reversed(children, depth)
  {
    r := stack;
    for i := |children| downto 0
      invariant r == stack + Reversed(children[i..], depth)
    {
      assert children[i..][1..] == children[i + 1..];
      r := r + [(children[i], depth)];
    }
    assert children[0..] == children;
  }

  // ---------------------------------------------------------------- the two traversals

  method IsLogicalExpression(n: Node, source: string) returns (logical: bool)
    ensures logical == IsLogical(n, source)
  {
    var opText := "";
    for i := 0 to |n.children|
      invariant opText == ""
      invariant forall j :: 0 <= j < i ==> !IsOperator(n.children[j], source)
    {
      var c := n.children[i];
      if !c.tag.named || c.tag.kind.OperatorToken? {
        var candidate := Slice(source, c.tag.startByte, c.tag.endByte);
        if IsLogicalOperator(candidate) {
          opText := candidate;
          assert IsOperator(n.children[i], source);
          break;
        }
      }
    }
    logical := IsLogicalOperator(opText);
  }

  lemma CountBranch(acc: Tally, inner: Tally, rest: Tally, depth: nat)
    ensures Plus(acc, Plus(Branch(inner, depth), rest)) == Plus(Branch(acc, depth), Plus(inner, rest))
  {
  }

  method CountTsFunction(node: Node, source: string) returns (cyclomatic: nat, cognitive: nat, maxDepth: nat)
    ensures cyclomatic == 1 + CountForest(node.children, 0, TsRules(source)).branches
    ensures cognitive == CountForest(node.children, 0, TsRules(source)).cognitive
    ensures maxDepth == CountForest(node.children, 0, TsRules(source)).deepest
  {
    hide *;
    cyclomatic, cognitive, maxDepth := 1, 0, 0;
    var stack := PushReversed([], node.children, 0);
    ghost var goal := CountForest(node.children, 0, TsRules(source));
    assert [] + Reversed(node.children, 0) == stack;
    PushedTally([], node.children, 0, source);
    EmptyStack(source); Identity(goal);
    while stack != []
      invariant cyclomatic >= 1
      invariant Plus(Tally(cyclomatic - 1, cognitive, maxDepth), StackTally(stack, source)) == goal
      decreases StackSize(stack)
    {
      Popped(stack, source);
      var (n, depth) := stack[|stack| - 1];
      stack := stack[..|stack| - 1];
      ghost var acc, rest := Tally(cyclomatic - 1, cognitive, maxDepth), StackTally(stack, source);
      Identity(rest);
      CountNodeMeans(n, depth, source);
      if IsFunction(n) { continue; }
      if depth >= MAX_NESTING_DEPTH { continue; }
      PushedTally(stack, n.children, depth, source); PushedSize(stack, n.children, depth);
      if IsBranchType(n.tag.kind) {
        if n.tag.kind.BinaryExpression? {
          var logical := IsLogicalExpression(n, source);
          if !logical {
            stack := PushReversed(stack, n.children, depth);
            continue;
          }
        }
        if n.tag.kind.ElseClause? {
          if IsElseIf(n) {
            stack := PushReversed(stack, n.children, depth);
            continue;
          }
        }
        cyclomatic := cyclomatic + 1;
        cognitive := cognitive + 1 + depth;
        var newDepth := depth + 1;
        if maxDepth < newDepth { maxDepth := newDepth; }
        CountBranch(acc, CountForest(n.children, newDepth, TsRules(source)), rest, depth);
        Entered(acc, depth);
        PushedTally(stack, n.children, newDepth, source); PushedSize(stack, n.children, newDepth);
        stack := PushReversed(stack, n.children, newDepth);
        continue;
      }
      stack := PushReversed(stack, n.children, depth);
    }
    EmptyStack(source); Identity(Tally(cyclomatic - 1, cognitive, maxDepth));
  }

  lemma EmptyStack(source: string)
    ensures StackTally([], source) == NONE == Tally(0, 0, 0) && StackWalk([]) == []
  {
  }

  lemma Entered(t: Tally, depth: nat)
    ensures Branch(t, depth) == Tally(t.branches + 1, t.cognitive + 1 + depth,
                                      if t.deepest < depth + 1 then depth + 1 else t.deepest)
  {
  }

  lemma CountNodeMeans(n: Node, depth: nat, source: string)
    ensures IsFunction(n) || depth >= MAX_NESTING_DEPTH ==> CountNode(n, depth, TsRules(source)) == NONE
    ensures !IsFunction(n) && depth < MAX_NESTING_DEPTH ==>
              CountNode(n, depth, TsRules(source)) ==
              if IsBranchType(n.tag.kind) && (n.tag.kind.BinaryExpression? ==> IsLogical(n, source))
                 && (n.tag.kind.ElseClause? ==> !IsElseIf(n))
              then Branch(CountForest(n.children, depth + 1, TsRules(source)), depth)
              else CountForest(n.children, depth, TsRules(source))
  {
  }

  lemma Regroup<T>(a: seq<T>, b: seq<T>, c: seq<T>, d: seq<T>)
    ensures a + ((b + c) + d) == (a + b) + (c + d)
    ensures (b + c) + d == b + (c + d)
  {
  }

  /** Measures the functions the walk selects, in order. */
  method WalkTsFunctions(node: Node, source: string) returns (results: seq<FunctionMetrics>)
    ensures results == Measures(Selected(node, 0, TsWalk()), source)
  {
    hide *;
    results := [];
    var stack := [(node, 0)];
    ghost var found: seq<Node> := [];
    Popped(stack, source); EmptyStack(source);
    assert stack[..0] == [];
    while stack != []
      invariant found + StackWalk(stack) == Selected(node, 0, TsWalk())
      invariant results == Measures(found, source)
      decreases StackSize(stack)
    {
      Popped(stack, source);
      var (current, depth) := stack[|stack| - 1];
      stack := stack[..|stack| - 1];
      SelectedMeans(current, depth);
      ghost var own := if IsFunction(current) then [current] else [];
      ghost var below := if depth >= MAX_NESTING_DEPTH then []
                         else SelectedBelow(current.children, depth + 1, TsWalk());
      Regroup(found, own, below, StackWalk(stack));
      if IsFunction(current) {
        var cyclomatic, cognitive, maxDepth := CountTsFunction(current, source);
        var startLine, endLine := current.tag.startRow + 1, current.tag.endRow + 1;
        MeasureMeans(current, source);
        results := results + [FunctionMetrics(cyclomatic, cognitive, maxDepth, endLine - startLine + 1)];
      }
      found := found + own;
      if depth >= MAX_NESTING_DEPTH { continue; }
      PushedWalk(stack, current.children, depth + 1); PushedSize(stack, current.children, depth + 1);
      stack := PushReversed(stack, current.children, depth + 1);
    }
    EmptyStack(source);
  }

  lemma SelectedMeans(n: Node, depth: nat)
    ensures Selected(n, depth, TsWalk()) ==
            (if IsFunction(n) then [n] else [])
            + (if depth >= MAX_NESTING_DEPTH then [] else SelectedBelow(n.children, depth + 1, TsWalk()))
  {
  }

  lemma MeasureMeans(n: Node, source: string)
    ensures var t := CountForest(n.children, 0, TsRules(source));
            Measure(n, source) ==
            FunctionMetrics(1 + t.branches, t.cognitive, t.deepest, n.tag.endRow + 1 - (n.tag.startRow + 1) + 1)
  {
  }

  // ---------------------------------------------------------------- one file

  /** The metrics of a file with no function in it. */
  const PLAIN_FILE: Metrics := Metrics(1, 0, 0, 0, 0)

  /** Blank text and files without functions score as one plain function. */
  function FileMetricsOf(blank: bool, root: Node, source: string): Metrics {
    var ms := Measures(Selected(root, 0, TsWalk()), source);
    if blank || ms == [] then PLAIN_FILE else Maxima(ms)
  }

  method AnalyseTypeScript(blank: bool, root: Node, source: string) returns (m: Metrics)
    ensures m == FileMetricsOf(blank, root, source)
    ensures blank || Selected(root, 0, TsWalk()) == [] ==> m == Metrics(1, 0, 0, 0, 0)
  {
    hide Maxima, Selected, Measures;
    if blank { return PLAIN_FILE; }
    var results := WalkTsFunctions(root, source);
    if results == [] { return PLAIN_FILE; }
    return Maxima(results);
  }
}
