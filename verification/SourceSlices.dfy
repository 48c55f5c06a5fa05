/** The TypeScript counter reads operator text by slicing decoded source with byte offsets.  This is
    what the slices hold, and when they are the tokens. */
module SourceSlices {
  import opened Utf8
  import opened Counting
  import opened Trees
  import opened Tally
  import opened FileMetrics
  import opened Wrappers
  import opened TypeScriptCounter

  /** The byte offset of a character position, as the parser reports it. */
  function ByteOffset(source: string, i: nat): nat
    requires i <= |source|
  {
    |Encode(source[..i])|
  }

  predicate IsAscii(c: char) {
    c as int < 0x80
  }

  /** Every span of characters, whether a token or not, is sliced as it is written. */
  ghost predicate SpansAreSliced(source: string) {
    forall i, j :: 0 <= i < j <= |source| ==>
                     Slice(source, ByteOffset(source, i), ByteOffset(source, j)) == source[i..j]
  }

  predicate AsciiButLast(source: string) {
    forall k :: 0 <= k < |source| - 1 ==> IsAscii(source[k])
  }

  lemma OffsetStep(source: string, i: nat)
    requires i < |source|
    ensures ByteOffset(source, i + 1) == ByteOffset(source, i) + |EncodeChar(source[i])|
  {
    hide EncodeChar, Encode;
    assert source[..i + 1] == source[..i] + [source[i]];
    EncodeAppend(source[..i], [source[i]]);
    EncodeOne(source[i]);
  }

  lemma EncodeOne(c: char)
    ensures Encode([c]) == EncodeChar(c)
  {
    hide EncodeChar;
    assert [c][1..] == "" && Encode("") == [];
  }

  lemma {:induction false} AsciiOffset(source: string, i: nat)
    requires i <= |source| && forall k :: 0 <= k < i ==> IsAscii(source[k])
    ensures ByteOffset(source, i) == i
  {
    hide Encode;
    if i > 0 {
      AsciiOffset(source, i - 1);
      OffsetStep(source, i - 1);
    } else {
      assert source[..0] == "";
      EmptyEncoding();
    }
  }

  lemma EmptyEncoding()
    ensures Encode("") == []
  {
  }

  lemma {:induction false} OffsetAtLeast(source: string, i: nat)
    requires i <= |source|
    ensures ByteOffset(source, i) >= i
  {
    hide Encode;
    if i > 0 {
      OffsetAtLeast(source, i - 1);
      OffsetStep(source, i - 1);
    }
  }

  /** Every span is sliced as written exactly when no character but the last lies outside ASCII. */
  lemma SpansAreSlicedWhen(source: string)
    ensures SpansAreSliced(source) <==> AsciiButLast(source)
  {
    hide Encode, EncodeChar, ByteOffset;
    if AsciiButLast(source) {
      forall i, j | 0 <= i < j <= |source|
        ensures Slice(source, ByteOffset(source, i), ByteOffset(source, j)) == source[i..j]
      {
        AsciiOffset(source, i);
        if j < |source| { AsciiOffset(source, j); } else { OffsetAtLeast(source, j); }
      }
    } else {
      var k := FirstBeyondAscii(source);
      AsciiOffset(source, k);
      OffsetStep(source, k);
      WideCharacter(source[k]);
      assert |Slice(source, ByteOffset(source, k), ByteOffset(source, k + 1))| >= 2;
      assert |source[k..k + 1]| == 1;
    }
  }

  lemma WideCharacter(c: char)
    requires !IsAscii(c)
    ensures |EncodeChar(c)| >= 2
  {
  }

  lemma FirstBeyondAscii(source: string) returns (k: nat)
    requires !AsciiButLast(source)
    ensures k < |source| - 1 && !IsAscii(source[k]) && forall j :: 0 <= j < k ==> IsAscii(source[j])
  {
    k := 0;
    while IsAscii(source[k])
      invariant k < |source| - 1
      invariant forall j :: 0 <= j < k ==> IsAscii(source[j])
      decreases |source| - k
    {
      k := k + 1;
      if k == |source| - 1 { assert AsciiButLast(source); }
    }
  }

  /** The operator token at these character positions. */
  ghost predicate IsToken(c: Node, source: string, i: nat, j: nat) {
    i < j <= |source| && c.tag.startByte == ByteOffset(source, i) && c.tag.endByte == ByteOffset(source, j)
  }

  /** How far the slices before position i lie behind the text: one for each byte beyond the first of
      every character before it. */
  function Drift(source: string, i: nat): int
    requires i <= |source|
  {
    ByteOffset(source, i) - i
  }

  predicate AsciiSpan(source: string, i: nat, j: nat)
    requires i <= j <= |source|
  {
    forall k :: i <= k < j ==> IsAscii(source[k])
  }

  lemma {:induction false} SpanOffset(source: string, i: nat, j: nat)
    requires i <= j <= |source| && AsciiSpan(source, i, j)
    ensures Drift(source, j) == Drift(source, i) >= 0
  {
    hide Encode, EncodeChar, ByteOffset;
    if i < j {
      SpanOffset(source, i, j - 1);
      OffsetStep(source, j - 1);
      NarrowCharacter(source[j - 1]);
    } else {
      OffsetAtLeast(source, i);
    }
  }

  lemma NarrowCharacter(c: char)
    requires IsAscii(c)
    ensures |EncodeChar(c)| == 1
  {
  }

  function Clip(source: string, i: nat): (k: nat)
    ensures k <= |source|
  {
    if i <= |source| then i else |source|
  }

  lemma SliceClipped(source: string, a: nat, b: nat)
    requires a <= b
    ensures Slice(source, a, b) == source[Clip(source, a)..Clip(source, b)]
  {
  }

  /** Any token in ASCII, wherever it stands, is taken for a logical operator exactly when one is written
      where its slice has drifted to, as far as the source goes. */
  lemma OperatorsAfterDrift(c: Node, source: string, i: nat, j: nat)
    requires IsToken(c, source, i, j) && AsciiSpan(source, i, j)
    ensures var d := Drift(source, i);
            d >= 0
            && (IsOperator(c, source) <==>
                (!c.tag.named || c.tag.kind.OperatorToken?)
                && IsLogicalOperator(source[Clip(source, i + d)..Clip(source, j + d)]))
  {
    hide Encode, ByteOffset;
    SpanOffset(source, i, j);
    var d := Drift(source, i);
    assert c.tag.startByte == i + d && c.tag.endByte == j + d;
    SliceClipped(source, i + d, j + d);
    hide Slice, Clip, IsLogicalOperator;
  }

  /** A logical operator is recognised exactly when one is written its drift further on. */
  lemma LogicalOperatorSeen(c: Node, source: string, i: nat, j: nat)
    requires IsToken(c, source, i, j) && IsLogicalOperator(source[i..j])
    requires !c.tag.named || c.tag.kind.OperatorToken?
    ensures var d := Drift(source, i);
            d >= 0 && (IsOperator(c, source) <==> j + d <= |source| && IsLogicalOperator(source[i + d..j + d]))
  {
    hide Encode, ByteOffset;
    assert source[i..j][0] == source[i] && source[i..j][1] == source[i + 1];
    OperatorsAfterDrift(c, source, i, j);
  }

  /** So is any token in ASCII by its own text, when nothing before it lies outside ASCII, whatever comes
      after. */
  lemma OperatorsByText(c: Node, source: string, i: nat, j: nat)
    requires IsToken(c, source, i, j) && AsciiSpan(source, 0, j)
    ensures IsOperator(c, source) <==> (!c.tag.named || c.tag.kind.OperatorToken?) && IsLogicalOperator(source[i..j])
  {
    hide Encode, ByteOffset;
    AsciiOffset(source, i);
    OperatorsAfterDrift(c, source, i, j);
  }

  // ---------------------------------------------------------------- whole trees

  /** The bytes of a token, which is what the parser saw. */
  function TokenBytes(c: Node, source: string): seq<Byte> {
    if c.tag.startByte <= c.tag.endByte <= |Encode(source)| then Encode(source)[c.tag.startByte..c.tag.endByte] else []
  }

  predicate MayBeOperator(c: Node) {
    !c.tag.named || c.tag.kind.OperatorToken?
  }

  /** "&&", "||" or "??", as bytes. */
  predicate IsLogicalToken(c: Node, source: string) {
    MayBeOperator(c) && TokenBytes(c, source) in {[38, 38], [124, 124], [63, 63]}
  }

  lemma OperatorBytes()
    ensures Encode("&&") == [38, 38] && Encode("||") == [124, 124] && Encode("??") == [63, 63]
  {
    hide Encode;
    EncodeOne('&'); EncodeOne('|'); EncodeOne('?');
    assert "&&" == ['&'] + ['&'] && "||" == ['|'] + ['|'] && "??" == ['?'] + ['?'];
    EncodeAppend(['&'], ['&']); EncodeAppend(['|'], ['|']); EncodeAppend(['?'], ['?']);
  }

  /** A node counts by the tokens in it, not by slices of the decoded text. */
  predicate CountsByToken(n: Node, source: string) {
    && IsBranchType(n.tag.kind)
    && (n.tag.kind.BinaryExpression? ==> exists i :: 0 <= i < |n.children| && IsLogicalToken(n.children[i], source))
    && (n.tag.kind.ElseClause? ==> !IsElseIf(n))
  }

  function TokenRules(source: string): Rules<Syntax> {
    Rules((n: Node) => IsFunction(n), (n: Node) => CountsByToken(n, source), (n: Node) => 0, Some(MAX_NESTING_DEPTH))
  }

  /** A function's metrics, counted by its tokens. */
  function MeasureByToken(f: Node, source: string): FunctionMetrics {
    OfTally(CountForest(f.children, 0, TokenRules(source)), f.tag.endRow + 1 - (f.tag.startRow + 1) + 1)
  }

  /** Every token that may be an operator of a binary expression ends within the first p bytes. */
  ghost predicate OperatorsWithin(n: Node, p: nat)
    decreases n
  {
    && (n.tag.kind.BinaryExpression? ==>
          forall i :: 0 <= i < |n.children| && MayBeOperator(n.children[i]) ==>
            n.children[i].tag.startByte <= n.children[i].tag.endByte <= p)
    && forall i :: 0 <= i < |n.children| ==> OperatorsWithin(n.children[i], p)
  }

  lemma {:induction false} AsciiBytes(source: string, p: nat)
    requires p <= |source| && AsciiSpan(source, 0, p)
    ensures |Encode(source)| >= p && forall k :: 0 <= k < p ==> Encode(source)[k] == source[k] as int
    decreases p
  {
    if p > 0 {
      AsciiBytes(source[1..], p - 1);
      assert Encode(source) == [source[0] as int] + Encode(source[1..]);
    }
  }

  /** Within the source's ASCII beginning a slice and a token's bytes are the same. */
  lemma SliceIsToken(c: Node, source: string, p: nat)
    requires p <= |source| && AsciiSpan(source, 0, p) && c.tag.startByte <= c.tag.endByte <= p
    ensures IsOperator(c, source) <==> IsLogicalToken(c, source)
  {
    AsciiBytes(source, p);
    hide Encode;
    var text, bytes := Slice(source, c.tag.startByte, c.tag.endByte), TokenBytes(c, source);
    assert |text| == |bytes| && forall k :: 0 <= k < |text| ==> bytes[k] == text[k] as int;
    if |text| == 2 {
      assert text == [text[0], text[1]] && bytes == [bytes[0], bytes[1]];
    }
  }

  lemma {:induction false} RulesAgree(n: Node, source: string, p: nat)
    requires p <= |source| && AsciiSpan(source, 0, p) && OperatorsWithin(n, p)
    ensures Agree(n, TsRules(source), TokenRules(source))
    decreases n
  {
    hide IsOperator, IsLogicalToken, IsElseIf;
    forall i | 0 <= i < |n.children| ensures Agree(n.children[i], TsRules(source), TokenRules(source)) {
      RulesAgree(n.children[i], source, p);
    }
    CountsAgree(n, source, p);
  }

  lemma CountsAgree(n: Node, source: string, p: nat)
    requires p <= |source| && AsciiSpan(source, 0, p) && OperatorsWithin(n, p)
    ensures Counts(n, source) == CountsByToken(n, source)
  {
    hide TokenBytes, Slice, IsElseIf;
    if n.tag.kind.BinaryExpression? {
      forall i | 0 <= i < |n.children|
        ensures IsOperator(n.children[i], source) <==> IsLogicalToken(n.children[i], source)
      {
        if MayBeOperator(n.children[i]) { SliceIsToken(n.children[i], source, p); }
      }
    }
  }

  /** In any tree whose operators all lie in the source's ASCII beginning, every function has the metrics
      its tokens give it, whatever characters come after. */
  lemma MetricsByToken(f: Node, source: string, p: nat)
    requires p <= |source| && AsciiSpan(source, 0, p) && OperatorsWithin(f, p)
    ensures Measure(f, source) == MeasureByToken(f, source)
  {
    hide Agree, CountForest, TsRules, TokenRules;
    forall i | 0 <= i < |f.children| ensures Agree(f.children[i], TsRules(source), TokenRules(source)) {
      RulesAgree(f.children[i], source, p);
    }
    AgreeCountForest(f.children, 0, TsRules(source), TokenRules(source));
  }

  /** What holds of a tree's operators holds of every function found in it. */
  lemma {:induction false} FoundWithin(n: Node, level: nat, p: nat)
    requires OperatorsWithin(n, p)
    ensures forall f :: f in Selected(n, level, TsWalk()) ==> OperatorsWithin(f, p)
    decreases n, 1
  {
    hide SelectedBelow;
    FoundBelowWithin(n.children, level + 1, p);
  }

  lemma {:induction false} FoundBelowWithin(ts: seq<Node>, level: nat, p: nat)
    requires forall i :: 0 <= i < |ts| ==> OperatorsWithin(ts[i], p)
    ensures forall f :: f in SelectedBelow(ts, level, TsWalk()) ==> OperatorsWithin(f, p)
    decreases ts, 0
  {
    hide Selected, OperatorsWithin;
    if ts != [] {
      FoundWithin(ts[0], level, p);
      FoundBelowWithin(ts[1..], level, p);
    }
  }

  /** And so has the file. */
  lemma FileByToken(blank: bool, root: Node, source: string, p: nat)
    requires p <= |source| && AsciiSpan(source, 0, p) && OperatorsWithin(root, p)
    ensures var fs := Selected(root, 0, TsWalk());
            FileMetricsOf(blank, root, source) ==
            if blank || fs == [] then PLAIN_FILE
            else Maxima(seq(|fs|, k requires 0 <= k < |fs| => MeasureByToken(fs[k], source)))
  {
    hide Selected, Measure, MeasureByToken, Maxima, OperatorsWithin;
    var fs := Selected(root, 0, TsWalk());
    FoundWithin(root, 0, p);
    forall k | 0 <= k < |fs| ensures Measure(fs[k], source) == MeasureByToken(fs[k], source) {
      MetricsByToken(fs[k], source, p);
    }
    assert Measures(fs, source) == seq(|fs|, k requires 0 <= k < |fs| => MeasureByToken(fs[k], source));
  }

  // ---------------------------------------------------------------- a branch that is lost

  const PLAIN := "()=>e&&b"

  const ACCENTED := "()=>\U{E9}&&b"

  function Leaf(kind: Kind, named: bool, start: nat, end: nat): Node {
    Tree.Tree(Syntax(kind, named, start, end, 0, 0), [])
  }

  /** The expression of such an arrow function, its first name taking up the given number of bytes. */
  function Conjunction(width: nat): Node {
    Tree.Tree(Syntax(BinaryExpression, true, 4, 7 + width, 0, 0),
              [Leaf(Other("identifier"), true, 4, 4 + width), Leaf(OperatorToken, false, 4 + width, 6 + width),
               Leaf(Other("identifier"), true, 6 + width, 7 + width)])
  }

  function Arrow(width: nat): Node {
    Tree.Tree(Syntax(ArrowFunction, true, 0, 7 + width, 0, 0),
              [Leaf(Other("formal_parameters"), true, 0, 2), Leaf(Other("=>"), false, 2, 4)] + [Conjunction(width)])
  }

  /** The spans are those of the two sources. */
  lemma ArrowSpans()
    ensures |Conjunction(1).children| == |Conjunction(2).children| == 3
    ensures IsToken(Conjunction(1).children[1], PLAIN, 5, 7) && PLAIN[5..7] == "&&"
    ensures IsToken(Conjunction(2).children[1], ACCENTED, 5, 7) && ACCENTED[5..7] == "&&"
  {
    hide Encode, EncodeChar;
    AccentBytes();
    AsciiOffset(PLAIN, 5); AsciiOffset(PLAIN, 7); AsciiOffset(ACCENTED, 4);
    OffsetStep(ACCENTED, 4); OffsetStep(ACCENTED, 5); OffsetStep(ACCENTED, 6);
  }

  lemma NoTrees(depth: nat, source: string)
    ensures CountForest([], depth, TsRules(source)) == NONE
  {
  }

  lemma OneTree(n: Node, ts: seq<Node>, depth: nat, source: string)
    ensures CountForest([n] + ts, depth, TsRules(source)) ==
            Plus(CountNode(n, depth, TsRules(source)), CountForest(ts, depth, TsRules(source)))
  {
    hide CountNode, Plus;
    assert ([n] + ts)[1..] == ts;
  }

  lemma {:induction false} LeavesCountNothing(ts: seq<Node>, depth: nat, source: string)
    requires forall i :: 0 <= i < |ts| ==> ts[i].children == [] && !IsBranchType(ts[i].tag.kind)
    ensures CountForest(ts, depth, TsRules(source)) == NONE
  {
    hide TsRules, CountForest, CountNode, IsLogical, IsElseIf, IsBranchType;
    NoTrees(depth, source);
    if ts != [] {
      LeavesCountNothing(ts[1..], depth, source);
      assert ts == [ts[0]] + ts[1..];
      OneTree(ts[0], ts[1..], depth, source);
      CountNodeMeans(ts[0], depth, source);
    }
  }

  lemma ConjunctionCounts(width: nat, source: string)
    ensures CountNode(Conjunction(width), 0, TsRules(source)) ==
            if IsLogical(Conjunction(width), source) then Branch(NONE, 0) else NONE
  {
    hide TsRules, CountForest, CountNode, IsLogical, IsElseIf;
    var body := Conjunction(width);
    LeavesCountNothing(body.children, 0, source); LeavesCountNothing(body.children, 1, source);
    CountNodeMeans(body, 0, source);
  }

  lemma ArrowCounts(width: nat, source: string)
    ensures Measure(Arrow(width), source).cyclomatic == if IsLogical(Conjunction(width), source) then 2 else 1
  {
    hide TsRules, CountForest, CountNode, IsLogical, Conjunction, Measure;
    var leaves, body := Arrow(width).children[..2], Conjunction(width);
    assert Arrow(width).children == leaves + [body];
    LeavesCountNothing(leaves, 0, source);
    ForestAppend(leaves, body, 0, TsRules(source));
    ConjunctionCounts(width, source);
    MeasureMeans(Arrow(width), source);
  }

  lemma ConjunctionIsLogical(width: nat, source: string)
    ensures |Conjunction(width).children| == 3
    ensures IsLogical(Conjunction(width), source) <==> IsOperator(Conjunction(width).children[1], source)
  {
    var body := Conjunction(width);
    assert !IsOperator(body.children[0], source) && !IsOperator(body.children[2], source);
    assert |body.children| == 3;
  }

  lemma OperatorSeen()
    ensures IsOperator(Conjunction(1).children[1], PLAIN)
  {
    ArrowSpans();
    hide Encode, EncodeChar, IsToken, IsOperator;
    OperatorsByText(Conjunction(1).children[1], PLAIN, 5, 7);
  }

  /** The same function with one letter accented has one branch less. */
  lemma AccentLosesABranch()
    ensures Measure(Arrow(1), PLAIN).cyclomatic == 2
    ensures Measure(Arrow(2), ACCENTED).cyclomatic == 1
  {
    hide *;
    ArrowSpans();
    OperatorSeen(); AccentHidesOperator(Conjunction(2).children[1]);
    ConjunctionIsLogical(1, PLAIN); ConjunctionIsLogical(2, ACCENTED);
    ArrowCounts(1, PLAIN); ArrowCounts(2, ACCENTED);
  }

  /** One accented letter before it, and an operator is no longer recognised. */
  lemma AccentHidesOperator(c: Node)
    requires IsToken(c, ACCENTED, 5, 7)
    ensures ACCENTED[5..7] == "&&" && !IsOperator(c, ACCENTED)
  {
    hide Encode, EncodeChar;
    AccentBytes();
    AsciiOffset(ACCENTED, 4); OffsetStep(ACCENTED, 4);
    OperatorsAfterDrift(c, ACCENTED, 5, 7);
    assert ACCENTED[6..8] == "&b";
  }

  lemma AccentBytes()
    ensures |EncodeChar('\U{E9}')| == 2 && |EncodeChar('&')| == 1
  {
  }
}
