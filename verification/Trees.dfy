/** Labelled trees, and paths of child positions into them. */
module Trees {
  import opened Wrappers
  import opened Ordering

  datatype Tree<+L> = Tree(tag: L, children: seq<Tree<L>>)

  /** Child positions from the root down. */
  type Path = seq<nat>

  predicate Valid<L>(n: Tree<L>, p: Path)
    decreases |p|
  {
    p == [] || (p[0] < |n.children| && Valid(n.children[p[0]], p[1..]))
  }

  function At<L>(n: Tree<L>, p: Path): Tree<L>
    requires Valid(n, p)
    decreases |p|
  {
    if p == [] then n else At(n.children[p[0]], p[1..])
  }

  lemma {:induction false} AtAppend<L>(n: Tree<L>, q: Path, r: Path)
    requires Valid(n, q)
    ensures Valid(n, q + r) <==> Valid(At(n, q), r)
    ensures Valid(n, q + r) ==> At(n, q + r) == At(At(n, q), r)
    decreases |q|
  {
    if q == [] {
      assert q + r == r;
    } else {
      AtAppend(n.children[q[0]], q[1..], r);
      assert (q + r)[1..] == q[1..] + r;
    }
  }

  function Height<L>(n: Tree<L>): nat
    decreases n, 1
  {
    ForestHeight(n.children)
  }

  function ForestHeight<L>(ts: seq<Tree<L>>): nat
    decreases ts, 0
  {
    if ts == [] then 0
    else if 1 + Height(ts[0]) < ForestHeight(ts[1..]) then ForestHeight(ts[1..]) else 1 + Height(ts[0])
  }

  // ---------------------------------------------------------------- preorder

  /** An ancestor first, then left to right. */
  predicate Before(p: Path, q: Path) {
    Less(p, q)
  }

  ghost predicate InPreorder(ps: seq<Path>) {
    forall i, j :: 0 <= i < j < |ps| ==> Before(ps[i], ps[j])
  }

  function Prefixed(i: nat, ps: seq<Path>): (r: seq<Path>)
    ensures |r| == |ps| && forall k :: 0 <= k < |ps| ==> r[k] == [i] + ps[k]
  {
    seq(|ps|, k requires 0 <= k < |ps| => [i] + ps[k])
  }

  lemma PrefixedMember(i: nat, ps: seq<Path>, p: Path)
    ensures p in Prefixed(i, ps) <==> p != [] && p[0] == i && p[1..] in ps
  {
    if p != [] && p[0] == i && p[1..] in ps {
      var k :| 0 <= k < |ps| && ps[k] == p[1..];
      assert Prefixed(i, ps)[k] == p;
    }
  }

  ghost predicate FromChild(ps: seq<Path>, i: nat) {
    forall k :: 0 <= k < |ps| ==> ps[k] != [] && ps[k][0] >= i
  }

  /** Child i's paths, then those of later children, stay in preorder. */
  lemma PreorderAppend(i: nat, ps: seq<Path>, qs: seq<Path>)
    requires InPreorder(ps) && InPreorder(qs) && FromChild(qs, i + 1)
    ensures InPreorder(Prefixed(i, ps) + qs) && FromChild(Prefixed(i, ps) + qs, i)
  {
    var r := Prefixed(i, ps) + qs;
    forall a, b | 0 <= a < b < |r| ensures Before(r[a], r[b]) {
      if b < |ps| {
        assert r[a][1..] == ps[a] && r[b][1..] == ps[b];
      }
    }
  }

  lemma PreorderRoot(ps: seq<Path>)
    requires InPreorder(ps) && FromChild(ps, 0)
    ensures InPreorder([[]] + ps)
  {
  }

  // ---------------------------------------------------------------- selecting nodes in preorder

  /** Which nodes a walk reports, whether it looks inside them, and down to which level. */
  datatype Walk<!L> = Walk(selects: Tree<L> -> bool, entersSelected: bool, maxLevel: Option<nat>)

  predicate GoesOn<L>(w: Walk<L>, n: Tree<L>, level: nat) {
    (w.entersSelected || !w.selects(n)) && (w.maxLevel.Some? ==> level < w.maxLevel.value)
  }

  function Selected<L>(n: Tree<L>, level: nat, w: Walk<L>): seq<Tree<L>>
    decreases n, 1
  {
    (if w.selects(n) then [n] else []) + (if GoesOn(w, n, level) then SelectedBelow(n.children, level + 1, w) else [])
  }

  function SelectedBelow<L>(ts: seq<Tree<L>>, level: nat, w: Walk<L>): seq<Tree<L>>
    decreases ts, 0
  {
    if ts == [] then [] else Selected(ts[0], level, w) + SelectedBelow(ts[1..], level, w)
  }

  lemma {:induction false} SelectedAppend<L>(ts: seq<Tree<L>>, t: Tree<L>, level: nat, w: Walk<L>)
    ensures SelectedBelow(ts + [t], level, w) == SelectedBelow(ts, level, w) + Selected(t, level, w)
    decreases |ts|
  {
    hide Selected;
    if ts == [] {
      assert [] + [t] == [t] && [t][1..] == [];
    } else {
      SelectedAppend(ts[1..], t, level, w);
      assert (ts + [t])[1..] == ts[1..] + [t];
    }
  }

  function SelectedPaths<L>(n: Tree<L>, level: nat, w: Walk<L>): seq<Path>
    decreases n, 1
  {
    (if w.selects(n) then [[]] else [])
    + (if GoesOn(w, n, level) then SelectedPathsBelow(n.children, level + 1, 0, w) else [])
  }

  function SelectedPathsBelow<L>(ts: seq<Tree<L>>, level: nat, i: nat, w: Walk<L>): seq<Path>
    decreases ts, 0
  {
    if ts == [] then [] else Prefixed(i, SelectedPaths(ts[0], level, w)) + SelectedPathsBelow(ts[1..], level, i + 1, w)
  }

  lemma {:induction false} SelectedOrder<L>(n: Tree<L>, level: nat, w: Walk<L>)
    ensures InPreorder(SelectedPaths(n, level, w))
    decreases n, 1
  {
    SelectedBelowOrder(n.children, level + 1, 0, w);
    PreorderRoot(SelectedPathsBelow(n.children, level + 1, 0, w));
  }

  lemma {:induction false} SelectedBelowOrder<L>(ts: seq<Tree<L>>, level: nat, i: nat, w: Walk<L>)
    ensures InPreorder(SelectedPathsBelow(ts, level, i, w)) && FromChild(SelectedPathsBelow(ts, level, i, w), i)
    decreases ts, 0
  {
    if ts != [] {
      SelectedOrder(ts[0], level, w);
      SelectedBelowOrder(ts[1..], level, i + 1, w);
      PreorderAppend(i, SelectedPaths(ts[0], level, w), SelectedPathsBelow(ts[1..], level, i + 1, w));
    }
  }

  /** The path ends at a selected node, no deeper than the last level, and the walk goes on past
      every node above it. */
  predicate Arrives<L>(n: Tree<L>, p: Path, level: nat, w: Walk<L>)
    decreases |p|
  {
    if p == [] then w.selects(n)
    else p[0] < |n.children| && GoesOn(w, n, level) && Arrives(n.children[p[0]], p[1..], level + 1, w)
  }

  lemma {:induction false} SelectedMember<L>(n: Tree<L>, level: nat, w: Walk<L>, p: Path)
    ensures p in SelectedPaths(n, level, w) <==> Arrives(n, p, level, w)
    decreases n, 1
  {
    hide GoesOn;
    SelectedBelowOrder(n.children, level + 1, 0, w);
    SelectedBelowMember(n.children, level + 1, 0, w, p);
  }

  lemma {:induction false} SelectedBelowMember<L>(ts: seq<Tree<L>>, level: nat, i: nat, w: Walk<L>, p: Path)
    ensures p in SelectedPathsBelow(ts, level, i, w) <==>
            p != [] && i <= p[0] < i + |ts| && Arrives(ts[p[0] - i], p[1..], level, w)
    decreases ts, 0
  {
    hide SelectedPaths, Prefixed, Arrives;
    if ts != [] {
      PrefixedMember(i, SelectedPaths(ts[0], level, w), p);
      if p != [] { SelectedMember(ts[0], level, w, p[1..]); }
      SelectedBelowMember(ts[1..], level, i + 1, w, p);
    }
  }

  /** Arriving, told without the walk: the node is selected, its level is allowed, and unless the
      walk enters selected nodes there is none above it. */
  lemma {:induction false} ArrivesMeaning<L>(n: Tree<L>, p: Path, level: nat, w: Walk<L>)
    requires w.maxLevel.Some? ==> level <= w.maxLevel.value
    ensures Arrives(n, p, level, w) <==>
            && Valid(n, p) && w.selects(At(n, p))
            && (w.maxLevel.Some? ==> level + |p| <= w.maxLevel.value)
            && (!w.entersSelected ==> forall j :: 0 <= j < |p| ==> Valid(n, p[..j]) && !w.selects(At(n, p[..j])))
    decreases |p|
  {
    if p != [] && p[0] < |n.children| && GoesOn(w, n, level) {
      var child := n.children[p[0]];
      ArrivesMeaning(child, p[1..], level + 1, w);
      forall j | 0 < j < |p| ensures Valid(n, p[..j]) <==> Valid(child, p[1..][..j - 1])
        ensures Valid(n, p[..j]) ==> At(n, p[..j]) == At(child, p[1..][..j - 1])
      {
        assert p[..j][1..] == p[1..][..j - 1];
      }
      forall j | 0 <= j < |p| - 1 ensures Valid(n, p[..j + 1]) <==> Valid(child, p[1..][..j])
        ensures Valid(n, p[..j + 1]) ==> At(n, p[..j + 1]) == At(child, p[1..][..j])
      {
        assert p[..j + 1][1..] == p[1..][..j];
      }
      assert p[..0] == [];
    } else if p != [] {
      assert p[..0] == [];
    }
  }

  lemma {:induction false} SelectedAt<L>(n: Tree<L>, level: nat, w: Walk<L>)
    ensures |Selected(n, level, w)| == |SelectedPaths(n, level, w)|
    ensures forall k :: 0 <= k < |SelectedPaths(n, level, w)| ==>
              var p := SelectedPaths(n, level, w)[k];
              Valid(n, p) && At(n, p) == Selected(n, level, w)[k]
    decreases n, 1
  {
    hide SelectedBelow, SelectedPathsBelow, GoesOn;
    SelectedBelowAt(n.children, n.children, level + 1, 0, w);
    var own := if w.selects(n) then [n] else [];
    var below := if GoesOn(w, n, level) then SelectedPathsBelow(n.children, level + 1, 0, w) else [];
    forall k | 0 <= k < |SelectedPaths(n, level, w)|
      ensures var p := SelectedPaths(n, level, w)[k]; Valid(n, p) && At(n, p) == Selected(n, level, w)[k]
    {
      if k >= |own| { assert SelectedPaths(n, level, w)[k] == below[k - |own|]; }
    }
  }

  lemma {:induction false} SelectedBelowAt<L>(ts: seq<Tree<L>>, all: seq<Tree<L>>, level: nat, i: nat, w: Walk<L>)
    requires i + |ts| == |all| && ts == all[i..]
    ensures |SelectedBelow(ts, level, w)| == |SelectedPathsBelow(ts, level, i, w)|
    ensures forall k :: 0 <= k < |SelectedPathsBelow(ts, level, i, w)| ==>
              var p := SelectedPathsBelow(ts, level, i, w)[k];
              && p != [] && p[0] < |all| && Valid(all[p[0]], p[1..])
              && At(all[p[0]], p[1..]) == SelectedBelow(ts, level, w)[k]
    decreases ts, 0
  {
    hide SelectedPaths, Selected, Prefixed;
    if ts != [] {
      SelectedAt(ts[0], level, w);
      SelectedBelowAt(ts[1..], all, level, i + 1, w);
      var ps := SelectedPaths(ts[0], level, w);
      forall k | 0 <= k < |SelectedPathsBelow(ts, level, i, w)|
        ensures var p := SelectedPathsBelow(ts, level, i, w)[k];
                && p != [] && p[0] < |all| && Valid(all[p[0]], p[1..])
                && At(all[p[0]], p[1..]) == SelectedBelow(ts, level, w)[k]
      {
        if k < |ps| { assert ([i] + ps[k])[1..] == ps[k]; }
      }
    }
  }

  /** A walk from the root reports the selected nodes it may reach, all of them, in preorder. */
  lemma WalkMeaning<L>(root: Tree<L>, w: Walk<L>)
    ensures InPreorder(SelectedPaths(root, 0, w))
    ensures |Selected(root, 0, w)| == |SelectedPaths(root, 0, w)|
    ensures forall k :: 0 <= k < |SelectedPaths(root, 0, w)| ==>
              Valid(root, SelectedPaths(root, 0, w)[k])
              && At(root, SelectedPaths(root, 0, w)[k]) == Selected(root, 0, w)[k]
    ensures forall p :: p in SelectedPaths(root, 0, w) <==>
              && Valid(root, p) && w.selects(At(root, p))
              && (w.maxLevel.Some? ==> |p| <= w.maxLevel.value)
              && (!w.entersSelected ==>
                    forall j :: 0 <= j < |p| ==> Valid(root, p[..j]) && !w.selects(At(root, p[..j])))
  {
    hide Arrives, SelectedPaths, Selected, InPreorder;
    SelectedOrder(root, 0, w);
    SelectedAt(root, 0, w);
    forall p
      ensures p in SelectedPaths(root, 0, w) <==> Arrives(root, p, 0, w)
      ensures Arrives(root, p, 0, w) <==>
              && Valid(root, p) && w.selects(At(root, p))
              && (w.maxLevel.Some? ==> |p| <= w.maxLevel.value)
              && (!w.entersSelected ==>
                    forall j :: 0 <= j < |p| ==> Valid(root, p[..j]) && !w.selects(At(root, p[..j])))
    {
      SelectedMember(root, 0, w, p);
      ArrivesMeaning(root, p, 0, w);
    }
  }
}
