/** Counting nested branches in a tree, for any rule about which nodes branch, which cost extra and
    where counting stops; and what the three numbers mean, told by paths. */
module Counting {
  import opened Wrappers
  import opened Tally
  import opened Trees

  /** Nodes not entered, nodes that branch, what any other node adds, and the nesting at which
      counting gives up. */
  datatype Rules<!L> = Rules(
    stops: Tree<L> -> bool, counts: Tree<L> -> bool, extra: Tree<L> -> nat, cap: Option<nat>)

  predicate Pruned<L>(r: Rules<L>, n: Tree<L>, depth: nat) {
    r.stops(n) || (r.cap.Some? && depth >= r.cap.value)
  }

  /** The nesting of a node's children. */
  function Inner<L>(r: Rules<L>, n: Tree<L>, depth: nat): nat {
    if r.counts(n) then depth + 1 else depth
  }

  /** What a node adds to the tally of its children. */
  function Own<L>(r: Rules<L>, n: Tree<L>, depth: nat, inner: Tally): Tally {
    if r.counts(n) then Branch(inner, depth) else Extra(inner, r.extra(n))
  }

  /** The tally at and below a node that has `depth` branches around it. */
  function CountNode<L>(n: Tree<L>, depth: nat, r: Rules<L>): Tally
    decreases n, 1
  {
    if Pruned(r, n, depth) then NONE else Own(r, n, depth, CountForest(n.children, Inner(r, n, depth), r))
  }

  function CountForest<L>(ts: seq<Tree<L>>, depth: nat, r: Rules<L>): Tally
    decreases ts, 0
  {
    if ts == [] then NONE else Plus(CountNode(ts[0], depth, r), CountForest(ts[1..], depth, r))
  }

  lemma {:induction false} ForestAppend<L>(ts: seq<Tree<L>>, t: Tree<L>, depth: nat, r: Rules<L>)
    ensures CountForest(ts + [t], depth, r) == Plus(CountForest(ts, depth, r), CountNode(t, depth, r))
    decreases |ts|
  {
    hide CountNode, Plus;
    if ts == [] {
      assert [t][1..] == [] && [] + [t] == [t];
      Identity(CountNode(t, depth, r));
    } else {
      ForestAppend(ts[1..], t, depth, r);
      assert (ts + [t])[1..] == ts[1..] + [t];
      PlusIsMonoid(CountNode(ts[0], depth, r), CountForest(ts[1..], depth, r), CountNode(t, depth, r));
    }
  }

  /** Two rules that treat every node of a tree alike. */
  ghost predicate Agree<L>(n: Tree<L>, r: Rules<L>, r': Rules<L>)
    decreases n
  {
    && r.stops(n) == r'.stops(n) && r.counts(n) == r'.counts(n) && r.extra(n) == r'.extra(n) && r.cap == r'.cap
    && forall i :: 0 <= i < |n.children| ==> Agree(n.children[i], r, r')
  }

  lemma {:induction false} AgreeCount<L>(n: Tree<L>, depth: nat, r: Rules<L>, r': Rules<L>)
    requires Agree(n, r, r')
    ensures CountNode(n, depth, r) == CountNode(n, depth, r')
    decreases n, 1
  {
    hide CountForest;
    AgreeCountForest(n.children, Inner(r, n, depth), r, r');
  }

  lemma {:induction false} AgreeCountForest<L>(ts: seq<Tree<L>>, depth: nat, r: Rules<L>, r': Rules<L>)
    requires forall i :: 0 <= i < |ts| ==> Agree(ts[i], r, r')
    ensures CountForest(ts, depth, r) == CountForest(ts, depth, r')
    decreases ts, 0
  {
    hide CountNode, Agree;
    if ts != [] {
      AgreeCount(ts[0], depth, r, r');
      AgreeCountForest(ts[1..], depth, r, r');
    }
  }

  // ---------------------------------------------------------------- the counted branches

  /** A counted branch: its path, and the number of counted branches around it. */
  datatype Site = Site(path: Path, depth: nat)

  function Shift(i: nat, sites: seq<Site>): (r: seq<Site>)
    ensures |r| == |sites|
    ensures forall k :: 0 <= k < |sites| ==> r[k] == Site([i] + sites[k].path, sites[k].depth)
  {
    seq(|sites|, k requires 0 <= k < |sites| => Site([i] + sites[k].path, sites[k].depth))
  }

  lemma ShiftMember(i: nat, sites: seq<Site>, s: Site)
    ensures s in Shift(i, sites) <==> s.path != [] && s.path[0] == i && Site(s.path[1..], s.depth) in sites
  {
    if s.path != [] && s.path[0] == i && Site(s.path[1..], s.depth) in sites {
      var k :| 0 <= k < |sites| && sites[k] == Site(s.path[1..], s.depth);
      assert Shift(i, sites)[k] == s;
    }
  }

  function Sites<L>(n: Tree<L>, depth: nat, r: Rules<L>): seq<Site>
    decreases n, 1
  {
    if Pruned(r, n, depth) then []
    else (if r.counts(n) then [Site([], depth)] else []) + SitesBelow(n.children, Inner(r, n, depth), 0, r)
  }

  function SitesBelow<L>(ts: seq<Tree<L>>, depth: nat, i: nat, r: Rules<L>): seq<Site>
    decreases ts, 0
  {
    if ts == [] then [] else Shift(i, Sites(ts[0], depth, r)) + SitesBelow(ts[1..], depth, i + 1, r)
  }

  /** The extra costs of the nodes reached, added up. */
  function Extras<L>(n: Tree<L>, depth: nat, r: Rules<L>): nat
    decreases n, 1
  {
    if Pruned(r, n, depth) then 0
    else (if r.counts(n) then 0 else r.extra(n)) + ExtrasBelow(n.children, Inner(r, n, depth), r)
  }

  function ExtrasBelow<L>(ts: seq<Tree<L>>, depth: nat, r: Rules<L>): nat
    decreases ts, 0
  {
    if ts == [] then 0 else Extras(ts[0], depth, r) + ExtrasBelow(ts[1..], depth, r)
  }

  function Depths(sites: seq<Site>): (ds: seq<nat>)
    ensures |ds| == |sites| && forall k :: 0 <= k < |sites| ==> ds[k] == sites[k].depth
  {
    seq(|sites|, k requires 0 <= k < |sites| => sites[k].depth)
  }

  function Paths(sites: seq<Site>): (ps: seq<Path>)
    ensures |ps| == |sites| && forall k :: 0 <= k < |sites| ==> ps[k] == sites[k].path
  {
    seq(|sites|, k requires 0 <= k < |sites| => sites[k].path)
  }

  lemma {:induction false} TallyOfSites<L>(n: Tree<L>, depth: nat, r: Rules<L>)
    ensures CountNode(n, depth, r) == Extra(OfDepths(Depths(Sites(n, depth, r))), Extras(n, depth, r))
    decreases n, 1
  {
    hide Pruned, CountForest, SitesBelow, ExtrasBelow;
    if !Pruned(r, n, depth) {
      ForestTallyOfSites(n.children, Inner(r, n, depth), 0, r);
      var below := SitesBelow(n.children, Inner(r, n, depth), 0, r);
      if r.counts(n) {
        assert Depths(Sites(n, depth, r)) == [depth] + Depths(below);
        assert ([depth] + Depths(below))[1..] == Depths(below);
      } else {
        assert Sites(n, depth, r) == below;
      }
    }
  }

  lemma {:induction false} ForestTallyOfSites<L>(ts: seq<Tree<L>>, depth: nat, i: nat, r: Rules<L>)
    ensures CountForest(ts, depth, r) == Extra(OfDepths(Depths(SitesBelow(ts, depth, i, r))), ExtrasBelow(ts, depth, r))
    decreases ts, 0
  {
    hide CountNode, Sites, Extras, Extra, Plus, OfDepths;
    if ts == [] {
      NoSites();
    } else {
      TallyOfSites(ts[0], depth, r);
      ForestTallyOfSites(ts[1..], depth, i + 1, r);
      var a, b := Sites(ts[0], depth, r), SitesBelow(ts[1..], depth, i + 1, r);
      OfDepthsAppend(Depths(a), Depths(b));
      assert Depths(Shift(i, a) + b) == Depths(a) + Depths(b);
      ExtraPlus(OfDepths(Depths(a)), OfDepths(Depths(b)), Extras(ts[0], depth, r), ExtrasBelow(ts[1..], depth, r));
    }
  }

  lemma NoSites()
    ensures Depths([]) == [] && Extra(OfDepths([]), 0) == NONE
  {
  }

  lemma ExtraPlus(a: Tally, b: Tally, m: nat, n: nat)
    ensures Extra(Plus(a, b), m + n) == Plus(Extra(a, m), Extra(b, n))
  {
  }

  /** Going down path p from a node with `depth` counted branches around it: nothing is pruned on
      the way, and the path ends at a branch with k around it. */
  predicate Reaches<L>(n: Tree<L>, p: Path, depth: nat, k: nat, r: Rules<L>)
    decreases |p|
  {
    && !Pruned(r, n, depth)
    && if p == [] then r.counts(n) && k == depth
       else p[0] < |n.children| && Reaches(n.children[p[0]], p[1..], Inner(r, n, depth), k, r)
  }

  lemma {:induction false} SiteMember<L>(n: Tree<L>, depth: nat, s: Site, r: Rules<L>)
    ensures s in Sites(n, depth, r) <==> Reaches(n, s.path, depth, s.depth, r)
    decreases n, 1
  {
    hide Pruned, Inner, SitesBelow;
    if !Pruned(r, n, depth) {
      SiteBelowMember(n.children, Inner(r, n, depth), 0, s, r);
    }
  }

  lemma {:induction false} SiteBelowMember<L>(ts: seq<Tree<L>>, depth: nat, i: nat, s: Site, r: Rules<L>)
    ensures s in SitesBelow(ts, depth, i, r) <==>
            s.path != [] && i <= s.path[0] < i + |ts|
            && Reaches(ts[s.path[0] - i], s.path[1..], depth, s.depth, r)
    decreases ts, 0
  {
    hide Sites, Reaches, Shift;
    if ts != [] {
      ShiftMember(i, Sites(ts[0], depth, r), s);
      if s.path != [] { SiteMember(ts[0], depth, Site(s.path[1..], s.depth), r); }
      SiteBelowMember(ts[1..], depth, i + 1, s, r);
    }
  }

  lemma {:induction false} SitesOrder<L>(n: Tree<L>, depth: nat, r: Rules<L>)
    ensures InPreorder(Paths(Sites(n, depth, r)))
    decreases n, 1
  {
    hide Pruned, Inner;
    var below := SitesBelow(n.children, Inner(r, n, depth), 0, r);
    SitesBelowOrder(n.children, Inner(r, n, depth), 0, r);
    PreorderRoot(Paths(below));
    assert Paths([Site([], depth)] + below) == [[]] + Paths(below);
    assert [] + below == below;
  }

  lemma {:induction false} SitesBelowOrder<L>(ts: seq<Tree<L>>, depth: nat, i: nat, r: Rules<L>)
    ensures InPreorder(Paths(SitesBelow(ts, depth, i, r)))
    ensures FromChild(Paths(SitesBelow(ts, depth, i, r)), i)
    decreases ts, 0
  {
    hide Sites;
    if ts != [] {
      SitesOrder(ts[0], depth, r);
      SitesBelowOrder(ts[1..], depth, i + 1, r);
      var a, b := Sites(ts[0], depth, r), SitesBelow(ts[1..], depth, i + 1, r);
      PreorderAppend(i, Paths(a), Paths(b));
      assert Paths(Shift(i, a) + b) == Prefixed(i, Paths(a)) + Paths(b);
    }
  }

  /** Reaching, told without recursion on the count: no node on the way stops it, the cap is not
      met, and k is the number of counted nodes above the end. */
  lemma {:induction false} ReachesMeaning<L>(n: Tree<L>, p: Path, depth: nat, k: nat, r: Rules<L>)
    requires Reaches(n, p, depth, k, r)
    ensures Valid(n, p) && r.counts(At(n, p)) && k == depth + CountedAbove(n, p, r)
    ensures r.cap.Some? ==> k < r.cap.value
    ensures forall j :: 0 <= j <= |p| ==> Valid(n, p[..j]) && !r.stops(At(n, p[..j]))
    decreases |p|
  {
    if p != [] {
      var child := n.children[p[0]];
      ReachesMeaning(child, p[1..], Inner(r, n, depth), k, r);
      forall j | 0 <= j <= |p| ensures Valid(n, p[..j]) && !r.stops(At(n, p[..j])) {
        if j > 0 { assert p[..j][1..] == p[1..][..j - 1]; }
      }
    }
  }

  function CountedAbove<L>(n: Tree<L>, p: Path, r: Rules<L>): nat
    requires Valid(n, p)
    decreases |p|
  {
    if p == [] then 0 else (if r.counts(n) then 1 else 0) + CountedAbove(n.children[p[0]], p[1..], r)
  }

  /** And conversely. */
  lemma {:induction false} ReachesWhen<L>(n: Tree<L>, p: Path, depth: nat, r: Rules<L>)
    requires Valid(n, p) && r.counts(At(n, p))
    requires r.cap.Some? ==> depth + CountedAbove(n, p, r) < r.cap.value
    requires forall j :: 0 <= j <= |p| ==> Valid(n, p[..j]) && !r.stops(At(n, p[..j]))
    ensures Reaches(n, p, depth, depth + CountedAbove(n, p, r), r)
    decreases |p|
  {
    assert p[..0] == [];
    if p != [] {
      forall j | 0 <= j <= |p[1..]|
        ensures Valid(n.children[p[0]], p[1..][..j]) && !r.stops(At(n.children[p[0]], p[1..][..j]))
      {
        assert p[..j + 1][1..] == p[1..][..j];
      }
      ReachesWhen(n.children[p[0]], p[1..], Inner(r, n, depth), r);
    }
  }

  /** The tally of a list of branches and some extra costs. */
  ghost predicate Describes(t: Tally, ds: seq<nat>, extras: nat) {
    && t.branches == |ds| + extras
    && t.cognitive == Sum(ds) + |ds| + extras
    && (forall k :: 0 <= k < |ds| ==> ds[k] < t.deepest)
    && (ds != [] ==> t.deepest > 0 && t.deepest - 1 in ds)
    && (ds == [] ==> t.deepest == 0)
  }

  lemma ForestDescription<L>(ts: seq<Tree<L>>, depth: nat, r: Rules<L>)
    ensures Describes(CountForest(ts, depth, r), Depths(SitesBelow(ts, depth, 0, r)), ExtrasBelow(ts, depth, r))
  {
    hide CountForest, SitesBelow;
    ForestTallyOfSites(ts, depth, 0, r);
    OfDepthsMeaning(Depths(SitesBelow(ts, depth, 0, r)));
  }

  // ---------------------------------------------------------------- geometry

  lemma NothingGeometric(depth: nat)
    ensures Geometric(NONE, depth)
  {
  }

  lemma {:induction false} NodeGeometry<L>(n: Tree<L>, depth: nat, r: Rules<L>)
    ensures Geometric(CountNode(n, depth, r), depth)
    ensures r.cap.Some? ==> CountNode(n, depth, r).deepest <= r.cap.value
    decreases n, 1
  {
    hide CountForest, Geometric;
    NothingGeometric(depth);
    if !Pruned(r, n, depth) {
      var inner := CountForest(n.children, Inner(r, n, depth), r);
      ForestGeometry(n.children, Inner(r, n, depth), r);
      if r.counts(n) { GeometricBranch(inner, depth); } else { GeometricExtra(inner, r.extra(n), depth); }
    }
  }

  lemma {:induction false} ForestGeometry<L>(ts: seq<Tree<L>>, depth: nat, r: Rules<L>)
    ensures Geometric(CountForest(ts, depth, r), depth)
    ensures r.cap.Some? ==> CountForest(ts, depth, r).deepest <= r.cap.value
    decreases ts, 0
  {
    hide CountNode, Geometric;
    NothingGeometric(depth);
    if ts != [] {
      NodeGeometry(ts[0], depth, r);
      ForestGeometry(ts[1..], depth, r);
      GeometricPlus(CountNode(ts[0], depth, r), CountForest(ts[1..], depth, r), depth);
    }
  }

  // ---------------------------------------------------------------- metrics of one function

  datatype FunctionMetrics = FunctionMetrics(
    cyclomatic: nat, cognitive: nat, nestingDepth: nat, functionLength: int)

  function OfTally(t: Tally, length: int): FunctionMetrics {
    FunctionMetrics(1 + t.branches, t.cognitive, t.deepest, length)
  }
}
