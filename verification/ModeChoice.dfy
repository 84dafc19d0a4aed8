/**
  The modes along a shortest path, as one choice for every run: no other
  choice has a smaller sum of weights.
 */
module ModeChoice {
  import opened QrMode
  import opened SegmentGraph
  import opened Segments
  import D = Dijkstra

  predicate IsChoiceList(groups: Groups, c: seq<nat>) {
    |c| == |groups| && forall k | 0 <= k < |c| :: c[k] < |groups[k]|
  }

  function NodeAt(groups: Groups, c: seq<nat>, k: nat): SegNode
    requires IsChoiceList(groups, c) && k < |c|
  {
    groups[k][c[k]]
  }

  function Weight(groups: Groups, c: seq<nat>, k: nat, version: int): int
    requires ValidVersion(version) && IsChoiceList(groups, c) && k < |c|
  {
    WeightOf(groups, k, c[k], if k == 0 then 0 else c[k - 1], version)
  }

  /** The sum of the weights into the first `n` chosen nodes. */
  function ChoiceCost(groups: Groups, c: seq<nat>, n: nat, version: int): int
    requires ValidVersion(version) && IsChoiceList(groups, c) && n <= |c|
  {
    if n == 0 then 0 else ChoiceCost(groups, c, n - 1, version) + Weight(groups, c, n - 1, version)
  }

  ghost predicate Cheapest(groups: Groups, c: seq<nat>, version: int) {
    && ValidVersion(version) && IsChoiceList(groups, c)
    && forall d | IsChoiceList(groups, d) :: ChoiceCost(groups, c, |c|, version) <= ChoiceCost(groups, d, |d|, version)
  }

  // ---- choices and paths ----

  function NodeName(c: seq<nat>, n: nat): D.Node
    requires n <= |c|
  {
    if n == 0 then "start" else Key(n - 1, c[n - 1])
  }

  function PathTo(c: seq<nat>, n: nat): (p: seq<D.Node>)
    requires n <= |c|
    ensures |p| == n + 1 && forall k | 0 <= k <= n :: p[k] == NodeName(c, k)
  {
    if n == 0 then ["start"] else PathTo(c, n - 1) + [NodeName(c, n)]
  }

  /** The cost of a path is the sum of the weights of its choices. */
  lemma {:induction false} PathCost(groups: Groups, g: D.Graph, c: seq<nat>, n: nat, version: int)
    requires ValidVersion(version) && IsChoiceList(groups, c) && n <= |c| && Weighted(groups, g, version, |groups|, 0)
    ensures D.IsPath(g, PathTo(c, n), "start", NodeName(c, n))
    ensures D.Cost(g, PathTo(c, n)) == ChoiceCost(groups, c, n, version)
  {
    hide Weight, Weighted, IsChoiceList, NodeName;
    if n > 0 {
      PathCost(groups, g, c, n - 1, version);
      NextWeight(groups, g, c, n - 1, version);
      D.PathSnoc(g, PathTo(c, n - 1), "start", NodeName(c, n - 1), NodeName(c, n));
      hide D.Cost, D.IsPath;
    } else {
      StartName(c);
    }
  }

  lemma {:induction false} StartName(c: seq<nat>)
    ensures NodeName(c, 0) == "start"
  {}

  lemma {:induction false} NextWeight(groups: Groups, g: D.Graph, c: seq<nat>, k: nat, version: int)
    requires ValidVersion(version) && IsChoiceList(groups, c) && k < |c| && Weighted(groups, g, version, |groups|, 0)
    ensures HasWeight(g, NodeName(c, k), NodeName(c, k + 1), Weight(groups, c, k, version))
  {
    hide WeightOf, Key;
    var b := if k == 0 then 0 else c[k - 1];
    assert IsEdge(groups, k, c[k], b) && Before(k, b) == NodeName(c, k);
    assert HasWeight(g, NodeName(c, k), Key(k, c[k]), WeightOf(groups, k, c[k], b, version));
  }

  lemma {:induction false} WholePathCost(groups: Groups, g: D.Graph, c: seq<nat>, version: int)
    requires ValidVersion(version) && IsChoiceList(groups, c)
    requires Weighted(groups, g, version, |groups|, 0) && EndIsFree(groups, g)
    ensures var p := PathTo(c, |c|) + ["end"];
            D.IsPath(g, p, "start", "end") && D.Cost(g, p) == ChoiceCost(groups, c, |c|, version)
  {
    PathCost(groups, g, c, |c|, version);
    var u := NodeName(c, |c|);
    assert InLayer(groups, |groups|, u) by {
      if |c| > 0 {
        assert IsChoice(groups, |c|, c[|c| - 1], u);
      }
    }
    assert HasWeight(g, u, "end", 0);
    D.PathSnoc(g, PathTo(c, |c|), "start", u, "end");
  }

  /** The choices that a path makes. */
  lemma {:induction false} ChoicesAlong(groups: Groups, path: seq<D.Node>, n: nat) returns (c: seq<nat>)
    requires n <= |groups| && n < |path| && forall k | 0 < k <= n :: InLayer(groups, k, path[k])
    ensures |c| == n && forall k: nat | k < n :: IsChoice(groups, k + 1, c[k], path[k + 1])
  {
    if n == 0 {
      c := [];
    } else {
      var front := ChoicesAlong(groups, path, n - 1);
      var j: nat :| IsChoice(groups, n, j, path[n]);
      c := front + [j];
      hide IsChoice, InLayer;
    }
  }

  /** The segments chosen one for each run are the nodes of a cheapest choice. */
  ghost predicate Chosen(groups: Groups, c: seq<nat>, chosen: seq<Segment>) {
    && IsChoiceList(groups, c) && |chosen| == |groups|
    && forall k: nat | k < |chosen| :: chosen[k] == Segment(NodeAt(groups, c, k).mode, NodeAt(groups, c, k).data)
  }

  /** A shortest path makes a cheapest choice. */
  lemma {:induction false} ShortestIsCheapest(groups: Groups, g: D.Graph, path: seq<D.Node>, version: int, chosen: seq<Segment>)
    returns (c: seq<nat>)
    requires ValidVersion(version) && SmallGroups(groups) && Layered(groups, g) && D.IsShortest(g, path, "start", "end")
    requires Weighted(groups, g, version, |groups|, 0) && EndIsFree(groups, g) && ReadOff(groups, path, chosen)
    ensures Cheapest(groups, c, version) && Chosen(groups, c, chosen)
  {
    PathLength(groups, g, path);
    c := ChoicesAlong(groups, path, |groups|);
    ChoicesRead(groups, path, chosen, c);
    hide Layered, ReadOff, InLayer, IsChoice, ChoiceCost, SmallGroups;
    ShortestMeansCheapest(groups, g, path, version, c);
  }

  lemma {:induction false} ShortestMeansCheapest(groups: Groups, g: D.Graph, path: seq<D.Node>, version: int, c: seq<nat>)
    requires ValidVersion(version) && IsChoiceList(groups, c) && path == PathTo(c, |c|) + ["end"]
    requires D.IsShortest(g, path, "start", "end") && Weighted(groups, g, version, |groups|, 0) && EndIsFree(groups, g)
    ensures Cheapest(groups, c, version)
  {
    hide Weighted, EndIsFree, ChoiceCost, PathTo, IsChoiceList, D.IsPath, D.Cost;
    WholePathCost(groups, g, c, version);
    forall d | IsChoiceList(groups, d)
      ensures ChoiceCost(groups, c, |c|, version) <= ChoiceCost(groups, d, |d|, version)
    {
      WholePathCost(groups, g, d, version);
    }
  }

  lemma {:induction false} ChoicesRead(groups: Groups, path: seq<D.Node>, chosen: seq<Segment>, c: seq<nat>)
    requires SmallGroups(groups) && ReadOff(groups, path, chosen) && path[0] == "start" && path[|path| - 1] == "end"
    requires |c| == |groups| && forall k: nat | k < |c| :: IsChoice(groups, k + 1, c[k], path[k + 1])
    ensures Chosen(groups, c, chosen) && path == PathTo(c, |c|) + ["end"]
  {
    assert |path| == |c| + 2 && |chosen| == |c|;
    ChoicesChosen(groups, path, chosen, c);
    ChoicesNamed(groups, path, chosen, c);
    hide ReadOff, SmallGroups, IsChoice, Chosen, NodeName;
    SameNames(c, path[..|c| + 1]);
    assert path == path[..|c| + 1] + [path[|c| + 1]];
  }

  lemma {:induction false} ChoicesChosen(groups: Groups, path: seq<D.Node>, chosen: seq<Segment>, c: seq<nat>)
    requires SmallGroups(groups) && ReadOff(groups, path, chosen)
    requires |c| == |groups| && forall k: nat | k < |c| :: IsChoice(groups, k + 1, c[k], path[k + 1])
    ensures Chosen(groups, c, chosen)
  {
    forall k: nat | k < |c|
      ensures c[k] < |groups[k]| && chosen[k] == Segment(groups[k][c[k]].mode, groups[k][c[k]].data)
    {
      ChoiceRead(groups, path, chosen, c, k);
    }
    hide ReadOff, SmallGroups, IsChoice;
  }

  lemma {:induction false} ChoicesNamed(groups: Groups, path: seq<D.Node>, chosen: seq<Segment>, c: seq<nat>)
    requires SmallGroups(groups) && ReadOff(groups, path, chosen) && path[0] == "start"
    requires |c| == |groups| && forall k: nat | k < |c| :: IsChoice(groups, k + 1, c[k], path[k + 1])
    ensures forall k | 0 <= k <= |c| :: path[..|c| + 1][k] == NodeName(c, k)
  {
    hide IsChoice;
    forall k | 0 <= k <= |c|
      ensures path[..|c| + 1][k] == NodeName(c, k)
    {
      if k > 0 {
        ChoiceRead(groups, path, chosen, c, k - 1);
      }
    }
  }

  lemma {:induction false} SameNames(c: seq<nat>, names: seq<D.Node>)
    requires |names| == |c| + 1 && forall k | 0 <= k <= |c| :: names[k] == NodeName(c, k)
    ensures names == PathTo(c, |c|)
  {
    hide NodeName;
  }

  lemma {:induction false} ChoiceRead(groups: Groups, path: seq<D.Node>, chosen: seq<Segment>, c: seq<nat>, k: nat)
    requires SmallGroups(groups) && ReadOff(groups, path, chosen)
    requires |c| == |groups| && k < |c| && IsChoice(groups, k + 1, c[k], path[k + 1])
    ensures c[k] < |groups[k]| && path[k + 1] == NodeName(c, k + 1)
    ensures chosen[k] == Segment(groups[k][c[k]].mode, groups[k][c[k]].data)
  {
    hide Key;
    assert IsRead(groups, k, path[k + 1], chosen[k]);
    var j: nat :| IsChoice(groups, k + 1, j, path[k + 1]) && chosen[k] == Segment(groups[k][j].mode, groups[k][j].data);
    SameKey(groups, k, j, k, c[k]);
  }

  // ---- exchanging choices ----

  /** The same choices outside the groups from `a` up to `b`. */
  ghost predicate Elsewhere(c: seq<nat>, d: seq<nat>, a: nat, b: nat) {
    |d| == |c| && a < b <= |c| && forall k | 0 <= k < |c| && (k < a || b <= k) :: d[k] == c[k]
  }

  /** The sum of the weights into the groups from `a` up to `b`. */
  function CostBetween(groups: Groups, c: seq<nat>, a: nat, b: nat, version: int): int
    requires ValidVersion(version) && IsChoiceList(groups, c) && a <= b <= |c|
  {
    if a == b then 0 else CostBetween(groups, c, a, b - 1, version) + Weight(groups, c, b - 1, version)
  }

  lemma {:induction false} CostSplits(groups: Groups, c: seq<nat>, a: nat, b: nat, version: int)
    requires ValidVersion(version) && IsChoiceList(groups, c) && a <= b <= |c|
    ensures ChoiceCost(groups, c, b, version) == ChoiceCost(groups, c, a, version) + CostBetween(groups, c, a, b, version)
  {
    hide Weight;
    if a < b {
      CostSplits(groups, c, a, b - 1, version);
    }
  }

  lemma {:induction false} SameCost(groups: Groups, c: seq<nat>, d: seq<nat>, a: nat, b: nat, version: int)
    requires ValidVersion(version) && IsChoiceList(groups, c) && IsChoiceList(groups, d) && a <= b <= |c|
    requires a < b ==> forall k | 0 <= k < b && a - 1 <= k :: c[k] == d[k]
    ensures CostBetween(groups, c, a, b, version) == CostBetween(groups, d, a, b, version)
  {
    hide WeightOf;
    if a < b {
      SameCost(groups, c, d, a, b - 1, version);
    }
  }

  /** The place up to which an exchange before `b` can change weights. */
  function Reach(n: nat, b: nat): nat {
    if b < n then b + 1 else n
  }

  /** Exchanging choices changes only their own weights and the next one, and a cheapest choice gains nothing by it. */
  lemma {:induction false} NoGain(groups: Groups, c: seq<nat>, d: seq<nat>, a: nat, b: nat, version: int)
    requires Cheapest(groups, c, version) && IsChoiceList(groups, d) && Elsewhere(c, d, a, b)
    ensures CostBetween(groups, c, a, Reach(|c|, b), version) <= CostBetween(groups, d, a, Reach(|c|, b), version)
  {
    var n, e := |c|, Reach(|c|, b);
    assert ChoiceCost(groups, c, n, version) <= ChoiceCost(groups, d, n, version);
    CostParts(groups, c, a, e, version);
    CostParts(groups, d, a, e, version);
    hide Cheapest, Weight, ChoiceCost, CostBetween;
    SameCost(groups, c, d, 0, a, version);
    SameCost(groups, c, d, e, n, version);
  }

  lemma {:induction false} CostParts(groups: Groups, c: seq<nat>, a: nat, e: nat, version: int)
    requires ValidVersion(version) && IsChoiceList(groups, c) && a <= e <= |c|
    ensures ChoiceCost(groups, c, |c|, version)
            == CostBetween(groups, c, 0, a, version) + CostBetween(groups, c, a, e, version) + CostBetween(groups, c, e, |c|, version)
  {
    CostSplits(groups, c, 0, |c|, version);
    NoCost(groups, c, version);
    BetweenSplits(groups, c, 0, a, |c|, version);
    BetweenSplits(groups, c, a, e, |c|, version);
    hide ChoiceCost, CostBetween, Weight;
  }

  lemma {:induction false} NoCost(groups: Groups, c: seq<nat>, version: int)
    requires ValidVersion(version) && IsChoiceList(groups, c)
    ensures ChoiceCost(groups, c, 0, version) == 0
  {}

  lemma {:induction false} BetweenSplits(groups: Groups, c: seq<nat>, a: nat, e: nat, b: nat, version: int)
    requires ValidVersion(version) && IsChoiceList(groups, c) && a <= e <= b <= |c|
    ensures CostBetween(groups, c, a, b, version) == CostBetween(groups, c, a, e, version) + CostBetween(groups, c, e, b, version)
  {
    hide Weight;
    if e < b {
      BetweenSplits(groups, c, a, e, b - 1, version);
    }
  }
}
