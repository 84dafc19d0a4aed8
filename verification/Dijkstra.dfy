/**
  The shortest path search used to choose segments: a priority queue that may
  hold several entries for one node, the search itself, and the extraction of
  the path from the predecessor map.
 */
module Dijkstra {
  import opened Results
  import opened Sorting

  type Node = string
  type Graph = map<Node, map<Node, int>>

  datatype Item = Item(value: Node, cost: int)

  /** The edges that leave `u`; a node without an entry has none. */
  function Adjacent(g: Graph, u: Node): map<Node, int> {
    if u in g then g[u] else map[]
  }

  // ---- paths ----

  ghost predicate Edge(g: Graph, u: Node, v: Node) {
    v in Adjacent(g, u)
  }

  ghost predicate IsPath(g: Graph, p: seq<Node>, s: Node, d: Node) {
    && p != [] && p[0] == s && p[|p| - 1] == d
    && forall i | 0 <= i < |p| - 1 :: Edge(g, p[i], p[i + 1])
  }

  ghost function Cost(g: Graph, p: seq<Node>): int
    requires forall i | 0 <= i < |p| - 1 :: Edge(g, p[i], p[i + 1])
  {
    if |p| <= 1 then 0
    else
      assert Edge(g, p[|p| - 2], p[|p| - 2 + 1]);
      Cost(g, p[..|p| - 1]) + Adjacent(g, p[|p| - 2])[p[|p| - 1]]
  }

  ghost predicate Reachable(g: Graph, s: Node, d: Node) {
    exists p :: IsPath(g, p, s, d)
  }

  ghost predicate NonNegative(g: Graph) {
    forall u, v | Edge(g, u, v) :: Adjacent(g, u)[v] >= 0
  }

  /** A path that no other path between the same nodes undercuts. */
  ghost predicate IsShortest(g: Graph, p: seq<Node>, s: Node, d: Node) {
    && IsPath(g, p, s, d)
    && forall q | IsPath(g, q, s, d) :: Cost(g, p) <= Cost(g, q)
  }

  // ---- the priority queue ----

  function CostOf(x: Item): int {
    x.cost
  }

  /** `after` is sorted and holds what `before` held and one item more. */
  ghost predicate Added(before: seq<Item>, x: Item, after: seq<Item>) {
    Sorted(CostOf, after) && multiset(after) == multiset(before) + multiset{x}
  }

  class PriorityQueue {
    var queue: seq<Item>

    ghost predicate Valid()
      reads this
    {
      Sorted(CostOf, queue)
    }

    constructor ()
      ensures Valid() && queue == []
    {
      queue := [];
    }

    method Push(value: Node, cost: int)
      requires Valid()
      modifies this
      ensures Valid() && queue == SortBy(CostOf, old(queue) + [Item(value, cost)])
      ensures Added(old(queue), Item(value, cost), queue)
    {
      queue := queue + [Item(value, cost)];
      SortSorts(CostOf, queue);
      queue := SortBy(CostOf, queue);
    }

    /** Takes the cheapest item. */
    method Pop() returns (item: Item)
      requires Valid() && queue != []
      modifies this
      ensures Valid() && old(queue) == [item] + queue
      ensures forall x | x in old(queue) :: item.cost <= x.cost
    {
      item := queue[0];
      queue := queue[1..];
    }

    predicate Empty()
      reads this
    {
      |queue| == 0
    }
  }

  // ---- the state of the search ----

  /**
    The variables of the search.  `rank` numbers the nodes in the order in
    which they are taken from the queue for the first time; from then on their
    cost is final.
   */
  datatype Search = Search(costs: map<Node, int>, preds: map<Node, Node>, queue: seq<Item>, rank: map<Node, nat>)

  /** Node `v` was reached from a settled node over an edge that explains its cost. */
  ghost predicate Explained(g: Graph, s: Node, x: Search, v: Node)
    requires v in x.costs
  {
    v == s ||
    (&& v in x.preds && x.preds[v] in x.rank && x.preds[v] in x.costs
     && Edge(g, x.preds[v], v)
     && x.costs[v] == x.costs[x.preds[v]] + Adjacent(g, x.preds[v])[v]
     && (v in x.rank ==> x.rank[x.preds[v]] < x.rank[v]))
  }

  /** The edge from `u` to `v` offers no cheaper way to `v`. */
  ghost predicate Relaxed(g: Graph, x: Search, u: Node, v: Node)
    requires u in x.costs && Edge(g, u, v)
  {
    v in x.costs && x.costs[v] <= x.costs[u] + Adjacent(g, u)[v]
  }

  ghost predicate Queued(x: Search, v: Node)
    requires v in x.costs
  {
    Item(v, x.costs[v]) in x.queue
  }

  /** Every cost is explained by the predecessors, and settled nodes are numbered without gaps. */
  ghost predicate CostsInv(g: Graph, s: Node, x: Search) {
    && s in x.costs && x.costs[s] == 0 && s !in x.preds
    && (forall v | v in x.costs :: x.costs[v] >= 0 && Explained(g, s, x, v))
    && (forall v | v in x.preds :: v in x.costs)
    && (forall v | v in x.rank :: v in x.costs && x.rank[v] < |x.rank|)
  }

  /** The edges of every settled node, but the one being explored, are relaxed. */
  ghost predicate EdgesInv(g: Graph, x: Search, exploring: Option<Node>) {
    && (forall u | u in x.rank :: u in x.costs)
    && (forall u, v | u in x.rank && Some(u) != exploring && Edge(g, u, v) :: Relaxed(g, x, u, v))
  }

  /** The queue is sorted, never underestimates, and offers every node that is not settled. */
  ghost predicate QueueInv(x: Search) {
    && (forall u | u in x.rank :: u in x.costs)
    && Sorted(CostOf, x.queue)
    && (forall i | i in x.queue :: i.value in x.costs && i.cost >= x.costs[i.value])
    && (forall v | v in x.costs && v !in x.rank :: Queued(x, v))
    && (forall u, i | u in x.rank && i in x.queue :: x.costs[u] <= i.cost)
  }

  ghost predicate SearchInv(g: Graph, s: Node, x: Search, exploring: Option<Node>) {
    CostsInv(g, s, x) && EdgesInv(g, x, exploring) && QueueInv(x)
  }

  ghost function Nodes(g: Graph, s: Node): set<Node> {
    {s} + set u, v | u in g && v in g[u] :: v
  }

  ghost predicate Within(g: Graph, s: Node, x: Search) {
    forall v | v in x.costs :: v in Nodes(g, s)
  }

  /** The cheapest item names a settled node, or carries the exact cost of a node to settle now. */
  lemma PopIsFinal(g: Graph, s: Node, x: Search)
    requires SearchInv(g, s, x, None) && x.queue != []
    ensures var i := x.queue[0];
            && i.value in x.costs && x.costs[i.value] <= i.cost
            && (i.value !in x.rank ==> i.cost == x.costs[i.value])
            && (forall u | u in x.rank :: u in x.costs && x.costs[u] <= i.cost)
  {
    var i := x.queue[0];
    assert i in x.queue;
    if i.value !in x.rank {
      assert Queued(x, i.value);
    }
  }

  ghost function Settle(x: Search, u: Node): Search {
    x.(queue := if x.queue == [] then [] else x.queue[1..], rank := if u in x.rank then x.rank else x.rank[u := |x.rank|])
  }

  lemma SettleKeepsCosts(g: Graph, s: Node, x: Search, u: Node)
    requires CostsInv(g, s, x) && u in x.costs
    ensures CostsInv(g, s, Settle(x, u))
  {
    var y := Settle(x, u);
    forall v | v in y.costs
      ensures Explained(g, s, y, v)
    {
      assert Explained(g, s, x, v);
    }
    assert |y.rank| == |x.rank| + if u in x.rank then 0 else 1;
  }

  lemma SettleKeepsQueue(x: Search)
    requires QueueInv(x) && x.queue != []
    ensures QueueInv(Settle(x, x.queue[0].value))
  {
    var i := x.queue[0];
    var u := i.value;
    var y := Settle(x, u);
    TailOfSorted(CostOf, x.queue);
    assert forall j | j in x.queue :: i.cost <= j.cost by {
      assert forall j | j in x.queue :: CostOf(i) <= CostOf(j);
    }
    hide Sorted;
    assert u !in x.rank ==> Queued(x, u);
    forall v | v in y.costs && v !in y.rank
      ensures Queued(y, v)
    {
      assert Queued(x, v);
    }
    forall w, j | w in y.rank && j in y.queue
      ensures y.costs[w] <= j.cost
    {
      assert j in x.queue;
    }
  }

  lemma SettleKeepsEdges(g: Graph, x: Search, u: Node)
    requires EdgesInv(g, x, None) && u in x.costs
    ensures EdgesInv(g, Settle(x, u), if u in x.rank then None else Some(u))
  {
    var y := Settle(x, u);
    var exploring := if u in x.rank then None else Some(u);
    forall w, v | w in y.rank && Some(w) != exploring && Edge(g, w, v)
      ensures Relaxed(g, y, w, v)
    {
      assert Relaxed(g, x, w, v);
    }
  }

  /** The state after a cheaper way to `v` was found from `u`. */
  ghost function Improve(x: Search, u: Node, v: Node, cost: int, queue: seq<Item>): Search {
    x.(costs := x.costs[v := cost], preds := x.preds[v := u], queue := queue)
  }

  lemma ImproveKeepsCosts(g: Graph, s: Node, x: Search, u: Node, v: Node, cost: int, queue: seq<Item>)
    requires CostsInv(g, s, x) && u in x.rank && Edge(g, u, v) && v !in x.rank && v != s && cost >= 0
    requires cost == x.costs[u] + Adjacent(g, u)[v]
    ensures CostsInv(g, s, Improve(x, u, v, cost, queue))
  {
    var y := Improve(x, u, v, cost, queue);
    forall w | w in y.costs
      ensures y.costs[w] >= 0 && Explained(g, s, y, w)
    {
      if w != v {
        assert Explained(g, s, x, w);
      }
    }
  }

  lemma ImproveKeepsEdges(g: Graph, x: Search, u: Node, v: Node, cost: int, queue: seq<Item>)
    requires EdgesInv(g, x, Some(u)) && v !in x.rank && (v in x.costs ==> x.costs[v] > cost)
    ensures EdgesInv(g, Improve(x, u, v, cost, queue), Some(u))
  {
    var y := Improve(x, u, v, cost, queue);
    forall w, z | w in y.rank && Some(w) != Some(u) && Edge(g, w, z)
      ensures Relaxed(g, y, w, z)
    {
      assert Relaxed(g, x, w, z);
    }
  }

  lemma ImproveKeepsQueue(x: Search, u: Node, v: Node, cost: int, queue: seq<Item>)
    requires QueueInv(x) && v !in x.rank && (v in x.costs ==> x.costs[v] > cost)
    requires forall w | w in x.rank :: x.costs[w] <= cost
    requires Added(x.queue, Item(v, cost), queue)
    ensures QueueInv(Improve(x, u, v, cost, queue))
  {
    var y := Improve(x, u, v, cost, queue);
    forall i
      ensures i in queue <==> i in x.queue || i == Item(v, cost)
    {
      assert i in queue <==> i in multiset(queue);
      assert i in x.queue <==> i in multiset(x.queue);
    }
    forall w | w in y.costs && w !in y.rank
      ensures Queued(y, w)
    {
      if w != v {
        assert Queued(x, w);
      }
    }
  }

  /**
    While the edges of `u` are followed, with `done` of them behind.  If `u`
    was settled before, the popped item was out of date and nothing changes.
   */
  ghost predicate Exploring(g: Graph, s: Node, x: Search, before: Search, u: Node, cost: int, done: set<Node>) {
    && Within(g, s, x) && x.rank == Settle(before, u).rank
    && u in x.rank && u in x.costs && x.costs[u] <= cost
    && if u in before.rank then SearchInv(g, s, x, None) && x.queue == Settle(before, u).queue
       else
         && SearchInv(g, s, x, Some(u)) && x.costs[u] == cost
         && (forall w | w in x.rank :: w in x.costs && x.costs[w] <= cost)
         && (forall v | v in done && Edge(g, u, v) :: Relaxed(g, x, u, v))
  }

  lemma StartExploring(g: Graph, s: Node, x: Search)
    requires SearchInv(g, s, x, None) && Within(g, s, x) && x.queue != []
    ensures var i := x.queue[0]; Exploring(g, s, Settle(x, i.value), x, i.value, i.cost, {})
  {
    hide CostsInv, EdgesInv, QueueInv;
    PopIsFinal(g, s, x);
    var u := x.queue[0].value;
    SettleKeepsCosts(g, s, x, u);
    SettleKeepsEdges(g, x, u);
    SettleKeepsQueue(x);
    SettleShape(g, s, x, u);
    assert u in Settle(x, u).rank && forall w | w in Settle(x, u).rank :: w == u || w in x.rank;
    hide Settle, Nodes;
    WithinGrows(g, s, x, Settle(x, u), u);
  }

  /** The edge to `v` brings nothing. */
  lemma SkipEdge(g: Graph, s: Node, x: Search, before: Search, u: Node, cost: int, done: set<Node>, v: Node)
    requires Exploring(g, s, x, before, u, cost, done) && Edge(g, u, v)
    requires v in x.costs && x.costs[v] <= cost + Adjacent(g, u)[v]
    ensures Exploring(g, s, x, before, u, cost, done + {v})
  {
    hide SearchInv, Within, Settle;
  }

  /** Only a node settled just now can improve a neighbour, and never a settled one or the source. */
  lemma OnlyFreshImproves(g: Graph, s: Node, x: Search, before: Search, u: Node, cost: int, done: set<Node>, v: Node)
    requires NonNegative(g) && Exploring(g, s, x, before, u, cost, done) && Edge(g, u, v)
    requires v in x.costs ==> x.costs[v] > cost + Adjacent(g, u)[v]
    ensures u !in before.rank && v !in x.rank && v != s
    ensures cost + Adjacent(g, u)[v] >= 0 && x.costs[u] == cost
    ensures forall w | w in x.rank :: w in x.costs && x.costs[w] <= cost + Adjacent(g, u)[v]
  {
    hide QueueInv, Within, Settle, Explained;
    assert u in before.rank ==> Relaxed(g, x, u, v);
    assert Adjacent(g, u)[v] >= 0;
  }

  /** The edge to `v` brings a first or cheaper way. */
  lemma TakeEdge(g: Graph, s: Node, x: Search, before: Search, u: Node, cost: int, done: set<Node>, v: Node, queue: seq<Item>)
    requires NonNegative(g) && Exploring(g, s, x, before, u, cost, done) && Edge(g, u, v)
    requires v in x.costs ==> x.costs[v] > cost + Adjacent(g, u)[v]
    requires Added(x.queue, Item(v, cost + Adjacent(g, u)[v]), queue)
    ensures Exploring(g, s, Improve(x, u, v, cost + Adjacent(g, u)[v], queue), before, u, cost, done + {v})
  {
    hide Within, Settle, NonNegative, CostsInv, EdgesInv, QueueInv, Added;
    var throughU := cost + Adjacent(g, u)[v];
    OnlyFreshImproves(g, s, x, before, u, cost, done, v);
    ImproveKeepsCosts(g, s, x, u, v, throughU, queue);
    ImproveKeepsEdges(g, x, u, v, throughU, queue);
    ImproveKeepsQueue(x, u, v, throughU, queue);
    var y := Improve(x, u, v, throughU, queue);
    NeighbourWithin(g, s, u, v);
    WithinGrows(g, s, x, y, v);
    forall w | w in done + {v} && Edge(g, u, w)
      ensures Relaxed(g, y, u, w)
    {
      if w != v {
        assert Relaxed(g, x, u, w);
      }
    }
  }

  lemma WithinGrows(g: Graph, s: Node, x: Search, y: Search, v: Node)
    requires Within(g, s, x) && v in Nodes(g, s) && y.costs.Keys == x.costs.Keys + {v}
    ensures Within(g, s, y)
  {
    hide Nodes;
  }

  lemma DoneExploring(g: Graph, s: Node, x: Search, before: Search, u: Node, cost: int, done: set<Node>)
    requires Exploring(g, s, x, before, u, cost, done) && done == Adjacent(g, u).Keys
    ensures SearchInv(g, s, x, None) && Within(g, s, x)
    ensures x.rank == Settle(before, u).rank
    ensures u in before.rank ==> x.queue == Settle(before, u).queue
  {
    hide CostsInv, QueueInv, Within, Settle, Relaxed;
    forall w, v | w in x.rank && Edge(g, w, v)
      ensures w in x.costs && Relaxed(g, x, w, v)
    {
      if w == u && u !in before.rank {
        assert v in done;
      }
    }
  }

  /** What the predecessor map means when the search is over. */
  ghost predicate ShortestPathTree(g: Graph, s: Node, costs: map<Node, int>, preds: map<Node, Node>, rank: map<Node, nat>) {
    && s in costs && costs[s] == 0 && s !in preds
    && (forall v | v in preds :: v in costs)
    && (forall v | v in costs :: v in rank && Explained(g, s, Search(costs, preds, [], rank), v))
    && (forall u, v | u in costs && Edge(g, u, v) :: Relaxed(g, Search(costs, preds, [], rank), u, v))
  }

  /** When no edge can be relaxed, no path is cheaper than the recorded cost. */
  lemma {:induction false} CostsAreLowerBounds(g: Graph, s: Node, x: Search, p: seq<Node>, v: Node)
    requires s in x.costs && x.costs[s] == 0
    requires forall u, w | u in x.costs && Edge(g, u, w) :: Relaxed(g, x, u, w)
    requires IsPath(g, p, s, v)
    ensures v in x.costs && x.costs[v] <= Cost(g, p)
  {
    if |p| > 1 {
      var q := p[..|p| - 1];
      var u := q[|q| - 1];
      assert forall i | 0 <= i < |q| - 1 :: Edge(g, q[i], q[i + 1]) by {
        forall i | 0 <= i < |q| - 1
          ensures Edge(g, q[i], q[i + 1])
        {
          assert Edge(g, p[i], p[i + 1]);
        }
      }
      CostsAreLowerBounds(g, s, x, q, u);
      assert Edge(g, p[|p| - 2], p[|p| - 1]);
      assert Relaxed(g, x, u, v);
    }
  }

  /** Every recorded cost is the cost of a path. */
  lemma {:induction false} CostsAreReached(g: Graph, s: Node, costs: map<Node, int>, preds: map<Node, Node>, rank: map<Node, nat>, v: Node)
    returns (p: seq<Node>)
    requires ShortestPathTree(g, s, costs, preds, rank) && v in costs
    ensures IsPath(g, p, s, v) && Cost(g, p) == costs[v]
    decreases if v in rank then rank[v] else 0
  {
    if v == s {
      p := [s];
    } else {
      assert Explained(g, s, Search(costs, preds, [], rank), v);
      var q := CostsAreReached(g, s, costs, preds, rank, preds[v]);
      p := q + [v];
      PathSnoc(g, q, s, preds[v], v);
    }
  }

  lemma PathSnoc(g: Graph, q: seq<Node>, s: Node, u: Node, v: Node)
    requires IsPath(g, q, s, u) && Edge(g, u, v)
    ensures IsPath(g, q + [v], s, v)
    ensures Cost(g, q + [v]) == Cost(g, q) + Adjacent(g, u)[v]
  {
    assert (q + [v])[..|q|] == q;
  }

  /** Moves along the edge `u`-`v` in front of a path. */
  lemma {:induction false} PathCons(g: Graph, u: Node, q: seq<Node>, v: Node, d: Node)
    requires IsPath(g, q, v, d) && Edge(g, u, v)
    ensures IsPath(g, [u] + q, u, d)
    ensures Cost(g, [u] + q) == Adjacent(g, u)[v] + Cost(g, q)
  {
    if |q| > 1 {
      var n := |q| - 1;
      assert forall i | 0 <= i < n - 1 :: Edge(g, q[..n][i], q[..n][i + 1]);
      PathCons(g, u, q[..n], v, q[n - 1]);
      assert ([u] + q)[..n + 1] == [u] + q[..n];
    }
  }

  // ---- the search ----

  /** Tries one edge: remembers a first or cheaper way to `v` and queues it. */
  method TryEdge(g: Graph, ghost s: Node, u: Node, v: Node, costOfSToU: int, open: PriorityQueue,
                 known: map<Node, int>, predecessors: map<Node, Node>,
                 ghost before: Search, ghost rank: map<Node, nat>, ghost done: set<Node>)
    returns (known': map<Node, int>, predecessors': map<Node, Node>)
    requires NonNegative(g) && open.Valid() && Edge(g, u, v)
    requires Exploring(g, s, Search(known, predecessors, open.queue, rank), before, u, costOfSToU, done)
    modifies open
    ensures open.Valid()
    ensures Exploring(g, s, Search(known', predecessors', open.queue, rank), before, u, costOfSToU, done + {v})
  {
    hide SearchInv, Exploring, Settle, Improve, Within, NonNegative, Sorted, SortBy, Added;
    ghost var x := Search(known, predecessors, open.queue, rank);
    known', predecessors' := known, predecessors;
    var throughU := costOfSToU + Adjacent(g, u)[v];
    if v !in known || known[v] > throughU {
      known' := known[v := throughU];
      open.Push(v, throughU);
      predecessors' := predecessors[v := u];
      TakeEdge(g, s, x, before, u, costOfSToU, done, v, open.queue);
      ImproveShape(x, u, v, throughU, open.queue);
    } else {
      SkipEdge(g, s, x, before, u, costOfSToU, done, v);
    }
  }

  /** Follows every edge that leaves the node just taken from the queue, in any order. */
  method FollowEdges(g: Graph, ghost s: Node, u: Node, costOfSToU: int, open: PriorityQueue,
                     known: map<Node, int>, predecessors: map<Node, Node>,
                     ghost before: Search, ghost rank: map<Node, nat>)
    returns (known': map<Node, int>, predecessors': map<Node, Node>)
    requires NonNegative(g) && open.Valid()
    requires Exploring(g, s, Search(known, predecessors, open.queue, rank), before, u, costOfSToU, {})
    modifies open
    ensures open.Valid()
    ensures Exploring(g, s, Search(known', predecessors', open.queue, rank), before, u, costOfSToU, Adjacent(g, u).Keys)
  {
    hide Exploring, NonNegative, Sorted;
    known', predecessors' := known, predecessors;
    var todo := Adjacent(g, u).Keys;
    ghost var done := {};
    while todo != {}
      invariant done + todo == Adjacent(g, u).Keys
      invariant open.Valid()
      invariant Exploring(g, s, Search(known', predecessors', open.queue, rank), before, u, costOfSToU, done)
      decreases todo
    {
      var v :| v in todo;
      assert Edge(g, u, v);
      known', predecessors' := TryEdge(g, s, u, v, costOfSToU, open, known', predecessors', before, rank, done);
      todo, done := todo - {v}, done + {v};
    }
    assert done == Adjacent(g, u).Keys;
  }

  /**
    Single-source shortest paths.  Fails exactly when a target is given that
    cannot be reached.
   */
  method SingleSourceShortestPaths(g: Graph, s: Node, d: Option<Node>)
    returns (r: Result<map<Node, Node>>, ghost costs: map<Node, int>, ghost rank: map<Node, nat>)
    requires NonNegative(g)
    ensures r.Err? <==> d.Some? && !Reachable(g, s, d.value)
    ensures r.Ok? ==> ShortestPathTree(g, s, costs, r.value, rank)
    ensures r.Ok? ==> forall v :: v in costs <==> Reachable(g, s, v)
  {
    hide SearchInv, Exploring, Settle, Within, NonNegative, Sorted, SortBy, Added, Nodes, Reachable, ShortestPathTree, Adjacent;
    var predecessors: map<Node, Node> := map[];
    var known: map<Node, int> := map[s := 0];
    rank := map[];
    var open := new PriorityQueue();
    open.Push(s, 0);
    ghost var x := Search(known, predecessors, open.queue, rank);
    SearchStarts(g, s, x);
    while !open.Empty()
      invariant open.Valid() && x == Search(known, predecessors, open.queue, rank)
      invariant SearchInv(g, s, x, None) && Within(g, s, x)
      decreases |Nodes(g, s)| - |rank|, |open.queue|
    {
      ghost var before := x;
      RankBounded(g, s, x);
      StartExploring(g, s, x);
      var closest := open.Pop();
      var u := closest.value;
      SettleShape(g, s, before, u);
      rank := Settle(before, u).rank;
      known, predecessors := FollowEdges(g, s, u, closest.cost, open, known, predecessors, before, rank);
      x := Search(known, predecessors, open.queue, rank);
      DoneExploring(g, s, x, before, u, closest.cost, Adjacent(g, u).Keys);
      RankBounded(g, s, x);
    }
    costs := known;
    FinishedSearch(g, s, x);
    if d.Some? && d.value !in known {
      return Err("Could not find a path"), costs, rank;
    }
    return Ok(predecessors), costs, rank;
  }

  lemma RankBounded(g: Graph, s: Node, x: Search)
    requires SearchInv(g, s, x, None) && Within(g, s, x)
    ensures |x.rank| <= |Nodes(g, s)|
    ensures forall u | u in x.costs && u !in x.rank :: |x.rank| < |Nodes(g, s)|
  {
    assert x.rank.Keys <= Nodes(g, s);
    Subset(x.rank.Keys, Nodes(g, s));
    forall u | u in x.costs && u !in x.rank
      ensures |x.rank| < |Nodes(g, s)|
    {
      Subset(x.rank.Keys + {u}, Nodes(g, s));
    }
  }

  lemma Subset(a: set<Node>, b: set<Node>)
    requires a <= b
    ensures |a| <= |b|
  {
    assert b == a + (b - a);
  }

  lemma SettleShape(g: Graph, s: Node, x: Search, u: Node)
    requires x.queue != []
    ensures Settle(x, u) == Search(x.costs, x.preds, x.queue[1..], Settle(x, u).rank)
    ensures |Settle(x, u).rank| == |x.rank| + if u in x.rank then 0 else 1
  {}

  lemma ImproveShape(x: Search, u: Node, v: Node, cost: int, queue: seq<Item>)
    ensures Improve(x, u, v, cost, queue) == Search(x.costs[v := cost], x.preds[v := u], queue, x.rank)
  {}

  lemma SearchStarts(g: Graph, s: Node, x: Search)
    requires x == Search(map[s := 0], map[], SortBy(CostOf, [] + [Item(s, 0)]), map[])
    ensures SearchInv(g, s, x, None) && Within(g, s, x)
  {
    assert [] + [Item(s, 0)] == [Item(s, 0)];
    assert x.queue == [Item(s, 0)];
    assert Queued(x, s);
  }

  lemma NeighbourWithin(g: Graph, s: Node, u: Node, v: Node)
    requires Edge(g, u, v)
    ensures v in Nodes(g, s)
  {}

  lemma FinishedSearch(g: Graph, s: Node, x: Search)
    requires SearchInv(g, s, x, None) && x.queue == []
    ensures ShortestPathTree(g, s, x.costs, x.preds, x.rank)
    ensures forall v :: v in x.costs <==> Reachable(g, s, v)
  {
    forall v | v in x.costs
      ensures v in x.rank
    {
      assert v !in x.rank ==> Queued(x, v);
    }
    var z := Search(x.costs, x.preds, [], x.rank);
    assert z == x;
    forall v
      ensures v in x.costs <==> Reachable(g, s, v)
    {
      if v in x.costs {
        var p := CostsAreReached(g, s, x.costs, x.preds, x.rank, v);
      }
      forall p | IsPath(g, p, s, v)
        ensures v in x.costs
      {
        CostsAreLowerBounds(g, s, x, p, v);
      }
    }
  }

  // ---- the path ----

  function Reverse(p: seq<Node>): seq<Node> {
    if p == [] then [] else Reverse(p[1..]) + [p[0]]
  }

  lemma ReverseSnoc(p: seq<Node>, v: Node)
    ensures Reverse(p + [v]) == [v] + Reverse(p)
  {
    if p != [] {
      ReverseSnoc(p[1..], v);
      assert (p + [v])[1..] == p[1..] + [v];
    }
  }

  /** The empty string ends the walk in the program, so it must not name a node. */
  ghost predicate Named(costs: map<Node, int>) {
    "" !in costs
  }

  /** Walks the predecessors from the target back to the source and turns the walk round. */
  method ExtractShortestPath(g: Graph, s: Node, predecessors: map<Node, Node>, d: Node,
                             ghost costs: map<Node, int>, ghost rank: map<Node, nat>)
    returns (path: seq<Node>)
    requires ShortestPathTree(g, s, costs, predecessors, rank) && d in costs && Named(costs)
    ensures IsPath(g, path, s, d) && Cost(g, path) == costs[d]
  {
    var nodes: seq<Node> := [];
    var u := Some(d);
    while u.Some? && u.value != ""
      invariant u.Some? ==> u.value in costs
      invariant u.Some? && nodes == [] ==> u.value == d
      invariant nodes != [] ==> IsPath(g, Reverse(nodes), nodes[|nodes| - 1], d)
      invariant nodes != [] && u == None ==> nodes[|nodes| - 1] == s && Cost(g, Reverse(nodes)) == costs[d]
      invariant nodes != [] && u.Some? ==>
                  && nodes[|nodes| - 1] in costs && nodes[|nodes| - 1] != s
                  && predecessors[nodes[|nodes| - 1]] == u.value
                  && costs[nodes[|nodes| - 1]] + Cost(g, Reverse(nodes)) == costs[d]
      invariant nodes == [] ==> u.Some?
      decreases if u.Some? then 1 else 0, if u.Some? && u.value in rank then rank[u.value] else 0
    {
      var node := u.value;
      assert Explained(g, s, Search(costs, predecessors, [], rank), node);
      ReverseSnoc(nodes, node);
      if nodes != [] {
        var last := nodes[|nodes| - 1];
        assert Explained(g, s, Search(costs, predecessors, [], rank), last);
        PathCons(g, node, Reverse(nodes), last, d);
      } else {
        assert Reverse(nodes + [node]) == [node];
      }
      nodes := nodes + [node];
      u := if node in predecessors then Some(predecessors[node]) else None;
    }
    path := Reverse(nodes);
  }

  /** A shortest path, or an error exactly when there is no path. */
  method FindPath(g: Graph, s: Node, d: Node) returns (r: Result<seq<Node>>)
    requires NonNegative(g) && s != "" && forall u :: !Edge(g, u, "")
    ensures r.Err? <==> !Reachable(g, s, d)
    ensures r.Ok? ==> IsShortest(g, r.value, s, d)
  {
    var preds, costs, rank := SingleSourceShortestPaths(g, s, Some(d));
    if preds.Err? {
      return Err(preds.error);
    }
    NoEmptyName(g, s, costs);
    var path := ExtractShortestPath(g, s, preds.value, d, costs, rank);
    forall q | IsPath(g, q, s, d)
      ensures Cost(g, path) <= Cost(g, q)
    {
      CostsAreLowerBounds(g, s, Search(costs, preds.value, [], rank), q, d);
    }
    return Ok(path);
  }

  lemma LastEdge(g: Graph, p: seq<Node>, s: Node, d: Node) returns (u: Node)
    requires IsPath(g, p, s, d) && s != d
    ensures Edge(g, u, d)
  {
    u := p[|p| - 2];
    assert Edge(g, p[|p| - 2], p[|p| - 2 + 1]);
  }

  lemma NoEmptyName(g: Graph, s: Node, costs: map<Node, int>)
    requires s != "" && forall u :: !Edge(g, u, "")
    requires forall v :: v in costs <==> Reachable(g, s, v)
    ensures Named(costs)
  {
    if "" in costs {
      var p :| IsPath(g, p, s, "");
      var u := LastEdge(g, p, s, "");
    }
  }
}
