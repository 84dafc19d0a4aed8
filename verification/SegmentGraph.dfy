/**
  The graph over which the segment modes are chosen: one layer of nodes per
  run, an edge between every two nodes of neighbouring layers.
 */
module SegmentGraph {
  import opened Decimal
  import opened QrMode
  import opened Results
  import opened Segmentation
  import D = Dijkstra

  /** A run written in one of the modes it allows; `length` counts bytes in byte mode. */
  datatype SegNode = SegNode(data: Text, mode: Mode, length: nat)

  datatype Entry = Entry(node: SegNode, lastCount: nat)

  type Groups = seq<seq<SegNode>>

  // ---- node identifiers ----

  /** The identifier of choice `j` of group `i`: both numbers written one after the other. */
  function Key(i: nat, j: nat): string {
    Digits(i) + Digits(j)
  }

  /** A single-digit choice cannot be confused with the group number. */
  lemma KeyInjective(i: nat, j: nat, k: nat, l: nat)
    requires j < 10 && l < 10 && Key(i, j) == Key(k, l)
    ensures i == k && j == l
  {
    var s := Key(i, j);
    var n := |s| - 1;
    assert |Digits(j)| == 1 && |Digits(l)| == 1;
    assert s[n] == Digit(j) && s[n] == Digit(l);
    assert s[..n] == Digits(i) && s[..n] == Digits(k);
    DigitInjective(j, l);
    DigitsInjective(i, k);
  }

  lemma KeyIsNoName(i: nat, j: nat)
    ensures Key(i, j) != "start" && Key(i, j) != "end" && Key(i, j) != ""
  {
    assert Key(i, j)[0] == Digits(i)[0];
  }

  // ---- choices ----

  /** A run in its own mode, and in every mode with more characters. */
  function Choices(run: Run): seq<SegNode> {
    match run.mode
    case Numeric => [SegNode(run.data, Numeric, |run.data|),
                     SegNode(run.data, Alphanumeric, |run.data|),
                     SegNode(run.data, Byte, |run.data|)]
    case Alphanumeric => [SegNode(run.data, Alphanumeric, |run.data|),
                          SegNode(run.data, Byte, |run.data|)]
    case Byte => [SegNode(run.data, Byte, Utf8Length(run.data))]
    case Kanji => []
  }

  ghost predicate ValidGroup(run: Run, group: seq<SegNode>) {
    run.mode != Kanji && AllEncodable(run.mode, run.data) && group == Choices(run)
  }

  /** Every group offers the data of its run, in modes that can carry it, a handful of times. */
  lemma ChoicesCarry(run: Run, group: seq<SegNode>)
    requires ValidGroup(run, group)
    ensures 1 <= |group| <= 3
    ensures forall j | 0 <= j < |group| ::
              group[j].data == run.data && group[j].mode != Kanji && AllEncodable(group[j].mode, run.data)
  {
    forall i | 0 <= i < |run.data|
      ensures Encodable(run.mode, run.data[i]) && (run.mode == Numeric ==> Encodable(Alphanumeric, run.data[i]))
    {}
  }

  /** A run is offered exactly the modes that can carry its characters, each once. */
  lemma ChoicesComplete(run: Run, group: seq<SegNode>, m: Mode)
    requires ValidGroup(run, group) && run.data != [] && m != Kanji
    requires forall i | 0 <= i < |run.data| :: Class(run.data[i]) == run.mode
    ensures (exists j | 0 <= j < |group| :: group[j].mode == m) <==> AllEncodable(m, run.data)
    ensures forall a, b | 0 <= a < b < |group| :: group[a].mode != group[b].mode
    ensures forall j | 0 <= j < |group| :: group[j].data == run.data
  {
    assert Class(run.data[0]) == run.mode;
    if AllEncodable(m, run.data) {
      assert Encodable(m, run.data[0]);
      assert Offered(group, m, if run.mode == m then 0 else if m == Byte then |group| - 1 else 1);
    } else if exists j | 0 <= j < |group| :: group[j].mode == m {
      ChoicesCarry(run, group);
    }
  }

  ghost predicate Offered(group: seq<SegNode>, m: Mode, j: nat) {
    j < |group| && group[j].mode == m
  }

  ghost predicate ValidGroups(runs: seq<Run>, groups: Groups) {
    |groups| == |runs| && forall i | 0 <= i < |runs| :: ValidGroup(runs[i], groups[i])
  }

  /**
    The modes in which each run can be written.  Fails exactly when a byte run
    has an unpaired surrogate.
   */
  method BuildNodes(segs: seq<Run>) returns (r: Result<Groups>)
    requires forall s | s in segs :: s.mode != Kanji && AllEncodable(s.mode, s.data)
    ensures r.Ok? <==> forall s | s in segs && s.mode == Byte :: WellFormed(s.data)
    ensures r.Ok? ==> ValidGroups(segs, r.value)
  {
    var nodes: Groups := [];
    for i := 0 to |segs|
      invariant ValidGroups(segs[..i], nodes)
      invariant forall k | 0 <= k < i && segs[k].mode == Byte :: WellFormed(segs[k].data)
    {
      var seg := segs[i];
      assert seg in segs;
      assert segs[..i + 1] == segs[..i] + [seg];
      match seg.mode
      case Numeric =>
        nodes := nodes + [[SegNode(seg.data, Numeric, |seg.data|),
                           SegNode(seg.data, Alphanumeric, |seg.data|),
                           SegNode(seg.data, Byte, |seg.data|)]];
      case Alphanumeric =>
        nodes := nodes + [[SegNode(seg.data, Alphanumeric, |seg.data|),
                           SegNode(seg.data, Byte, |seg.data|)]];
      case Byte =>
        var length := GetStringByteLength(seg.data);
        if length.Err? {
          return Err(length.error);
        }
        nodes := nodes + [[SegNode(seg.data, Byte, length.value)]];
    }
    assert segs[..|segs|] == segs;
    return Ok(nodes);
  }

  // ---- layers ----

  ghost predicate SmallGroups(groups: Groups) {
    forall i | 0 <= i < |groups| :: 1 <= |groups[i]| <= 3
  }

  /** `u` identifies choice `j` of group `k - 1`. */
  ghost predicate IsChoice(groups: Groups, k: nat, j: nat, u: D.Node) {
    1 <= k <= |groups| && j < |groups[k - 1]| && u == Key(k - 1, j)
  }

  /** Layer 0 is the start, layer k holds the choices of group k - 1, the last layer is the end. */
  ghost predicate InLayer(groups: Groups, k: nat, u: D.Node) {
    if k == 0 then u == "start"
    else if k <= |groups| then exists j: nat :: IsChoice(groups, k, j, u)
    else k == |groups| + 1 && u == "end"
  }

  lemma LayerUnique(groups: Groups, k: nat, l: nat, u: D.Node)
    requires SmallGroups(groups) && InLayer(groups, k, u) && InLayer(groups, l, u)
    ensures k == l
  {
    if 0 < k <= |groups| {
      var j: nat :| IsChoice(groups, k, j, u);
      KeyIsNoName(k - 1, j);
      if 0 < l <= |groups| {
        var i: nat :| IsChoice(groups, l, i, u);
        KeyInjective(k - 1, j, l - 1, i);
      }
    } else if 0 < l <= |groups| {
      var j: nat :| IsChoice(groups, l, j, u);
      KeyIsNoName(l - 1, j);
    }
  }

  /** Edges lead from one layer to the next, all of them are there, and none has negative weight. */
  ghost predicate Layered(groups: Groups, g: D.Graph) {
    && (forall u, v | D.Edge(g, u, v) :: exists k: nat | k <= |groups| :: InLayer(groups, k, u) && InLayer(groups, k + 1, v))
    && (forall k: nat, u, v | k <= |groups| && InLayer(groups, k, u) && InLayer(groups, k + 1, v) :: D.Edge(g, u, v))
    && D.NonNegative(g)
  }

  /** A path from the start to the end takes exactly one node of every layer. */
  lemma {:induction false} PathFollowsLayers(groups: Groups, g: D.Graph, p: seq<D.Node>, k: nat)
    requires SmallGroups(groups) && Layered(groups, g)
    requires p != [] && p[0] == "start" && k < |p|
    requires forall i | 0 <= i < |p| - 1 :: D.Edge(g, p[i], p[i + 1])
    ensures k <= |groups| + 1 && InLayer(groups, k, p[k])
  {
    if k > 0 {
      PathFollowsLayers(groups, g, p, k - 1);
      assert D.Edge(g, p[k - 1], p[k - 1 + 1]);
      var l: nat :| l <= |groups| && InLayer(groups, l, p[k - 1]) && InLayer(groups, l + 1, p[k]);
      LayerUnique(groups, k - 1, l, p[k - 1]);
    }
  }

  lemma PathLength(groups: Groups, g: D.Graph, p: seq<D.Node>)
    requires SmallGroups(groups) && Layered(groups, g) && D.IsPath(g, p, "start", "end")
    ensures |p| == |groups| + 2
    ensures forall k | 0 < k <= |groups| :: InLayer(groups, k, p[k])
  {
    PathFollowsLayers(groups, g, p, |p| - 1);
    LayerUnique(groups, |p| - 1, |groups| + 1, "end");
    forall k | 0 < k <= |groups|
      ensures InLayer(groups, k, p[k])
    {
      PathFollowsLayers(groups, g, p, k);
    }
  }

  /** Taking the first choice of every group is a path. */
  lemma {:induction false} FirstChoices(groups: Groups, g: D.Graph, k: nat) returns (p: seq<D.Node>)
    requires SmallGroups(groups) && Layered(groups, g) && k <= |groups|
    ensures D.IsPath(g, p, "start", if k == 0 then "start" else Key(k - 1, 0))
  {
    if k == 0 {
      p := ["start"];
    } else {
      var q := FirstChoices(groups, g, k - 1);
      var u := if k == 1 then "start" else Key(k - 2, 0);
      assert k > 1 ==> IsChoice(groups, k - 1, 0, u);
      assert IsChoice(groups, k, 0, Key(k - 1, 0));
      assert InLayer(groups, k - 1, u) && InLayer(groups, k, Key(k - 1, 0));
      D.PathSnoc(g, q, "start", u, Key(k - 1, 0));
      p := q + [Key(k - 1, 0)];
    }
  }

  lemma EndIsReachable(groups: Groups, g: D.Graph)
    requires SmallGroups(groups) && Layered(groups, g)
    ensures D.Reachable(g, "start", "end")
  {
    var n := |groups|;
    var q := FirstChoices(groups, g, n);
    var u := if n == 0 then "start" else Key(n - 1, 0);
    assert n > 0 ==> IsChoice(groups, n, 0, u);
    assert InLayer(groups, n, u) && InLayer(groups, n + 1, "end");
    D.PathSnoc(g, q, "start", u, "end");
    assert D.IsPath(g, q + ["end"], "start", "end");
  }

  // ---- building the graph ----

  /** The graph after `i` groups, and the first `j` nodes of the next one, were added. */
  ghost predicate Built(groups: Groups, g: D.Graph, table: map<D.Node, Entry>, i: nat, j: nat) {
    && "start" in g && "start" !in table && "end" !in g
    && D.NonNegative(g)
    && (forall u, v | D.Edge(g, u, v) :: IsBuiltEdge(groups, i, j, u, v))
    && (forall k: nat, a: nat, u | k < |groups| && a < |groups[k]| && (k < i || (k == i && a < j)) && InLayer(groups, k, u) ::
          D.Edge(g, u, Key(k, a)))
    && (forall k: nat, a: nat | k < |groups| && a < |groups[k]| && (k < i || (k == i && a < j)) ::
          Key(k, a) in g && Key(k, a) in table && table[Key(k, a)].node == groups[k][a])
  }

  ghost predicate IsBuiltEdge(groups: Groups, i: nat, j: nat, u: D.Node, v: D.Node) {
    exists k: nat, a: nat | k < |groups| && a < |groups[k]| && (k < i || (k == i && a < j)) ::
      InLayer(groups, k, u) && v == Key(k, a)
  }

  /** The identifiers of the layer before group `i`, in order. */
  ghost predicate LayerIds(groups: Groups, i: nat, ids: seq<D.Node>) {
    if i == 0 then ids == ["start"]
    else i <= |groups| && |ids| == |groups[i - 1]| && forall b: nat | b < |ids| :: ids[b] == Key(i - 1, b)
  }

  /**
    The weight of an edge: the bits a node adds when it continues the mode
    before it, or the bits of a new segment with its header.
   */
  function EdgeWeight(previous: Option<Entry>, node: SegNode, version: int): (w: int)
    requires ValidVersion(version)
    ensures FairWeight(previous.Some? && previous.value.node.mode == node.mode, node, version, w)
  {
    if previous.Some? && previous.value.node.mode == node.mode then
      BitsLengthMonotone(node.mode, previous.value.lastCount, node.length);
      BitsLengthSubadditive(node.mode, previous.value.lastCount, node.length);
      BitsLength(node.mode, previous.value.lastCount + node.length) - BitsLength(node.mode, previous.value.lastCount)
    else BitsLength(node.mode, node.length) + 4 + CharCountIndicator(node.mode, version)
  }

  /**
    A change of mode costs the header and all data bits, staying in a mode at
    most the data bits.
   */
  ghost predicate FairWeight(same: bool, node: SegNode, version: int, w: int)
    requires ValidVersion(version)
  {
    if same then 0 <= w <= BitsLength(node.mode, node.length)
    else w == BitsLength(node.mode, node.length) + 4 + CharCountIndicator(node.mode, version)
  }

  // ---- the characters counted while the graph is built ----

  /** The count of an entry after an edge to `node` was added. */
  function Recount(entry: Entry, node: SegNode): Entry {
    entry.(lastCount := if entry.node.mode == node.mode then entry.lastCount + node.length else node.length)
  }

  function Known(table: map<D.Node, Entry>, u: D.Node): Option<Entry> {
    if u in table then Some(table[u]) else None
  }

  /** The count at choice `b` of the group before group `i`, after `j` edges into group `i` were added. */
  function Counted(groups: Groups, i: nat, b: nat, j: nat): nat
    requires 0 < i < |groups| && b < |groups[i - 1]| && j <= |groups[i]|
  {
    if j == 0 then 0 else Recount(Entry(groups[i - 1][b], Counted(groups, i, b, j - 1)), groups[i][j - 1]).lastCount
  }

  /** The modes of a group differ from each other. */
  ghost predicate DistinctModes(group: seq<SegNode>) {
    forall a, b | 0 <= a < b < |group| :: group[a].mode != group[b].mode
  }

  /**
    The count in closed form: behind a node of another mode it is the length of
    that node; behind one of its own mode, that length and the one of the node
    before it.
   */
  lemma {:induction false} CountedShown(groups: Groups, i: nat, b: nat, j: nat)
    requires 0 < i < |groups| && b < |groups[i - 1]| && j <= |groups[i]| && DistinctModes(groups[i])
    ensures var group, mode := groups[i], groups[i - 1][b].mode;
            Counted(groups, i, b, j)
            == if j == 0 then 0
               else if group[j - 1].mode != mode then group[j - 1].length
               else group[j - 1].length + if j == 1 then 0 else group[j - 2].length
  {
    if j > 0 {
      CountedShown(groups, i, b, j - 1);
      if j > 1 {
        assert groups[i][j - 2].mode != groups[i][j - 1].mode;
      }
    }
  }

  predicate IsEdge(groups: Groups, k: nat, a: nat, b: nat) {
    k < |groups| && a < |groups[k]| && if k == 0 then b == 0 else b < |groups[k - 1]|
  }

  /** The node before group `k`: one of its choices, or the start. */
  function Before(k: nat, b: nat): D.Node {
    if k == 0 then "start" else Key(k - 1, b)
  }

  /** The weight of the edge from choice `b` of the group before into choice `a` of group `k`. */
  function WeightOf(groups: Groups, k: nat, a: nat, b: nat, version: int): int
    requires ValidVersion(version) && IsEdge(groups, k, a, b)
  {
    EdgeWeight(if k == 0 then None else Some(Entry(groups[k - 1][b], Counted(groups, k, b, a))), groups[k][a], version)
  }

  predicate Added(k: nat, a: nat, i: nat, j: nat) {
    k < i || (k == i && a < j)
  }

  /** The weights after `i` groups, and the first `j` nodes of the next one, were added. */
  ghost predicate Weighted(groups: Groups, g: D.Graph, version: int, i: nat, j: nat)
    requires ValidVersion(version)
  {
    forall k: nat, a: nat, b: nat | IsEdge(groups, k, a, b) && Added(k, a, i, j) ::
      HasWeight(g, Before(k, b), Key(k, a), WeightOf(groups, k, a, b, version))
  }

  ghost predicate HasWeight(g: D.Graph, u: D.Node, v: D.Node, w: int) {
    D.Edge(g, u, v) && D.Adjacent(g, u)[v] == w
  }

  /** The counts after `i` groups, and the first `j` nodes of the next one, were added. */
  ghost predicate Counts(groups: Groups, table: map<D.Node, Entry>, i: nat, j: nat) {
    && (0 < i < |groups| && j <= |groups[i]| ==>
          forall b: nat | b < |groups[i - 1]| :: Known(table, Key(i - 1, b)) == Some(Entry(groups[i - 1][b], Counted(groups, i, b, j))))
    && (i < |groups| && j <= |groups[i]| ==>
          forall a: nat | a < j :: Known(table, Key(i, a)) == Some(Entry(groups[i][a], 0)))
  }

  /** Edges that do not lead to `key` keep their weights. */
  ghost predicate OthersKept(g: D.Graph, g': D.Graph, key: D.Node) {
    forall u, v | v != key && D.Edge(g', u, v) :: D.Edge(g, u, v) && D.Adjacent(g', u)[v] == D.Adjacent(g, u)[v]
  }

  /** The weights of the new edges, by the counts before them. */
  ghost predicate NewWeights(g': D.Graph, table: map<D.Node, Entry>, ids: seq<D.Node>, key: D.Node, node: SegNode, version: int)
    requires ValidVersion(version)
  {
    forall u | u in ids :: HasWeight(g', u, key, EdgeWeight(Known(table, u), node, version))
  }

  /** The entries of `ids` are counted on, all others are as before. */
  ghost predicate Recounted(table: map<D.Node, Entry>, table': map<D.Node, Entry>, ids: seq<D.Node>, node: SegNode) {
    table'.Keys == table.Keys && forall u | u in table :: table'[u] == if u in ids then Recount(table[u], node) else table[u]
  }

  predicate Distinct(ids: seq<D.Node>) {
    forall a, b | 0 <= a < b < |ids| :: ids[a] != ids[b]
  }

  /** The edges from every identifier of `ids` to `key` are present, the rest of the graph is as before. */
  ghost predicate Linked(g: D.Graph, g': D.Graph, ids: seq<D.Node>, key: D.Node, n: nat) {
    && n <= |ids| && g'.Keys == g.Keys
    && (forall u, v :: D.Edge(g', u, v) <==> D.Edge(g, u, v) || (u in ids[..n] && v == key))
    && D.NonNegative(g')
  }

  /** Links one node to all nodes of the layer before it, counting characters per mode as it goes. */
  method LinkNode(g: D.Graph, table: map<D.Node, Entry>, ids: seq<D.Node>, key: D.Node, node: SegNode, version: int)
    returns (g': D.Graph, table': map<D.Node, Entry>)
    requires ValidVersion(version) && Distinct(ids) && forall u | u in ids :: u in g
    requires D.NonNegative(g)
    ensures Linked(g, g', ids, key, |ids|) && OthersKept(g, g', key)
    ensures NewWeights(g', table, ids, key, node, version) && Recounted(table, table', ids, node)
  {
    hide BitsLength, CharCountIndicator;
    g', table' := g, table;
    for n := 0 to |ids|
      invariant Linked(g, g', ids, key, n) && OthersKept(g, g', key)
      invariant NewWeights(g', table, ids[..n], key, node, version) && Recounted(table, table', ids[..n], node)
    {
      var prev := ids[n];
      assert prev in ids && prev !in ids[..n];
      ghost var g0, t0 := g', table';
      var weight := EdgeWeight(Known(table', prev), node, version);
      assert Known(table', prev) == Known(table, prev);
      g' := g'[prev := g'[prev][key := weight]];
      LinkStep(g, g0, g', ids, key, n, weight);
      WeightStep(g, g0, g', table, ids, key, node, version, n, weight);
      if prev in table' {
        var entry := table'[prev];
        var count := if entry.node.mode == node.mode then entry.lastCount + node.length else node.length;
        table' := table'[prev := entry.(lastCount := count)];
      }
      CountStep(table, t0, table', ids, n, node);
      hide Linked, NewWeights, OthersKept, EdgeWeight, Recounted;
    }
    assert ids[..|ids|] == ids;
  }

  lemma CountStep(t: map<D.Node, Entry>, t0: map<D.Node, Entry>, t': map<D.Node, Entry>, ids: seq<D.Node>, n: nat, node: SegNode)
    requires n < |ids| && Distinct(ids) && Recounted(t, t0, ids[..n], node)
    requires t' == if ids[n] in t0 then t0[ids[n] := Recount(t0[ids[n]], node)] else t0
    ensures Recounted(t, t', ids[..n + 1], node)
  {
    assert ids[..n + 1] == ids[..n] + [ids[n]];
    assert ids[n] !in ids[..n];
  }

  lemma WeightStep(g: D.Graph, g0: D.Graph, g': D.Graph, table: map<D.Node, Entry>, ids: seq<D.Node>, key: D.Node, node: SegNode,
                   version: int, n: nat, w: int)
    requires ValidVersion(version) && n < |ids| && ids[n] in g0
    requires OthersKept(g, g0, key) && NewWeights(g0, table, ids[..n], key, node, version)
    requires w == EdgeWeight(Known(table, ids[n]), node, version)
    requires g' == g0[ids[n] := g0[ids[n]][key := w]]
    ensures OthersKept(g, g', key) && NewWeights(g', table, ids[..n + 1], key, node, version)
  {
    hide EdgeWeight;
    assert ids[..n + 1] == ids[..n] + [ids[n]];
    forall u, v | v != key && D.Edge(g', u, v)
      ensures D.Edge(g, u, v) && D.Adjacent(g', u)[v] == D.Adjacent(g, u)[v]
    {
      assert D.Edge(g0, u, v);
    }
    forall u | u in ids[..n + 1]
      ensures HasWeight(g', u, key, EdgeWeight(Known(table, u), node, version))
    {
      if u != ids[n] {
        assert HasWeight(g0, u, key, EdgeWeight(Known(table, u), node, version));
      }
    }
  }

  lemma LinkStep(g: D.Graph, g0: D.Graph, g': D.Graph, ids: seq<D.Node>, key: D.Node, n: nat, w: int)
    requires Linked(g, g0, ids, key, n) && n < |ids| && ids[n] in g0 && w >= 0
    requires g' == g0[ids[n] := g0[ids[n]][key := w]]
    ensures Linked(g, g', ids, key, n + 1)
  {
    forall u, v
      ensures D.Edge(g', u, v) <==> D.Edge(g0, u, v) || (u == ids[n] && v == key)
      ensures D.Edge(g', u, v) ==> D.Adjacent(g', u)[v] >= 0
    {
      assert D.Edge(g0, u, v) ==> D.Adjacent(g0, u)[v] >= 0;
    }
    assert ids[..n + 1] == ids[..n] + [ids[n]];
  }

  lemma StartBuilt(groups: Groups, g: D.Graph, table: map<D.Node, Entry>)
    requires g == map["start" := map[]] && table == map[]
    ensures Built(groups, g, table, 0, 0) && LayerIds(groups, 0, ["start"])
  {}

  /** Adding one node, linked to the whole layer before it. */
  lemma NodeBuilt(groups: Groups, g: D.Graph, t: map<D.Node, Entry>, g': D.Graph, t': map<D.Node, Entry>,
                  i: nat, j: nat, ids: seq<D.Node>, key: D.Node, entry: Entry)
    requires SmallGroups(groups) && i < |groups| && j < |groups[i]| && key == Key(i, j)
    requires Built(groups, g, t, i, j) && LayerIds(groups, i, ids) && entry.node == groups[i][j]
    requires Linked(g[key := map[]], g', ids, key, |ids|) && Recounted(t[key := entry], t', ids, entry.node)
    ensures Built(groups, g', t', i, j + 1)
  {
    KeyIsNoName(i, j);
    KeyNotYet(groups, g, t, i, j);
    var g1 := g[key := map[]];
    assert ids[..|ids|] == ids;
    forall u, v
      ensures D.Edge(g', u, v) ==> D.Adjacent(g', u)[v] >= 0 && IsBuiltEdge(groups, i, j + 1, u, v)
    {
      if D.Edge(g', u, v) {
        if D.Edge(g1, u, v) {
          assert D.Edge(g, u, v);
          assert IsBuiltEdge(groups, i, j, u, v);
        } else {
          IdsInLayer(groups, i, ids, u);
        }
      }
    }
    forall k: nat, a: nat, u | k < |groups| && a < |groups[k]| && (k < i || (k == i && a < j + 1)) && InLayer(groups, k, u)
      ensures D.Edge(g', u, Key(k, a))
    {
      if k == i && a == j {
        IdsInLayer(groups, i, ids, u);
      } else {
        assert D.Edge(g, u, Key(k, a));
        assert D.Edge(g1, u, Key(k, a));
      }
    }
    forall k: nat, a: nat | k < |groups| && a < |groups[k]| && (k < i || (k == i && a < j + 1))
      ensures Key(k, a) in g' && Key(k, a) in t' && t'[Key(k, a)].node == groups[k][a]
    {
      if Key(k, a) == key {
        KeyInjective(k, a, i, j);
      }
    }
  }

  lemma SmallChoice(groups: Groups, i: nat, j: nat)
    requires SmallGroups(groups) && i < |groups| && j < |groups[i]|
    ensures j < 10
  {}

  /** Nodes of the table have different names. */
  lemma SameKey(groups: Groups, i: nat, j: nat, k: nat, l: nat)
    requires SmallGroups(groups) && i < |groups| && j < |groups[i]| && k < |groups| && l < |groups[k]|
    requires Key(i, j) == Key(k, l)
    ensures i == k && j == l
  {
    SmallChoice(groups, i, j);
    SmallChoice(groups, k, l);
    KeyInjective(i, j, k, l);
  }

  lemma IdsDistinct(groups: Groups, i: nat, ids: seq<D.Node>)
    requires SmallGroups(groups) && i <= |groups| && LayerIds(groups, i, ids)
    ensures Distinct(ids)
  {
    hide Key;
    forall a, b | 0 <= a < b < |ids|
      ensures ids[a] != ids[b]
    {
      if ids[a] == ids[b] {
        SameKey(groups, i - 1, a, i - 1, b);
      }
    }
  }

  /** The counts go on with a node. */
  lemma NodeCounted(groups: Groups, t: map<D.Node, Entry>, t': map<D.Node, Entry>, i: nat, j: nat, ids: seq<D.Node>)
    requires SmallGroups(groups) && i < |groups| && j < |groups[i]| && LayerIds(groups, i, ids)
    requires Counts(groups, t, i, j) && Recounted(t[Key(i, j) := Entry(groups[i][j], 0)], t', ids, groups[i][j])
    ensures Counts(groups, t', i, j + 1)
  {
    hide Key;
    var t1 := t[Key(i, j) := Entry(groups[i][j], 0)];
    if i > 0 {
      forall b: nat {:trigger Key(i - 1, b)} | b < |groups[i - 1]|
        ensures Known(t', Key(i - 1, b)) == Some(Entry(groups[i - 1][b], Counted(groups, i, b, j + 1)))
      {
        assert ids[b] == Key(i - 1, b) && Key(i - 1, b) in ids;
        assert Known(t, Key(i - 1, b)) == Some(Entry(groups[i - 1][b], Counted(groups, i, b, j)));
        if Key(i - 1, b) == Key(i, j) {
          SameKey(groups, i - 1, b, i, j);
        }
        assert t1[Key(i - 1, b)] == Entry(groups[i - 1][b], Counted(groups, i, b, j));
      }
    }
    forall a: nat | a < j + 1
      ensures Known(t', Key(i, a)) == Some(Entry(groups[i][a], 0))
    {
      if a < j {
        assert Known(t, Key(i, a)) == Some(Entry(groups[i][a], 0));
        if Key(i, a) == Key(i, j) {
          SameKey(groups, i, a, i, j);
        }
      }
      KeyNotInIds(groups, i, ids, i, a);
      assert Key(i, a) in t1 && t1[Key(i, a)] == Entry(groups[i][a], 0);
    }
  }

  lemma KeyNotInIds(groups: Groups, i: nat, ids: seq<D.Node>, k: nat, a: nat)
    requires SmallGroups(groups) && i <= k < |groups| && a < |groups[k]| && LayerIds(groups, i, ids)
    ensures Key(k, a) !in ids
  {
    KeyIsNoName(k, a);
    hide Key;
    if Key(k, a) in ids && i > 0 {
      var b: nat :| b < |ids| && ids[b] == Key(k, a);
      SameKey(groups, i - 1, b, k, a);
    }
  }

  /** A finished group starts counting anew. */
  lemma GroupCounted(groups: Groups, t: map<D.Node, Entry>, i: nat)
    requires i < |groups| && Counts(groups, t, i, |groups[i]|)
    ensures Counts(groups, t, i + 1, 0)
  {
    hide Key;
    if i + 1 < |groups| {
      forall b: nat | b < |groups[i]|
        ensures Known(t, Key(i, b)) == Some(Entry(groups[i][b], Counted(groups, i + 1, b, 0)))
      {
        assert Known(t, Key(i, b)) == Some(Entry(groups[i][b], 0));
      }
    }
  }

  /** A weight that is there stays when edges to another node are added. */
  lemma WeightStays(g: D.Graph, g': D.Graph, ids: seq<D.Node>, key: D.Node, u: D.Node, v: D.Node, w: int)
    requires HasWeight(g, u, v, w) && u != key && v != key
    requires Linked(g[key := map[]], g', ids, key, |ids|) && OthersKept(g[key := map[]], g', key)
    ensures HasWeight(g', u, v, w)
  {
    assert D.Edge(g[key := map[]], u, v);
    assert D.Edge(g', u, v);
  }

  /** Adding one node gives it its weights and keeps the others. */
  lemma NodeWeighted(groups: Groups, g: D.Graph, t: map<D.Node, Entry>, g': D.Graph, version: int, i: nat, j: nat, ids: seq<D.Node>)
    requires ValidVersion(version) && SmallGroups(groups) && i < |groups| && j < |groups[i]|
    requires "start" !in t && LayerIds(groups, i, ids) && Counts(groups, t, i, j) && Weighted(groups, g, version, i, j)
    requires Linked(g[Key(i, j) := map[]], g', ids, Key(i, j), |ids|) && OthersKept(g[Key(i, j) := map[]], g', Key(i, j))
    requires NewWeights(g', t[Key(i, j) := Entry(groups[i][j], 0)], ids, Key(i, j), groups[i][j], version)
    ensures Weighted(groups, g', version, i, j + 1)
  {
    KeyIsNoName(i, j);
    hide Key, EdgeWeight, Linked, OthersKept;
    var key := Key(i, j);
    var t1 := t[key := Entry(groups[i][j], 0)];
    forall k: nat, a: nat, b: nat | IsEdge(groups, k, a, b) && Added(k, a, i, j + 1)
      ensures HasWeight(g', Before(k, b), Key(k, a), WeightOf(groups, k, a, b, version))
    {
      var u := Before(k, b);
      if u == key {
        SameKey(groups, k - 1, b, i, j);
      }
      if k == i && a == j {
        assert ids[b] == u && u in ids;
        if i > 0 {
          assert Known(t, u) == Some(Entry(groups[i - 1][b], Counted(groups, i, b, j)));
        }
        assert Known(t1, u) == Known(t, u);
      } else {
        if Key(k, a) == key {
          SameKey(groups, k, a, i, j);
        }
        assert HasWeight(g, u, Key(k, a), WeightOf(groups, k, a, b, version));
        WeightStays(g, g', ids, key, u, Key(k, a), WeightOf(groups, k, a, b, version));
      }
    }
  }

  /** A finished group, and the edges to the end, change no weight. */
  lemma GroupWeighted(groups: Groups, g: D.Graph, version: int, i: nat)
    requires ValidVersion(version) && i < |groups| && Weighted(groups, g, version, i, |groups[i]|)
    ensures Weighted(groups, g, version, i + 1, 0)
  {
    hide WeightOf;
  }

  lemma EndWeighted(groups: Groups, g: D.Graph, g': D.Graph, version: int, ids: seq<D.Node>)
    requires ValidVersion(version) && Weighted(groups, g, version, |groups|, 0)
    requires Linked(g, g', ids, "end", |ids|) && OthersKept(g, g', "end")
    ensures Weighted(groups, g', version, |groups|, 0)
  {
    hide WeightOf, Key;
    forall k: nat, a: nat, b: nat | IsEdge(groups, k, a, b)
      ensures HasWeight(g', Before(k, b), Key(k, a), WeightOf(groups, k, a, b, version))
    {
      KeyIsNoName(k, a);
      assert HasWeight(g, Before(k, b), Key(k, a), WeightOf(groups, k, a, b, version));
      assert D.Edge(g', Before(k, b), Key(k, a));
    }
  }

  /** No edge leaves or enters a node before it is added. */
  lemma KeyNotYet(groups: Groups, g: D.Graph, t: map<D.Node, Entry>, i: nat, j: nat)
    requires SmallGroups(groups) && i < |groups| && j < |groups[i]| && Built(groups, g, t, i, j)
    ensures forall v :: !D.Edge(g, Key(i, j), v)
  {
    var key := Key(i, j);
    forall v
      ensures !D.Edge(g, key, v)
    {
      if D.Edge(g, key, v) {
        assert IsBuiltEdge(groups, i, j, key, v);
        var k: nat, a: nat :| k < |groups| && a < |groups[k]| && (k < i || (k == i && a < j)) && InLayer(groups, k, key) && v == Key(k, a);
        assert IsChoice(groups, i + 1, j, key);
        assert InLayer(groups, i + 1, key);
        LayerUnique(groups, k, i + 1, key);
      }
    }
  }

  lemma IdsInLayer(groups: Groups, i: nat, ids: seq<D.Node>, u: D.Node)
    requires i <= |groups| && LayerIds(groups, i, ids)
    ensures u in ids <==> InLayer(groups, i, u)
  {
    if i > 0 && InLayer(groups, i, u) {
      var j: nat :| IsChoice(groups, i, j, u);
      assert ids[j] == u;
    }
    if i > 0 && u in ids {
      var b: nat :| b < |ids| && ids[b] == u;
      assert IsChoice(groups, i, b, u);
    }
  }

  /** The layer is complete. */
  lemma GroupBuilt(groups: Groups, g: D.Graph, t: map<D.Node, Entry>, i: nat)
    requires i < |groups| && Built(groups, g, t, i, |groups[i]|)
    ensures Built(groups, g, t, i + 1, 0)
  {
    forall u, v | D.Edge(g, u, v)
      ensures IsBuiltEdge(groups, i + 1, 0, u, v)
    {
      assert IsBuiltEdge(groups, i, |groups[i]|, u, v);
    }
  }

  lemma NothingWeighted(groups: Groups, g: D.Graph, version: int)
    requires ValidVersion(version)
    ensures Weighted(groups, g, version, 0, 0) && Counts(groups, map[], 0, 0)
  {}

  /** Connects the last layer to the end. */
  method LinkEnd(g: D.Graph, ids: seq<D.Node>) returns (g': D.Graph)
    requires forall u | u in ids :: u in g
    requires D.NonNegative(g)
    ensures Linked(g, g', ids, "end", |ids|) && OthersKept(g, g', "end")
    ensures forall u | u in ids :: D.Edge(g', u, "end") && D.Adjacent(g', u)["end"] == 0
  {
    g' := g;
    for n := 0 to |ids|
      invariant Linked(g, g', ids, "end", n) && OthersKept(g, g', "end")
      invariant forall u | u in ids[..n] :: D.Edge(g', u, "end") && D.Adjacent(g', u)["end"] == 0
    {
      assert ids[n] in ids;
      ghost var g0 := g';
      g' := g'[ids[n] := g'[ids[n]]["end" := 0]];
      LinkStep(g, g0, g', ids, "end", n, 0);
      FreeStep(g, g0, g', ids, n);
      hide Linked, OthersKept;
    }
    assert ids[..|ids|] == ids;
  }

  lemma FreeStep(g: D.Graph, g0: D.Graph, g': D.Graph, ids: seq<D.Node>, n: nat)
    requires n < |ids| && ids[n] in g0 && g' == g0[ids[n] := g0[ids[n]]["end" := 0]]
    requires OthersKept(g, g0, "end") && forall u | u in ids[..n] :: D.Edge(g0, u, "end") && D.Adjacent(g0, u)["end"] == 0
    ensures OthersKept(g, g', "end") && forall u | u in ids[..n + 1] :: D.Edge(g', u, "end") && D.Adjacent(g', u)["end"] == 0
  {
    assert ids[..n + 1] == ids[..n] + [ids[n]];
    forall u, v | v != "end" && D.Edge(g', u, v)
      ensures D.Edge(g, u, v) && D.Adjacent(g', u)[v] == D.Adjacent(g, u)[v]
    {
      assert D.Edge(g0, u, v);
    }
  }

  lemma EndBuilt(groups: Groups, g: D.Graph, t: map<D.Node, Entry>, g': D.Graph, ids: seq<D.Node>)
    requires SmallGroups(groups) && Built(groups, g, t, |groups|, 0) && LayerIds(groups, |groups|, ids)
    requires Linked(g, g', ids, "end", |ids|)
    ensures Layered(groups, g')
  {
    assert ids[..|ids|] == ids;
    forall u, v | D.Edge(g', u, v)
      ensures exists k: nat | k <= |groups| :: InLayer(groups, k, u) && InLayer(groups, k + 1, v)
    {
      if D.Edge(g, u, v) {
        assert IsBuiltEdge(groups, |groups|, 0, u, v);
        var k: nat, a: nat :| k < |groups| && a < |groups[k]| && InLayer(groups, k, u) && v == Key(k, a);
        assert IsChoice(groups, k + 1, a, v);
        assert InLayer(groups, k + 1, v);
      } else {
        IdsInLayer(groups, |groups|, ids, u);
        assert InLayer(groups, |groups| + 1, v);
      }
    }
    forall k: nat, u, v | k <= |groups| && InLayer(groups, k, u) && InLayer(groups, k + 1, v)
      ensures D.Edge(g', u, v)
    {
      if k < |groups| {
        var a: nat :| IsChoice(groups, k + 1, a, v);
        assert D.Edge(g, u, Key(k, a));
      } else {
        IdsInLayer(groups, |groups|, ids, u);
      }
    }
  }

  /** The edges from the last layer to the end weigh nothing. */
  ghost predicate EndIsFree(groups: Groups, g: D.Graph) {
    forall u | InLayer(groups, |groups|, u) :: HasWeight(g, u, "end", 0)
  }

  method BuildGraph(groups: Groups, version: int) returns (g: D.Graph, table: map<D.Node, Entry>)
    requires SmallGroups(groups) && ValidVersion(version)
    ensures Layered(groups, g) && Weighted(groups, g, version, |groups|, 0)
    ensures EndIsFree(groups, g)
    ensures forall i: nat, j: nat | i < |groups| && j < |groups[i]| :: Key(i, j) in table && table[Key(i, j)].node == groups[i][j]
  {
    hide InLayer, IsBuiltEdge, Linked, SmallGroups, Weighted, OthersKept, NewWeights, Recounted, Counts, Distinct;
    table := map[];
    g := map["start" := map[]];
    var prevNodeIds := ["start"];
    StartBuilt(groups, g, table);
    NothingWeighted(groups, g, version);
    for i := 0 to |groups|
      invariant Built(groups, g, table, i, 0) && LayerIds(groups, i, prevNodeIds)
      invariant Weighted(groups, g, version, i, 0) && Counts(groups, table, i, 0)
    {
      var nodeGroup := groups[i];
      var currentNodeIds: seq<D.Node> := [];
      for j := 0 to |nodeGroup|
        invariant Built(groups, g, table, i, j) && Weighted(groups, g, version, i, j) && Counts(groups, table, i, j)
        invariant |currentNodeIds| == j && forall b: nat | b < j :: currentNodeIds[b] == Key(i, b)
      {
        var node := nodeGroup[j];
        var key := Key(i, j);
        currentNodeIds := currentNodeIds + [key];
        IdsPresent(groups, g, table, i, j, prevNodeIds, key);
        IdsDistinct(groups, i, prevNodeIds);
        var g', table' := LinkNode(g[key := map[]], table[key := Entry(node, 0)], prevNodeIds, key, node, version);
        NodeBuilt(groups, g, table, g', table', i, j, prevNodeIds, key, Entry(node, 0));
        NodeWeighted(groups, g, table, g', version, i, j, prevNodeIds);
        NodeCounted(groups, table, table', i, j, prevNodeIds);
        g, table := g', table';
      }
      GroupWeighted(groups, g, version, i);
      GroupCounted(groups, table, i);
      GroupBuilt(groups, g, table, i);
      prevNodeIds := currentNodeIds;
    }
    IdsPresent(groups, g, table, |groups|, 0, prevNodeIds, "start");
    var complete := LinkEnd(g, prevNodeIds);
    EndBuilt(groups, g, table, complete, prevNodeIds);
    EndWeighted(groups, g, complete, version, prevNodeIds);
    forall u | InLayer(groups, |groups|, u)
      ensures HasWeight(complete, u, "end", 0)
    {
      IdsInLayer(groups, |groups|, prevNodeIds, u);
    }
    g := complete;
  }

  lemma IdsPresent(groups: Groups, g: D.Graph, t: map<D.Node, Entry>, i: nat, j: nat, ids: seq<D.Node>, key: D.Node)
    requires Built(groups, g, t, i, j) && LayerIds(groups, i, ids)
    ensures forall u | u in ids :: u in g
    ensures D.NonNegative(g) && D.NonNegative(g[key := map[]])
  {
    var g1 := g[key := map[]];
    forall u, v | D.Edge(g1, u, v)
      ensures D.Adjacent(g1, u)[v] >= 0
    {
      assert u != key;
      assert D.Edge(g, u, v);
    }
  }
}
