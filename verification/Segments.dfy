/**
  From a text to the segments of a symbol: the cheapest choice of modes, with
  neighbours of equal mode merged.  Kanji mode is off.
 */
module Segments {
  import opened QrMode
  import opened Results
  import opened Segmentation
  import opened SegmentGraph
  import D = Dijkstra

  datatype Segment = Segment(mode: Mode, data: Text)

  datatype Hint = NoHint | Wanted(mode: Mode)

  /** The narrowest mode that covers every character; nothing but byte mode covers the empty text. */
  function BestMode(s: Text): Mode {
    if s != [] && AllEncodable(Numeric, s) then Numeric
    else if s != [] && AllEncodable(Alphanumeric, s) then Alphanumeric
    else if s != [] && AllEncodable(Kanji, s) then Kanji
    else Byte
  }

  /** A hint that cannot carry the data. */
  predicate Refused(data: Text, hint: Hint) {
    hint.Wanted? && (hint.mode == Numeric || hint.mode == Alphanumeric) && (data == [] || !AllEncodable(hint.mode, data))
  }

  lemma NumericIsAlphanumeric(s: Text)
    requires AllEncodable(Numeric, s)
    ensures AllEncodable(Alphanumeric, s)
  {
    forall i | 0 <= i < |s|
      ensures Encodable(Alphanumeric, s[i])
    {
      assert Encodable(Numeric, s[i]);
    }
  }

  /** Fails exactly on a hint that cannot carry the data; otherwise the mode can. */
  method BuildSingleSegment(data: Text, hint: Hint) returns (r: Result<Segment>)
    ensures r.Err? <==> Refused(data, hint)
    ensures r.Ok? ==> r.value.data == data && r.value.mode != Kanji && AllEncodable(r.value.mode, data)
    ensures r.Ok? && hint.Wanted? && hint.mode != Kanji ==> r.value.mode == hint.mode
    ensures r.Ok? && hint == NoHint ==>
              && (r.value.mode == Numeric <==> data != [] && AllEncodable(Numeric, data))
              && (r.value.mode == Alphanumeric <==> data != [] && AllEncodable(Alphanumeric, data) && !AllEncodable(Numeric, data))
  {
    var bestMode := BestMode(data);
    if AllEncodable(Numeric, data) {
      NumericIsAlphanumeric(data);
    }
    var mode := if hint.Wanted? then hint.mode else bestMode;
    if mode != Byte && ModeBit(mode) < ModeBit(bestMode) {
      return Err("data cannot be encoded with the mode");
    }
    if mode == Kanji {
      mode := Byte;
    }
    return Ok(Segment(mode, data));
  }

  /** A bare text, or an object with data and perhaps a mode. */
  datatype Item = TextItem(data: Text) | DataItem(data: Text, hint: Hint)

  function ItemHint(x: Item): Hint {
    if x.TextItem? then NoHint else x.hint
  }

  predicate Skipped(x: Item) {
    x.DataItem? && x.data == []
  }

  function ItemsText(items: seq<Item>): Text {
    if items == [] then [] else ItemsText(items[..|items| - 1]) + items[|items| - 1].data
  }

  function SegmentsText(segs: seq<Segment>): Text {
    if segs == [] then [] else SegmentsText(segs[..|segs| - 1]) + segs[|segs| - 1].data
  }

  predicate Fits(seg: Segment) {
    seg.mode != Kanji && AllEncodable(seg.mode, seg.data)
  }

  /** `seg` is what item `x` asked for. */
  predicate Answers(seg: Segment, x: Item) {
    seg.data == x.data && (ItemHint(x).Wanted? && ItemHint(x).mode != Kanji ==> seg.mode == ItemHint(x).mode)
  }

  /** `segs` are the segments of the items. */
  ghost predicate Collected(items: seq<Item>, segs: seq<Segment>) {
    && SegmentsText(segs) == ItemsText(items)
    && (forall seg | seg in segs :: Fits(seg))
    && ((forall x | x in items :: !Skipped(x)) ==>
          |segs| == |items| && forall i | 0 <= i < |items| :: Answers(segs[i], items[i]))
  }

  lemma CollectSkipped(items: seq<Item>, segs: seq<Segment>, x: Item)
    requires Collected(items, segs) && Skipped(x)
    ensures Collected(items + [x], segs)
  {
    var more := items + [x];
    assert more[..|items|] == items && x in more;
  }

  lemma Collect(items: seq<Item>, segs: seq<Segment>, x: Item, seg: Segment)
    requires Collected(items, segs) && Fits(seg) && Answers(seg, x)
    ensures Collected(items + [x], segs + [seg])
  {
    var more := items + [x];
    assert SegmentsText(segs + [seg]) == ItemsText(more) by {
      assert more[..|items|] == items && (segs + [seg])[..|segs|] == segs;
    }
    hide Fits, Answers, Skipped, SegmentsText, ItemsText;
    assert (forall y | y in more :: !Skipped(y)) ==> forall y | y in items :: !Skipped(y) by {
      assert forall y | y in items :: y in more;
    }
    assert forall y | y in segs + [seg] :: y in segs || y == seg;
  }

  lemma NothingCollected()
    ensures Collected([], [])
  {}

  lemma BuiltSegment(seg: Segment, x: Item)
    requires seg.data == x.data && seg.mode != Kanji && AllEncodable(seg.mode, x.data)
    requires ItemHint(x).Wanted? && ItemHint(x).mode != Kanji ==> seg.mode == ItemHint(x).mode
    ensures Fits(seg) && Answers(seg, x)
  {}

  /** Every character of the items is in a segment that can carry it. */
  method FromArray(items: seq<Item>) returns (r: Result<seq<Segment>>)
    ensures r.Err? <==> exists x | x in items :: !Skipped(x) && Refused(x.data, ItemHint(x))
    ensures r.Ok? ==> Collected(items, r.value)
  {
    hide Collected, Fits, Answers, Refused, Skipped;
    var acc: seq<Segment> := [];
    NothingCollected();
    for i := 0 to |items|
      invariant forall k | 0 <= k < i :: Skipped(items[k]) || !Refused(items[k].data, ItemHint(items[k]))
      invariant Collected(items[..i], acc)
    {
      assert items[..i + 1] == items[..i] + [items[i]];
      if !Skipped(items[i]) {
        var seg := BuildSingleSegment(items[i].data, ItemHint(items[i]));
        if seg.Err? {
          assert items[i] in items;
          return Err(seg.error);
        }
        BuiltSegment(seg.value, items[i]);
        Collect(items[..i], acc, items[i], seg.value);
        acc := acc + [seg.value];
      } else {
        CollectSkipped(items[..i], acc, items[i]);
      }
    }
    assert items[..|items|] == items;
    return Ok(acc);
  }

  // ---- merging ----

  /** Every character with the mode it is written in. */
  function Tagged(segs: seq<Segment>): seq<(CodeUnit, Mode)> {
    if segs == [] then []
    else Tagged(segs[..|segs| - 1]) + Tag(segs[|segs| - 1].data, segs[|segs| - 1].mode)
  }

  function Tag(s: Text, m: Mode): seq<(CodeUnit, Mode)> {
    seq(|s|, i requires 0 <= i < |s| => (s[i], m))
  }

  predicate Alternating(segs: seq<Segment>) {
    forall i | 0 < i < |segs| :: segs[i - 1].mode != segs[i].mode
  }

  predicate NonEmpty(segs: seq<Segment>) {
    forall i | 0 <= i < |segs| :: segs[i].data != []
  }

  lemma TagJoins(s: Text, t: Text, m: Mode)
    ensures Tag(s + t, m) == Tag(s, m) + Tag(t, m)
  {}

  ghost predicate Merged(segs: seq<Segment>, acc: seq<Segment>) {
    Tagged(acc) == Tagged(segs) && Alternating(acc) && (NonEmpty(segs) ==> NonEmpty(acc))
  }

  lemma AddLast(acc: seq<Segment>, x: Segment)
    ensures Tagged(acc + [x]) == Tagged(acc) + Tag(x.data, x.mode)
    ensures NonEmpty(acc + [x]) <==> NonEmpty(acc) && x.data != []
  {
    assert (acc + [x])[..|acc|] == acc;
    assert forall i | 0 <= i < |acc| :: (acc + [x])[i] == acc[i];
  }

  lemma ExtendLast(acc: seq<Segment>, data: Text)
    requires acc != []
    ensures var n := |acc| - 1;
            Tagged(acc[n := Segment(acc[n].mode, acc[n].data + data)]) == Tagged(acc) + Tag(data, acc[n].mode)
  {
    var n := |acc| - 1;
    TagJoins(acc[n].data, data, acc[n].mode);
    assert acc[n := Segment(acc[n].mode, acc[n].data + data)][..n] == acc[..n];
  }

  lemma MergeInto(segs: seq<Segment>, acc: seq<Segment>, x: Segment)
    requires Merged(segs, acc) && acc != [] && acc[|acc| - 1].mode == x.mode
    ensures Merged(segs + [x], acc[|acc| - 1 := Segment(x.mode, acc[|acc| - 1].data + x.data)])
  {
    AddLast(segs, x);
    ExtendLast(acc, x.data);
    hide Tagged, Tag;
  }

  lemma MergeNew(segs: seq<Segment>, acc: seq<Segment>, x: Segment)
    requires Merged(segs, acc) && (acc == [] || acc[|acc| - 1].mode != x.mode)
    ensures Merged(segs + [x], acc + [x])
  {
    AddLast(segs, x);
    AddLast(acc, x);
    hide Tagged, Tag, NonEmpty;
  }

  /** Neighbours of equal mode become one; no character changes place or mode. */
  method MergeSegments(segs: seq<Segment>) returns (acc: seq<Segment>)
    ensures Tagged(acc) == Tagged(segs) && Alternating(acc)
    ensures NonEmpty(segs) ==> NonEmpty(acc)
  {
    acc := [];
    assert Merged(segs[..0], acc);
    for i := 0 to |segs|
      invariant Merged(segs[..i], acc)
    {
      hide Merged;
      var curr := segs[i];
      var n := |acc| - 1;
      assert segs[..i + 1] == segs[..i] + [curr];
      if n >= 0 && acc[n].mode == curr.mode {
        MergeInto(segs[..i], acc, curr);
        acc := acc[n := Segment(curr.mode, acc[n].data + curr.data)];
      } else {
        MergeNew(segs[..i], acc, curr);
        acc := acc + [curr];
      }
    }
    assert segs[..|segs|] == segs;
  }

  lemma NothingTagged(a: seq<Segment>)
    requires NonEmpty(a)
    ensures Tagged(a) == [] <==> a == []
  {
    if a != [] {
      assert a[|a| - 1].data != [];
    }
  }

  /** Only one list of non-empty segments without equal neighbours carries given tagged characters. */
  lemma {:induction false} MergedIsUnique(a: seq<Segment>, b: seq<Segment>)
    requires NonEmpty(a) && NonEmpty(b) && Alternating(a) && Alternating(b) && Tagged(a) == Tagged(b)
    ensures a == b
  {
    NothingTagged(a);
    NothingTagged(b);
    if a != [] {
      var m, n := |a| - 1, |b| - 1;
      LastSegment(a, b);
      LastSegment(b, a);
      assert a[m].data == b[n].data;
      var t := Tagged(a);
      assert Tagged(a[..m]) == t[..|t| - |a[m].data|] && Tagged(b[..n]) == t[..|t| - |a[m].data|];
      MergedIsUnique(a[..m], b[..n]);
      assert a == a[..m] + [a[m]] && b == b[..n] + [b[n]];
    }
  }

  /** The last segment, seen from the end of the tagged characters. */
  lemma TaggedEnd(a: seq<Segment>, k: nat)
    requires a != [] && k < |a[|a| - 1].data|
    ensures k < |Tagged(a)| && Tagged(a)[|Tagged(a)| - 1 - k] == (a[|a| - 1].data[|a[|a| - 1].data| - 1 - k], a[|a| - 1].mode)
  {
    var x := a[|a| - 1];
    assert Tag(x.data, x.mode)[|x.data| - 1 - k] == (x.data[|x.data| - 1 - k], x.mode);
  }

  /** The character before the last segment is written in another mode. */
  lemma TaggedBefore(a: seq<Segment>)
    requires NonEmpty(a) && Alternating(a) && a != [] && |Tagged(a)| > |a[|a| - 1].data|
    ensures Tagged(a)[|Tagged(a)| - 1 - |a[|a| - 1].data|].1 != a[|a| - 1].mode
  {
    var n := |a| - 1;
    var front := a[..n];
    var t := Tagged(front);
    assert Tagged(a) == t + Tag(a[n].data, a[n].mode);
    hide Tag;
    assert n > 0;
    hide Tagged;
    assert front[n - 1] == a[n - 1] && a[n - 1].mode != a[n].mode && front[n - 1].data != [];
    hide Alternating, NonEmpty;
    TaggedEnd(front, 0);
    assert t[|t| - 1].1 == a[n - 1].mode;
  }

  lemma LastMode(a: seq<Segment>, b: seq<Segment>)
    requires NonEmpty(a) && NonEmpty(b) && Tagged(a) == Tagged(b) && a != [] && b != []
    ensures a[|a| - 1].mode == b[|b| - 1].mode
  {
    assert a[|a| - 1] in a && b[|b| - 1] in b;
    TaggedEnd(a, 0);
    TaggedEnd(b, 0);
  }

  lemma LastLength(a: seq<Segment>, b: seq<Segment>)
    requires NonEmpty(a) && NonEmpty(b) && Alternating(b) && Tagged(a) == Tagged(b) && a != [] && b != []
    ensures |a[|a| - 1].data| <= |b[|b| - 1].data|
  {
    LastMode(a, b);
    if |b[|b| - 1].data| < |a[|a| - 1].data| {
      TaggedEnd(a, |b[|b| - 1].data|);
      TaggedBefore(b);
      assert false;
    }
  }

  /** The last segment of `a` is not longer than that of `b`, and agrees with its end. */
  lemma LastSegment(a: seq<Segment>, b: seq<Segment>)
    requires NonEmpty(a) && NonEmpty(b) && Alternating(a) && Alternating(b) && Tagged(a) == Tagged(b)
    requires a != [] && b != []
    ensures var x, y := a[|a| - 1], b[|b| - 1];
            x.mode == y.mode && |x.data| <= |y.data| && x.data == y.data[|y.data| - |x.data|..]
  {
    LastMode(a, b);
    LastLength(a, b);
    hide Tagged, Alternating, NonEmpty;
    var x, y := a[|a| - 1].data, b[|b| - 1].data;
    var end := y[|y| - |x|..];
    forall i | 0 <= i < |x|
      ensures x[i] == end[i]
    {
      EndsAgree(a, b, |x| - 1 - i);
    }
  }

  lemma EndsAgree(a: seq<Segment>, b: seq<Segment>, k: nat)
    requires Tagged(a) == Tagged(b) && a != [] && b != [] && k < |a[|a| - 1].data| <= |b[|b| - 1].data|
    ensures var x, y := a[|a| - 1].data, b[|b| - 1].data;
            x[|x| - 1 - k] == y[|y| - 1 - k]
  {
    hide *;
    TaggedEnd(a, k);
    TaggedEnd(b, k);
  }

  // ---- the whole way ----

  lemma {:induction false} TaggedText(segs: seq<Segment>)
    ensures |Tagged(segs)| == |SegmentsText(segs)|
    ensures forall i | 0 <= i < |Tagged(segs)| :: Tagged(segs)[i].0 == SegmentsText(segs)[i]
  {
    if segs != [] {
      TaggedText(segs[..|segs| - 1]);
    }
  }

  lemma SameText(a: seq<Segment>, b: seq<Segment>)
    requires Tagged(a) == Tagged(b)
    ensures SegmentsText(a) == SegmentsText(b)
  {
    TaggedText(a);
    TaggedText(b);
  }

  /** Tagged characters that suit their modes. */
  predicate Suits(t: seq<(CodeUnit, Mode)>) {
    forall i | 0 <= i < |t| :: t[i].1 != Kanji && Encodable(t[i].1, t[i].0)
  }

  lemma {:induction false} FitsTagged(segs: seq<Segment>)
    requires forall s | s in segs :: Fits(s)
    ensures Suits(Tagged(segs))
  {
    if segs != [] {
      var n := |segs| - 1;
      FitsTagged(segs[..n]);
      assert Fits(segs[n]);
    }
  }

  lemma {:induction false} TaggedFits(segs: seq<Segment>)
    requires Suits(Tagged(segs)) && NonEmpty(segs)
    ensures forall s | s in segs :: Fits(s)
  {
    if segs != [] {
      var n := |segs| - 1;
      var front, last := Tagged(segs[..n]), segs[n];
      forall i | 0 <= i < |front|
        ensures front[i] == Tagged(segs)[i]
      {}
      TaggedFits(segs[..n]);
      assert last in segs;
      forall i | 0 <= i < |last.data|
        ensures last.mode != Kanji && Encodable(last.mode, last.data[i])
      {
        assert Tagged(segs)[|front| + i] == (last.data[i], last.mode);
      }
      assert Encodable(last.mode, last.data[0]);
    }
  }

  lemma {:induction false} ChosenText(runs: seq<Run>, chosen: seq<Segment>)
    requires |chosen| == |runs| && forall i | 0 <= i < |runs| :: chosen[i].data == runs[i].data
    ensures SegmentsText(chosen) == Joined(runs)
  {
    if runs != [] {
      var n := |runs| - 1;
      ChosenText(runs[..n], chosen[..n]);
      JoinedSnoc(runs[..n], runs[n]);
      assert runs == runs[..n] + [runs[n]];
    }
  }

  lemma {:induction false} JoinedSnoc(runs: seq<Run>, x: Run)
    ensures Joined(runs + [x]) == Joined(runs) + x.data
  {
    if runs == [] {
      assert Joined([] + [x]) == x.data + Joined([x][1..]);
    } else {
      JoinedSnoc(runs[1..], x);
      assert (runs + [x])[1..] == runs[1..] + [x];
    }
  }

  /** The node of the table that a path takes in each layer, read as segments. */
  ghost predicate ReadOff(groups: Groups, path: seq<D.Node>, chosen: seq<Segment>) {
    && |path| == |groups| + 2 && |chosen| == |groups|
    && forall i | 0 <= i < |groups| ::
         IsRead(groups, i, path[i + 1], chosen[i])
  }

  ghost predicate IsRead(groups: Groups, i: nat, u: D.Node, seg: Segment) {
    exists j: nat :: IsChoice(groups, i + 1, j, u) && seg == Segment(groups[i][j].mode, groups[i][j].data)
  }

  lemma GraphHasNoEmptyName(groups: Groups, g: D.Graph)
    requires SmallGroups(groups) && Layered(groups, g)
    ensures forall u :: !D.Edge(g, u, "")
  {
    forall k: nat
      ensures !InLayer(groups, k, "")
    {
      NoLayerHasEmptyName(groups, k);
    }
  }

  lemma NoLayerHasEmptyName(groups: Groups, k: nat)
    ensures !InLayer(groups, k, "")
  {
    forall i: nat, j: nat
      ensures Key(i, j) != ""
    {
      KeyIsNoName(i, j);
    }
  }

  /** The choices along a shortest path. */
  method Choose(groups: Groups, version: int) returns (chosen: seq<Segment>, ghost g: D.Graph, ghost path: seq<D.Node>)
    requires SmallGroups(groups) && ValidVersion(version)
    ensures Layered(groups, g) && D.IsShortest(g, path, "start", "end") && ReadOff(groups, path, chosen)
    ensures Weighted(groups, g, version, |groups|, 0) && EndIsFree(groups, g)
  {
    var graph, table := BuildGraph(groups, version);
    g := graph;
    GraphHasNoEmptyName(groups, graph);
    EndIsReachable(groups, graph);
    var found := D.FindPath(graph, "start", "end");
    path := found.value;
    PathLength(groups, graph, path);
    hide *;
    chosen := ReadTable(groups, table, found.value);
  }

  method ReadTable(groups: Groups, table: map<D.Node, Entry>, path: seq<D.Node>) returns (chosen: seq<Segment>)
    requires |path| == |groups| + 2 && forall k | 0 < k <= |groups| :: InLayer(groups, k, path[k])
    requires forall i: nat, j: nat | i < |groups| && j < |groups[i]| :: Key(i, j) in table && table[Key(i, j)].node == groups[i][j]
    ensures ReadOff(groups, path, chosen)
  {
    chosen := [];
    for i := 1 to |path| - 1
      invariant |chosen| == i - 1
      invariant forall k | 0 <= k < i - 1 :: IsRead(groups, k, path[k + 1], chosen[k])
    {
      assert InLayer(groups, i, path[i]);
      ghost var j: nat :| IsChoice(groups, i, j, path[i]);
      assert Key(i - 1, j) in table && table[Key(i - 1, j)].node == groups[i - 1][j];
      var node := table[path[i]].node;
      assert IsRead(groups, i - 1, path[i], Segment(node.mode, node.data));
      hide IsRead, IsChoice, InLayer;
      chosen := chosen + [Segment(node.mode, node.data)];
    }
  }

  lemma ChoicesFit(runs: seq<Run>, groups: Groups, path: seq<D.Node>, chosen: seq<Segment>)
    requires ValidGroups(runs, groups) && ReadOff(groups, path, chosen)
    requires forall r | r in runs :: r.data != []
    ensures NonEmpty(chosen) && (forall s | s in chosen :: Fits(s)) && SegmentsText(chosen) == Joined(runs)
  {
    forall i | 0 <= i < |chosen|
      ensures chosen[i].data != [] && Fits(chosen[i]) && chosen[i].data == runs[i].data
    {
      ChoicesCarry(runs[i], groups[i]);
      assert runs[i] in runs && ValidGroup(runs[i], groups[i]) && IsRead(groups, i, path[i + 1], chosen[i]);
      var j: nat :| IsChoice(groups, i + 1, j, path[i + 1]) && chosen[i] == Segment(groups[i][j].mode, groups[i][j].data);
    }
    ChosenText(runs, chosen);
  }

  lemma TextWellFormed(s: Text)
    ensures WellFormed(s) <==> forall r | r in Runs(s, 0) && r.mode == Byte :: WellFormed(r.data)
    ensures Joined(Runs(s, 0)) == s
    ensures forall r | r in Runs(s, 0) :: r.data != [] && AllEncodable(r.mode, r.data) && r.mode != Kanji
  {
    RunsWellFormed(s, 0);
    RunsJoin(s, 0);
    RunsEncodable(s, 0);
    assert s[0..] == s;
  }

  lemma GroupsAreSmall(runs: seq<Run>, groups: Groups)
    requires ValidGroups(runs, groups)
    ensures SmallGroups(groups)
  {
    forall i | 0 <= i < |groups|
      ensures 1 <= |groups[i]| <= 3
    {
      ChoicesCarry(runs[i], groups[i]);
    }
  }

  /**
    Fails exactly on an unpaired surrogate.  Otherwise the segments are the
    text, no two neighbours share a mode, every segment can be written in its
    mode, and the modes are those along a shortest path of the graph.
   */
  method FromString(data: Text, version: int)
    returns (r: Result<seq<Segment>>, ghost groups: Groups, ghost g: D.Graph, ghost path: seq<D.Node>, ghost chosen: seq<Segment>)
    requires ValidVersion(version)
    ensures r.Ok? <==> WellFormed(data)
    ensures r.Ok? ==> SegmentsText(r.value) == data && Alternating(r.value) && NonEmpty(r.value)
    ensures r.Ok? ==> forall s | s in r.value :: Fits(s)
    ensures r.Ok? ==> ValidGroups(Runs(data, 0), groups) && Layered(groups, g) && D.IsShortest(g, path, "start", "end")
    ensures r.Ok? ==> Weighted(groups, g, version, |groups|, 0) && EndIsFree(groups, g)
    ensures r.Ok? ==> ReadOff(groups, path, chosen) && Tagged(r.value) == Tagged(chosen)
  {
    var segs := GetSegmentsFromString(data);
    TextWellFormed(data);
    hide Runs, Joined, WellFormed;
    var nodes := BuildNodes(segs);
    groups, g, path, chosen := [], map[], [], [];
    if nodes.Err? {
      r := Err(nodes.error);
      return;
    }
    groups := nodes.value;
    GroupsAreSmall(segs, nodes.value);
    var optimizedSegs;
    optimizedSegs, g, path := Choose(nodes.value, version);
    chosen := optimizedSegs;
    hide Layered, D.IsShortest, SmallGroups, Weighted, EndIsFree;
    ChoicesFit(segs, groups, path, optimizedSegs);
    hide ValidGroups, ReadOff;
    hide SegmentsText;
    r := MergeAndBuild(optimizedSegs);
  }

  /** The end of the way: segments that fit are merged and built without failing. */
  method MergeAndBuild(segs: seq<Segment>) returns (r: Result<seq<Segment>>)
    requires NonEmpty(segs) && forall s | s in segs :: Fits(s)
    ensures r.Ok? && Tagged(r.value) == Tagged(segs) && SegmentsText(r.value) == SegmentsText(segs)
    ensures Alternating(r.value) && NonEmpty(r.value) && forall s | s in r.value :: Fits(s)
  {
    FitsTagged(segs);
    var merged := MergeSegments(segs);
    SameText(merged, segs);
    TaggedFits(merged);
    hide Tagged, Suits, Alternating, SegmentsText;
    var items: seq<Item> := [];
    for i := 0 to |merged|
      invariant |items| == i && forall k | 0 <= k < i :: items[k] == DataItem(merged[k].data, Wanted(merged[k].mode))
    {
      items := items + [DataItem(merged[i].data, Wanted(merged[i].mode))];
    }
    HintsFit(merged, items);
    r := FromArray(items);
    assert r.Ok?;
    forall i | 0 <= i < |merged|
      ensures r.value[i] == merged[i]
    {
      assert Answers(r.value[i], items[i]) && merged[i] in merged && Fits(merged[i]);
    }
    assert r.value == merged;
  }

  lemma HintsFit(segs: seq<Segment>, items: seq<Item>)
    requires |items| == |segs| && forall i | 0 <= i < |segs| :: items[i] == DataItem(segs[i].data, Wanted(segs[i].mode))
    requires NonEmpty(segs) && forall s | s in segs :: Fits(s)
    ensures forall x | x in items :: !Skipped(x) && !Refused(x.data, ItemHint(x))
  {
    forall x | x in items
      ensures !Skipped(x) && !Refused(x.data, ItemHint(x))
    {
      var i :| 0 <= i < |items| && items[i] == x;
      assert segs[i] in segs && Fits(segs[i]);
    }
  }
}
