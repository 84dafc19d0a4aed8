/**
  The segments chosen for a text are economical: exchanging the mode of one
  of them for that of a neighbour would give a cheaper choice.  So the check
  of a requested version against the smallest that fits is enough for texts.
 */
module TextVersions {
  import opened QrMode
  import opened Segmentation
  import opened SegmentGraph
  import opened Segments
  import opened ModeChoice
  import opened DataStream
  import opened VersionCheck

  /** Neighbouring runs are of different classes, and none is empty. */
  ghost predicate ProperRuns(runs: seq<Run>) {
    && (forall k | 0 <= k < |runs| :: runs[k].data != [])
    && (forall k | 0 < k < |runs| :: runs[k - 1].mode != runs[k].mode)
  }

  lemma {:induction false} RunsAreProper(s: Text, from: nat)
    requires from <= |s|
    ensures ProperRuns(Runs(s, from))
    decreases |s| - from
  {
    if from < |s| {
      var e := RunEnd(s, from);
      RunsAreProper(s, e);
      if e < |s| {
        assert Runs(s, e)[0].mode == Class(s[e]);
      }
    }
  }

  function ModeAt(groups: Groups, c: seq<nat>, k: nat): Mode
    requires IsChoiceList(groups, c) && k < |c|
  {
    NodeAt(groups, c, k).mode
  }

  function LengthAt(groups: Groups, c: seq<nat>, k: nat): nat
    requires IsChoiceList(groups, c) && k < |c|
  {
    NodeAt(groups, c, k).length
  }

  /** What the weight of a chosen node is, or must not exceed. */
  lemma {:induction false} WeightBounds(groups: Groups, c: seq<nat>, k: nat, version: int)
    requires ValidVersion(version) && IsChoiceList(groups, c) && k < |c|
    ensures var m, bits := ModeAt(groups, c, k), BitsLength(ModeAt(groups, c, k), LengthAt(groups, c, k));
            if k > 0 && ModeAt(groups, c, k - 1) == m then 0 <= Weight(groups, c, k, version) <= bits
            else Weight(groups, c, k, version) == GetReservedBitsCount(m, version) + bits
  {
    hide BitsLength, CharCountIndicator, EdgeWeight, Counted;
    var b := if k == 0 then 0 else c[k - 1];
    assert FairWeight(k > 0 && groups[k - 1][b].mode == groups[k][c[k]].mode, groups[k][c[k]], version,
                      WeightOf(groups, k, c[k], b, version));
  }

  /** The choices of a run offer exactly the modes that its characters allow. */
  lemma {:induction false} OfferedModes(runs: seq<Run>, groups: Groups, c: seq<nat>, k: nat)
    requires ValidGroups(runs, groups) && IsChoiceList(groups, c) && k < |c|
    ensures NodeAt(groups, c, k).data == runs[k].data
    ensures ModeAt(groups, c, k) == Numeric ==> runs[k].mode == Numeric
    ensures ModeAt(groups, c, k) == Alphanumeric ==> runs[k].mode == Numeric || runs[k].mode == Alphanumeric
    ensures ModeAt(groups, c, k) != Kanji
    ensures runs[k].mode != Byte ==> LengthAt(groups, c, k) == |runs[k].data|
  {
    assert ValidGroup(runs[k], groups[k]);
  }

  // ---- one digit run in another mode ----

  lemma {:induction false} TwoCosts(groups: Groups, c: seq<nat>, k: nat, version: int)
    requires ValidVersion(version) && IsChoiceList(groups, c) && k < |c|
    ensures CostBetween(groups, c, k, Reach(|c|, k + 1), version)
            == Weight(groups, c, k, version) + if k + 1 < |c| then Weight(groups, c, k + 1, version) else 0
  {
    hide Weight;
    assert CostBetween(groups, c, k, k, version) == 0;
    assert CostBetween(groups, c, k, k + 1, version) == Weight(groups, c, k, version);
  }

  /** Exchanging one choice gains nothing. */
  lemma {:induction false} OneExchange(groups: Groups, c: seq<nat>, k: nat, j: nat, version: int)
    requires Cheapest(groups, c, version) && k < |c| && j < |groups[k]|
    ensures var d := c[k := j];
            && IsChoiceList(groups, d)
            && Weight(groups, c, k, version) + (if k + 1 < |c| then Weight(groups, c, k + 1, version) else 0)
               <= Weight(groups, d, k, version) + if k + 1 < |c| then Weight(groups, d, k + 1, version) else 0
  {
    var d := c[k := j];
    hide Weight, ChoiceCost;
    NoGain(groups, c, d, k, k + 1, version);
    TwoCosts(groups, c, k, version);
    TwoCosts(groups, d, k, version);
  }

  predicate ModeBefore(groups: Groups, c: seq<nat>, k: nat, m: Mode)
    requires IsChoiceList(groups, c) && k < |c|
  {
    k > 0 && ModeAt(groups, c, k - 1) == m
  }

  predicate ModeBehind(groups: Groups, c: seq<nat>, k: nat, m: Mode)
    requires IsChoiceList(groups, c) && k < |c|
  {
    k + 1 < |c| && ModeAt(groups, c, k + 1) == m
  }

  /** A run in numeric mode pays for its header, compared with either neighbour's mode. */
  lemma {:induction false} DigitsPay(runs: seq<Run>, groups: Groups, c: seq<nat>, k: nat, version: int)
    requires ValidGroups(runs, groups) && ProperRuns(runs) && Cheapest(groups, c, version)
    requires k < |c| && ModeAt(groups, c, k) == Numeric
    ensures var y := |runs[k].data|;
            var cost := GetReservedBitsCount(Numeric, version) + BitsLength(Numeric, y);
            && (ModeBefore(groups, c, k, Alphanumeric) || ModeBehind(groups, c, k, Alphanumeric) ==> cost <= BitsLength(Alphanumeric, y))
            && (ModeBefore(groups, c, k, Alphanumeric) && ModeBehind(groups, c, k, Alphanumeric) ==>
                  cost + GetReservedBitsCount(Alphanumeric, version) <= BitsLength(Alphanumeric, y))
            && (ModeBefore(groups, c, k, Byte) && ModeBehind(groups, c, k, Byte) ==>
                  cost + GetReservedBitsCount(Byte, version) <= BitsLength(Byte, y))
  {
    OfferedModes(runs, groups, c, k);
    assert ValidGroup(runs[k], groups[k]);
    Exchanged(groups, c, k, 1, version);
    Exchanged(groups, c, k, 2, version);
    NumericAlone(runs, groups, c, k);
    hide BitsLength, GetReservedBitsCount, Cheapest;
  }

  /** Beside a run in numeric mode no other is in numeric mode. */
  lemma {:induction false} NumericAlone(runs: seq<Run>, groups: Groups, c: seq<nat>, k: nat)
    requires ValidGroups(runs, groups) && ProperRuns(runs) && IsChoiceList(groups, c)
    requires k < |c| && ModeAt(groups, c, k) == Numeric
    ensures !ModeBefore(groups, c, k, Numeric) && !ModeBehind(groups, c, k, Numeric)
  {
    OfferedModes(runs, groups, c, k);
    if k > 0 {
      OfferedModes(runs, groups, c, k - 1);
      assert runs[k - 1].mode != runs[k].mode;
    }
    if k + 1 < |c| {
      OfferedModes(runs, groups, c, k + 1);
      assert runs[k].mode != runs[k + 1].mode;
    }
  }

  /** The weights before and after an exchange, compared. */
  lemma {:induction false} Exchanged(groups: Groups, c: seq<nat>, k: nat, j: nat, version: int)
    requires Cheapest(groups, c, version) && k < |c| && j < |groups[k]|
    ensures var m, n, z := ModeAt(groups, c, k), LengthAt(groups, c, k), groups[k][j].mode;
            var paid := GetReservedBitsCount(m, version) + BitsLength(m, n);
            var instead := BitsLength(z, groups[k][j].length);
            !ModeBefore(groups, c, k, m) && !ModeBehind(groups, c, k, m) ==>
              && (ModeBehind(groups, c, k, z) ==> paid <= instead)
              && (ModeBefore(groups, c, k, z) ==> paid <= instead)
              && (ModeBefore(groups, c, k, z) && ModeBehind(groups, c, k, z) ==> paid + GetReservedBitsCount(z, version) <= instead)
  {
    var d := c[k := j];
    OneExchange(groups, c, k, j, version);
    WeightBounds(groups, c, k, version);
    WeightBounds(groups, d, k, version);
    if k + 1 < |c| {
      WeightBounds(groups, c, k + 1, version);
      WeightBounds(groups, d, k + 1, version);
    }
    hide Weight, BitsLength, GetReservedBitsCount, Cheapest;
  }

  // ---- a stretch of alphanumeric runs in byte mode ----

  function LengthBetween(groups: Groups, c: seq<nat>, a: nat, b: nat): nat
    requires IsChoiceList(groups, c) && a <= b <= |c|
  {
    if a == b then 0 else LengthBetween(groups, c, a, b - 1) + LengthAt(groups, c, b - 1)
  }

  lemma {:induction false} ByteCost(groups: Groups, d: seq<nat>, a: nat, b: nat, version: int)
    requires ValidVersion(version) && IsChoiceList(groups, d) && 0 < a <= b <= |d|
    requires forall k | a - 1 <= k < b :: ModeAt(groups, d, k) == Byte
    ensures CostBetween(groups, d, a, b, version) <= 8 * LengthBetween(groups, d, a, b)
  {
    hide Weight, ModeAt, LengthAt;
    if a < b {
      ByteCost(groups, d, a, b - 1, version);
      WeightBounds(groups, d, b - 1, version);
      assert ModeAt(groups, d, b - 1) == Byte && ModeAt(groups, d, b - 2) == Byte;
    }
  }

  lemma {:induction false} FirstCost(groups: Groups, c: seq<nat>, a: nat, b: nat, version: int)
    requires ValidVersion(version) && IsChoiceList(groups, c) && a < b <= |c|
    ensures CostBetween(groups, c, a, b, version) >= Weight(groups, c, a, version)
  {
    hide Weight;
    if a + 1 < b {
      FirstCost(groups, c, a, b - 1, version);
      WeightBounds(groups, c, b - 1, version);
    } else {
      assert CostBetween(groups, c, a, a, version) == 0;
    }
  }

  /** The same choices, with byte mode from `a` up to `b`. */
  function InBytes(groups: Groups, c: seq<nat>, a: nat, b: nat): (d: seq<nat>)
    requires IsChoiceList(groups, c) && a <= b <= |c| && forall k | a <= k < b :: |groups[k]| > 0
    ensures IsChoiceList(groups, d) && |d| == |c|
    ensures forall k | 0 <= k < |c| :: d[k] == if a <= k < b then |groups[k]| - 1 else c[k]
  {
    seq(|c|, k requires 0 <= k < |c| => if a <= k < b then |groups[k]| - 1 else c[k])
  }

  lemma {:induction false} SameLengths(runs: seq<Run>, groups: Groups, c: seq<nat>, d: seq<nat>, a: nat, b: nat)
    requires ValidGroups(runs, groups) && IsChoiceList(groups, c) && IsChoiceList(groups, d) && a <= b <= |c|
    requires forall k | a <= k < b :: runs[k].mode != Byte
    ensures LengthBetween(groups, c, a, b) == LengthBetween(groups, d, a, b)
  {
    hide LengthAt;
    if a < b {
      SameLengths(runs, groups, c, d, a, b - 1);
      OfferedModes(runs, groups, c, b - 1);
      OfferedModes(runs, groups, d, b - 1);
    }
  }

  /** A stretch of alphanumeric mode between byte mode pays for two headers. */
  lemma {:induction false} StretchPays(runs: seq<Run>, groups: Groups, c: seq<nat>, a: nat, b: nat, version: int)
    requires ValidGroups(runs, groups) && ProperRuns(runs) && Cheapest(groups, c, version) && 0 < a < b < |c|
    requires ModeAt(groups, c, a - 1) == Byte && ModeAt(groups, c, b) == Byte
    requires forall k | a <= k < b :: ModeAt(groups, c, k) == Alphanumeric
    ensures GetReservedBitsCount(Alphanumeric, version) + 6 + GetReservedBitsCount(Byte, version) <= 8 * LengthBetween(groups, c, a, b)
  {
    forall k | a <= k < b
      ensures |groups[k]| > 0 && runs[k].mode != Byte
    {
      OfferedModes(runs, groups, c, k);
      assert ModeAt(groups, c, k) == Alphanumeric && ValidGroup(runs[k], groups[k]);
    }
    var d := InBytes(groups, c, a, b);
    StretchBytes(runs, groups, c, d, a, b);
    SameLengths(runs, groups, c, d, a, b);
    StretchCost(runs, groups, c, a, b, version);
    hide ModeAt, ValidGroups, ProperRuns, InBytes, GetReservedBitsCount;
    StretchExchange(groups, c, d, a, b, version);
    hide CostBetween, LengthBetween;
  }

  lemma {:induction false} StretchExchange(groups: Groups, c: seq<nat>, d: seq<nat>, a: nat, b: nat, version: int)
    requires Cheapest(groups, c, version) && 0 < a < b < |c| && IsChoiceList(groups, d)
    requires |d| == |c| && forall k | 0 <= k < |c| && (k < a || b <= k) :: d[k] == c[k]
    requires forall k | a - 1 <= k < b + 1 :: ModeAt(groups, d, k) == Byte
    ensures CostBetween(groups, c, a, b + 1, version) <= 8 * LengthBetween(groups, d, a, b) + 8 * LengthAt(groups, c, b)
  {
    hide ModeAt, ChoiceCost, Weight;
    NoGain(groups, c, d, a, b, version);
    ByteCost(groups, d, a, b + 1, version);
    hide Cheapest, CostBetween;
    LengthNext(groups, d, a, b);
    assert LengthAt(groups, d, b) == LengthAt(groups, c, b);
    hide LengthBetween, LengthAt;
  }

  lemma {:induction false} LengthNext(groups: Groups, c: seq<nat>, a: nat, b: nat)
    requires IsChoiceList(groups, c) && a <= b < |c|
    ensures LengthBetween(groups, c, a, b + 1) == LengthBetween(groups, c, a, b) + LengthAt(groups, c, b)
  {}

  lemma {:induction false} StretchBytes(runs: seq<Run>, groups: Groups, c: seq<nat>, d: seq<nat>, a: nat, b: nat)
    requires ValidGroups(runs, groups) && IsChoiceList(groups, c) && 0 < a < b < |c|
    requires ModeAt(groups, c, a - 1) == Byte && ModeAt(groups, c, b) == Byte
    requires forall k | a <= k < b :: |groups[k]| > 0
    requires d == InBytes(groups, c, a, b)
    ensures forall k | a - 1 <= k < b + 1 :: ModeAt(groups, d, k) == Byte
  {
    forall k | a - 1 <= k < b + 1
      ensures ModeAt(groups, d, k) == Byte
    {
      if a <= k < b {
        assert ValidGroup(runs[k], groups[k]);
      }
    }
  }

  lemma {:induction false} StretchCost(runs: seq<Run>, groups: Groups, c: seq<nat>, a: nat, b: nat, version: int)
    requires ValidGroups(runs, groups) && ProperRuns(runs) && ValidVersion(version) && IsChoiceList(groups, c) && 0 < a < b < |c|
    requires ModeAt(groups, c, a - 1) == Byte && ModeAt(groups, c, b) == Byte
    requires forall k | a <= k < b :: ModeAt(groups, c, k) == Alphanumeric
    ensures CostBetween(groups, c, a, b + 1, version)
            >= GetReservedBitsCount(Alphanumeric, version) + 6 + GetReservedBitsCount(Byte, version) + 8 * LengthAt(groups, c, b)
  {
    FirstCost(groups, c, a, b, version);
    WeightBounds(groups, c, a, version);
    WeightBounds(groups, c, b, version);
    OfferedModes(runs, groups, c, a);
    assert ModeAt(groups, c, a) == Alphanumeric && ModeAt(groups, c, b - 1) == Alphanumeric && runs[a].data != [];
    BitsLengthMonotone(Alphanumeric, 1, LengthAt(groups, c, a) - 1);
    hide Weight, GetReservedBitsCount;
  }

  // ---- the merged segments ----

  function DataBetween(chosen: seq<Segment>, a: nat, b: nat): nat
    requires a <= b <= |chosen|
  {
    if a == b then 0 else DataBetween(chosen, a, b - 1) + |chosen[b - 1].data|
  }

  /** Segment `i` of the merged list consists of the chosen ones from `st[i]` up to `st[i + 1]`. */
  ghost predicate Ranges(chosen: seq<Segment>, n: nat, r: seq<Segment>, st: seq<nat>) {
    && n <= |chosen| && |st| == |r| + 1 && st[0] == 0 && st[|r|] == n
    && forall i: nat | i < |r| :: RangeAt(chosen, n, r, st, i)
  }

  ghost predicate RangeAt(chosen: seq<Segment>, n: nat, r: seq<Segment>, st: seq<nat>, i: nat)
    requires |st| == |r| + 1 && i < |r|
  {
    IsRange(chosen, n, r[i], st[i], st[i + 1])
  }

  ghost predicate IsRange(chosen: seq<Segment>, n: nat, x: Segment, a: nat, b: nat) {
    && a < b <= n <= |chosen| && |x.data| == DataBetween(chosen, a, b)
    && forall k | a <= k < b :: chosen[k].mode == x.mode
  }

  lemma {:induction false} TaggedSnoc(segs: seq<Segment>, n: nat)
    requires n < |segs|
    ensures Tagged(segs[..n + 1]) == Tagged(segs[..n]) + Tag(segs[n].data, segs[n].mode)
    ensures |Tag(segs[n].data, segs[n].mode)| == |segs[n].data|
  {
    assert segs[..n + 1][..n] == segs[..n];
  }

  /** The last segment without its last `k` characters. */
  function Shortened(r: seq<Segment>, k: nat): seq<Segment>
    requires r != [] && k < |r[|r| - 1].data|
  {
    var y := r[|r| - 1];
    r[..|r| - 1] + [Segment(y.mode, y.data[..|y.data| - k])]
  }

  lemma {:induction false} ShortenedTagged(r: seq<Segment>, k: nat)
    requires r != [] && k < |r[|r| - 1].data| && NonEmpty(r) && Alternating(r)
    ensures NonEmpty(Shortened(r, k)) && Alternating(Shortened(r, k))
    ensures |Tagged(r)| == |Tagged(Shortened(r, k))| + k && Tagged(Shortened(r, k)) == Tagged(r)[..|Tagged(r)| - k]
  {
    var q := |r| - 1;
    var s := Shortened(r, k);
    var y := r[q];
    ExtendLast(s, y.data[|y.data| - k..]);
    assert s[..q] == r[..q];
    hide Tag;
    assert y.data == y.data[..|y.data| - k] + y.data[|y.data| - k..];
    assert r == s[q := Segment(y.mode, s[q].data + y.data[|y.data| - k..])];
    hide Tagged;
  }

  lemma {:induction false} SameFronts<T>(a: seq<T>, b: seq<T>, c: seq<T>, d: seq<T>)
    requires a + b == c + d && |b| == |d|
    ensures a == c
  {
    assert a == (a + b)[..|a|] && c == (c + d)[..|c|];
  }

  ghost predicate MergedFrom(chosen: seq<Segment>, n: nat, r: seq<Segment>) {
    n <= |chosen| && NonEmpty(chosen) && NonEmpty(r) && Alternating(r) && Tagged(chosen[..n]) == Tagged(r)
  }

  /** The last chosen segment ends the last merged one. */
  lemma {:induction false} LastOfMerged(chosen: seq<Segment>, n: nat, r: seq<Segment>)
    requires MergedFrom(chosen, n, r)
    ensures n == 0 <==> r == []
    ensures n > 0 ==> chosen[n - 1].mode == r[|r| - 1].mode && |chosen[n - 1].data| <= |r[|r| - 1].data|
  {
    NothingTagged(r);
    NothingTagged(chosen[..n]);
    if n > 0 {
      assert chosen[..n][n - 1] == chosen[n - 1];
      LastMode(chosen[..n], r);
      LastLength(chosen[..n], r);
    }
  }

  lemma {:induction false} WholeSegment(chosen: seq<Segment>, n: nat, r: seq<Segment>)
    requires MergedFrom(chosen, n, r) && n > 0 && r != [] && |chosen[n - 1].data| == |r[|r| - 1].data|
    ensures MergedFrom(chosen, n - 1, r[..|r| - 1])
  {
    var q := |r| - 1;
    TaggedSnoc(chosen, n - 1);
    TaggedSnoc(r, q);
    assert r[..q + 1] == r;
    hide Tagged, Tag;
    SameFronts(Tagged(r[..q]), Tag(r[q].data, r[q].mode), Tagged(chosen[..n - 1]), Tag(chosen[n - 1].data, chosen[n - 1].mode));
  }

  lemma {:induction false} PartOfSegment(chosen: seq<Segment>, n: nat, r: seq<Segment>)
    requires MergedFrom(chosen, n, r) && n > 0 && r != [] && |chosen[n - 1].data| < |r[|r| - 1].data|
    ensures MergedFrom(chosen, n - 1, Shortened(r, |chosen[n - 1].data|))
  {
    TaggedSnoc(chosen, n - 1);
    ShortenedTagged(r, |chosen[n - 1].data|);
    hide Tagged, Tag, Shortened;
  }

  /** Where the merged segments begin. */
  lemma {:induction false} MergedRanges(chosen: seq<Segment>, n: nat, r: seq<Segment>) returns (st: seq<nat>)
    requires MergedFrom(chosen, n, r)
    ensures Ranges(chosen, n, r, st)
  {
    LastOfMerged(chosen, n, r);
    hide MergedFrom;
    if n == 0 {
      st := [0];
    } else {
      var k, q := |chosen[n - 1].data|, |r| - 1;
      hide Ranges;
      if k == |r[q].data| {
        WholeSegment(chosen, n, r);
        var rest := MergedRanges(chosen, n - 1, r[..q]);
        st := rest + [n];
        RangeAdded(chosen, n, r, rest);
      } else {
        PartOfSegment(chosen, n, r);
        var rest := MergedRanges(chosen, n - 1, Shortened(r, k));
        RangeCount(chosen, n - 1, Shortened(r, k), rest);
        st := rest[..q + 1] + [n];
        RangeExtended(chosen, n, r, rest);
      }
    }
  }

  lemma {:induction false} RangeCount(chosen: seq<Segment>, n: nat, r: seq<Segment>, st: seq<nat>)
    requires Ranges(chosen, n, r, st)
    ensures |st| == |r| + 1
  {}

  lemma {:induction false} RangeAdded(chosen: seq<Segment>, n: nat, r: seq<Segment>, rest: seq<nat>)
    requires 0 < n <= |chosen| && r != [] && Ranges(chosen, n - 1, r[..|r| - 1], rest)
    requires chosen[n - 1].mode == r[|r| - 1].mode && |chosen[n - 1].data| == |r[|r| - 1].data|
    ensures Ranges(chosen, n, r, rest + [n])
  {
    var q := |r| - 1;
    assert DataBetween(chosen, n - 1, n - 1) == 0;
    forall i: nat | i < |r|
      ensures RangeAt(chosen, n, r, rest + [n], i)
    {
      if i < q {
        assert RangeAt(chosen, n - 1, r[..q], rest, i);
      }
    }
  }

  lemma {:induction false} RangeExtended(chosen: seq<Segment>, n: nat, r: seq<Segment>, rest: seq<nat>)
    requires 0 < n <= |chosen| && r != [] && |chosen[n - 1].data| < |r[|r| - 1].data|
    requires Ranges(chosen, n - 1, Shortened(r, |chosen[n - 1].data|), rest)
    requires chosen[n - 1].mode == r[|r| - 1].mode
    ensures Ranges(chosen, n, r, rest[..|r|] + [n])
  {
    var q := |r| - 1;
    var s := Shortened(r, |chosen[n - 1].data|);
    forall i: nat | i < |r|
      ensures RangeAt(chosen, n, r, rest[..|r|] + [n], i)
    {
      assert RangeAt(chosen, n - 1, s, rest, i);
    }
  }

  // ---- economy ----

  /** The payloads carry the merged segments: the same modes, the same number of characters outside byte mode. */
  ghost predicate Carries(r: seq<Segment>, ps: seq<Payload>) {
    && |ps| == |r|
    && forall i | 0 <= i < |r| ::
         ps[i].mode == r[i].mode && |ps[i].units| >= 1 && (r[i].mode != Byte ==> |ps[i].units| == |r[i].data|)
  }

  /** Everything known about the segments chosen for a text. */
  ghost predicate ChosenFor(runs: seq<Run>, groups: Groups, c: seq<nat>, chosen: seq<Segment>, version: int) {
    ValidGroups(runs, groups) && ProperRuns(runs) && Cheapest(groups, c, version) && Chosen(groups, c, chosen)
  }

  lemma {:induction false} ChosenMode(runs: seq<Run>, groups: Groups, c: seq<nat>, chosen: seq<Segment>, version: int, k: nat)
    requires ChosenFor(runs, groups, c, chosen, version) && k < |chosen|
    ensures chosen[k].mode == ModeAt(groups, c, k) && chosen[k].data == runs[k].data && chosen[k].data != []
    ensures chosen[k].mode == Alphanumeric || chosen[k].mode == Numeric ==> LengthAt(groups, c, k) == |chosen[k].data|
  {
    OfferedModes(runs, groups, c, k);
  }

  predicate NumericApart(chosen: seq<Segment>) {
    forall k | 0 < k < |chosen| :: chosen[k - 1].mode != Numeric || chosen[k].mode != Numeric
  }

  lemma {:induction false} ChosenApart(runs: seq<Run>, groups: Groups, c: seq<nat>, chosen: seq<Segment>, version: int)
    requires ChosenFor(runs, groups, c, chosen, version)
    ensures NumericApart(chosen)
  {
    forall k | 0 < k < |chosen|
      ensures chosen[k - 1].mode != Numeric || chosen[k].mode != Numeric
    {
      ChosenMode(runs, groups, c, chosen, version, k - 1);
      ChosenMode(runs, groups, c, chosen, version, k);
      if chosen[k].mode == Numeric {
        NumericAlone(runs, groups, c, k);
      }
    }
  }

  /** A merged numeric segment is a single run, and its neighbours are in the modes of the runs beside it. */
  lemma {:induction false} NumericRange(chosen: seq<Segment>, r: seq<Segment>, st: seq<nat>, i: nat)
    requires NumericApart(chosen) && Ranges(chosen, |chosen|, r, st) && i < |r| && r[i].mode == Numeric
    ensures st[i] < |chosen| && st[i + 1] == st[i] + 1 && |r[i].data| == |chosen[st[i]].data| && chosen[st[i]].mode == Numeric
    ensures i > 0 ==> st[i] > 0 && chosen[st[i] - 1].mode == r[i - 1].mode
    ensures i + 1 < |r| ==> st[i] + 1 < |chosen| && chosen[st[i] + 1].mode == r[i + 1].mode
  {
    var k := st[i];
    assert RangeAt(chosen, |chosen|, r, st, i);
    if i > 0 {
      assert RangeAt(chosen, |chosen|, r, st, i - 1);
    }
    if i + 1 < |r| {
      assert RangeAt(chosen, |chosen|, r, st, i + 1);
    }
    hide Ranges;
    assert k + 1 < |chosen| ==> chosen[k + 1 - 1].mode != Numeric || chosen[k + 1].mode != Numeric;
    assert DataBetween(chosen, k, k) == 0;
  }

  /** The same neighbours, among the merged segments and among the choices. */
  lemma {:induction false} NumericBeside(runs: seq<Run>, groups: Groups, c: seq<nat>, chosen: seq<Segment>, version: int,
                                         r: seq<Segment>, st: seq<nat>, ps: seq<Payload>, i: nat)
    requires ChosenFor(runs, groups, c, chosen, version) && Ranges(chosen, |chosen|, r, st) && Carries(r, ps)
    requires i < |r| && r[i].mode == Numeric
    ensures IsChoiceList(groups, c) && i < |st| && st[i] < |c| && ModeAt(groups, c, st[i]) == Numeric
    ensures |runs| == |c| && i < |ps| && |ps[i].units| == |runs[st[i]].data|
    ensures forall m :: After(ps, i, m) ==> ModeBefore(groups, c, st[i], m)
    ensures forall m :: Followed(ps, i, m) ==> ModeBehind(groups, c, st[i], m)
  {
    var k := st[i];
    ChosenApart(runs, groups, c, chosen, version);
    NumericRange(chosen, r, st, i);
    ChosenMode(runs, groups, c, chosen, version, k);
    if i > 0 {
      ChosenMode(runs, groups, c, chosen, version, k - 1);
    }
    if i + 1 < |r| {
      ChosenMode(runs, groups, c, chosen, version, k + 1);
    }
    hide Cheapest, ModeAt, Ranges, ProperRuns;
  }

  lemma {:induction false} MergedNumericPays(runs: seq<Run>, groups: Groups, c: seq<nat>, chosen: seq<Segment>, version: int,
                                             r: seq<Segment>, st: seq<nat>, ps: seq<Payload>, i: nat)
    requires ChosenFor(runs, groups, c, chosen, version) && Ranges(chosen, |chosen|, r, st) && Carries(r, ps)
    requires i < |r| && r[i].mode == Numeric
    ensures NumericPays(ps, i, version)
  {
    NumericBeside(runs, groups, c, chosen, version, r, st, ps, i);
    DigitsPay(runs, groups, c, st[i], version);
    hide BitsLength, GetReservedBitsCount, Cheapest, ModeAt, Ranges, ValidGroups, ProperRuns, Carries, ModeBefore, ModeBehind,
         After, Followed;
  }

  lemma {:induction false} StretchLength(runs: seq<Run>, groups: Groups, c: seq<nat>, chosen: seq<Segment>, version: int, a: nat, b: nat)
    requires ChosenFor(runs, groups, c, chosen, version) && a <= b <= |chosen|
    requires forall k | a <= k < b :: chosen[k].mode == Alphanumeric
    ensures LengthBetween(groups, c, a, b) == DataBetween(chosen, a, b)
    ensures forall k | a <= k < b :: ModeAt(groups, c, k) == Alphanumeric
  {
    hide ChosenFor, ModeAt, LengthAt;
    assert IsChoiceList(groups, c) && |c| == |chosen| by { ChosenLists(runs, groups, c, chosen, version); }
    if a < b {
      StretchLength(runs, groups, c, chosen, version, a, b - 1);
      ChosenMode(runs, groups, c, chosen, version, b - 1);
    }
  }

  lemma {:induction false} ChosenLists(runs: seq<Run>, groups: Groups, c: seq<nat>, chosen: seq<Segment>, version: int)
    requires ChosenFor(runs, groups, c, chosen, version)
    ensures IsChoiceList(groups, c) && |c| == |chosen|
  {}

  lemma {:induction false} MergedAlphanumericPays(runs: seq<Run>, groups: Groups, c: seq<nat>, chosen: seq<Segment>, version: int,
                               r: seq<Segment>, st: seq<nat>, ps: seq<Payload>, i: nat)
    requires ChosenFor(runs, groups, c, chosen, version) && Ranges(chosen, |chosen|, r, st) && Carries(r, ps)
    requires i < |r| && r[i].mode == Alphanumeric
    ensures AlphanumericPays(ps, i, version)
  {
    if After(ps, i, Byte) && Followed(ps, i, Byte) {
      var a, b := st[i], st[i + 1];
      assert RangeAt(chosen, |chosen|, r, st, i);
      assert RangeAt(chosen, |chosen|, r, st, i - 1);
      assert RangeAt(chosen, |chosen|, r, st, i + 1);
      ChosenMode(runs, groups, c, chosen, version, a - 1);
      ChosenMode(runs, groups, c, chosen, version, b);
      StretchLength(runs, groups, c, chosen, version, a, b);
      StretchPays(runs, groups, c, a, b, version);
      hide GetReservedBitsCount, Cheapest, ModeAt, Ranges, IsRange;
    }
  }

  lemma {:induction false} CarriedAlternate(r: seq<Segment>, ps: seq<Payload>)
    requires Alternating(r) && Carries(r, ps) && forall x | x in r :: Segments.Fits(x)
    ensures Alternates(ps)
  {
    forall i | 0 <= i < |ps|
      ensures ps[i].mode != Kanji
    {
      assert r[i] in r && Segments.Fits(r[i]);
    }
  }

  lemma {:induction false} SegmentPays(runs: seq<Run>, groups: Groups, c: seq<nat>, chosen: seq<Segment>, version: int,
                    r: seq<Segment>, st: seq<nat>, ps: seq<Payload>, i: nat)
    requires ChosenFor(runs, groups, c, chosen, version) && Ranges(chosen, |chosen|, r, st) && Carries(r, ps) && i < |ps|
    ensures ValidVersion(version)
    ensures ps[i].mode == Numeric ==> NumericPays(ps, i, version)
    ensures ps[i].mode == Alphanumeric ==> AlphanumericPays(ps, i, version)
  {
    hide NumericPays, AlphanumericPays;
    if r[i].mode == Numeric {
      MergedNumericPays(runs, groups, c, chosen, version, r, st, ps, i);
    } else if r[i].mode == Alphanumeric {
      MergedAlphanumericPays(runs, groups, c, chosen, version, r, st, ps, i);
    }
  }

  lemma {:induction false} ChosenMerged(runs: seq<Run>, groups: Groups, c: seq<nat>, chosen: seq<Segment>, version: int, r: seq<Segment>)
    requires ChosenFor(runs, groups, c, chosen, version)
    requires NonEmpty(r) && Alternating(r) && Tagged(r) == Tagged(chosen)
    ensures MergedFrom(chosen, |chosen|, r) && ValidVersion(version)
  {
    forall k | 0 <= k < |chosen|
      ensures chosen[k].data != []
    {
      ChosenMode(runs, groups, c, chosen, version, k);
    }
    assert chosen[..|chosen|] == chosen;
  }

  /** Cheapest choices, merged, are economical. */
  lemma {:induction false} ChosenIsEconomical(runs: seq<Run>, groups: Groups, c: seq<nat>, chosen: seq<Segment>, version: int,
                                              r: seq<Segment>, ps: seq<Payload>)
    requires ChosenFor(runs, groups, c, chosen, version)
    requires NonEmpty(r) && Alternating(r) && Tagged(r) == Tagged(chosen) && Carries(r, ps) && forall x | x in r :: Segments.Fits(x)
    ensures Alternates(ps) && Economical(ps, version)
  {
    CarriedAlternate(r, ps);
    ChosenMerged(runs, groups, c, chosen, version, r);
    hide *;
    var st := MergedRanges(chosen, |chosen|, r);
    EachPays(runs, groups, c, chosen, version, r, st, ps);
  }

  lemma {:induction false} EachPays(runs: seq<Run>, groups: Groups, c: seq<nat>, chosen: seq<Segment>, version: int,
                 r: seq<Segment>, st: seq<nat>, ps: seq<Payload>)
    requires ValidVersion(version)
    requires ChosenFor(runs, groups, c, chosen, version) && Ranges(chosen, |chosen|, r, st) && Carries(r, ps)
    ensures Economical(ps, version)
  {
    hide ChosenFor, Ranges, Carries, NumericPays, AlphanumericPays;
    forall i: nat | i < |ps|
      ensures ps[i].mode == Numeric ==> NumericPays(ps, i, version)
      ensures ps[i].mode == Alphanumeric ==> AlphanumericPays(ps, i, version)
    {
      SegmentPays(runs, groups, c, chosen, version, r, st, ps, i);
    }
  }
}
