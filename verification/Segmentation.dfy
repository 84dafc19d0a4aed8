/**
  Splitting a text into runs of digits, of other alphanumeric characters and
  of everything else.
 */
module Segmentation {
  import opened QrMode
  import opened Results
  import opened Sorting

  datatype Run = Run(data: Text, index: nat, mode: Mode)

  /** The character class of one unit. */
  function Class(c: CodeUnit): Mode {
    if IsDigit(c) then Numeric else if IsAlphanumeric(c) then Alphanumeric else Byte
  }

  /** The end of the run of equal class that starts at `i`. */
  function RunEnd(s: Text, i: nat): (e: nat)
    requires i < |s|
    ensures i < e <= |s|
    ensures forall k | i <= k < e :: Class(s[k]) == Class(s[i])
    ensures e < |s| ==> Class(s[e]) != Class(s[i])
    decreases |s| - i
  {
    if i + 1 < |s| && Class(s[i + 1]) == Class(s[i]) then RunEnd(s, i + 1) else i + 1
  }

  /** The maximal runs from position `from` on. */
  function Runs(s: Text, from: nat): seq<Run>
    requires from <= |s|
    decreases |s| - from
  {
    if from == |s| then []
    else
      var e := RunEnd(s, from);
      [Run(s[from..e], from, Class(s[from]))] + Runs(s, e)
  }

  function Only(runs: seq<Run>, m: Mode): seq<Run> {
    if runs == [] then []
    else (if runs[0].mode == m then [runs[0]] else []) + Only(runs[1..], m)
  }

  /** Skipping a unit of another class changes no match. */
  lemma {:induction false} SkipUnit(s: Text, m: Mode, from: nat)
    requires from < |s| && Class(s[from]) != m
    ensures Only(Runs(s, from), m) == Only(Runs(s, from + 1), m)
    decreases |s| - from
  {
    var e := RunEnd(s, from);
    assert Runs(s, from)[1..] == Runs(s, e);
    if from + 1 < e {
      assert RunEnd(s, from + 1) == e;
      assert Runs(s, from + 1)[1..] == Runs(s, e);
    }
  }

  /** A match of the class takes the whole run. */
  lemma TakeRun(s: Text, m: Mode, from: nat)
    requires from < |s| && Class(s[from]) == m
    ensures var e := RunEnd(s, from);
            Only(Runs(s, from), m) == [Run(s[from..e], from, m)] + Only(Runs(s, e), m)
  {
    assert Runs(s, from)[1..] == Runs(s, RunEnd(s, from));
  }

  lemma RunsEnd(s: Text, m: Mode)
    ensures Only(Runs(s, |s|), m) == []
  {}

  /** Repeated matching of one character class, each match as long as possible. */
  method GetSegments(m: Mode, s: Text) returns (segments: seq<Run>)
    requires m != Kanji
    ensures segments == Only(Runs(s, 0), m)
  {
    hide Runs, Only, Class, RunEnd;
    segments := [];
    RunsEnd(s, m);
    var lastIndex := 0;
    while lastIndex < |s|
      invariant lastIndex <= |s|
      invariant segments + Only(Runs(s, lastIndex), m) == Only(Runs(s, 0), m)
      decreases |s| - lastIndex
    {
      if Class(s[lastIndex]) == m {
        var e := lastIndex + 1;
        while e < |s| && Class(s[e]) == m
          invariant lastIndex < e <= |s|
          invariant e <= RunEnd(s, lastIndex)
        {
          e := e + 1;
        }
        assert e == RunEnd(s, lastIndex);
        TakeRun(s, m, lastIndex);
        var found := Run(s[lastIndex..e], lastIndex, m);
        segments := segments + [found];
        lastIndex := e;
      } else {
        SkipUnit(s, m, lastIndex);
        lastIndex := lastIndex + 1;
      }
    }
  }

  // ---- sorting the matches by position ----

  predicate Increasing(r: seq<Run>) {
    forall i, j | 0 <= i < j < |r| :: r[i].index < r[j].index
  }

  function IndexOf(r: Run): int {
    r.index
  }

  lemma SameFirst(a: seq<Run>, b: seq<Run>)
    requires Increasing(a) && Sorted(IndexOf, b) && multiset(a) == multiset(b) && a != [] && b != []
    ensures a[0] == b[0]
  {
    assert a[0] in multiset(b) && b[0] in multiset(a);
    var k :| 0 <= k < |a| && a[k] == b[0];
    var l :| 0 <= l < |b| && b[l] == a[0];
    assert b[0].index <= a[0].index;
  }

  lemma WithoutFirst(a: seq<Run>)
    requires a != []
    ensures multiset(a[1..]) == multiset(a) - multiset{a[0]}
  {
    assert a == [a[0]] + a[1..];
  }

  /** Two arrangements of the same runs, both in order of position, are equal. */
  lemma {:induction false} OrderedUnique(a: seq<Run>, b: seq<Run>)
    requires Increasing(a) && Sorted(IndexOf, b) && multiset(a) == multiset(b)
    ensures a == b
  {
    assert |a| == |multiset(a)| && |b| == |multiset(b)|;
    if a != [] {
      SameFirst(a, b);
      WithoutFirst(a);
      WithoutFirst(b);
      TailOfSorted(IndexOf, b);
      assert Increasing(a[1..]);
      hide Increasing, Sorted;
      OrderedUnique(a[1..], b[1..]);
      assert a == [a[0]] + a[1..] && b == [b[0]] + b[1..];
    }
  }

  lemma {:induction false} RunsIncreasing(s: Text, from: nat)
    requires from <= |s|
    ensures Increasing(Runs(s, from))
    ensures forall r | r in Runs(s, from) :: r.index >= from && r.mode != Kanji
    decreases |s| - from
  {
    if from < |s| {
      RunsIncreasing(s, RunEnd(s, from));
    }
  }

  lemma OnlyStep(r: seq<Run>, m: Mode)
    requires r != []
    ensures multiset(Only(r, m)) == (if r[0].mode == m then multiset{r[0]} else multiset{}) + multiset(Only(r[1..], m))
  {}

  lemma Regroup(x: multiset<Run>, n: multiset<Run>, a: multiset<Run>, b: multiset<Run>)
    ensures (x + n) + a + b == x + (n + a + b)
    ensures n + (x + a) + b == x + (n + a + b)
    ensures n + a + (x + b) == x + (n + a + b)
    ensures multiset{} + n == n && multiset{} + a == a && multiset{} + b == b
  {}

  lemma FirstAndRest(r: seq<Run>)
    requires r != []
    ensures multiset(r) == multiset{r[0]} + multiset(r[1..])
  {
    assert r == [r[0]] + r[1..];
  }

  lemma {:induction false} SplitByMode(r: seq<Run>)
    requires forall x | x in r :: x.mode != Kanji
    ensures multiset(Only(r, Numeric)) + multiset(Only(r, Alphanumeric)) + multiset(Only(r, Byte)) == multiset(r)
  {
    if r != [] {
      OnlyStep(r, Numeric);
      OnlyStep(r, Alphanumeric);
      OnlyStep(r, Byte);
      FirstAndRest(r);
      assert r[0].mode != Kanji;
      hide Only;
      SplitByMode(r[1..]);
      Regroup(multiset{r[0]}, multiset(Only(r[1..], Numeric)), multiset(Only(r[1..], Alphanumeric)), multiset(Only(r[1..], Byte)));
    }
  }

  /** The three lists of matches, put in order, are the runs of the text. */
  method GetSegmentsFromString(s: Text) returns (segs: seq<Run>)
    ensures segs == Runs(s, 0)
  {
    var numSegs := GetSegments(Numeric, s);
    var alphaNumSegs := GetSegments(Alphanumeric, s);
    var byteSegs := GetSegments(Byte, s);
    segs := SortBy(IndexOf, numSegs + alphaNumSegs + byteSegs);
    RunsIncreasing(s, 0);
    SplitByMode(Runs(s, 0));
    SortSorts(IndexOf, numSegs + alphaNumSegs + byteSegs);
    assert multiset(segs) == multiset(numSegs) + multiset(alphaNumSegs) + multiset(byteSegs);
    OrderedUnique(Runs(s, 0), segs);
  }

  // ---- what the runs mean ----

  /** Digits, the other characters of alphanumeric mode, and everything else. */
  lemma ClassShown(c: CodeUnit)
    ensures Class(c) == Numeric <==> 48 <= c <= 57
    ensures Class(c) == Alphanumeric <==> 65 <= c <= 90 || c in {32, 36, 37, 42, 43, 45, 46, 47, 58}
    ensures Class(c) != Kanji
  {}

  /** Runs are not empty, hold characters of their own class, and differ in class from their neighbours. */
  lemma {:induction false} RunsShown(s: Text, from: nat)
    requires from <= |s|
    ensures var runs := Runs(s, from);
            && (forall r | r in runs :: r.data != [] && forall i | 0 <= i < |r.data| :: Class(r.data[i]) == r.mode)
            && (forall k | 0 < k < |runs| :: runs[k - 1].mode != runs[k].mode)
            && (from < |s| ==> runs != [] && runs[0].mode == Class(s[from]))
    decreases |s| - from
  {
    hide Class;
    if from < |s| {
      RunsShown(s, RunEnd(s, from));
    }
  }

  function Joined(r: seq<Run>): Text {
    if r == [] then [] else r[0].data + Joined(r[1..])
  }

  /** The runs are the text, cut up. */
  lemma {:induction false} RunsJoin(s: Text, from: nat)
    requires from <= |s|
    ensures Joined(Runs(s, from)) == s[from..]
    decreases |s| - from
  {
    if from < |s| {
      var e := RunEnd(s, from);
      RunsJoin(s, e);
      assert Runs(s, from)[1..] == Runs(s, e);
      assert s[from..] == s[from..e] + s[e..];
    }
  }

  lemma {:induction false} RunsEncodable(s: Text, from: nat)
    requires from <= |s|
    ensures forall r | r in Runs(s, from) :: r.data != [] && AllEncodable(r.mode, r.data) && r.mode != Kanji
    decreases |s| - from
  {
    if from < |s| {
      RunsEncodable(s, RunEnd(s, from));
    }
  }

  // ---- UTF-8 length ----

  predicate IsHigh(c: CodeUnit) {
    0xD800 <= c <= 0xDBFF
  }

  predicate IsLow(c: CodeUnit) {
    0xDC00 <= c <= 0xDFFF
  }

  /** Surrogates come in pairs. */
  predicate WellFormed(s: Text) {
    if s == [] then true
    else if IsHigh(s[0]) then |s| > 1 && IsLow(s[1]) && WellFormed(s[2..])
    else !IsLow(s[0]) && WellFormed(s[1..])
  }

  function UnitBytes(c: CodeUnit): nat {
    if c < 0x80 then 1 else if c < 0x800 then 2 else 3
  }

  /** The number of bytes of the UTF-8 form of a well-formed text. */
  function Utf8Length(s: Text): nat {
    if s == [] then 0
    else if IsHigh(s[0]) && |s| > 1 && IsLow(s[1]) then 4 + Utf8Length(s[2..])
    else UnitBytes(s[0]) + Utf8Length(s[1..])
  }

  /** Percent-encoding throws on an unpaired surrogate. */
  method GetStringByteLength(s: Text) returns (r: Result<nat>)
    ensures r.Ok? <==> WellFormed(s)
    ensures r.Ok? ==> r.value == Utf8Length(s)
  {
    var i, length := 0, 0;
    while i < |s|
      invariant i <= |s|
      invariant WellFormed(s) <==> WellFormed(s[i..])
      invariant length + Utf8Length(s[i..]) == Utf8Length(s)
      decreases |s| - i
    {
      assert s[i..][1..] == s[i + 1..];
      assert i + 1 < |s| ==> s[i..][1] == s[i + 1] && s[i..][2..] == s[i + 2..];
      if IsHigh(s[i]) && i + 1 < |s| && IsLow(s[i + 1]) {
        length := length + 4;
        i := i + 2;
      } else if IsHigh(s[i]) || IsLow(s[i]) {
        return Err("URI malformed");
      } else {
        length := length + UnitBytes(s[i]);
        i := i + 1;
      }
    }
    return Ok(length);
  }

  /** A cut that does not part a surrogate pair keeps well-formedness on both sides. */
  lemma {:induction false} WellFormedCut(a: Text, b: Text)
    requires a == [] || b == [] || !IsHigh(a[|a| - 1]) || !IsLow(b[0])
    ensures WellFormed(a + b) <==> WellFormed(a) && WellFormed(b)
    decreases |a|
  {
    if a == [] {
      assert a + b == b;
    } else if IsHigh(a[0]) {
      if |a| == 1 {
        assert b != [] ==> (a + b)[1] == b[0];
      } else {
        WellFormedCut(a[2..], b);
        assert (a + b)[2..] == a[2..] + b;
      }
    } else {
      WellFormedCut(a[1..], b);
      assert (a + b)[1..] == a[1..] + b;
    }
  }

  lemma {:induction false} PlainWellFormed(s: Text)
    requires AllEncodable(Alphanumeric, s)
    ensures WellFormed(s)
  {
    if s != [] {
      assert Encodable(Alphanumeric, s[0]);
      PlainWellFormed(s[1..]);
    }
  }

  /** A text is well-formed exactly when each of its byte runs is. */
  lemma {:induction false} RunsWellFormed(s: Text, from: nat)
    requires from <= |s|
    ensures WellFormed(s[from..]) <==> forall r | r in Runs(s, from) && r.mode == Byte :: WellFormed(r.data)
    decreases |s| - from
  {
    if from < |s| {
      var e := RunEnd(s, from);
      var head, rest := Run(s[from..e], from, Class(s[from])), Runs(s, e);
      RunsWellFormed(s, e);
      assert s[from..] == head.data + s[e..];
      if e < |s| {
        SurrogatesAreBytes(s[e - 1]);
        SurrogatesAreBytes(s[e]);
        assert Class(s[e - 1]) == Class(s[from]);
      }
      WellFormedCut(head.data, s[e..]);
      if head.mode != Byte {
        forall i | 0 <= i < |head.data|
          ensures Encodable(Alphanumeric, head.data[i])
        {
          assert Class(s[from + i]) == Class(s[from]);
        }
        PlainWellFormed(head.data);
      }
      assert Runs(s, from) == [head] + rest;
      assert forall r :: r in Runs(s, from) <==> r == head || r in rest;
    }
  }

  lemma SurrogatesAreBytes(c: CodeUnit)
    ensures IsHigh(c) || IsLow(c) ==> Class(c) == Byte
  {}
}
