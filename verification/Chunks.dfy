/**
  A stream of bytes that arrives in pieces, and what a reader that checks a
  cap after each piece makes of it.
 */
module Chunks {
  import opened HttpText

  function Joined(chunks: seq<string>): string {
    if chunks == [] then [] else chunks[0] + Joined(chunks[1..])
  }

  /** Every read gives at least one byte and at most a buffer of them. */
  predicate Pieces(chunks: seq<string>) {
    forall i | 0 <= i < |chunks| :: 1 <= |chunks[i]| <= 4096
  }

  predicate Cutting(chunks: seq<string>, all: string) {
    Pieces(chunks) && Joined(chunks) == all
  }

  /** The first place at or behind `k` where one piece ends. */
  function FirstCut(chunks: seq<string>, k: nat): nat {
    if k == 0 || chunks == [] then 0
    else |chunks[0]| + FirstCut(chunks[1..], if k <= |chunks[0]| then 0 else k - |chunks[0]|)
  }

  lemma {:induction false} FirstCutBounds(chunks: seq<string>, k: nat)
    requires Pieces(chunks) && k <= |Joined(chunks)|
    ensures k <= FirstCut(chunks, k) <= |Joined(chunks)| && FirstCut(chunks, k) <= k + 4095
  {
    if k > 0 && chunks != [] {
      FirstCutBounds(chunks[1..], if k <= |chunks[0]| then 0 else k - |chunks[0]|);
    }
  }

  /** A header that ends inside the stream, and is complete before more than `cap` bytes have come. */
  predicate HeaderTaken(chunks: seq<string>, cap: nat) {
    Find(Joined(chunks)) >= 0 && FirstCut(chunks, Find(Joined(chunks)) + 4) <= cap
  }

  /** The latest first cut behind the header, over all ways to cut the stream. */
  function LatestCut(all: string): nat
    requires Find(all) >= 0
  {
    if |all| < Find(all) + 4 + 4095 then |all| else Find(all) + 4 + 4095
  }

  /** The header ends within the cap, but a piece may reach from inside it beyond the cap. */
  predicate Undecided(all: string, cap: nat) {
    Find(all) >= 0 && Find(all) + 4 <= cap < LatestCut(all)
  }

  // ---- cutting a stream at a chosen place ----

  function Singles(s: string): (chunks: seq<string>)
    ensures Cutting(chunks, s)
  {
    if s == [] then [] else
      assert s == [s[0]] + s[1..];
      [[s[0]]] + Singles(s[1..])
  }

  lemma {:induction false} JoinedAppend(a: seq<string>, b: seq<string>)
    ensures Joined(a + b) == Joined(a) + Joined(b)
  {
    if a == [] {
      assert a + b == b;
    } else {
      JoinedAppend(a[1..], b);
      assert (a + b)[1..] == a[1..] + b;
    }
  }

  lemma {:induction false} FirstCutBehind(a: seq<string>, b: seq<string>, k: nat)
    requires k > |Joined(a)|
    ensures FirstCut(a + b, k) == |Joined(a)| + FirstCut(b, k - |Joined(a)|)
  {
    if a == [] {
      assert a + b == b;
    } else {
      FirstCutBehind(a[1..], b, k - |a[0]|);
      assert (a + b)[1..] == a[1..] + b;
    }
  }

  /** Some cutting has `to` as its first cut at or behind `k`. */
  lemma CutHere(all: string, k: nat, to: nat) returns (chunks: seq<string>)
    requires 0 < k <= to <= |all| && to <= k + 4095
    ensures Cutting(chunks, all) && FirstCut(chunks, k) == to
  {
    var before, piece, after := Singles(all[..k - 1]), all[k - 1..to], Singles(all[to..]);
    var rest := [piece] + after;
    chunks := before + rest;
    JoinedAppend(before, rest);
    assert rest[1..] == after && Joined(rest) == piece + all[to..];
    assert all == all[..k - 1] + (piece + all[to..]);
    FirstCutBehind(before, rest, k);
    assert FirstCut(rest, 1) == |piece| + FirstCut(after, 0);
  }

  // ---- what the bytes decide ----

  /** Every way to cut the stream is accepted exactly if even the latest first cut is within the cap. */
  lemma AlwaysTaken(all: string, cap: nat)
    ensures (forall chunks | Cutting(chunks, all) :: HeaderTaken(chunks, cap)) <==> Find(all) >= 0 && LatestCut(all) <= cap
  {
    hide Find, FirstCut, Joined, Pieces;
    forall chunks | Cutting(chunks, all) && Find(all) >= 0
      ensures FirstCut(chunks, Find(all) + 4) <= LatestCut(all)
    {
      FirstCutBounds(chunks, Find(all) + 4);
    }
    if Find(all) < 0 {
      assert Cutting(Singles(all), all) && !HeaderTaken(Singles(all), cap);
    } else if LatestCut(all) > cap {
      var late := CutHere(all, Find(all) + 4, LatestCut(all));
      assert !HeaderTaken(late, cap);
    }
  }

  /** Every way to cut the stream is refused exactly if it has no header or the header alone exceeds the cap. */
  lemma NeverTaken(all: string, cap: nat)
    ensures (forall chunks | Cutting(chunks, all) :: !HeaderTaken(chunks, cap)) <==> Find(all) < 0 || Find(all) + 4 > cap
  {
    hide Find, FirstCut, Joined, Pieces;
    forall chunks | Cutting(chunks, all) && Find(all) >= 0
      ensures FirstCut(chunks, Find(all) + 4) >= Find(all) + 4
    {
      FirstCutBounds(chunks, Find(all) + 4);
    }
    if 0 <= Find(all) <= cap - 4 {
      var early := CutHere(all, Find(all) + 4, Find(all) + 4);
      assert HeaderTaken(early, cap);
    }
  }

  /** In between, the outcome depends on where the stream is cut. */
  lemma TakenOrNot(all: string, cap: nat) returns (early: seq<string>, late: seq<string>)
    requires Undecided(all, cap)
    ensures Cutting(early, all) && HeaderTaken(early, cap)
    ensures Cutting(late, all) && !HeaderTaken(late, cap)
  {
    hide Find, FirstCut, Joined, Pieces;
    early := CutHere(all, Find(all) + 4, Find(all) + 4);
    late := CutHere(all, Find(all) + 4, LatestCut(all));
  }
}
