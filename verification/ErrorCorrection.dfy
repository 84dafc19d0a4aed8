/**
  What the error correction bytes are for: two different codewords differ in
  more than `degree` places, so up to half as many damaged bytes still point
  at one codeword only.
 */
module ErrorCorrection {
  import opened GaloisField
  import opened Polynomial
  import opened ReedSolomon

  /** The number of nonzero coefficients. */
  function Weight(p: seq<bv8>): nat {
    if p == [] then 0 else Weight(p[..|p| - 1]) + if p[|p| - 1] == 0 then 0 else 1
  }

  /** The number of places where two blocks of the same length differ. */
  function Distance(p: seq<bv8>, q: seq<bv8>): nat
    requires |p| == |q|
  {
    if p == [] then 0 else Distance(p[..|p| - 1], q[..|q| - 1]) + if p[|p| - 1] == q[|q| - 1] then 0 else 1
  }

  /** The coefficients of p(2z). */
  function Dilate(p: seq<bv8>): (r: seq<bv8>)
    ensures |r| == |p|
  {
    if p == [] then [] else Scale(2, Dilate(p[..|p| - 1])) + [p[|p| - 1]]
  }

  lemma {:induction false} DilateAt(p: seq<bv8>, k: nat)
    requires k < |p|
    ensures Dilate(p)[k] == Times(Exp(|p| - 1 - k), p[k])
  {
    hide Add, Times;
    var n := |p| - 1;
    if k == n {
      TimesOne(p[n]);
      FirstPower();
    } else {
      DilateAt(p[..n], k);
      FirstPower();
      TimesExp(1, n - 1 - k);
      Associative(2, Exp(n - 1 - k), p[k]);
    }
  }

  lemma FirstPower()
    ensures Exp(0) == 1 && Exp(1) == 2
  {}

  lemma {:induction false} EvalDilate(p: seq<bv8>, x: bv8)
    ensures Eval(Dilate(p), x) == Eval(p, Times(2, x))
  {
    hide Add, Times;
    if p != [] {
      var n := |p| - 1;
      var y := Times(2, x);
      EvalDilate(p[..n], x);
      EvalSnoc(Scale(2, Dilate(p[..n])), p[n], x);
      EvalScale(2, Dilate(p[..n]), x);
      Commutative(2, Eval(p[..n], y));
      Associative(Eval(p[..n], y), 2, x);
    }
  }

  /** p(2z) - 2^e p(z): one root fewer, and the coefficient of z^e is gone. */
  function Twist(p: seq<bv8>, e: nat): seq<bv8> {
    Sum(Dilate(p), Scale(Exp(e), p))
  }

  lemma TwistAt(p: seq<bv8>, e: nat, k: nat)
    requires k < |p| <= 255 && e < 255
    ensures Twist(p, e)[k] == 0 <==> p[k] == 0 || e == |p| - 1 - k
  {
    hide Add, Times, Exp;
    var a, b := Exp(|p| - 1 - k), Exp(e);
    DilateAt(p, k);
    Distributive(a, b, p[k]);
    AddLaws(a, b, 0);
    TimesZero(p[k]);
    TimesZero(Add(a, b));
    if Twist(p, e)[k] == 0 {
      NoZeroDivisor(Add(a, b), p[k]);
      if a == b && e != |p| - 1 - k {
        if e < |p| - 1 - k { ExpInjective(e, |p| - 1 - k); } else { ExpInjective(|p| - 1 - k, e); }
      }
    }
  }

  lemma TwistRoots(p: seq<bv8>, e: nat, degree: nat)
    requires 0 < degree && IsCodeword(p, degree)
    ensures IsCodeword(Twist(p, e), degree - 1)
  {
    hide Add, Times, Exp;
    forall i: nat {:trigger Exp(i)} | i < degree - 1
      ensures Eval(Twist(p, e), Exp(i)) == 0
    {
      var x := Exp(i);
      EvalSum(Dilate(p), Scale(Exp(e), p), x);
      EvalDilate(p, x);
      FirstPower();
      TimesExp(1, i);
      assert Eval(p, Exp(i)) == 0 && Eval(p, Exp(1 + i)) == 0;
      EvalScale(Exp(e), p, x);
      TimesZero(Exp(e));
      AddLaws(0, 0, 0);
    }
  }

  lemma {:induction false} WeightDrops(p: seq<bv8>, q: seq<bv8>, k: nat)
    requires |p| == |q| && k < |p| && p[k] != 0
    requires forall i | 0 <= i < |p| :: q[i] == 0 <==> p[i] == 0 || i == k
    ensures Weight(q) == Weight(p) - 1
  {
    var n := |p| - 1;
    if k == n {
      SameWeight(p[..n], q[..n]);
    } else {
      WeightDrops(p[..n], q[..n], k);
    }
  }

  lemma {:induction false} SameWeight(p: seq<bv8>, q: seq<bv8>)
    requires |p| == |q|
    requires forall i | 0 <= i < |p| :: q[i] == 0 <==> p[i] == 0
    ensures Weight(q) == Weight(p)
  {
    if p != [] {
      SameWeight(p[..|p| - 1], q[..|p| - 1]);
    }
  }

  lemma {:induction false} WeightZero(p: seq<bv8>)
    ensures Weight(p) == 0 <==> forall i | 0 <= i < |p| :: p[i] == 0
  {
    if p != [] {
      WeightZero(p[..|p| - 1]);
    }
  }

  lemma {:induction false} PowOne(n: nat)
    ensures Pow(1, n) == 1
  {
    hide Times;
    if n > 0 {
      PowOne(n - 1);
      TimesOne(1);
    }
  }

  /** A single nonzero coefficient does not vanish at 1. */
  lemma MonomialAtOne(p: seq<bv8>, k: nat)
    requires k < |p| && p[k] != 0
    requires forall i | 0 <= i < |p| && i != k :: p[i] == 0
    ensures Eval(p, 1) != 0
  {
    hide Add, Times;
    var tail := [p[k]] + Zeros(|p| - k - 1);
    assert p == Zeros(k) + tail;
    EvalLeadingZeros(k, tail, 1);
    EvalShift([p[k]], |p| - k - 1, 1);
    PowOne(|p| - k - 1);
    EvalSnoc([], p[k], 1);
    assert [] + [p[k]] == [p[k]];
    TimesZero(1);
    AddLaws(p[k], 0, 0);
    Commutative(p[k], 1);
    TimesOne(p[k]);
  }

  /** A codeword with at most `degree` nonzero bytes is the zero codeword. */
  lemma {:induction false} SparseCodewordIsZero(p: seq<bv8>, degree: nat)
    requires |p| <= 255 && IsCodeword(p, degree) && Weight(p) <= degree
    ensures Weight(p) == 0
    decreases Weight(p)
  {
    hide Add, Times, Eval;
    if Weight(p) > 0 {
      WeightZero(p);
      var k :| 0 <= k < |p| && p[k] != 0;
      var e := |p| - 1 - k;
      var q := Twist(p, e);
      forall i | 0 <= i < |p|
        ensures q[i] == 0 <==> p[i] == 0 || i == k
      {
        TwistAt(p, e, i);
      }
      WeightDrops(p, q, k);
      TwistRoots(p, e, degree);
      SparseCodewordIsZero(q, degree - 1);
      WeightZero(q);
      FirstPower();
      assert Eval(p, Exp(0)) == 0;
      MonomialAtOne(p, k);
    }
  }

  lemma {:induction false} DistanceIsWeight(p: seq<bv8>, q: seq<bv8>)
    requires |p| == |q|
    ensures Distance(p, q) == Weight(Sum(p, q))
    ensures Distance(p, q) == 0 <==> p == q
  {
    hide Add;
    if p != [] {
      var n := |p| - 1;
      DistanceIsWeight(p[..n], q[..n]);
      assert Sum(p, q)[..n] == Sum(p[..n], q[..n]);
      AddLaws(p[n], q[n], 0);
      assert p == p[..n] + [p[n]] && q == q[..n] + [q[n]];
    }
  }

  /** The minimum distance of the code: different codewords differ in more than `degree` places. */
  lemma MinimumDistance(p: seq<bv8>, q: seq<bv8>, degree: nat)
    requires |p| == |q| <= 255 && p != q
    requires IsCodeword(p, degree) && IsCodeword(q, degree)
    ensures Distance(p, q) > degree
  {
    hide Add, Times, Weight, Distance, Eval;
    var d := Sum(p, q);
    forall i: nat {:trigger Exp(i)} | i < degree
      ensures Eval(d, Exp(i)) == 0
    {
      EvalSum(p, q, Exp(i));
      assert Eval(p, Exp(i)) == 0 && Eval(q, Exp(i)) == 0;
      AddLaws(0, 0, 0);
    }
    DistanceIsWeight(p, q);
    if Distance(p, q) <= degree {
      SparseCodewordIsZero(d, degree);
    }
  }

  lemma {:induction false} TriangleInequality(p: seq<bv8>, q: seq<bv8>, r: seq<bv8>)
    requires |p| == |q| == |r|
    ensures Distance(p, r) <= Distance(p, q) + Distance(q, r)
    ensures Distance(p, q) == Distance(q, p)
  {
    if p != [] {
      var n := |p| - 1;
      TriangleInequality(p[..n], q[..n], r[..n]);
    }
  }

  /** A received block with at most degree / 2 damaged bytes is close to one codeword only. */
  lemma UniqueDecoding(received: seq<bv8>, p: seq<bv8>, q: seq<bv8>, degree: nat)
    requires |received| == |p| == |q| <= 255
    requires IsCodeword(p, degree) && IsCodeword(q, degree)
    requires 2 * Distance(p, received) <= degree && 2 * Distance(q, received) <= degree
    ensures p == q
  {
    hide Distance;
    TriangleInequality(p, received, q);
    TriangleInequality(q, received, p);
    if p != q {
      MinimumDistance(p, q, degree);
    }
  }
}
