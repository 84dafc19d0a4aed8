/**
  Polynomials over GF(256), highest coefficient first, as the Reed-Solomon
  encoder keeps them: product, long division and the generator polynomial.
 */
module Polynomial {
  import opened GaloisField

  function Zeros(n: nat): seq<bv8> {
    seq(n, _ => 0)
  }

  function Sum(p: seq<bv8>, q: seq<bv8>): seq<bv8>
    requires |p| == |q|
  {
    seq(|p|, i requires 0 <= i < |p| => Add(p[i], q[i]))
  }

  function Scale(c: bv8, p: seq<bv8>): seq<bv8> {
    seq(|p|, i requires 0 <= i < |p| => Times(c, p[i]))
  }

  /** The value at `x`, by Horner's rule. */
  function Eval(p: seq<bv8>, x: bv8): bv8 {
    if p == [] then 0 else Add(Times(Eval(p[..|p| - 1], x), x), p[|p| - 1])
  }

  /** The coefficients of the product of two polynomials. */
  function Product(p: seq<bv8>, q: seq<bv8>): (r: seq<bv8>)
    requires p != [] || q != []
    ensures |r| == |p| + |q| - 1
  {
    if p == [] || q == [] then Zeros(|p| + |q| - 1)
    else if |p| == 1 then Scale(p[0], q)
    else
      var n := |p| - 1;
      Sum(Product(p[..n], q) + [0], Zeros(n) + Scale(p[n], q))
  }

  // ---- evaluation turns polynomial operations into field operations ----

  lemma {:induction false} EvalZeros(n: nat, x: bv8)
    ensures Eval(Zeros(n), x) == 0
  {
    hide Add, Times;
    if n > 0 {
      assert Zeros(n)[..n - 1] == Zeros(n - 1);
      EvalZeros(n - 1, x);
      TimesZero(x);
      AddLaws(0, 0, 0);
    }
  }

  lemma EvalSnoc(p: seq<bv8>, c: bv8, x: bv8)
    ensures Eval(p + [c], x) == Add(Times(Eval(p, x), x), c)
  {
    hide Add, Times;
    assert (p + [c])[..|p|] == p;
  }

  lemma {:induction false} EvalSum(p: seq<bv8>, q: seq<bv8>, x: bv8)
    requires |p| == |q|
    ensures Eval(Sum(p, q), x) == Add(Eval(p, x), Eval(q, x))
  {
    hide Add, Times;
    if p == [] {
      AddLaws(0, 0, 0);
    } else {
      var n := |p| - 1;
      EvalSum(p[..n], q[..n], x);
      assert Sum(p, q)[..n] == Sum(p[..n], q[..n]);
      Distributive(Eval(p[..n], x), Eval(q[..n], x), x);
      AddSwap(Times(Eval(p[..n], x), x), Times(Eval(q[..n], x), x), p[n], q[n]);
    }
  }

  lemma {:induction false} EvalScale(c: bv8, p: seq<bv8>, x: bv8)
    ensures Eval(Scale(c, p), x) == Times(c, Eval(p, x))
  {
    hide Add, Times;
    if p == [] {
      TimesZero(c);
    } else {
      var n := |p| - 1;
      EvalScale(c, p[..n], x);
      assert Scale(c, p)[..n] == Scale(c, p[..n]);
      Associative(c, Eval(p[..n], x), x);
      DistributiveRight(c, Times(Eval(p[..n], x), x), p[n]);
    }
  }

  lemma DistributiveRight(c: bv8, x: bv8, y: bv8)
    ensures Times(c, Add(x, y)) == Add(Times(c, x), Times(c, y))
  {
    hide Add, Times;
    Commutative(c, Add(x, y));
    Commutative(c, x);
    Commutative(c, y);
    Distributive(x, y, c);
  }

  /** Leading zeros do not change the value. */
  lemma {:induction false} EvalLeadingZeros(n: nat, p: seq<bv8>, x: bv8)
    ensures Eval(Zeros(n) + p, x) == Eval(p, x)
  {
    hide Add, Times;
    if p == [] {
      assert Zeros(n) + p == Zeros(n);
      EvalZeros(n, x);
    } else {
      var k := |p| - 1;
      assert (Zeros(n) + p)[..n + k] == Zeros(n) + p[..k];
      EvalLeadingZeros(n, p[..k], x);
    }
  }

  /** Multiplying by a power of the variable scales the value. */
  lemma {:induction false} EvalShift(p: seq<bv8>, n: nat, x: bv8)
    ensures Eval(p + Zeros(n), x) == Times(Eval(p, x), Pow(x, n))
  {
    hide Add, Times;
    if n == 0 {
      assert p + Zeros(0) == p;
      Commutative(Eval(p, x), 1);
      TimesOne(Eval(p, x));
    } else {
      assert (p + Zeros(n))[..|p| + n - 1] == p + Zeros(n - 1);
      EvalShift(p, n - 1, x);
      Associative(Eval(p, x), Pow(x, n - 1), x);
      AddLaws(Times(Eval(p + Zeros(n - 1), x), x), 0, 0);
    }
  }

  /** The product polynomial takes the product of the values. */
  lemma {:induction false} EvalProduct(p: seq<bv8>, q: seq<bv8>, x: bv8)
    requires p != [] || q != []
    ensures Eval(Product(p, q), x) == Times(Eval(p, x), Eval(q, x))
  {
    hide Add, Times;
    if p == [] || q == [] {
      EvalZeros(|p| + |q| - 1, x);
      TimesZero(Eval(p, x));
      TimesZero(Eval(q, x));
    } else if |p| == 1 {
      EvalScale(p[0], q, x);
      EvalSnoc([], p[0], x);
      assert [] + [p[0]] == p;
      TimesZero(x);
      AddLaws(p[0], 0, 0);
    } else {
      var n := |p| - 1;
      var a, b := Eval(p[..n], x), Eval(q, x);
      EvalSum(Product(p[..n], q) + [0], Zeros(n) + Scale(p[n], q), x);
      EvalSnoc(Product(p[..n], q), 0, x);
      EvalProduct(p[..n], q, x);
      AddLaws(Times(Times(a, b), x), 0, 0);
      EvalLeadingZeros(n, Scale(p[n], q), x);
      EvalScale(p[n], q, x);
      Associative(a, b, x);
      Commutative(b, x);
      Associative(a, x, b);
      Distributive(Times(a, x), p[n], b);
    }
  }

  // ---- a polynomial with as many roots as coefficients is zero ----

  /** Synthetic division by (z - a): the Horner prefixes of `p` at `a`. */
  function Deflate(p: seq<bv8>, a: bv8): seq<bv8>
    requires p != []
  {
    seq(|p| - 1, i requires 0 <= i < |p| - 1 => Eval(p[..i + 1], a))
  }

  lemma {:induction false} DeflateEval(p: seq<bv8>, a: bv8, x: bv8)
    requires p != []
    ensures Eval(p, x) == Add(Times(Add(x, a), Eval(Deflate(p, a), x)), Eval(p, a))
  {
    hide Add, Times;
    var n := |p| - 1;
    var d := Deflate(p, a);
    if n == 0 {
      TimesZero(x);
      TimesZero(a);
      TimesZero(Add(x, a));
      AddLaws(p[0], 0, 0);
    } else {
      var q := p[..n];
      DeflateEval(q, a, x);
      assert d[..n - 1] == Deflate(q, a) by {
        forall i | 0 <= i < n - 1
          ensures d[i] == Deflate(q, a)[i]
        {
          assert q[..i + 1] == p[..i + 1];
        }
      }
      assert d[n - 1] == Eval(q, a);
      var s, e, f := Add(x, a), Eval(Deflate(q, a), x), Eval(q, a);
      // p(x) = (s e + f) x + c and d(x) = e x + f
      DeflateStep(s, e, f, x, a, p[n]);
    }
  }

  /** The field identity behind one step of synthetic division. */
  lemma DeflateStep(s: bv8, e: bv8, f: bv8, x: bv8, a: bv8, c: bv8)
    requires s == Add(x, a)
    ensures Add(Times(Add(Times(s, e), f), x), c)
         == Add(Times(s, Add(Times(e, x), f)), Add(Times(f, a), c))
  {
    hide Add, Times;
    var u, v, w := Times(Times(s, e), x), Times(f, x), Times(f, a);
    Distributive(Times(s, e), f, x);
    Associative(s, e, x);
    DistributiveRight(s, Times(e, x), f);
    Commutative(s, f);
    DistributiveRight(f, x, a);
    // u + v + c on the left, (u + (v + w)) + (w + c) on the right
    AddLaws(Add(v, w), w, c);
    AddLaws(v, w, w);
    AddLaws(v, 0, 0);
    AddLaws(w, 0, 0);
    AddLaws(u, Add(v, w), Add(w, c));
    AddLaws(u, v, c);
  }

  ghost predicate VanishesAt(p: seq<bv8>, points: seq<bv8>) {
    forall i | 0 <= i < |points| :: Eval(p, points[i]) == 0
  }

  ghost predicate Distinct(points: seq<bv8>) {
    forall i, j | 0 <= i < j < |points| :: points[i] != points[j]
  }

  /** Dividing by one root leaves the other roots. */
  lemma QuotientVanishes(p: seq<bv8>, points: seq<bv8>)
    requires p != [] && points != [] && Distinct(points) && VanishesAt(p, points)
    ensures var n := |points| - 1; VanishesAt(Deflate(p, points[n]), points[..n])
  {
    hide Add, Times, Eval, Deflate;
    var n := |points| - 1;
    var a := points[n];
    var d := Deflate(p, a);
    forall i | 0 <= i < n
      ensures Eval(d, points[..n][i]) == 0
    {
      var x := points[i];
      DeflateEval(p, a, x);
      AddLaws(x, a, 0);
      AddLaws(Times(Add(x, a), Eval(d, x)), 0, 0);
      NoZeroDivisor(Add(x, a), Eval(d, x));
    }
  }

  lemma PrefixVanishes(p: seq<bv8>, a: bv8, i: nat)
    requires p != [] && Eval(p, a) == 0 && Deflate(p, a) == Zeros(|p| - 1) && i <= |p|
    ensures Eval(p[..i], a) == 0
  {
    if i == |p| {
      assert p[..i] == p;
    } else if i > 0 {
      assert Deflate(p, a)[i - 1] == 0;
    }
  }

  /** If the quotient by a root is zero, so is the polynomial. */
  lemma ZeroQuotient(p: seq<bv8>, a: bv8)
    requires p != [] && Eval(p, a) == 0 && Deflate(p, a) == Zeros(|p| - 1)
    ensures p == Zeros(|p|)
  {
    hide Add, Times, Eval, Deflate;
    forall i | 0 <= i < |p|
      ensures p[i] == 0
    {
      PrefixVanishes(p, a, i);
      PrefixVanishes(p, a, i + 1);
      assert p[..i] + [p[i]] == p[..i + 1];
      EvalSnoc(p[..i], p[i], a);
      TimesZero(a);
      AddLaws(p[i], 0, 0);
    }
  }

  /** A polynomial with no more coefficients than distinct roots has only zero coefficients. */
  lemma {:induction false} TooManyRoots(p: seq<bv8>, points: seq<bv8>)
    requires |p| <= |points| && Distinct(points) && VanishesAt(p, points)
    ensures p == Zeros(|p|)
    decreases |p|
  {
    if p != [] {
      var n := |points| - 1;
      QuotientVanishes(p, points);
      hide Eval;
      TooManyRoots(Deflate(p, points[n]), points[..n]);
      ZeroQuotient(p, points[n]);
    }
  }

  // ---- the loops of the program ----

  /** Element `i` of the product after the first `rows` coefficients of `p` were used. */
  ghost function Partial(p: seq<bv8>, q: seq<bv8>, rows: nat): seq<bv8>
    requires rows <= |p| && |p| + |q| > 0
  {
    if rows == 0 || q == [] then Zeros(|p| + |q| - 1) else Product(p[..rows], q) + Zeros(|p| - rows)
  }

  lemma PadSum(a: seq<bv8>, b: seq<bv8>, n: nat)
    requires |a| == |b|
    ensures Sum(a, b) + Zeros(n) == Sum(a + Zeros(n), b + Zeros(n))
  {
    hide Add;
    AddLaws(0, 0, 0);
  }

  lemma SumZeros(a: seq<bv8>)
    ensures Sum(Zeros(|a|), a) == a
  {
    hide Add;
    forall i | 0 <= i < |a|
      ensures Sum(Zeros(|a|), a)[i] == a[i]
    {
      AddLaws(a[i], 0, 0);
    }
  }

  lemma PartialStep(p: seq<bv8>, q: seq<bv8>, row: nat)
    requires row < |p| && q != []
    ensures Partial(p, q, row + 1) == Sum(Partial(p, q, row), Zeros(row) + Scale(p[row], q) + Zeros(|p| - row - 1))
  {
    hide Add, Times, Scale, Sum;
    var n := |p| - row - 1;
    var line := Zeros(row) + Scale(p[row], q);
    ScaleLength(p[row], q);
    if row == 0 {
      assert p[..1] == [p[0]];
      assert line + Zeros(n) == Scale(p[0], q) + Zeros(n);
      SumZeros(line + Zeros(n));
    } else {
      var prev := Product(p[..row], q);
      assert p[..row + 1][..row] == p[..row];
      assert Product(p[..row + 1], q) == Sum(prev + [0], line);
      assert prev + [0] + Zeros(n) == prev + Zeros(n + 1);
      PadSum(prev + [0], line, n);
    }
  }

  lemma ScaleLength(c: bv8, p: seq<bv8>)
    ensures |Scale(c, p)| == |p|
  {}

  /** Adds every pairwise product of coefficients into its place. */
  method Mul(gf: Tables, p1: seq<bv8>, p2: seq<bv8>) returns (coeff: array<bv8>)
    requires gf.Valid() && |p1| + |p2| > 0
    ensures fresh(coeff) && coeff[..] == Product(p1, p2)
  {
    hide Add, Times, Product, Partial;
    coeff := new bv8[|p1| + |p2| - 1](_ => 0);
    PartialBounds(p1, p2);
    for i := 0 to |p1|
      invariant coeff[..] == Partial(p1, p2, i)
    {
      ghost var before := coeff[..];
      for j := 0 to |p2|
        invariant forall k | 0 <= k < coeff.Length ::
                    coeff[k] == if i <= k < i + j then Add(before[k], Times(p1[i], p2[k - i])) else before[k]
      {
        coeff[i + j] := Add(coeff[i + j], gf.Mul(p1[i], p2[j]));
      }
      RowAdded(p1, p2, i, before, coeff[..]);
    }
  }

  lemma PartialBounds(p: seq<bv8>, q: seq<bv8>)
    requires |p| + |q| > 0
    ensures Partial(p, q, 0) == Zeros(|p| + |q| - 1)
    ensures Partial(p, q, |p|) == Product(p, q)
  {
    hide Add, Times;
    assert p[..|p|] == p;
    assert Product(p, q) + Zeros(0) == Product(p, q);
  }

  lemma RowAdded(p: seq<bv8>, q: seq<bv8>, i: nat, before: seq<bv8>, after: seq<bv8>)
    requires i < |p| && before == Partial(p, q, i) && |after| == |before| == |p| + |q| - 1
    requires forall k | 0 <= k < |after| ::
               after[k] == if i <= k < i + |q| then Add(before[k], Times(p[i], q[k - i])) else before[k]
    ensures after == Partial(p, q, i + 1)
  {
    hide Add, Times, Product;
    if q == [] {
      assert after == before;
    } else {
      PartialStep(p, q, i);
      var row := Zeros(i) + Scale(p[i], q) + Zeros(|p| - i - 1);
      forall k | 0 <= k < |after|
        ensures after[k] == Sum(before, row)[k]
      {
        AddLaws(before[k], 0, 0);
      }
    }
  }

  /** `r` is what is left of `dividend` after subtracting a multiple of `divisor`. */
  ghost predicate IsRemainder(dividend: seq<bv8>, divisor: seq<bv8>, quotient: seq<bv8>, r: seq<bv8>) {
    && |r| <= |dividend|
    && (forall x: bv8 {:trigger Eval(r, x)} ::
          Eval(dividend, x) == Add(Times(Eval(quotient, x), Eval(divisor, x)), Eval(r, x)))
  }

  function StripZeros(p: seq<bv8>): seq<bv8> {
    if p != [] && p[0] == 0 then StripZeros(p[1..]) else p
  }

  lemma {:induction false} StripZerosEval(p: seq<bv8>, x: bv8)
    ensures Eval(StripZeros(p), x) == Eval(p, x)
    ensures |StripZeros(p)| <= |p|
  {
    hide Add, Times;
    if p != [] && p[0] == 0 {
      StripZerosEval(p[1..], x);
      EvalLeadingZeros(1, p[1..], x);
      assert Zeros(1) + p[1..] == p;
    }
  }

  /** One round of the division: subtract the divisor, scaled, from the leading part. */
  lemma DivisionRound(p: seq<bv8>, divisor: seq<bv8>, c: bv8, after: seq<bv8>, x: bv8)
    requires 0 < |divisor| <= |p| == |after|
    requires after == Sum(p, Scale(c, divisor) + Zeros(|p| - |divisor|))
    ensures Eval(p, x) == Add(Times(Times(c, Pow(x, |p| - |divisor|)), Eval(divisor, x)), Eval(after, x))
  {
    hide Add, Times;
    var k := |p| - |divisor|;
    var t := Scale(c, divisor) + Zeros(k);
    EvalSum(p, t, x);
    EvalShift(Scale(c, divisor), k, x);
    EvalScale(c, divisor, x);
    Associative(c, Eval(divisor, x), Pow(x, k));
    Commutative(Eval(divisor, x), Pow(x, k));
    Associative(c, Pow(x, k), Eval(divisor, x));
    AddLaws(Eval(t, x), Eval(t, x), Eval(p, x));
    AddLaws(Eval(p, x), Eval(t, x), 0);
    AddLaws(Eval(p, x), 0, 0);
  }

  /** The quotient digit of one round lands on the constant term after shifting. */
  lemma QuotientGrows(q: seq<bv8>, c: bv8, k: nat, x: bv8)
    requires k < |q|
    ensures Eval(Sum(q, Zeros(|q| - k - 1) + [c] + Zeros(k)), x) == Add(Eval(q, x), Times(c, Pow(x, k)))
  {
    hide Add, Times;
    var t := [c] + Zeros(k);
    assert Zeros(|q| - k - 1) + t == Zeros(|q| - k - 1) + [c] + Zeros(k);
    EvalSum(q, Zeros(|q| - k - 1) + t, x);
    EvalLeadingZeros(|q| - k - 1, t, x);
    EvalShift([c], k, x);
    EvalSnoc([], c, x);
    assert [] + [c] == [c];
    TimesZero(x);
    AddLaws(c, 0, 0);
  }

  lemma RemainderStep(dividend: seq<bv8>, divisor: seq<bv8>, q: seq<bv8>, p: seq<bv8>, c: bv8, after: seq<bv8>)
    returns (q': seq<bv8>)
    requires |q| == |dividend| && IsRemainder(dividend, divisor, q, p)
    requires 0 < |divisor| <= |p| == |after|
    requires after == Sum(p, Scale(c, divisor) + Zeros(|p| - |divisor|))
    ensures |q'| == |dividend| && IsRemainder(dividend, divisor, q', StripZeros(after))
  {
    hide Add, Times;
    var k := |p| - |divisor|;
    q' := Sum(q, Zeros(|q| - k - 1) + [c] + Zeros(k));
    forall x: bv8
      ensures Eval(dividend, x) == Add(Times(Eval(q', x), Eval(divisor, x)), Eval(StripZeros(after), x))
    {
      var m, d := Times(c, Pow(x, k)), Eval(divisor, x);
      assert Eval(dividend, x) == Add(Times(Eval(q, x), d), Eval(p, x));
      DivisionRound(p, divisor, c, after, x);
      QuotientGrows(q, c, k, x);
      Distributive(Eval(q, x), m, d);
      AddLaws(Times(Eval(q, x), d), Times(m, d), Eval(after, x));
      StripZerosEval(after, x);
    }
    StripZerosEval(after, 0);
  }

  /**
    Long division by a monic divisor.  The result is shorter than the divisor
    and differs from the dividend by a multiple of it.
   */
  method Mod(gf: Tables, dividend: seq<bv8>, divisor: seq<bv8>) returns (result: seq<bv8>)
    requires gf.Valid() && |divisor| > 0 && divisor[0] == 1
    ensures |result| < |divisor|
    ensures |dividend| < |divisor| ==> result == dividend
    ensures exists q: seq<bv8> :: IsRemainder(dividend, divisor, q, result)
  {
    hide Add, Times, IsRemainder, StripZeros;
    result := dividend;
    ghost var q := Zeros(|dividend|);
    StartsAsRemainder(dividend, divisor);
    while |result| >= |divisor|
      invariant |q| == |dividend| && IsRemainder(dividend, divisor, q, result)
      invariant |result| <= |dividend|
      invariant |dividend| < |divisor| ==> result == dividend
      decreases |result|
    {
      var work := new bv8[|result|](i requires 0 <= i < |result| => result[i]);
      var coeff := work[0];
      for i := 0 to |divisor|
        invariant forall k | 0 <= k < |result| ::
                    work[k] == if k < i then Add(result[k], Times(coeff, divisor[k])) else result[k]
      {
        Commutative(divisor[i], coeff);
        work[i] := Add(work[i], gf.Mul(divisor[i], coeff));
      }
      assert work[..] == Sum(result, Scale(coeff, divisor) + Zeros(|result| - |divisor|)) by {
        forall k | 0 <= k < |result|
          ensures work[k] == Sum(result, Scale(coeff, divisor) + Zeros(|result| - |divisor|))[k]
        {
          AddLaws(result[k], 0, 0);
        }
      }
      LeadingTermCancels(coeff);
      assert work[0] == 0;
      ghost var after := work[..];
      q := RemainderStep(dividend, divisor, q, result, coeff, after);
      var offset := 0;
      StripAll(after, 0);
      while offset < work.Length && work[offset] == 0
        invariant 0 <= offset <= work.Length && work[..] == after
        invariant StripZeros(after) == StripZeros(after[offset..])
        invariant offset == 0 ==> work[0] == 0
      {
        StripAll(after, offset);
        offset := offset + 1;
      }
      StripAll(after, offset);
      assert work[offset..] == after[offset..];
      result := work[offset..];
      RemainderShrinks(dividend, divisor, q, result);
    }
  }

  lemma LeadingTermCancels(c: bv8)
    ensures Add(c, Times(c, 1)) == 0
  {
    hide Add, Times;
    Commutative(c, 1);
    TimesOne(c);
    AddLaws(c, c, c);
  }

  lemma StripAll(p: seq<bv8>, k: nat)
    requires k <= |p|
    ensures p[0..] == p
    ensures k < |p| && p[k] == 0 ==> StripZeros(p[k..]) == StripZeros(p[k + 1..])
    ensures k == |p| || p[k] != 0 ==> StripZeros(p[k..]) == p[k..]
  {
    if k < |p| {
      assert p[k..][1..] == p[k + 1..];
    }
  }

  lemma RemainderShrinks(dividend: seq<bv8>, divisor: seq<bv8>, q: seq<bv8>, r: seq<bv8>)
    requires IsRemainder(dividend, divisor, q, r)
    ensures |r| <= |dividend|
  {
    hide Add, Times, Eval;
  }

  lemma StartsAsRemainder(dividend: seq<bv8>, divisor: seq<bv8>)
    ensures IsRemainder(dividend, divisor, Zeros(|dividend|), dividend)
  {
    hide Add, Times, Eval;
    forall x: bv8
      ensures Eval(dividend, x) == Add(Times(Eval(Zeros(|dividend|), x), Eval(divisor, x)), Eval(dividend, x))
    {
      EvalZeros(|dividend|, x);
      TimesZero(Eval(divisor, x));
      AddLaws(Eval(dividend, x), 0, 0);
    }
  }

  // ---- the generator polynomial ----

  /** The product of (z - 2^i) for i below `degree`. */
  function Generator(degree: nat): (g: seq<bv8>)
    ensures |g| == degree + 1
  {
    if degree == 0 then [1] else Product(Generator(degree - 1), [1, Exp(degree - 1)])
  }

  lemma {:induction false} GeneratorRoots(degree: nat, i: nat)
    requires i < degree
    ensures Eval(Generator(degree), Exp(i)) == 0
  {
    hide Add, Times, Product, Exp;
    var g, f := Generator(degree - 1), [1, Exp(degree - 1)];
    EvalProduct(g, f, Exp(i));
    if i == degree - 1 {
      LinearFactor(Exp(i), Exp(i));
      AddLaws(Exp(i), Exp(i), 0);
      TimesZero(Eval(g, Exp(i)));
    } else {
      GeneratorRoots(degree - 1, i);
      TimesZero(Eval(f, Exp(i)));
    }
  }

  /** The generator vanishes at no other power: these are all its roots. */
  lemma {:induction false} GeneratorOnlyRoots(degree: nat, x: bv8)
    requires Eval(Generator(degree), x) == 0
    ensures exists i: nat | i < degree :: Exp(i) == x
  {
    hide Add, Times, Product, Exp;
    if degree == 0 {
      EvalSnoc([], 1, x);
      assert [] + [1] == [1 as bv8];
      TimesZero(x);
      AddLaws(1, 0, 0);
    } else {
      var g, f := Generator(degree - 1), [1, Exp(degree - 1)];
      EvalProduct(g, f, x);
      NoZeroDivisor(Eval(g, x), Eval(f, x));
      if Eval(f, x) == 0 {
        LinearFactor(Exp(degree - 1), x);
        AddLaws(x, Exp(degree - 1), 0);
      } else {
        GeneratorOnlyRoots(degree - 1, x);
      }
    }
  }

  lemma LinearFactor(a: bv8, x: bv8)
    ensures Eval([1, a], x) == Add(x, a)
  {
    hide Add, Times;
    EvalSnoc([], 1, x);
    assert [] + [1] == [1 as bv8];
    assert [1] + [a] == [1, a];
    EvalSnoc([1], a, x);
    TimesZero(x);
    AddLaws(1, 0, 0);
    TimesOne(x);
  }

  lemma {:induction false} GeneratorMonic(degree: nat)
    ensures Generator(degree)[0] == 1
  {
    hide Add, Times, Product, Exp;
    if degree > 0 {
      GeneratorMonic(degree - 1);
      ProductLeading(Generator(degree - 1), [1, Exp(degree - 1)]);
      TimesOne(1);
    }
  }

  lemma {:induction false} ProductLeading(p: seq<bv8>, q: seq<bv8>)
    requires p != [] && q != []
    ensures Product(p, q)[0] == Times(p[0], q[0])
  {
    hide Add, Times;
    if |p| > 1 {
      ProductLeading(p[..|p| - 1], q);
      AddLaws(Times(p[0], q[0]), 0, 0);
    }
  }

  /** Multiplies the linear factors together one by one. */
  method GenerateECPolynomial(gf: Tables, degree: nat) returns (poly: seq<bv8>)
    requires gf.Valid() && degree <= 512
    ensures poly == Generator(degree)
  {
    hide Add, Times, Product, Exp;
    poly := [1];
    for i := 0 to degree
      invariant poly == Generator(i)
    {
      var product := Mul(gf, poly, [1, gf.expTable[i]]);
      poly := product[..];
    }
  }
}
