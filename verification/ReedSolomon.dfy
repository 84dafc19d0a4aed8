/**
  The Reed-Solomon encoder: a data block is extended by `degree` bytes so that
  the whole block vanishes at the first `degree` powers of 2
  (ISO/IEC 18004:2015, section 7.5).
 */
module ReedSolomon {
  import opened GaloisField
  import opened Polynomial
  import opened Results

  /** The block vanishes at every root of the generator of this degree. */
  ghost predicate IsCodeword(block: seq<bv8>, degree: nat) {
    forall i: nat {:trigger Exp(i)} | i < degree :: Eval(block, Exp(i)) == 0
  }

  /** `ec` is the error correction part of `data`. */
  ghost predicate IsErrorCorrection(data: seq<bv8>, degree: nat, ec: seq<bv8>) {
    |ec| == degree && IsCodeword(data + ec, degree)
  }

  /** The value of a block is the shifted data plus the error correction part. */
  lemma EvalBlock(data: seq<bv8>, ec: seq<bv8>, x: bv8)
    ensures Eval(data + ec, x) == Add(Eval(data + Zeros(|ec|), x), Eval(ec, x))
  {
    hide Add, Times;
    var head, tail := data + Zeros(|ec|), Zeros(|data|) + ec;
    forall i | 0 <= i < |data| + |ec|
      ensures Sum(head, tail)[i] == (data + ec)[i]
    {
      AddLaws((data + ec)[i], 0, 0);
    }
    assert Sum(head, tail) == data + ec;
    EvalSum(head, tail, x);
    EvalLeadingZeros(|data|, ec, x);
  }

  /** At most one error correction part fits a block, as long as the roots differ. */
  lemma ErrorCorrectionUnique(data: seq<bv8>, degree: nat, ec1: seq<bv8>, ec2: seq<bv8>)
    requires degree <= 255
    requires IsErrorCorrection(data, degree, ec1) && IsErrorCorrection(data, degree, ec2)
    ensures ec1 == ec2
  {
    hide Add, Times;
    var difference := Sum(ec1, ec2);
    var points := seq(degree, i requires 0 <= i < degree => Exp(i));
    forall i | 0 <= i < degree
      ensures Eval(difference, points[i]) == 0
    {
      var x := Exp(i);
      assert Eval(data + ec1, x) == 0 && Eval(data + ec2, x) == 0;
      EvalBlock(data, ec1, x);
      EvalBlock(data, ec2, x);
      AddLaws(Eval(data + Zeros(degree), x), Eval(ec1, x), 0);
      AddLaws(Eval(data + Zeros(degree), x), Eval(ec2, x), 0);
      EvalSum(ec1, ec2, x);
      AddLaws(Eval(ec1, x), Eval(ec2, x), 0);
    }
    forall i, j | 0 <= i < j < degree
      ensures points[i] != points[j]
    {
      ExpInjective(i, j);
    }
    TooManyRoots(difference, points);
    forall i | 0 <= i < degree
      ensures ec1[i] == ec2[i]
    {
      assert difference[i] == 0;
      AddLaws(ec1[i], ec2[i], 0);
    }
  }

  /** A remainder modulo the generator, padded on the left, is the error correction part. */
  lemma RemainderIsErrorCorrection(data: seq<bv8>, degree: nat, quotient: seq<bv8>, r: seq<bv8>)
    requires |r| <= degree
    requires IsRemainder(data + Zeros(degree), Generator(degree), quotient, r)
    ensures IsErrorCorrection(data, degree, Zeros(degree - |r|) + r)
  {
    hide Add, Times, Generator;
    var ec := Zeros(degree - |r|) + r;
    forall i: nat {:trigger Exp(i)} | i < degree
      ensures Eval(data + ec, Exp(i)) == 0
    {
      var x := Exp(i);
      GeneratorRoots(degree, i);
      TimesZero(Eval(quotient, x));
      assert Eval(data + Zeros(degree), x) == Add(Times(Eval(quotient, x), Eval(Generator(degree), x)), Eval(r, x));
      AddLaws(Eval(r, x), Eval(r, x), 0);
      EvalLeadingZeros(degree - |r|, r, x);
      EvalBlock(data, ec, x);
    }
  }

  class Encoder {
    var degree: nat
    var genPoly: seq<bv8>
    var initialized: bool
    const gf: Tables

    ghost predicate Valid()
      reads this, gf, gf.expTable, gf.logTable
    {
      && gf.Valid() && degree <= 512
      && (initialized ==> genPoly == Generator(degree))
    }

    /** A degree of zero leaves the encoder without a generator polynomial. */
    constructor (gf: Tables, degree: nat)
      requires gf.Valid() && degree <= 512
      ensures Valid() && this.gf == gf && this.degree == degree && (initialized <==> degree != 0)
    {
      this.gf := gf;
      this.degree := degree;
      this.genPoly := [];
      this.initialized := false;
      new;
      if degree != 0 {
        Initialize(degree);
      }
    }

    method Initialize(degree: nat)
      requires gf.Valid() && degree <= 512
      modifies this
      ensures Valid() && this.degree == degree && initialized
    {
      this.degree := degree;
      genPoly := GenerateECPolynomial(gf, degree);
      initialized := true;
    }

    /**
      The error correction bytes of a block: exactly `degree` of them, and with
      them the block vanishes at the first `degree` powers of 2.
     */
    method Encode(data: seq<bv8>) returns (r: Result<seq<bv8>>)
      requires Valid()
      ensures r.Ok? <==> initialized
      ensures r.Ok? ==> IsErrorCorrection(data, degree, r.value)
    {
      hide Add, Times, Generator, IsRemainder, IsErrorCorrection;
      if !initialized {
        return Err("Encoder not initialized");
      }
      var paddedData := data + Zeros(degree);
      GeneratorMonic(degree);
      var remainder := Mod(gf, paddedData, genPoly);
      ghost var q :| IsRemainder(paddedData, genPoly, q, remainder);
      RemainderIsErrorCorrection(data, degree, q, remainder);
      var start := degree - |remainder|;
      if start > 0 {
        return Ok(Zeros(start) + remainder);
      }
      assert Zeros(0) + remainder == remainder;
      return Ok(remainder);
    }
  }
}
