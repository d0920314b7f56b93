/**
 * The mutable `LinearSum` of solver/src/model/lang/linear.rs. Each method updates the
 * object's fields in place and is specified by the function of module `Linear` that
 * computes the new contents from the old ones; the lemmas of `Linear` then say what the
 * operation does to the represented value.
 *
 * Operands that the source takes by value (the right-hand side of `+=`, `-=`, `leq`, `geq`)
 * are passed as the `Sum` contents they carry.
 */
module LinearSums {
  import opened Wrappers
  import opened Lits
  import opened Atoms
  import opened Linear

  class LinearSum {
    var terms: seq<LinearTerm>
    var constant: int
    var denom: int

    ghost function Contents(): Sum
      reads this
    {
      Sum(terms, constant, denom)
    }

    /** `LinearSum::zero`. */
    constructor Zero()
      ensures Contents() == ZeroSum
    {
      terms, constant, denom := [], 0, 1;
    }

    /** `LinearSum::constant_rational`. */
    constructor ConstantRational(num: int, d: int)
      ensures Contents() == Sum([], num, d)
    {
      terms, constant, denom := [], num, d;
    }

    /** `From<LinearTerm>`: the sum of one term, over that term's denominator. */
    constructor FromTerm(t: LinearTerm)
      ensures Contents() == Sum([t], 0, t.denom)
    {
      terms, constant, denom := [t], 0, t.denom;
    }

    /** `From<IntCst>`. */
    constructor FromConstant(c: int)
      ensures Contents() == Sum([], c, 1)
    {
      terms, constant, denom := [], c, 1;
    }

    /** `From<FAtom>`: the atom `(v + shift) / d`. */
    constructor FromFAtom(v: IVar, shift: int, d: int)
      requires d != 0
      ensures Contents() == AtomSum(v, shift, d)
    {
      terms, constant, denom := [LinearTerm(1, Some(v), TRUE, d)], 0, d;
      new;
      AddAssign(Sum([LinearTerm(shift, None, TRUE, d)], 0, d));
    }

    /** `From<IAtom>`: the atom `v + shift`. */
    constructor FromIAtom(v: IVar, shift: int)
      ensures Contents() == AtomSum(v, shift, 1)
    {
      terms, constant, denom := [LinearTerm(1, Some(v), TRUE, 1)], 0, 1;
      new;
      AddAssign(Sum([LinearTerm(shift, None, TRUE, 1)], 0, 1));
    }

    /** `LinearSum::constant_int`: `zero() + n`. */
    static method ConstantInt(n: int) returns (r: LinearSum)
      ensures fresh(r) && r.Contents() == AddSumOf(ZeroSum, Sum([], n, 1))
    {
      r := new LinearSum.Zero();
      r.AddAssign(Sum([], n, 1));
    }

    /** `LinearSum::of`: every element added in turn to `zero()`. */
    static method Of(elements: seq<Sum>) returns (r: LinearSum)
      requires forall i :: 0 <= i < |elements| ==> Valid(elements[i])
      ensures fresh(r) && r.Contents() == OfSums(elements)
    {
      r := new LinearSum.Zero();
      for i := 0 to |elements|
        invariant fresh(r) && r.Contents() == OfSums(elements[..i])
      {
        assert elements[..i + 1][..i] == elements[..i];
        assert Valid(elements[i]);
        r.AddAssign(elements[i]);
      }
      assert elements[..|elements|] == elements;
    }

    /** `with_lit`: every term is conditioned by `lit`. */
    method WithLit(lit: Lit)
      modifies this
      ensures Contents() == WithLitOf(old(Contents()), lit)
    {
      for i := 0 to |terms|
        invariant |terms| == |old(terms)| && constant == old(constant) && denom == old(denom)
        invariant forall j :: 0 <= j < i ==>
          terms[j] == LinearTerm(old(terms)[j].factor, old(terms)[j].variable, lit, old(terms)[j].denom)
        invariant forall j :: i <= j < |terms| ==> terms[j] == old(terms)[j]
      {
        var t := terms[i];
        terms := terms[i := LinearTerm(t.factor, t.variable, lit, t.denom)];
      }
      assert terms == WithLitOf(old(Contents()), lit).terms;
    }

    /** `set_denom`: rescale every term and the constant to the multiple `nd` of the denominator. */
    method SetDenom(nd: int)
      requires Valid(Contents()) && nd != 0 && nd % denom == 0
      modifies this
      ensures Contents() == SetDenomOf(old(Contents()), nd)
    {
      var k := nd / denom;
      if k != 1 {
        for i := 0 to |terms|
          invariant |terms| == |old(terms)| && constant == old(constant) && denom == old(denom)
          invariant forall j :: 0 <= j < i ==>
            terms[j] == LinearTerm(old(terms)[j].factor * k, old(terms)[j].variable, old(terms)[j].lit, nd)
          invariant forall j :: i <= j < |terms| ==> terms[j] == old(terms)[j]
        {
          var t := terms[i];
          terms := terms[i := LinearTerm(t.factor * k, t.variable, t.lit, nd)];
        }
        constant := constant * k;
        denom := nd;
        assert terms == ScaleTerms(old(terms), k, nd);
      }
    }

    /** `add_term`. */
    method AddTerm(t: LinearTerm)
      requires Valid(Contents()) && t.denom != 0
      modifies this
      ensures Contents() == AddTermOf(old(Contents()), t)
    {
      var nd := Lcm(denom, t.denom);
      SetDenom(nd);
      terms := terms + [LinearTerm(t.factor * (nd / t.denom), t.variable, t.lit, nd)];
    }

    /** `add_rational`. */
    method AddRational(num: int, d: int)
      requires Valid(Contents()) && d != 0
      modifies this
      ensures Contents() == AddRationalOf(old(Contents()), num, d)
    {
      var nd := Lcm(denom, d);
      SetDenom(nd);
      constant := constant + num * nd / d;
    }

    /** `+=` (and `+`, which applies `+=` to its left operand): add every term, then the constant. */
    method AddAssign(rhs: Sum)
      requires Valid(Contents()) && Valid(rhs)
      modifies this
      ensures Contents() == AddSumOf(old(Contents()), rhs)
    {
      for i := 0 to |rhs.terms|
        invariant NonZeroDenoms(rhs.terms[..i])
        invariant Contents() == AddTermsOf(old(Contents()), rhs.terms[..i])
        invariant Valid(Contents())
      {
        assert rhs.terms[..i + 1][..i] == rhs.terms[..i];
        AddTerm(rhs.terms[i]);
      }
      assert rhs.terms[..|rhs.terms|] == rhs.terms;
      AddRational(rhs.constant, rhs.denom);
    }

    /** `-=` (and `-`): add the negation of the right-hand side. */
    method SubAssign(rhs: Sum)
      requires Valid(Contents()) && Valid(rhs)
      modifies this
      ensures Contents() == SubOf(old(Contents()), rhs)
    {
      AddAssign(NegOf(rhs));
    }

    /** Unary minus, in place: every term and the constant change sign. */
    method Negate()
      modifies this
      ensures Contents() == NegOf(old(Contents()))
    {
      for i := 0 to |terms|
        invariant |terms| == |old(terms)| && constant == old(constant) && denom == old(denom)
        invariant forall j :: 0 <= j < i ==> terms[j] == NegTerm(old(terms)[j])
        invariant forall j :: i <= j < |terms| ==> terms[j] == old(terms)[j]
      {
        terms := terms[i := NegTerm(terms[i])];
      }
      constant := -constant;
      assert terms == NegOf(old(Contents())).terms;
    }

    /** `leq`: the constraint `self - ub <= 0`; the sum is consumed. */
    method Leq(ub: Sum) returns (l: LinearLeq)
      requires Valid(Contents()) && Valid(ub)
      modifies this
      ensures l == LeqOf(old(Contents()), ub)
    {
      SubAssign(ub);
      l := LinearLeq(Sum(terms, constant, denom), 0);
    }

    /** `geq`: `(-self).leq(-lb)`; the sum is consumed. */
    method Geq(lb: Sum) returns (l: LinearLeq)
      requires Valid(Contents()) && Valid(lb)
      modifies this
      ensures l == GeqOf(old(Contents()), lb)
    {
      Negate();
      l := Leq(NegOf(lb));
    }
  }
}
