/**
 * Rational linear sums of the modelling language (solver/src/model/lang/linear.rs).
 *
 * A `LinearSum` denotes `a1/b * X1 + ... + an/b * Xn + Y/b`: every term keeps its own
 * numerator `ai`, and all terms share the sum's denominator `b` (the invariant `Valid`).
 * Adding a term or a rational constant first rescales the whole sum to the least common
 * multiple of the two denominators, so that the represented rational value is unchanged.
 * A `LinearLeq` (`sum <= ub`) is turned into the integer normal form `NFLinearLeq`, whose
 * items merge the terms with the same variable and literal.
 *
 * The model is split in two: this module holds the values (terms, the contents of a sum,
 * normal forms), the functions that specify each operation and the lemmas about the
 * represented value; module `LinearSums` holds the mutable `LinearSum` object whose
 * methods perform those operations in place.
 */
module Linear {
  import opened Wrappers
  import opened Lits
  import opened Atoms

  // ---------------------------------------------------------------------------
  // Least common multiple (num_integer::lcm)
  // ---------------------------------------------------------------------------

  function Abs(x: int): (r: nat)
    ensures r == x || r == -x
  {
    if x < 0 then -x else x
  }

  /** The first multiple `a * j`, `k <= j <= b`, that `b` divides (`a * b` at the latest). */
  function LcmSearch(a: nat, b: nat, k: nat): (r: nat)
    requires 0 < a && 0 < b && 1 <= k <= b
    ensures 0 < r && r % a == 0 && r % b == 0
    decreases b - k
  {
    if k == b || (a * k) % b == 0 then
      MulMod(a, k);
      MulMod(b, a);
      a * k
    else
      LcmSearch(a, b, k + 1)
  }

  /** The least common multiple of two non-zero integers; it is positive whatever their signs. */
  function Lcm(a: int, b: int): (r: int)
    requires a != 0 && b != 0
    ensures 0 < r && r % a == 0 && r % b == 0
  {
    var r := LcmSearch(Abs(a), Abs(b), 1);
    ModAbs(r, a);
    ModAbs(r, b);
    r
  }

  lemma {:induction false} MulMod(a: nat, k: nat)
    requires 0 < a
    ensures (a * k) % a == 0 && (k * a) % a == 0 && (a * k) / a == k
  {
    ModUnique(a * k, a, k, 0);
  }

  /** Euclidean division is unique: a quotient and remainder in range are the ones Dafny computes. */
  lemma {:induction false} ModUnique(m: int, d: int, q: int, r: int)
    requires 0 < d && 0 <= r < d && m == d * q + r
    ensures m % d == r && m / d == q
  {
    var q0, r0 := m / d, m % d;
    assert m == d * q0 + r0;
    assert d * (q - q0) == r0 - r;
    MulAtLeast(d, q - q0);
  }

  /** A non-zero multiple of a positive `d` is at least `d` away from zero. */
  lemma {:induction false} MulAtLeast(d: int, t: int)
    requires 0 < d
    ensures 1 <= t ==> d <= d * t
    ensures t <= -1 ==> d * t <= -d
  {
  }

  /** Divisibility by `a` and by `|a|` agree. */
  lemma {:induction false} ModAbs(m: int, a: int)
    requires a != 0
    ensures m % a == 0 <==> m % Abs(a) == 0
  {
    if a < 0 {
      if m % a == 0 {
        assert m == a * (m / a);
        ModUnique(m, Abs(a), -(m / a), 0);
      }
      if m % Abs(a) == 0 {
        assert m == Abs(a) * (m / Abs(a));
        assert m == a * (-(m / Abs(a))) + 0;
        DivisorNegative(m, a, -(m / Abs(a)));
      }
    }
  }

  lemma {:induction false} DivisorNegative(m: int, a: int, q: int)
    requires a < 0 && m == a * q
    ensures m % a == 0 && m / a == q
  {
    var q0, r0 := m / a, m % a;
    assert m == a * q0 + r0 && 0 <= r0 < -a;
    assert (-a) * (q0 - q) == r0;
    MulAtLeast(-a, q0 - q);
  }

  /** No positive common multiple of `a` and `b` is smaller than `Lcm(a, b)`. */
  lemma {:induction false} LcmLeast(a: int, b: int, m: int)
    requires a != 0 && b != 0 && 0 < m && m % a == 0 && m % b == 0
    ensures Lcm(a, b) <= m
  {
    ModAbs(m, a);
    ModAbs(m, b);
    var j := m / Abs(a);
    assert m == Abs(a) * j;
    MulAtLeast(Abs(a), 1 - j);
    LcmSearchLeast(Abs(a), Abs(b), 1, j);
  }

  lemma {:induction false} LcmSearchLeast(a: nat, b: nat, k: nat, j: nat)
    requires 0 < a && 0 < b && 1 <= k <= b && k <= j && (a * j) % b == 0
    ensures LcmSearch(a, b, k) <= a * j
    decreases b - k
  {
    if k == b || (a * k) % b == 0 {
      assert a * k <= a * j;
    } else {
      assert k != j;
      LcmSearchLeast(a, b, k + 1, j);
    }
  }

  /** `d` divides `m` exactly: `m / d` times `d` is `m`, for either sign of `d`. */
  lemma {:induction false} DivExact(m: int, d: int)
    requires d != 0 && m % d == 0
    ensures m == d * (m / d)
  {
  }

  /** The source's example: the lcm of 28 and 77 is 308. */
  lemma {:induction false} LcmExamples()
    ensures Lcm(28, 77) == 308
  {
  }

  // ---------------------------------------------------------------------------
  // Terms and the rational value they denote
  // ---------------------------------------------------------------------------

  /**
   * `factor/denom * var`, counted only when `lit` holds; a term without a variable
   * stands for the constant `factor/denom`.
   */
  datatype LinearTerm = LinearTerm(factor: int, variable: Option<IVar>, lit: Lit, denom: int)

  /** The value of the variable part: 1 when there is no variable. */
  function Base(v: Option<VarRef>, val: VarRef -> int): int
  {
    match v
    case None => 1
    case Some(x) => val(x)
  }

  /** Numerator of a term under a valuation: `factor * var` when the literal holds, else 0. */
  function TermNum(t: LinearTerm, val: VarRef -> int): int
  {
    if Holds(t.lit, val) then t.factor * Base(t.variable, val) else 0
  }

  ghost function TermValue(t: LinearTerm, val: VarRef -> int): real
    requires t.denom != 0
  {
    TermNum(t, val) as real / t.denom as real
  }

  /** Negation of a term (the `Neg` operator): the factor changes sign, the rest is kept. */
  function NegTerm(t: LinearTerm): (r: LinearTerm)
    ensures r.variable == t.variable && r.lit == t.lit && r.denom == t.denom
    ensures forall val :: t.denom != 0 ==> TermValue(r, val) == -TermValue(t, val)
  {
    LinearTerm(-t.factor, t.variable, t.lit, t.denom)
  }

  ghost predicate NonZeroDenoms(ts: seq<LinearTerm>)
  {
    forall i :: 0 <= i < |ts| ==> ts[i].denom != 0
  }

  ghost function TermsValue(ts: seq<LinearTerm>, val: VarRef -> int): real
    requires NonZeroDenoms(ts)
  {
    if ts == [] then 0.0 else TermsValue(ts[..|ts| - 1], val) + TermValue(ts[|ts| - 1], val)
  }

  // ---------------------------------------------------------------------------
  // The contents of a linear sum, and the functions that specify its operations
  // ---------------------------------------------------------------------------

  /** The fields of a `LinearSum`: its terms, the numerator of its constant and its denominator. */
  datatype Sum = Sum(terms: seq<LinearTerm>, constant: int, denom: int)

  /** The invariant of a sum: a non-zero denominator shared by every term. */
  ghost predicate Valid(s: Sum)
  {
    && s.denom != 0
    && forall i :: 0 <= i < |s.terms| ==> s.terms[i].denom == s.denom
  }

  /** The rational number a valid sum denotes under a valuation of the variables. */
  ghost function Value(s: Sum, val: VarRef -> int): real
    requires Valid(s)
  {
    TermsValue(s.terms, val) + s.constant as real / s.denom as real
  }

  function ScaleTerms(ts: seq<LinearTerm>, k: int, nd: int): (r: seq<LinearTerm>)
    ensures |r| == |ts|
  {
    seq(|ts|, i requires 0 <= i < |ts| => LinearTerm(ts[i].factor * k, ts[i].variable, ts[i].lit, nd))
  }

  /**
   * `set_denom`: rescale a sum to a denominator that is a multiple of its own. When the
   * scaling factor is 1 nothing changes.
   */
  function SetDenomOf(s: Sum, nd: int): (r: Sum)
    requires s.denom != 0 && nd != 0 && nd % s.denom == 0
    ensures r.denom == nd && |r.terms| == |s.terms|
    ensures Valid(s) ==> Valid(r)
  {
    var k := nd / s.denom;
    DivExact(nd, s.denom);
    if k != 1 then Sum(ScaleTerms(s.terms, k, nd), s.constant * k, nd) else s
  }

  /** `add_term`: rescale to the lcm of the denominators, then append the rescaled term. */
  function AddTermOf(s: Sum, t: LinearTerm): (r: Sum)
    requires s.denom != 0 && t.denom != 0
    ensures r.denom == Lcm(s.denom, t.denom) && |r.terms| == |s.terms| + 1
    ensures Valid(s) ==> Valid(r)
  {
    var nd := Lcm(s.denom, t.denom);
    var s1 := SetDenomOf(s, nd);
    Sum(s1.terms + [LinearTerm(t.factor * (nd / t.denom), t.variable, t.lit, nd)], s1.constant, nd)
  }

  /** `add_rational`: rescale to the lcm of the denominators, then add `num/d` to the constant. */
  function AddRationalOf(s: Sum, num: int, d: int): (r: Sum)
    requires s.denom != 0 && d != 0
    ensures r.denom == Lcm(s.denom, d) && |r.terms| == |s.terms|
    ensures Valid(s) ==> Valid(r)
  {
    var nd := Lcm(s.denom, d);
    var s1 := SetDenomOf(s, nd);
    Sum(s1.terms, s1.constant + num * nd / d, nd)
  }

  /** Adding the terms `ts` one after the other, as `+=` does before adding the constant. */
  function AddTermsOf(s: Sum, ts: seq<LinearTerm>): (r: Sum)
    requires s.denom != 0 && NonZeroDenoms(ts)
    ensures r.denom != 0 && |r.terms| == |s.terms| + |ts|
    ensures Valid(s) ==> Valid(r)
  {
    if ts == [] then s else AddTermOf(AddTermsOf(s, ts[..|ts| - 1]), ts[|ts| - 1])
  }

  /** `+=`: add every term of `rhs`, then its constant `rhs.constant / rhs.denom`. */
  function AddSumOf(s: Sum, rhs: Sum): (r: Sum)
    requires s.denom != 0 && rhs.denom != 0 && NonZeroDenoms(rhs.terms)
    ensures 0 < r.denom && |r.terms| == |s.terms| + |rhs.terms|
    ensures Valid(s) ==> Valid(r)
  {
    AddRationalOf(AddTermsOf(s, rhs.terms), rhs.constant, rhs.denom)
  }

  /** Unary minus on a sum: every term and the constant change sign, the denominator is kept. */
  function NegOf(s: Sum): (r: Sum)
    ensures r.denom == s.denom && |r.terms| == |s.terms|
    ensures Valid(s) ==> Valid(r)
  {
    Sum(seq(|s.terms|, i requires 0 <= i < |s.terms| => NegTerm(s.terms[i])), -s.constant, s.denom)
  }

  /** `a - b` is `a + (-b)`; `-=` does the same. */
  function SubOf(s: Sum, rhs: Sum): (r: Sum)
    requires Valid(s) && Valid(rhs)
    ensures 0 < r.denom && Valid(r)
  {
    AddSumOf(s, NegOf(rhs))
  }

  /** `with_lit`: every term of the sum becomes conditioned by `lit`. */
  function WithLitOf(s: Sum, lit: Lit): (r: Sum)
    ensures r.constant == s.constant && r.denom == s.denom && |r.terms| == |s.terms|
    ensures forall i :: 0 <= i < |r.terms| ==>
      r.terms[i] == LinearTerm(s.terms[i].factor, s.terms[i].variable, lit, s.terms[i].denom)
  {
    Sum(seq(|s.terms|, i requires 0 <= i < |s.terms| =>
          LinearTerm(s.terms[i].factor, s.terms[i].variable, lit, s.terms[i].denom)),
        s.constant, s.denom)
  }

  /** The sum `0`. */
  const ZeroSum := Sum([], 0, 1)

  /** `LinearSum::of`: the elements added one after the other to `0`. */
  function OfSums(elements: seq<Sum>): (r: Sum)
    requires forall i :: 0 <= i < |elements| ==> Valid(elements[i])
    ensures Valid(r)
  {
    if elements == [] then ZeroSum
    else
      var last := elements[|elements| - 1];
      assert Valid(last);
      AddSumOf(OfSums(elements[..|elements| - 1]), last)
  }

  /**
   * The sum an atom `(var + shift) / d` converts to (`From<FAtom>`; `From<IAtom>` is the case
   * `d = 1`): the variable's term, to which the constant term `shift / d` is added with `+=`.
   */
  function AtomSum(v: IVar, shift: int, d: int): (r: Sum)
    requires d != 0
    ensures Valid(r)
  {
    AddSumOf(Sum([LinearTerm(1, Some(v), TRUE, d)], 0, d), Sum([LinearTerm(shift, None, TRUE, d)], 0, d))
  }

  /** `sum <= ub`. */
  datatype LinearLeq = LinearLeq(sum: Sum, ub: int)

  /** `leq`: `self - ub <= 0`. */
  function LeqOf(s: Sum, ub: Sum): (r: LinearLeq)
    requires Valid(s) && Valid(ub)
    ensures r.ub == 0 && Valid(r.sum) && 0 < r.sum.denom
  {
    LinearLeq(SubOf(s, ub), 0)
  }

  /** `geq`: `(-self).leq(-lb)`. */
  function GeqOf(s: Sum, lb: Sum): (r: LinearLeq)
    requires Valid(s) && Valid(lb)
    ensures r.ub == 0 && Valid(r.sum) && 0 < r.sum.denom
  {
    LeqOf(NegOf(s), NegOf(lb))
  }

  // ---------------------------------------------------------------------------
  // The represented value
  // ---------------------------------------------------------------------------

  /** Scaling numerator and denominator by the same non-zero `k` leaves a fraction unchanged. */
  lemma {:induction false} Cancel(n: int, d: int, k: int)
    requires d != 0 && k != 0
    ensures (k * n) as real / (d * k) as real == n as real / d as real
  {
    assert (k * n) as real == k as real * n as real;
    assert (d * k) as real == d as real * k as real;
  }

  lemma {:induction false} TermsValueSnoc(ts: seq<LinearTerm>, t: LinearTerm, val: VarRef -> int)
    requires NonZeroDenoms(ts) && t.denom != 0
    ensures NonZeroDenoms(ts + [t])
    ensures TermsValue(ts + [t], val) == TermsValue(ts, val) + TermValue(t, val)
  {
    assert (ts + [t])[..|ts|] == ts;
  }

  /** Rescaling every term by `k` (numerators times `k`, denominators `d * k`) keeps their value. */
  lemma {:induction false} ScaleTermsValue(ts: seq<LinearTerm>, k: int, d: int, nd: int, val: VarRef -> int)
    requires k != 0 && d != 0 && nd == d * k
    requires forall i :: 0 <= i < |ts| ==> ts[i].denom == d
    ensures NonZeroDenoms(ScaleTerms(ts, k, nd))
    ensures TermsValue(ScaleTerms(ts, k, nd), val) == TermsValue(ts, val)
  {
    if ts != [] {
      var n := |ts| - 1;
      var t, t' := ts[n], ScaleTerms(ts, k, nd)[n];
      assert ScaleTerms(ts, k, nd)[..n] == ScaleTerms(ts[..n], k, nd);
      ScaleTermsValue(ts[..n], k, d, nd, val);
      assert TermNum(t', val) == k * TermNum(t, val);
      Cancel(TermNum(t, val), d, k);
    }
  }

  /** `set_denom` does not change the value of the sum. */
  lemma {:induction false} SetDenomValue(s: Sum, nd: int, val: VarRef -> int)
    requires Valid(s) && nd != 0 && nd % s.denom == 0
    ensures Value(SetDenomOf(s, nd), val) == Value(s, val)
  {
    var k := nd / s.denom;
    DivExact(nd, s.denom);
    if k != 1 {
      ScaleTermsValue(s.terms, k, s.denom, nd, val);
      Cancel(s.constant, s.denom, k);
      assert s.constant * k == k * s.constant;
    }
  }

  /** `add_term` adds the value of the term to the value of the sum. */
  lemma {:induction false} AddTermValue(s: Sum, t: LinearTerm, val: VarRef -> int)
    requires Valid(s) && t.denom != 0
    ensures Value(AddTermOf(s, t), val) == Value(s, val) + TermValue(t, val)
  {
    var nd := Lcm(s.denom, t.denom);
    var s1 := SetDenomOf(s, nd);
    SetDenomValue(s, nd, val);
    DivExact(nd, t.denom);
    var t' := LinearTerm(t.factor * (nd / t.denom), t.variable, t.lit, nd);
    RescaledTermValue(t, nd / t.denom, nd, val);
    TermsValueSnoc(s1.terms, t', val);
    assert AddTermOf(s, t) == Sum(s1.terms + [t'], s1.constant, nd);
  }

  lemma {:induction false} RescaledTermValue(t: LinearTerm, k: int, nd: int, val: VarRef -> int)
    requires t.denom != 0 && k != 0 && nd == t.denom * k
    ensures TermValue(LinearTerm(t.factor * k, t.variable, t.lit, nd), val) == TermValue(t, val)
  {
    var t' := LinearTerm(t.factor * k, t.variable, t.lit, nd);
    assert TermNum(t', val) == k * TermNum(t, val);
    Cancel(TermNum(t, val), t.denom, k);
  }

  /** `add_rational` adds `num/d` to the value of the sum. */
  lemma {:induction false} AddRationalValue(s: Sum, num: int, d: int, val: VarRef -> int)
    requires Valid(s) && d != 0
    ensures Value(AddRationalOf(s, num, d), val) == Value(s, val) + num as real / d as real
  {
    var nd := Lcm(s.denom, d);
    var s1 := SetDenomOf(s, nd);
    SetDenomValue(s, nd, val);
    DivExact(nd, d);
    ConstantStep(s1.constant, num, d, nd / d, nd);
  }

  /** The constant `c/nd` plus `num/d`, written over the common denominator `nd = d * k`. */
  lemma {:induction false} ConstantStep(c: int, num: int, d: int, k: int, nd: int)
    requires d != 0 && k != 0 && nd == d * k
    ensures (c + num * nd / d) as real / nd as real == c as real / nd as real + num as real / d as real
  {
    assert num * nd / d == k * num by {
      assert num * nd == d * (k * num);
      MulModSigned(k * num, d);
    }
    AddDiv(c, k * num, nd);
    Cancel(num, d, k);
  }

  lemma {:induction false} AddDiv(a: int, b: int, n: int)
    requires n != 0
    ensures (a + b) as real / n as real == a as real / n as real + b as real / n as real
  {
  }

  /** `(d * q) / d == q` for a divisor of either sign. */
  lemma {:induction false} MulModSigned(q: int, d: int)
    requires d != 0
    ensures (d * q) / d == q
  {
    if d > 0 {
      ModUnique(d * q, d, q, 0);
    } else {
      DivisorNegative(d * q, d, q);
    }
  }

  /** `+=` of terms adds the value of each term. */
  lemma {:induction false} AddTermsValue(s: Sum, ts: seq<LinearTerm>, val: VarRef -> int)
    requires Valid(s) && NonZeroDenoms(ts)
    ensures Value(AddTermsOf(s, ts), val) == Value(s, val) + TermsValue(ts, val)
  {
    if ts != [] {
      var n := |ts| - 1;
      AddTermsValue(s, ts[..n], val);
      AddTermValue(AddTermsOf(s, ts[..n]), ts[n], val);
    }
  }

  /** `self += rhs` adds the value of `rhs` to the value of `self`. */
  lemma {:induction false} AddSumValue(s: Sum, rhs: Sum, val: VarRef -> int)
    requires Valid(s) && Valid(rhs)
    ensures Value(AddSumOf(s, rhs), val) == Value(s, val) + Value(rhs, val)
  {
    AddTermsValue(s, rhs.terms, val);
    AddRationalValue(AddTermsOf(s, rhs.terms), rhs.constant, rhs.denom, val);
  }

  lemma {:induction false} NegTermsValue(ts: seq<LinearTerm>, val: VarRef -> int)
    requires NonZeroDenoms(ts)
    ensures NonZeroDenoms(NegOf(Sum(ts, 0, 1)).terms)
    ensures TermsValue(NegOf(Sum(ts, 0, 1)).terms, val) == -TermsValue(ts, val)
  {
    if ts != [] {
      var n := |ts| - 1;
      assert NegOf(Sum(ts, 0, 1)).terms[..n] == NegOf(Sum(ts[..n], 0, 1)).terms;
      NegTermsValue(ts[..n], val);
    }
  }

  /** Negation negates the value of a sum. */
  lemma {:induction false} NegValue(s: Sum, val: VarRef -> int)
    requires Valid(s)
    ensures Value(NegOf(s), val) == -Value(s, val)
  {
    assert NegOf(s).terms == NegOf(Sum(s.terms, 0, 1)).terms;
    NegTermsValue(s.terms, val);
    NegDiv(s.constant, s.denom);
  }

  lemma {:induction false} NegDiv(c: int, d: int)
    requires d != 0
    ensures (-c) as real / d as real == -(c as real / d as real)
  {
  }

  /** Negating a sum twice gives it back. */
  lemma {:induction false} NegInvolutive(s: Sum)
    ensures NegOf(NegOf(s)) == s
  {
    assert NegOf(NegOf(s)).terms == s.terms;
  }

  /** `a - b` (and `a -= b`) subtracts the value of `b`. */
  lemma {:induction false} SubValue(s: Sum, rhs: Sum, val: VarRef -> int)
    requires Valid(s) && Valid(rhs)
    ensures Value(SubOf(s, rhs), val) == Value(s, val) - Value(rhs, val)
  {
    NegValue(rhs, val);
    AddSumValue(s, NegOf(rhs), val);
  }

  ghost function ValuesSum(elements: seq<Sum>, val: VarRef -> int): real
    requires forall i :: 0 <= i < |elements| ==> Valid(elements[i])
  {
    if elements == [] then 0.0
    else ValuesSum(elements[..|elements| - 1], val) + Value(elements[|elements| - 1], val)
  }

  /** `LinearSum::of` denotes the sum of the values of its elements. */
  lemma {:induction false} OfValue(elements: seq<Sum>, val: VarRef -> int)
    requires forall i :: 0 <= i < |elements| ==> Valid(elements[i])
    ensures Value(OfSums(elements), val) == ValuesSum(elements, val)
  {
    if elements != [] {
      var n := |elements| - 1;
      OfValue(elements[..n], val);
      assert Valid(elements[n]);
      AddSumValue(OfSums(elements[..n]), elements[n], val);
    }
  }

  lemma {:induction false} WithLitTermsValue(ts: seq<LinearTerm>, lit: Lit, val: VarRef -> int)
    requires NonZeroDenoms(ts)
    ensures NonZeroDenoms(WithLitOf(Sum(ts, 0, 1), lit).terms)
    ensures !Holds(lit, val) ==> TermsValue(WithLitOf(Sum(ts, 0, 1), lit).terms, val) == 0.0
    ensures (Holds(lit, val) && forall i :: 0 <= i < |ts| ==> Holds(ts[i].lit, val)) ==>
      TermsValue(WithLitOf(Sum(ts, 0, 1), lit).terms, val) == TermsValue(ts, val)
  {
    if ts != [] {
      var n := |ts| - 1;
      assert WithLitOf(Sum(ts, 0, 1), lit).terms[..n] == WithLitOf(Sum(ts[..n], 0, 1), lit).terms;
      WithLitTermsValue(ts[..n], lit, val);
    }
  }

  /**
   * `with_lit`: when `lit` is false every term is ignored and only the constant remains;
   * when `lit` and the former literals all hold, the value is unchanged.
   */
  lemma {:induction false} WithLitValue(s: Sum, lit: Lit, val: VarRef -> int)
    requires Valid(s)
    ensures Valid(WithLitOf(s, lit))
    ensures !Holds(lit, val) ==> Value(WithLitOf(s, lit), val) == s.constant as real / s.denom as real
    ensures (Holds(lit, val) && forall i :: 0 <= i < |s.terms| ==> Holds(s.terms[i].lit, val)) ==>
      Value(WithLitOf(s, lit), val) == Value(s, val)
  {
    assert WithLitOf(s, lit).terms == WithLitOf(Sum(s.terms, 0, 1), lit).terms;
    WithLitTermsValue(s.terms, lit, val);
  }

  /** Numerator and denominator of every term, in order. */
  function Fractions(s: Sum): (r: seq<(int, int)>)
    ensures |r| == |s.terms|
  {
    seq(|s.terms|, i requires 0 <= i < |s.terms| => (s.terms[i].factor, s.terms[i].denom))
  }

  /**
   * The source's examples of `+` and `-` on sums with denominators 28 and 77: both operands are
   * rescaled to 308, the right-hand side's terms are appended (negated for `-`).
   */
  lemma {:induction false} DifferentDenominators(x: IVar, y: IVar)
    ensures var s1 := Sum([LinearTerm(1, Some(x), TRUE, 28), LinearTerm(140, None, TRUE, 28)], 0, 28);
            var s2 := Sum([LinearTerm(1, Some(y), TRUE, 77), LinearTerm(770, None, TRUE, 77)], 0, 77);
            && Fractions(AddSumOf(s1, s2)) == [(11, 308), (1540, 308), (4, 308), (3080, 308)]
            && AddSumOf(s1, s2).constant == 0 && AddSumOf(s1, s2).denom == 308
            && Fractions(SubOf(s1, s2)) == [(11, 308), (1540, 308), (-4, 308), (-3080, 308)]
  {
    var s1 := Sum([LinearTerm(1, Some(x), TRUE, 28), LinearTerm(140, None, TRUE, 28)], 0, 28);
    var s2 := Sum([LinearTerm(1, Some(y), TRUE, 77), LinearTerm(770, None, TRUE, 77)], 0, 77);
    LcmExamples();
    assert Lcm(308, 77) == 308;
    SumExample(s1, s2, x, y);
    var n2 := NegOf(s2);
    assert n2.terms == [LinearTerm(-1, Some(y), TRUE, 77), LinearTerm(-770, None, TRUE, 77)];
    SumExample(s1, n2, x, y);
  }

  lemma {:induction false} SumExample(s1: Sum, s2: Sum, x: IVar, y: IVar)
    requires s1 == Sum([LinearTerm(1, Some(x), TRUE, 28), LinearTerm(140, None, TRUE, 28)], 0, 28)
    requires s2.denom == 77 && s2.constant == 0 && |s2.terms| == 2
    requires s2.terms[0].denom == 77 && s2.terms[1].denom == 77
    requires Lcm(28, 77) == 308 && Lcm(308, 77) == 308
    ensures Fractions(AddSumOf(s1, s2))
      == [(11, 308), (1540, 308), (4 * s2.terms[0].factor, 308), (4 * s2.terms[1].factor, 308)]
    ensures AddSumOf(s1, s2).constant == 0 && AddSumOf(s1, s2).denom == 308
  {
    var a := AddTermOf(s1, s2.terms[0]);
    assert SetDenomOf(s1, 308).terms == ScaleTerms(s1.terms, 11, 308);
    assert Fractions(a) == [(11, 308), (1540, 308), (4 * s2.terms[0].factor, 308)];
    assert a.constant == 0 && a.denom == 308;
    var b := AddTermOf(a, s2.terms[1]);
    assert SetDenomOf(a, 308) == a;
    assert Fractions(b) == Fractions(a) + [(4 * s2.terms[1].factor, 308)];
    assert s2.terms == [s2.terms[0], s2.terms[1]];
    AddTwoTerms(s1, s2.terms[0], s2.terms[1]);
    assert SetDenomOf(b, 308) == b;
  }

  lemma {:induction false} AddTwoTerms(s: Sum, t0: LinearTerm, t1: LinearTerm)
    requires s.denom != 0 && t0.denom != 0 && t1.denom != 0
    ensures AddTermsOf(s, [t0, t1]) == AddTermOf(AddTermOf(s, t0), t1)
  {
    assert [t0, t1][..1] == [t0];
    assert [t0][..0] == [];
    assert AddTermsOf(s, [t0]) == AddTermOf(AddTermsOf(s, []), t0);
    assert AddTermsOf(s, [t0, t1]) == AddTermOf(AddTermsOf(s, [t0]), t1);
  }

  // ---------------------------------------------------------------------------
  // Normal form: NFLinearLeq
  // ---------------------------------------------------------------------------

  /** `NFLinearSumItem`: `factor * variable`, counted only when `lit` holds. */
  datatype Item = Item(variable: Option<VarRef>, factor: int, lit: Lit)

  /** `NFLinearLeq`: the sum of the items is at most `upperBound`. */
  datatype NFLinearLeq = NFLinearLeq(sum: seq<Item>, upperBound: int)

  /** Items with the same variable and literal are merged. */
  type Key = (Option<VarRef>, Lit)

  function KeyOf(it: Item): Key
  {
    (it.variable, it.lit)
  }

  /** What one unit of factor on a key is worth: the variable's value if the literal holds, else 0. */
  function Unit(k: Key, val: VarRef -> int): int
  {
    if Holds(k.1, val) then Base(k.0, val) else 0
  }

  function ItemSum(items: seq<Item>, val: VarRef -> int): int
  {
    if items == [] then 0
    else
      var last := items[|items| - 1];
      ItemSum(items[..|items| - 1], val) + last.factor * Unit(KeyOf(last), val)
  }

  ghost predicate NFHolds(nf: NFLinearLeq, val: VarRef -> int)
  {
    ItemSum(nf.sum, val) <= nf.upperBound
  }

  /** The sum of the factors of the items with key `k`. */
  function FactorOf(items: seq<Item>, k: Key): int
  {
    if items == [] then 0
    else
      var last := items[|items| - 1];
      FactorOf(items[..|items| - 1], k) + (if KeyOf(last) == k then last.factor else 0)
  }

  function KeysOf(items: seq<Item>): set<Key>
  {
    set i | 0 <= i < |items| :: KeyOf(items[i])
  }

  ghost predicate DistinctKeys(items: seq<Item>)
  {
    forall i, j :: 0 <= i < j < |items| ==> KeyOf(items[i]) != KeyOf(items[j])
  }

  /**
   * `r` merges the items of `src`: one item per key of `src`, whose factor is the sum of the
   * factors of `src` with that key.
   */
  ghost predicate GroupedFrom(src: seq<Item>, r: seq<Item>)
  {
    && DistinctKeys(r)
    && KeysOf(r) == KeysOf(src)
    && forall i :: 0 <= i < |r| ==> r[i].factor == FactorOf(src, KeyOf(r[i]))
  }

  lemma {:induction false} KeysOfSnoc(items: seq<Item>, x: Item)
    ensures KeysOf(items + [x]) == KeysOf(items) + {KeyOf(x)}
  {
    var l := items + [x];
    forall k | k in KeysOf(l) ensures k in KeysOf(items) + {KeyOf(x)} {
      var i :| 0 <= i < |l| && KeyOf(l[i]) == k;
      if i < |items| { assert KeyOf(items[i]) == k; }
    }
    forall k | k in KeysOf(items) ensures k in KeysOf(l) {
      var i :| 0 <= i < |items| && KeyOf(items[i]) == k;
      assert KeyOf(l[i]) == k;
    }
    assert KeyOf(l[|items|]) == KeyOf(x);
  }

  lemma {:induction false} NoKeys()
    ensures KeysOf([]) == {} && DistinctKeys([])
  {
  }

  lemma {:induction false} DistinctSnoc(items: seq<Item>, x: Item)
    requires DistinctKeys(items) && KeyOf(x) !in KeysOf(items)
    ensures DistinctKeys(items + [x]) && KeysOf(items + [x]) == KeysOf(items) + {KeyOf(x)}
    ensures forall i :: 0 <= i < |items| ==> (items + [x])[i] == items[i]
  {
    KeysOfSnoc(items, x);
    forall i | 0 <= i < |items| ensures KeyOf(items[i]) != KeyOf(x) {
      assert KeyOf(items[i]) in KeysOf(items);
    }
  }

  lemma {:induction false} FactorOfAbsent(items: seq<Item>, k: Key)
    requires k !in KeysOf(items)
    ensures FactorOf(items, k) == 0
  {
    if items != [] {
      var n := |items| - 1;
      KeysOfSnoc(items[..n], items[n]);
      assert items[..n] + [items[n]] == items;
      FactorOfAbsent(items[..n], k);
    }
  }

  /**
   * The BTreeMap accumulation shared by the conversion to normal form and by `simplify`:
   * the factors are summed per key, then the entries are listed.
   */
  method Group(src: seq<Item>) returns (r: seq<Item>)
    ensures GroupedFrom(src, r)
  {
    var factors := Accumulate(src);
    r := Entries(factors);
  }

  /** `entry(key).and_modify(|f| *f += factor).or_insert(factor)` for every item in turn. */
  method Accumulate(src: seq<Item>) returns (factors: map<Key, int>)
    ensures factors.Keys == KeysOf(src)
    ensures forall k :: k in factors ==> factors[k] == FactorOf(src, k)
  {
    factors := map[];
    for i := 0 to |src|
      invariant factors.Keys == KeysOf(src[..i])
      invariant forall k :: k in factors ==> factors[k] == FactorOf(src[..i], k)
    {
      var k := KeyOf(src[i]);
      assert src[..i + 1] == src[..i] + [src[i]];
      KeysOfSnoc(src[..i], src[i]);
      if k !in factors {
        FactorOfAbsent(src[..i], k);
      }
      factors := factors[k := if k in factors then factors[k] + src[i].factor else src[i].factor];
    }
    assert src[..|src|] == src;
  }

  /** The entries of the map as items, one per key (the map's key order is not modelled). */
  method Entries(factors: map<Key, int>) returns (r: seq<Item>)
    ensures DistinctKeys(r) && KeysOf(r) == factors.Keys
    ensures forall i :: 0 <= i < |r| ==> r[i].factor == factors[KeyOf(r[i])]
  {
    hide KeysOf, DistinctKeys;
    r := [];
    var rest := factors.Keys;
    NoKeys();
    while rest != {}
      invariant rest <= factors.Keys
      invariant KeysOf(r) + rest == factors.Keys && KeysOf(r) !! rest
      invariant DistinctKeys(r)
      invariant forall i :: 0 <= i < |r| ==> KeyOf(r[i]) in factors && r[i].factor == factors[KeyOf(r[i])]
      decreases |rest|
    {
      var k :| k in rest;
      var it := Item(k.0, factors[k], k.1);
      DistinctSnoc(r, it);
      r := r + [it];
      rest := rest - {k};
    }
  }

  // The value of a merged sum: items weighted by the total factor of their key.

  function KeySeq(items: seq<Item>): (r: seq<Key>)
    ensures |r| == |items|
  {
    seq(|items|, i requires 0 <= i < |items| => KeyOf(items[i]))
  }

  ghost predicate DistinctSeq(ks: seq<Key>)
  {
    forall i, j :: 0 <= i < j < |ks| ==> ks[i] != ks[j]
  }

  /** Sum, over the keys `ks`, of the total factor of each key in `src` times its unit value. */
  ghost function Weighted(ks: seq<Key>, src: seq<Item>, val: VarRef -> int): int
  {
    if ks == [] then 0
    else
      var k := ks[|ks| - 1];
      Weighted(ks[..|ks| - 1], src, val) + FactorOf(src, k) * Unit(k, val)
  }

  lemma {:induction false} WeightedNoSource(ks: seq<Key>, val: VarRef -> int)
    ensures Weighted(ks, [], val) == 0
  {
    if ks != [] {
      WeightedNoSource(ks[..|ks| - 1], val);
    }
  }

  lemma {:induction false} Distribute(a: int, b: int, u: int)
    ensures (a + b) * u == a * u + b * u
  {
  }

  lemma {:induction false} WeightedSnocSource(ks: seq<Key>, src: seq<Item>, x: Item, val: VarRef -> int)
    requires DistinctSeq(ks)
    ensures Weighted(ks, src + [x], val)
         == Weighted(ks, src, val) + (if KeyOf(x) in ks then x.factor * Unit(KeyOf(x), val) else 0)
  {
    if ks != [] {
      var n := |ks| - 1;
      var k := ks[n];
      WeightedSnocSource(ks[..n], src, x, val);
      assert (src + [x])[..|src|] == src;
      var extra := if KeyOf(x) == k then x.factor else 0;
      assert FactorOf(src + [x], k) == FactorOf(src, k) + extra;
      Distribute(FactorOf(src, k), extra, Unit(k, val));
      assert KeyOf(x) in ks <==> KeyOf(x) in ks[..n] || KeyOf(x) == k by {
        assert ks == ks[..n] + [k];
      }
      if KeyOf(x) == k {
        assert k !in ks[..n];
      }
    }
  }

  /** Over distinct keys covering every key of `src`, the weighted sum is the sum of `src`. */
  lemma {:induction false} WeightedCovers(ks: seq<Key>, src: seq<Item>, val: VarRef -> int)
    requires DistinctSeq(ks) && forall k :: k in KeysOf(src) ==> k in ks
    ensures Weighted(ks, src, val) == ItemSum(src, val)
  {
    if src == [] {
      WeightedNoSource(ks, val);
    } else {
      var n := |src| - 1;
      assert src == src[..n] + [src[n]];
      KeysOfSnoc(src[..n], src[n]);
      WeightedCovers(ks, src[..n], val);
      WeightedSnocSource(ks, src[..n], src[n], val);
    }
  }

  lemma {:induction false} WeightedAppend(ks1: seq<Key>, ks2: seq<Key>, src: seq<Item>, val: VarRef -> int)
    ensures Weighted(ks1 + ks2, src, val) == Weighted(ks1, src, val) + Weighted(ks2, src, val)
  {
    if ks2 != [] {
      var n := |ks2| - 1;
      assert (ks1 + ks2)[..|ks1| + n] == ks1 + ks2[..n];
      WeightedAppend(ks1, ks2[..n], src, val);
    } else {
      assert ks1 + ks2 == ks1;
    }
  }

  /** Items whose factors are the totals of their keys in `src` sum to the weighted sum. */
  lemma {:induction false} ItemsWeighted(r: seq<Item>, src: seq<Item>, val: VarRef -> int)
    requires forall i :: 0 <= i < |r| ==> r[i].factor == FactorOf(src, KeyOf(r[i]))
    ensures ItemSum(r, val) == Weighted(KeySeq(r), src, val)
  {
    if r != [] {
      var n := |r| - 1;
      assert KeySeq(r)[..n] == KeySeq(r[..n]);
      ItemsWeighted(r[..n], src, val);
    }
  }

  lemma {:induction false} WeightedVanish(ks: seq<Key>, src: seq<Item>, val: VarRef -> int)
    requires forall i :: 0 <= i < |ks| ==> FactorOf(src, ks[i]) * Unit(ks[i], val) == 0
    ensures Weighted(ks, src, val) == 0
  {
    if ks != [] {
      WeightedVanish(ks[..|ks| - 1], src, val);
    }
  }

  lemma {:induction false} SeqOfSet(keys: set<Key>) returns (ks: seq<Key>)
    ensures DistinctSeq(ks) && forall k :: k in ks <==> k in keys
    decreases |keys|
  {
    if keys == {} {
      ks := [];
    } else {
      var k :| k in keys;
      var rest := SeqOfSet(keys - {k});
      ks := rest + [k];
    }
  }

  lemma {:induction false} KeySeqDistinct(r: seq<Item>)
    requires DistinctKeys(r)
    ensures DistinctSeq(KeySeq(r)) && forall k :: k in KeySeq(r) <==> k in KeysOf(r)
  {
    forall k | k in KeysOf(r) ensures k in KeySeq(r) {
      var i :| 0 <= i < |r| && KeyOf(r[i]) == k;
      assert KeySeq(r)[i] == k;
    }
  }

  /** Merging items by key does not change their sum. */
  lemma {:induction false} GroupedSum(src: seq<Item>, r: seq<Item>, val: VarRef -> int)
    requires GroupedFrom(src, r)
    ensures ItemSum(r, val) == ItemSum(src, val)
  {
    ItemsWeighted(r, src, val);
    KeySeqDistinct(r);
    WeightedCovers(KeySeq(r), src, val);
  }

  // Conversion of `sum <= ub` to normal form

  /** A term as a normal-form item: its numerator keyed by its variable and literal. */
  function ItemsOf(ts: seq<LinearTerm>): (r: seq<Item>)
    ensures |r| == |ts|
  {
    seq(|ts|, i requires 0 <= i < |ts| => Item(ts[i].variable, ts[i].factor, ts[i].lit))
  }

  /**
   * `nf` is the normal form of `l`: the terms of the sum merged by `(variable, lit)` and the
   * bound `ub - constant`. The denominator is dropped.
   */
  ghost predicate NormalFormOf(l: LinearLeq, nf: NFLinearLeq)
  {
    && GroupedFrom(ItemsOf(l.sum.terms), nf.sum)
    && nf.upperBound == l.ub - l.sum.constant
  }

  /** `From<LinearLeq> for ReifExpr`. */
  method ToNormalForm(l: LinearLeq) returns (nf: NFLinearLeq)
    ensures NormalFormOf(l, nf)
  {
    var items := Group(ItemsOf(l.sum.terms));
    nf := NFLinearLeq(items, l.ub - l.sum.constant);
  }

  /** Terms sharing the denominator `d` are worth the sum of their numerators over `d`. */
  lemma {:induction false} TermsAsItems(ts: seq<LinearTerm>, d: int, val: VarRef -> int)
    requires d != 0 && forall i :: 0 <= i < |ts| ==> ts[i].denom == d
    ensures TermsValue(ts, val) == ItemSum(ItemsOf(ts), val) as real / d as real
  {
    if ts != [] {
      var n := |ts| - 1;
      assert ItemsOf(ts)[..n] == ItemsOf(ts[..n]);
      TermsAsItems(ts[..n], d, val);
      var it := ItemsOf(ts)[n];
      assert TermNum(ts[n], val) == it.factor * Unit(KeyOf(it), val);
      AddDiv(ItemSum(ItemsOf(ts[..n]), val), TermNum(ts[n], val), d);
    }
  }

  /**
   * The normal form holds exactly when the sum, scaled by its denominator, is at most `ub`.
   */
  lemma {:induction false} NormalFormMeaning(l: LinearLeq, nf: NFLinearLeq, val: VarRef -> int)
    requires Valid(l.sum) && NormalFormOf(l, nf)
    ensures NFHolds(nf, val) <==> l.sum.denom as real * Value(l.sum, val) <= l.ub as real
  {
    hide GroupedFrom;
    var d := l.sum.denom;
    var total := ItemSum(ItemsOf(l.sum.terms), val);
    TermsAsItems(l.sum.terms, d, val);
    GroupedSum(ItemsOf(l.sum.terms), nf.sum, val);
    AddDiv(total, l.sum.constant, d);
    ScaledFraction(total + l.sum.constant, d);
  }

  lemma {:induction false} ScaledFraction(n: int, d: int)
    requires d != 0
    ensures d as real * (n as real / d as real) == n as real
  {
  }

  lemma {:induction false} PositiveScale(d: real, v: real)
    requires 0.0 < d
    ensures d * v <= 0.0 <==> v <= 0.0
  {
  }

  /** The normal form of `s.leq(ub)` holds exactly when the value of `s` is at most that of `ub`. */
  lemma {:induction false} LeqMeaning(s: Sum, ub: Sum, nf: NFLinearLeq, val: VarRef -> int)
    requires Valid(s) && Valid(ub) && NormalFormOf(LeqOf(s, ub), nf)
    ensures NFHolds(nf, val) <==> Value(s, val) <= Value(ub, val)
  {
    var l := LeqOf(s, ub);
    NormalFormMeaning(l, nf, val);
    SubValue(s, ub, val);
    PositiveScale(l.sum.denom as real, Value(l.sum, val));
  }

  /** The normal form of `s.geq(lb)` holds exactly when the value of `s` is at least that of `lb`. */
  lemma {:induction false} GeqMeaning(s: Sum, lb: Sum, nf: NFLinearLeq, val: VarRef -> int)
    requires Valid(s) && Valid(lb) && NormalFormOf(GeqOf(s, lb), nf)
    ensures NFHolds(nf, val) <==> Value(s, val) >= Value(lb, val)
  {
    LeqMeaning(NegOf(s), NegOf(lb), nf, val);
    NegValue(s, val);
    NegValue(lb, val);
  }

  // `simplify` and `!`

  /** The items `simplify` keeps: a non-zero factor and a variable other than ZERO. */
  predicate Significant(it: Item)
  {
    it.factor != 0 && it.variable != Some(ZERO)
  }

  function KeepSignificant(items: seq<Item>): (r: seq<Item>)
    ensures forall x :: x in r <==> x in items && Significant(x)
    ensures DistinctKeys(items) ==> DistinctKeys(r)
  {
    if items == [] then []
    else
      var rest := KeepSignificant(items[1..]);
      assert DistinctKeys(items) ==> forall j :: 0 <= j < |rest| ==> KeyOf(rest[j]) != KeyOf(items[0]) by {
        if DistinctKeys(items) {
          forall j | 0 <= j < |rest| ensures KeyOf(rest[j]) != KeyOf(items[0]) {
            assert rest[j] in items[1..];
            var m :| 0 <= m < |items[1..]| && items[1..][m] == rest[j];
            assert items[m + 1] == rest[j];
          }
        }
      }
      (if Significant(items[0]) then [items[0]] else []) + rest
  }

  /**
   * `r` is `nf` simplified: one item per key of `nf` whose total factor is non-zero and whose
   * variable is not ZERO, carrying that total; the bound is kept.
   */
  ghost predicate SimplifiedFrom(nf: NFLinearLeq, r: NFLinearLeq)
  {
    && r.upperBound == nf.upperBound
    && DistinctKeys(r.sum)
    && (forall k :: k in KeysOf(r.sum) <==> (k in KeysOf(nf.sum) && FactorOf(nf.sum, k) != 0 && k.0 != Some(ZERO)))
    && forall i :: 0 <= i < |r.sum| ==> r.sum[i].factor == FactorOf(nf.sum, KeyOf(r.sum[i]))
  }

  /** `NFLinearLeq::simplify`. */
  method Simplify(nf: NFLinearLeq) returns (r: NFLinearLeq)
    ensures SimplifiedFrom(nf, r)
  {
    var grouped := Group(nf.sum);
    r := NFLinearLeq(KeepSignificant(grouped), nf.upperBound);
    KeepSignificantKeys(nf.sum, grouped);
  }

  lemma {:induction false} KeepSignificantKeys(src: seq<Item>, grouped: seq<Item>)
    requires GroupedFrom(src, grouped)
    ensures var r := KeepSignificant(grouped);
      && (forall k :: k in KeysOf(r) <==> (k in KeysOf(src) && FactorOf(src, k) != 0 && k.0 != Some(ZERO)))
      && forall i :: 0 <= i < |r| ==> r[i].factor == FactorOf(src, KeyOf(r[i]))
  {
    var r := KeepSignificant(grouped);
    forall i | 0 <= i < |r| ensures r[i].factor == FactorOf(src, KeyOf(r[i])) {
      assert r[i] in grouped;
    }
    forall k ensures k in KeysOf(r) <==> (k in KeysOf(src) && FactorOf(src, k) != 0 && k.0 != Some(ZERO)) {
      if k in KeysOf(r) {
        var i :| 0 <= i < |r| && KeyOf(r[i]) == k;
        assert r[i] in grouped;
        var j :| 0 <= j < |grouped| && grouped[j] == r[i];
        assert KeyOf(grouped[j]) in KeysOf(grouped);
      }
      if k in KeysOf(src) && FactorOf(src, k) != 0 && k.0 != Some(ZERO) {
        assert k in KeysOf(grouped);
        var j :| 0 <= j < |grouped| && KeyOf(grouped[j]) == k;
        assert grouped[j] in r;
        var i :| 0 <= i < |r| && r[i] == grouped[j];
        assert KeyOf(r[i]) == k;
      }
    }
  }

  /** Given that ZERO is worth 0, `simplify` keeps the sum of the items, hence their meaning. */
  lemma {:induction false} SimplifiedSum(nf: NFLinearLeq, r: NFLinearLeq, val: VarRef -> int)
    requires SimplifiedFrom(nf, r) && val(ZERO) == 0
    ensures ItemSum(r.sum, val) == ItemSum(nf.sum, val)
    ensures NFHolds(r, val) <==> NFHolds(nf, val)
  {
    var kept := KeySeq(r.sum);
    KeySeqDistinct(r.sum);
    var dropped := SeqOfSet(KeysOf(nf.sum) - KeysOf(r.sum));
    var all := kept + dropped;
    assert DistinctSeq(all) by {
      forall i, j | 0 <= i < j < |all| ensures all[i] != all[j] {
        if j >= |kept| && i < |kept| {
          assert all[i] in kept && all[j] in dropped;
        }
      }
    }
    forall k | k in KeysOf(nf.sum) ensures k in all {
      if k !in KeysOf(r.sum) { assert k in dropped; } else { assert k in kept; }
    }
    WeightedCovers(all, nf.sum, val);
    WeightedAppend(kept, dropped, nf.sum, val);
    ItemsWeighted(r.sum, nf.sum, val);
    forall i | 0 <= i < |dropped| ensures FactorOf(nf.sum, dropped[i]) * Unit(dropped[i], val) == 0 {
      var k := dropped[i];
      assert k in dropped;
    }
    WeightedVanish(dropped, nf.sum, val);
  }

  function NegItem(it: Item): Item
  {
    Item(it.variable, -it.factor, it.lit)
  }

  /** `!nf`: `not(a + b <= ub)` is `-a - b <= -ub - 1` over the integers. */
  function NotOf(nf: NFLinearLeq): (r: NFLinearLeq)
    ensures |r.sum| == |nf.sum|
  {
    NFLinearLeq(seq(|nf.sum|, i requires 0 <= i < |nf.sum| => NegItem(nf.sum[i])), -nf.upperBound - 1)
  }

  lemma {:induction false} NegItemsSum(items: seq<Item>, val: VarRef -> int)
    ensures ItemSum(NotOf(NFLinearLeq(items, 0)).sum, val) == -ItemSum(items, val)
  {
    if items != [] {
      var n := |items| - 1;
      assert NotOf(NFLinearLeq(items, 0)).sum[..n] == NotOf(NFLinearLeq(items[..n], 0)).sum;
      NegItemsSum(items[..n], val);
    }
  }

  /** The negated normal form holds exactly when the original does not. */
  lemma {:induction false} NotMeaning(nf: NFLinearLeq, val: VarRef -> int)
    ensures NFHolds(NotOf(nf), val) <==> !NFHolds(nf, val)
    ensures NotOf(NotOf(nf)) == nf
  {
    assert NotOf(nf).sum == NotOf(NFLinearLeq(nf.sum, 0)).sum;
    NegItemsSum(nf.sum, val);
    assert NotOf(NotOf(nf)).sum == nf.sum;
  }

  /** The source's example of `simplify`: ZERO, a cancelling variable and a merged variable. */
  lemma {:induction false} SimplifyExample(r: NFLinearLeq)
    requires SimplifiedFrom(NFLinearLeq([
      Item(Some(ZERO), 1, TRUE), Item(Some(5), 0, TRUE), Item(Some(5), 1, TRUE),
      Item(Some(5), -1, TRUE), Item(Some(10), 1, TRUE), Item(Some(10), -2, TRUE)], 5), r)
    ensures r == NFLinearLeq([Item(Some(10), -1, TRUE)], 5)
  {
    var src := [
      Item(Some(ZERO), 1, TRUE), Item(Some(5), 0, TRUE), Item(Some(5), 1, TRUE),
      Item(Some(5), -1, TRUE), Item(Some(10), 1, TRUE), Item(Some(10), -2, TRUE)];
    var k: Key := (Some(10), TRUE);
    assert KeyOf(src[4]) == k;
    FactorsOfExample(src);
    assert k in KeysOf(r.sum);
    forall k' | k' in KeysOf(r.sum) ensures k' == k {
      var i :| 0 <= i < |src| && KeyOf(src[i]) == k';
    }
    SingleKey(r.sum, k);
    assert r.sum == [Item(Some(10), -1, TRUE)];
  }

  lemma {:induction false} FactorsOfExample(src: seq<Item>)
    requires src == [
      Item(Some(ZERO), 1, TRUE), Item(Some(5), 0, TRUE), Item(Some(5), 1, TRUE),
      Item(Some(5), -1, TRUE), Item(Some(10), 1, TRUE), Item(Some(10), -2, TRUE)]
    ensures FactorOf(src, (Some(10), TRUE)) == -1 && FactorOf(src, (Some(5), TRUE)) == 0
  {
    var k5, k10: Key := (Some(5), TRUE), (Some(10), TRUE);
    var p := [src[0]];
    assert p[..0] == [];
    assert FactorOf(p, k5) == 0 && FactorOf(p, k10) == 0;
    var p2 := p + [src[1]];
    assert p2[..1] == p;
    assert FactorOf(p2, k5) == 0 && FactorOf(p2, k10) == 0;
    var p3 := p2 + [src[2]];
    assert p3[..2] == p2;
    assert FactorOf(p3, k5) == 1 && FactorOf(p3, k10) == 0;
    var p4 := p3 + [src[3]];
    assert p4[..3] == p3;
    assert FactorOf(p4, k5) == 0 && FactorOf(p4, k10) == 0;
    var p5 := p4 + [src[4]];
    assert p5[..4] == p4;
    assert FactorOf(p5, k5) == 0 && FactorOf(p5, k10) == 1;
    assert src[..5] == p5;
  }

  /** Items with distinct keys that all share one key are a single item. */
  lemma {:induction false} SingleKey(items: seq<Item>, k: Key)
    requires DistinctKeys(items) && k in KeysOf(items)
    requires forall k' :: k' in KeysOf(items) ==> k' == k
    ensures |items| == 1 && KeyOf(items[0]) == k
  {
    assert forall j :: 0 <= j < |items| ==> KeyOf(items[j]) in KeysOf(items);
    assert 0 < |items|;
    assert forall j :: 0 <= j < |items| ==> KeyOf(items[j]) == k;
    assert |items| < 2 || KeyOf(items[0]) == KeyOf(items[1]);
  }

  lemma {:induction false} SingleTermValue(t: LinearTerm, val: VarRef -> int)
    requires t.denom != 0
    ensures Valid(Sum([t], 0, t.denom))
    ensures Value(Sum([t], 0, t.denom), val) == TermValue(t, val)
  {
    assert [t][..0] == [];
    assert TermsValue([t], val) == TermValue(t, val);
    assert 0 as real / t.denom as real == 0.0;
  }

  /** An atom's sum denotes `(var + shift) / d`, given that ZERO is worth 0 (so `TRUE` holds). */
  lemma {:induction false} AtomValue(v: IVar, shift: int, d: int, val: VarRef -> int)
    requires d != 0 && val(ZERO) == 0
    ensures Value(AtomSum(v, shift, d), val) == (val(v) + shift) as real / d as real
  {
    var t1, t2 := LinearTerm(1, Some(v), TRUE, d), LinearTerm(shift, None, TRUE, d);
    assert Holds(TRUE, val);
    SingleTermValue(t1, val);
    SingleTermValue(t2, val);
    AddSumValue(Sum([t1], 0, d), Sum([t2], 0, d), val);
    AddDiv(val(v), shift, d);
  }
}
