/**
 * Literals of the solver core (solver/src/core/lit.rs): a literal is an upper
 * bound on a signed variable, `+v <= d` or `-v <= d`.
 */
module Lits {
  import opened Wrappers

  /** A variable reference; variable 0 is the special variable ZERO whose value is always 0. */
  type VarRef = nat

  const ZERO: VarRef := 0

  /** `+v` (plus) or `-v` (minus). */
  datatype SignedVar = SignedVar(variable: VarRef, plus: bool)
  {
    function Neg(): SignedVar { SignedVar(variable, !plus) }
  }

  function Plus(v: VarRef): SignedVar { SignedVar(v, true) }
  function Minus(v: VarRef): SignedVar { SignedVar(v, false) }

  datatype Relation = Gt | Leq

  /** The literal `svar <= ub`. */
  datatype Lit = Lit(svar: SignedVar, ub: int)

  /** Value of a signed variable under a valuation of the variables. */
  function SignedValue(sv: SignedVar, val: VarRef -> int): int
  {
    if sv.plus then val(sv.variable) else -val(sv.variable)
  }

  /** A literal holds under a valuation when its signed variable is at most its upper bound. */
  predicate Holds(l: Lit, val: VarRef -> int)
  {
    SignedValue(l.svar, val) <= l.ub
  }

  const TRUE: Lit := Lit(Plus(ZERO), 0)
  const FALSE: Lit := Not(TRUE)

  function Variable(l: Lit): VarRef { l.svar.variable }

  function RelationOf(l: Lit): (r: Relation)
    ensures r == Leq <==> l.svar.plus
  {
    if l.svar.plus then Leq else Gt
  }

  /** `(variable, relation, value)` such that the literal reads `variable relation value`. */
  function Unpack(l: Lit): (r: (VarRef, Relation, int))
    ensures r.0 == l.svar.variable && r.1 == RelationOf(l)
    ensures forall val: VarRef -> int :: Holds(l, val) <==>
      (if r.1 == Leq then val(r.0) <= r.2 else val(r.0) > r.2)
  {
    if l.svar.plus then (l.svar.variable, Leq, l.ub)
    else (l.svar.variable, Gt, -l.ub - 1)
  }

  function LeqLit(v: SignedVar, d: int): (l: Lit)
    ensures l.svar == v
    ensures forall val: VarRef -> int :: Holds(l, val) <==> SignedValue(v, val) <= d
  {
    Lit(v, d)
  }

  function LtLit(v: SignedVar, d: int): (l: Lit)
    ensures l == LeqLit(v, d - 1)
    ensures forall val: VarRef -> int :: Holds(l, val) <==> SignedValue(v, val) < d
  {
    LeqLit(v, d - 1)
  }

  function GeqLit(v: SignedVar, d: int): (l: Lit)
    ensures l.svar == v.Neg() && l.ub == -d
    ensures forall val: VarRef -> int :: Holds(l, val) <==> SignedValue(v, val) >= d
  {
    LeqLit(v.Neg(), -d)
  }

  function GtLit(v: SignedVar, d: int): (l: Lit)
    ensures l.svar == v.Neg() && l.ub == -d - 1
    ensures forall val: VarRef -> int :: Holds(l, val) <==> SignedValue(v, val) > d
  {
    LtLit(v.Neg(), -d)
  }

  /** `!(v <= d)` is `-v <= -d-1`. */
  function Not(l: Lit): (r: Lit)
    ensures r.svar == l.svar.Neg() && r.ub == -l.ub - 1
    ensures forall val: VarRef -> int :: Holds(r, val) <==> !Holds(l, val)
  {
    Lit(l.svar.Neg(), -l.ub - 1)
  }

  lemma NotInvolution(l: Lit)
    ensures Not(Not(l)) == l
    ensures Not(TRUE) == FALSE && Not(FALSE) == TRUE
  {
  }

  /** A literal is entailed by another on the same signed variable with a smaller or equal bound. */
  predicate Entails(a: Lit, b: Lit)
  {
    a.svar == b.svar && a.ub <= b.ub
  }

  /** Syntactic entailment is sound: whenever `a` holds, so does `b`. */
  lemma EntailsSound(a: Lit, b: Lit, val: VarRef -> int)
    requires Entails(a, b) && Holds(a, val)
    ensures Holds(b, val)
  {
  }

  /** ... and complete: when `a` does not entail `b`, some valuation makes `a` true and `b` false. */
  lemma EntailsComplete(a: Lit, b: Lit) returns (val: VarRef -> int)
    requires !Entails(a, b)
    ensures Holds(a, val) && !Holds(b, val)
  {
    var x := a.svar.variable;
    var y := b.svar.variable;
    // the value of the signed variable `a.svar`, chosen so that `a` holds
    var s := if x == y && a.svar != b.svar && -b.ub - 1 < a.ub then -b.ub - 1 else a.ub;
    var t := if a.svar.plus then s else -s;
    var w := if b.svar.plus then b.ub + 1 else -b.ub - 1;
    val := (u: VarRef) => if u == x then t else w;
  }

  lemma EntailsReflexiveTransitive(a: Lit, b: Lit, c: Lit)
    ensures Entails(a, a)
    ensures Entails(a, b) && Entails(b, c) ==> Entails(a, c)
    ensures Entails(a, b) ==> Variable(a) == Variable(b)
  {
  }

  /** `From<bool>`. */
  function FromBool(b: bool): (l: Lit)
    ensures forall val: VarRef -> int :: val(ZERO) == 0 ==> (Holds(l, val) <==> b)
  {
    if b then TRUE else FALSE
  }

  datatype ConversionError = NotConstant

  /** `TryFrom<Lit> for bool`. */
  function ToBool(l: Lit): (r: Result<bool, ConversionError>)
    ensures r.Ok? <==> (l == TRUE || l == FALSE)
    ensures r.Ok? ==> l == FromBool(r.value)
  {
    if l == TRUE then Ok(true) else if l == FALSE then Ok(false) else Err(NotConstant)
  }

  lemma BoolRoundTrip(b: bool)
    ensures ToBool(FromBool(b)) == Ok(b)
  {
  }

  /*
   * Ordering: the derived order compares the signed variable (by variable, then the minus
   * sign before the plus sign) and then the upper bound.
   */
  predicate SignedVarLt(a: SignedVar, b: SignedVar)
  {
    a.variable < b.variable || (a.variable == b.variable && !a.plus && b.plus)
  }

  predicate LitLt(a: Lit, b: Lit)
  {
    SignedVarLt(a.svar, b.svar) || (a.svar == b.svar && a.ub < b.ub)
  }

  predicate LitLe(a: Lit, b: Lit) { a == b || LitLt(a, b) }

  lemma LitLtStrictTotalOrder(a: Lit, b: Lit, c: Lit)
    ensures !LitLt(a, a)
    ensures LitLt(a, b) && LitLt(b, c) ==> LitLt(a, c)
    ensures a == b || LitLt(a, b) || LitLt(b, a)
  {
  }

  predicate Sorted(ls: seq<Lit>)
  {
    forall i, j :: 0 <= i < j < |ls| ==> LitLt(ls[i], ls[j])
  }

  /** In a sorted list, a literal only entails literals that follow it, and all literals between them. */
  lemma SortedEntailment(ls: seq<Lit>, i: nat, j: nat, k: nat)
    requires Sorted(ls) && i < |ls| && j < |ls| && k < |ls|
    ensures i != j && Entails(ls[i], ls[j]) ==> i < j
    ensures i < k < j && Entails(ls[i], ls[j]) ==> Entails(ls[i], ls[k]) && Entails(ls[k], ls[j])
  {
    if i < k < j && Entails(ls[i], ls[j]) {
      assert LitLt(ls[i], ls[k]) && LitLt(ls[k], ls[j]);
    }
  }

  /** The example of the ordering documentation with x = 1, y = 2. */
  lemma SortExample()
    ensures Sorted([GeqLit(Plus(1), 2), GeqLit(Plus(1), 1), LeqLit(Plus(1), 3),
                    LeqLit(Plus(1), 4), LeqLit(Plus(1), 6), GeqLit(Plus(2), 4)])
  {
  }
}
