/**
 * Read-only queries on an assignment (model/src/assignments.rs): the default methods of the
 * `Assignment` trait, computed from the three primitive queries every assignment provides.
 */
module Assignments {
  import opened Wrappers
  import opened Atoms

  type SatVar = nat
  type BVar = nat
  type BExpr = nat

  /** Integer domain `[lb, ub]` of a variable. */
  datatype IntDomain = IntDomain(lb: int, ub: int)

  /** A literal of the SAT layer: a SAT variable with a polarity (`value`). */
  datatype SatLit = SatLit(variable: SatVar, value: bool)

  /** A contiguous range `first..=last` of symbol ids. */
  datatype ContiguousSymbols = ContiguousSymbols(first: SymId, last: SymId)

  /** A boolean atom: a constant, a possibly negated boolean variable, or an expression. */
  datatype BAtom = BCst(value: bool) | BVarAtom(bvar: BVar, negated: bool) | BExprAtom(expr: BExpr)

  /**
   * The primitive queries of an assignment: the domain of every integer variable, the value of
   * every SAT variable and the literal bound to every boolean expression. A boolean variable is
   * the integer variable with the same id.
   */
  datatype Assignment = Assignment(
    varDomain: IVar -> IntDomain,
    satValue: SatVar -> Option<bool>,
    literalOfExpr: BExpr -> Option<SatLit>)

  const USIZE_MODULUS: int := 0x1_0000_0000_0000_0000

  /** `x as usize` for a 32-bit integer on a 64-bit target: a negative value wraps around. */
  function AsUsize(x: int): (r: nat)
    requires -0x8000_0000 <= x < 0x8000_0000
    ensures 0 <= x ==> r == x
    ensures x < 0 ==> r == x + USIZE_MODULUS && r >= 0x8000_0000
  {
    if x >= 0 then x else x + USIZE_MODULUS
  }

  /** The bounds of an integer atom: its variable's bounds shifted, or the shift itself for a constant. */
  function DomainOf(asg: Assignment, atom: IAtom): (r: (int, int))
    ensures atom.ivar.None? ==> r == (atom.shift, atom.shift)
    ensures atom.ivar.Some? ==>
      r.0 - atom.shift == asg.varDomain(atom.ivar.value).lb && r.1 - atom.shift == asg.varDomain(atom.ivar.value).ub
  {
    var base := if atom.ivar.Some? then (asg.varDomain(atom.ivar.value).lb, asg.varDomain(atom.ivar.value).ub) else (0, 0);
    (base.0 + atom.shift, base.1 + atom.shift)
  }

  function LowerBound(asg: Assignment, v: IVar): (r: int)
    ensures r == DomainOf(asg, IAtom(Some(v), 0)).0
  {
    asg.varDomain(v).lb
  }

  function UpperBound(asg: Assignment, v: IVar): (r: int)
    ensures r == DomainOf(asg, IAtom(Some(v), 0)).1
  {
    asg.varDomain(v).ub
  }

  /** Value of a SAT literal: the variable's value, flipped for a negative literal. */
  function LiteralValue(asg: Assignment, l: SatLit): (r: Option<bool>)
    ensures r.None? <==> asg.satValue(l.variable).None?
    ensures r.Some? ==> (r.value <==> (asg.satValue(l.variable).value == l.value))
  {
    match asg.satValue(l.variable)
    case None => None
    case Some(value) => Some(if l.value then value else !value)
  }

  /** The symbols a symbolic atom may take; the bounds of a variable are cast to `usize`. */
  function SymDomainOf(asg: Assignment, atom: SAtom): (r: ContiguousSymbols)
    requires atom.atom.Var? ==>
      && -0x8000_0000 <= asg.varDomain(atom.atom.svar).lb < 0x8000_0000
      && -0x8000_0000 <= asg.varDomain(atom.atom.svar).ub < 0x8000_0000
    ensures atom.atom.Sym? ==> r.first == r.last == atom.atom.sym
    ensures atom.atom.Var? && asg.varDomain(atom.atom.svar).lb >= 0 ==> r.first == asg.varDomain(atom.atom.svar).lb
    ensures atom.atom.Var? && asg.varDomain(atom.atom.svar).ub >= 0 ==> r.last == asg.varDomain(atom.atom.svar).ub
  {
    match atom.atom
    case Var(v) => ContiguousSymbols(AsUsize(asg.varDomain(v).lb), AsUsize(asg.varDomain(v).ub))
    case Sym(s) => ContiguousSymbols(s, s)
  }

  function IntoSingleton(c: ContiguousSymbols): (r: Option<SymId>)
    ensures r.Some? <==> c.first == c.last
    ensures r.Some? ==> r.value == c.first
  {
    if c.first == c.last then Some(c.first) else None
  }

  function SymValueOf(asg: Assignment, atom: SAtom): (r: Option<SymId>)
    requires atom.atom.Var? ==>
      && -0x8000_0000 <= asg.varDomain(atom.atom.svar).lb < 0x8000_0000
      && -0x8000_0000 <= asg.varDomain(atom.atom.svar).ub < 0x8000_0000
    ensures atom.atom.Sym? ==> r == Some(atom.atom.sym)
    ensures atom.atom.Var? ==>
      (r.Some? <==> asg.varDomain(atom.atom.svar).lb == asg.varDomain(atom.atom.svar).ub)
  {
    IntoSingleton(SymDomainOf(asg, atom))
  }

  /** Value of a boolean variable read from its integer domain: (0,0) is false, (1,1) is true. */
  function DomainTruth(d: (int, int)): (r: Option<bool>)
    ensures r == Some(true) <==> d == (1, 1)
    ensures r == Some(false) <==> d == (0, 0)
  {
    if d == (0, 0) then Some(false)
    else if d == (1, 1) then Some(true)
    else None
  }

  function Negate(value: Option<bool>, negated: bool): Option<bool>
  {
    match value
    case None => None
    case Some(v) => Some(if negated then !v else v)
  }

  function BooleanValueOf(asg: Assignment, b: BAtom): (r: Option<bool>)
    ensures b.BCst? ==> r == Some(b.value)
    ensures b.BVarAtom? ==>
      (r == Some(!b.negated) <==> DomainOf(asg, IAtom(Some(b.bvar), 0)) == (1, 1))
      && (r == Some(b.negated) <==> DomainOf(asg, IAtom(Some(b.bvar), 0)) == (0, 0))
    ensures b.BExprAtom? ==>
      (r.Some? <==> asg.literalOfExpr(b.expr).Some? && LiteralValue(asg, asg.literalOfExpr(b.expr).value).Some?)
  {
    match b
    case BCst(value) => Some(value)
    case BVarAtom(v, negated) => Negate(DomainTruth(DomainOf(asg, IAtom(Some(v), 0))), negated)
    case BExprAtom(e) =>
      match asg.literalOfExpr(e)
      case None => None
      case Some(l) => LiteralValue(asg, l)
  }

  /** Shifting an integer atom shifts both of its bounds and keeps the width of its domain. */
  lemma {:induction false} DomainOfShift(asg: Assignment, atom: IAtom, k: int)
    ensures DomainOf(asg, IAtom(atom.ivar, atom.shift + k)).0 == DomainOf(asg, atom).0 + k
    ensures DomainOf(asg, IAtom(atom.ivar, atom.shift + k)).1 == DomainOf(asg, atom).1 + k
    ensures DomainOf(asg, atom).1 - DomainOf(asg, atom).0 ==
      (if atom.ivar.Some? then UpperBound(asg, atom.ivar.value) - LowerBound(asg, atom.ivar.value) else 0)
  {
  }

  /** The two polarities of a SAT variable always read opposite values. */
  lemma {:induction false} LiteralValueOpposite(asg: Assignment, v: SatVar)
    ensures LiteralValue(asg, SatLit(v, true)).Some? <==> LiteralValue(asg, SatLit(v, false)).Some?
    ensures LiteralValue(asg, SatLit(v, true)).Some? ==>
      LiteralValue(asg, SatLit(v, false)).value == !LiteralValue(asg, SatLit(v, true)).value
  {
  }

  /** Negating a boolean variable atom negates its value, and a value is only read from a fixed domain. */
  lemma {:induction false} BooleanValueNegation(asg: Assignment, v: BVar, negated: bool)
    ensures BooleanValueOf(asg, BVarAtom(v, !negated)) == Negate(BooleanValueOf(asg, BVarAtom(v, negated)), true)
    ensures BooleanValueOf(asg, BVarAtom(v, negated)).Some? ==> LowerBound(asg, v) == UpperBound(asg, v)
  {
  }

  /** A symbolic constant is its own value, and a symbolic variable has a value exactly when it is bound. */
  lemma {:induction false} SymValueOfBound(asg: Assignment, s: SymId, v: SVar)
    requires -0x8000_0000 <= asg.varDomain(v).lb < 0x8000_0000
    requires -0x8000_0000 <= asg.varDomain(v).ub < 0x8000_0000
    ensures SymValueOf(asg, SAtom(Sym(s))) == Some(s)
    ensures SymValueOf(asg, SAtom(Var(v))).Some? <==> LowerBound(asg, v) == UpperBound(asg, v)
  {
  }
}
