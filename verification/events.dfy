/**
 * Domain-update events of the solver core (solver/src/core/state/event.rs): an event
 * records the affected signed variable, its previous upper bound (with the index of the
 * event that set it) and its new upper bound.
 */
module Events {
  import opened Wrappers
  import opened Lits

  /**
   * Largest integer constant of the solver. Its definition lives in the core's
   * integer module, which is not part of this model; the properties below hold for
   * any value.
   */
  const INT_CST_MAX: int := 0x1FFF_FFFF

  /** `UpperBound::stronger`: a smaller upper bound is stronger. */
  predicate Stronger(a: int, b: int) { a <= b }

  datatype ValueCause = ValueCause(value: int, cause: Option<nat>)

  datatype DirectOrigin = Decision | Encoding

  datatype Origin = Direct(direct: DirectOrigin) | Inference(writer: nat, payload: nat)

  datatype Event = Event(affectedBound: SignedVar, previous: ValueCause, newValue: int, cause: Origin)

  /** The strongest literal entailed after the event. */
  function NewLiteral(e: Event): (l: Lit)
    ensures l.svar == e.affectedBound
    ensures forall other: Lit :: Entails(l, other) <==> other.svar == e.affectedBound && Stronger(e.newValue, other.ub)
  {
    Lit(e.affectedBound, e.newValue)
  }

  /** The strongest literal entailed before the event. */
  function PreviousLiteral(e: Event): (l: Lit)
    ensures l.svar == e.affectedBound
    ensures forall other: Lit :: Entails(l, other) <==> other.svar == e.affectedBound && Stronger(e.previous.value, other.ub)
  {
    Lit(e.affectedBound, e.previous.value)
  }

  /** The event makes `lit` true while it was previously unknown. */
  function MakesTrue(e: Event, lit: Lit): (r: bool)
    requires e.affectedBound == lit.svar
    ensures r <==> Entails(NewLiteral(e), lit) && !Entails(PreviousLiteral(e), lit)
  {
    Stronger(e.newValue, lit.ub) && !Stronger(e.previous.value, lit.ub)
  }

  /** The event of creating variable `v` with upper bound `ub`. */
  function InitialUpperBound(v: VarRef, ub: int): (e: Event)
    ensures NewLiteral(e) == LeqLit(Plus(v), ub)
    ensures PreviousLiteral(e) == LeqLit(Plus(v), INT_CST_MAX) && e.previous.cause == None
    ensures e.cause == Direct(Encoding)
  {
    Event(Plus(v), ValueCause(INT_CST_MAX, None), ub, Direct(Encoding))
  }

  /** The event of creating variable `v` with lower bound `lb`, stored as the upper bound `-lb` of `-v`. */
  function InitialLowerBound(v: VarRef, lb: int): (e: Event)
    ensures NewLiteral(e) == GeqLit(Plus(v), lb)
    ensures PreviousLiteral(e) == LeqLit(Minus(v), INT_CST_MAX) && e.previous.cause == None
    ensures e.cause == Direct(Encoding)
  {
    Event(Minus(v), ValueCause(INT_CST_MAX, None), -lb, Direct(Encoding))
  }

  /** An initial event makes its own literal true exactly when the bound is tighter than INT_CST_MAX. */
  lemma InitialEventsMakeTrue(v: VarRef, lb: int, ub: int)
    ensures MakesTrue(InitialUpperBound(v, ub), LeqLit(Plus(v), ub)) <==> ub < INT_CST_MAX
    ensures MakesTrue(InitialLowerBound(v, lb), GeqLit(Plus(v), lb)) <==> -lb < INT_CST_MAX
  {
  }

  /** An event never makes true a literal that its previous value already entailed, nor one weaker than both values. */
  lemma MakesTrueWindow(e: Event, lit: Lit)
    requires e.affectedBound == lit.svar
    ensures MakesTrue(e, lit) <==> e.newValue <= lit.ub < e.previous.value
  {
  }
}
