/**
 * The lexical search controller (solver/src/solver/search/lexical.rs): it sets the first
 * present, unbound variable to its minimal or maximal value.
 */
module Lexical {
  import opened Wrappers
  import opened Lits

  datatype PreferredValue = Min | Max

  /** Domain of a variable. */
  datatype IntDomain = IntDomain(lb: int, ub: int)
  {
    predicate IsBound() { lb == ub }
  }

  /** A variable the controller may decide: surely present and not yet bound. */
  predicate Undecided(v: VarRef, present: VarRef -> Option<bool>, domain: VarRef -> IntDomain)
  {
    present(v) == Some(true) && !domain(v).IsBound()
  }

  /** The decision on a variable: `v <= lb` for the Min preference, `v >= ub` for Max. */
  function DecisionOn(pref: PreferredValue, v: VarRef, domain: VarRef -> IntDomain): (l: Lit)
    ensures l.svar.variable == v
    ensures forall val: VarRef -> int :: Holds(l, val) <==>
      (if pref == Min then val(v) <= domain(v).lb else val(v) >= domain(v).ub)
  {
    match pref
    case Min => LeqLit(Plus(v), domain(v).lb)
    case Max => GeqLit(Plus(v), domain(v).ub)
  }

  /** The decision on the first undecided variable of `vars`, if there is one. */
  function FirstDecision(pref: PreferredValue, vars: seq<VarRef>, present: VarRef -> Option<bool>,
                         domain: VarRef -> IntDomain): (r: Option<Lit>)
    ensures r.None? <==> forall i :: 0 <= i < |vars| ==> !Undecided(vars[i], present, domain)
    ensures r.Some? ==> exists i ::
      && 0 <= i < |vars|
      && Undecided(vars[i], present, domain)
      && (forall j :: 0 <= j < i ==> !Undecided(vars[j], present, domain))
      && r.value == DecisionOn(pref, vars[i], domain)
  {
    if |vars| == 0 then None
    else if Undecided(vars[0], present, domain) then
      Some(DecisionOn(pref, vars[0], domain))
    else
      var r := FirstDecision(pref, vars[1..], present, domain);
      if r.Some? then
        var k :| 0 <= k < |vars| - 1 && Undecided(vars[1..][k], present, domain)
                 && (forall j :: 0 <= j < k ==> !Undecided(vars[1..][j], present, domain))
                 && r.value == DecisionOn(pref, vars[1..][k], domain);
        assert forall j :: 0 <= j < k + 1 ==> !Undecided(vars[j], present, domain) by {
          forall j | 0 <= j < k + 1 ensures !Undecided(vars[j], present, domain) {
            if j > 0 { assert vars[j] == vars[1..][j - 1]; }
          }
        }
        r
      else
        assert forall i :: 1 <= i < |vars| ==> vars[i] == vars[1..][i - 1];
        r
  }

  class Lexical {
    var pref: PreferredValue
    /** Number of saved decision levels of the level tracker. */
    var numSaved: nat

    constructor (preferred: PreferredValue)
      ensures pref == preferred && numSaved == 0
    {
      pref := preferred;
      numSaved := 0;
    }

    static method WithMin() returns (l: Lexical)
      ensures fresh(l) && l.pref == Min && l.numSaved == 0
    {
      l := new Lexical(Min);
    }

    static method WithMax() returns (l: Lexical)
      ensures fresh(l) && l.pref == Max && l.numSaved == 0
    {
      l := new Lexical(Max);
    }

    method SaveState() returns (lvl: nat)
      modifies this`numSaved
      ensures numSaved == old(numSaved) + 1 && lvl == numSaved
      ensures pref == old(pref)
    {
      numSaved := numSaved + 1;
      lvl := numSaved;
    }

    method RestoreLast()
      requires numSaved > 0
      modifies this`numSaved
      ensures numSaved == old(numSaved) - 1
      ensures pref == old(pref)
    {
      numSaved := numSaved - 1;
    }

    /** `next_decision`: the decision on the first variable, in the given order, that is present and unbound. */
    function NextDecision(vars: seq<VarRef>, present: VarRef -> Option<bool>, domain: VarRef -> IntDomain): (r: Option<Lit>)
      reads this
      ensures r == FirstDecision(pref, vars, present, domain)
      ensures r.None? <==> forall i :: 0 <= i < |vars| ==> !Undecided(vars[i], present, domain)
    {
      FirstDecision(pref, vars, present, domain)
    }
  }

  /** A decision is never entailed by the domain it is taken in, and its negation is not either. */
  lemma {:induction false} DecisionSplitsDomain(pref: PreferredValue, v: VarRef, domain: VarRef -> IntDomain)
    requires !domain(v).IsBound() && domain(v).lb <= domain(v).ub
    ensures var l := DecisionOn(pref, v, domain);
      (exists val: VarRef -> int :: domain(v).lb <= val(v) <= domain(v).ub && Holds(l, val))
      && (exists val: VarRef -> int :: domain(v).lb <= val(v) <= domain(v).ub && !Holds(l, val))
  {
    var l := DecisionOn(pref, v, domain);
    var lo: VarRef -> int := _ => domain(v).lb;
    var hi: VarRef -> int := _ => domain(v).ub;
    if pref == Min {
      assert Holds(l, lo) && !Holds(l, hi);
    } else {
      assert Holds(l, hi) && !Holds(l, lo);
    }
  }
}
