/**
 * Per-variable watch lists of the clause database (smt/src/clauses/watches.rs): a clause
 * watches a bound literal `v <= ub` (an upper-bound watch) or `v > b` (a lower-bound watch).
 */
module ClauseWatches {
  type VarRef = nat
  type ClauseId = nat

  /** The integer literal of the model: `LEQ(v, ub)` is `v <= ub`, `GT(v, b)` is `v > b`. */
  datatype ILit = LEQ(v: VarRef, ub: int) | GT(v: VarRef, belowLb: int)
  {
    function Var(): VarRef { v }
  }

  predicate Holds(l: ILit, val: VarRef -> int)
  {
    match l
    case LEQ(v, ub) => val(v) <= ub
    case GT(v, b) => val(v) > b
  }

  datatype LBWatch = LBWatch(watcher: ClauseId, guard: int)
  datatype UBWatch = UBWatch(watcher: ClauseId, guard: int)

  /** The literal a lower-bound watch on `v` stands for: `v > guard`. */
  function LBToLit(w: LBWatch, v: VarRef): (l: ILit)
    ensures forall val: VarRef -> int :: Holds(l, val) <==> val(v) > w.guard
  {
    GT(v, w.guard)
  }

  /** The literal an upper-bound watch on `v` stands for: `v <= guard`. */
  function UBToLit(w: UBWatch, v: VarRef): (l: ILit)
    ensures forall val: VarRef -> int :: Holds(l, val) <==> val(v) <= w.guard
  {
    LEQ(v, w.guard)
  }

  /** Some upper-bound watch of `clause` has a guard at most `ub`. */
  function FindUb(ws: seq<UBWatch>, clause: ClauseId, ub: int): (r: bool)
    ensures r <==> exists i :: 0 <= i < |ws| && ws[i].watcher == clause && ws[i].guard <= ub
  {
    if ws == [] then false
    else if ws[0].watcher == clause && ws[0].guard <= ub then true
    else FindUb(ws[1..], clause, ub)
  }

  /** Some lower-bound watch of `clause` has a guard at least `belowLb`. */
  function FindLb(ws: seq<LBWatch>, clause: ClauseId, belowLb: int): (r: bool)
    ensures r <==> exists i :: 0 <= i < |ws| && ws[i].watcher == clause && ws[i].guard >= belowLb
  {
    if ws == [] then false
    else if ws[0].watcher == clause && ws[0].guard >= belowLb then true
    else FindLb(ws[1..], clause, belowLb)
  }

  class Watches {
    var onLb: seq<seq<LBWatch>>
    var onUb: seq<seq<UBWatch>>

    ghost predicate Valid()
      reads this
    {
      |onLb| == |onUb|
    }

    constructor ()
      ensures Valid() && onLb == [] && onUb == []
    {
      onLb := [];
      onUb := [];
    }

    /** Grow both tables with empty lists until `v` has an entry. */
    method EnsureCapacity(v: VarRef)
      requires Valid()
      modifies this
      ensures Valid()
      ensures |onUb| == if v < old(|onUb|) then old(|onUb|) else v + 1
      ensures onUb[..old(|onUb|)] == old(onUb) && onLb[..old(|onLb|)] == old(onLb)
      ensures forall i :: old(|onUb|) <= i < |onUb| ==> onUb[i] == [] && onLb[i] == []
    {
      while !(v < |onUb|)
        invariant Valid()
        invariant old(|onUb|) <= |onUb| <= if v < old(|onUb|) then old(|onUb|) else v + 1
        invariant onUb[..old(|onUb|)] == old(onUb) && onLb[..old(|onLb|)] == old(onLb)
        invariant forall i :: old(|onUb|) <= i < |onUb| ==> onUb[i] == [] && onLb[i] == []
        decreases v + 1 - |onUb|
      {
        onUb := onUb + [[]];
        onLb := onLb + [[]];
      }
    }

    /** Register `clause` as a watcher of `literal`. */
    method AddWatch(clause: ClauseId, literal: ILit)
      requires Valid()
      modifies this
      ensures Valid()
      ensures literal.Var() < |onUb|
      ensures literal.LEQ? ==>
        && onUb[literal.v] == old(if literal.v < |onUb| then onUb[literal.v] else []) + [UBWatch(clause, literal.ub)]
        && UBToLit(onUb[literal.v][|onUb[literal.v]| - 1], literal.v) == literal
        && forall u :: 0 <= u < |onUb| && u != literal.v ==> onUb[u] == old(if u < |onUb| then onUb[u] else [])
      ensures literal.LEQ? ==> forall u :: 0 <= u < |onLb| ==> onLb[u] == old(if u < |onLb| then onLb[u] else [])
      ensures literal.GT? ==>
        && onLb[literal.v] == old(if literal.v < |onLb| then onLb[literal.v] else []) + [LBWatch(clause, literal.belowLb)]
        && LBToLit(onLb[literal.v][|onLb[literal.v]| - 1], literal.v) == literal
        && forall u :: 0 <= u < |onLb| && u != literal.v ==> onLb[u] == old(if u < |onLb| then onLb[u] else [])
      ensures literal.GT? ==> forall u :: 0 <= u < |onUb| ==> onUb[u] == old(if u < |onUb| then onUb[u] else [])
      ensures IsWatchedBy(literal, clause)
    {
      EnsureCapacity(literal.Var());
      match literal {
        case LEQ(v, ub) =>
          onUb := onUb[v := onUb[v] + [UBWatch(clause, ub)]];
        case GT(v, b) =>
          onLb := onLb[v := onLb[v] + [LBWatch(clause, b)]];
      }
    }

    /** Append every lower-bound watch of `v`, in order, to `out` and empty `v`'s list. */
    method MoveLbWatchesTo(v: VarRef, out: seq<LBWatch>) returns (out': seq<LBWatch>)
      requires Valid()
      modifies this
      ensures Valid()
      ensures v < |onLb| && onLb[v] == []
      ensures out' == out + old(if v < |onLb| then onLb[v] else [])
      ensures forall u :: 0 <= u < |onLb| && u != v ==> onLb[u] == old(if u < |onLb| then onLb[u] else [])
      ensures forall u :: 0 <= u < |onUb| ==> onUb[u] == old(if u < |onUb| then onUb[u] else [])
    {
      EnsureCapacity(v);
      var ws := onLb[v];
      out' := out;
      var i := 0;
      while i < |ws|
        invariant i <= |ws| && out' == out + ws[..i]
      {
        out' := out' + [ws[i]];
        i := i + 1;
      }
      assert ws[..i] == ws;
      onLb := onLb[v := []];
    }

    /** Append every upper-bound watch of `v`, in order, to `out` and empty `v`'s list. */
    method MoveUbWatchesTo(v: VarRef, out: seq<UBWatch>) returns (out': seq<UBWatch>)
      requires Valid()
      modifies this
      ensures Valid()
      ensures v < |onUb| && onUb[v] == []
      ensures out' == out + old(if v < |onUb| then onUb[v] else [])
      ensures forall u :: 0 <= u < |onUb| && u != v ==> onUb[u] == old(if u < |onUb| then onUb[u] else [])
      ensures forall u :: 0 <= u < |onLb| ==> onLb[u] == old(if u < |onLb| then onLb[u] else [])
    {
      EnsureCapacity(v);
      var ws := onUb[v];
      out' := out;
      var i := 0;
      while i < |ws|
        invariant i <= |ws| && out' == out + ws[..i]
      {
        out' := out' + [ws[i]];
        i := i + 1;
      }
      assert ws[..i] == ws;
      onUb := onUb[v := []];
    }

    /**
     * `clause` has a watch on `literal`'s variable whose own literal entails `literal`:
     * an upper-bound watch with guard at most `ub`, or a lower-bound watch with guard at
     * least `belowLb`. The variable must have an entry (the lists are indexed directly).
     */
    function IsWatchedBy(literal: ILit, clause: ClauseId): (r: bool)
      reads this
      requires Valid() && literal.Var() < |onUb|
      ensures literal.LEQ? ==> (r <==> (exists i :: 0 <= i < |onUb[literal.v]| &&
                                          onUb[literal.v][i].watcher == clause && onUb[literal.v][i].guard <= literal.ub))
      ensures literal.GT? ==> (r <==> (exists i :: 0 <= i < |onLb[literal.v]| &&
                                         onLb[literal.v][i].watcher == clause && onLb[literal.v][i].guard >= literal.belowLb))
    {
      match literal
      case LEQ(v, ub) => FindUb(onUb[v], clause, ub)
      case GT(v, b) => FindLb(onLb[v], clause, b)
    }
  }

  /** A watch found by `is_watched_by` stands for a literal that entails the queried one. */
  lemma WatchEntailsQuery(w: UBWatch, x: LBWatch, v: VarRef, ub: int, b: int, val: VarRef -> int)
    ensures w.guard <= ub && Holds(UBToLit(w, v), val) ==> Holds(LEQ(v, ub), val)
    ensures x.guard >= b && Holds(LBToLit(x, v), val) ==> Holds(GT(v, b), val)
  {
  }
}
