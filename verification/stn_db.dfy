/**
 * The store of difference constraints of the STN (`ConstraintDb` in tnet/src/theory.rs).
 *
 * Every edge `target - source <= weight` is stored once, in canonical form, as four
 * directed constraints on bounds: the forward and backward views of the canonical edge,
 * then those of its negation. A directed constraint says that the stored value of its
 * target bound is at most the stored value of its source bound plus its weight.
 */
module StnConstraints {
  import opened Wrappers
  import opened Lits
  import opened Domains
  import opened StnIds

  datatype DirConstraint = DirConstraint(source: VarBound, target: VarBound, weight: int,
                                         enabler: Option<Lit>, enablers: seq<Lit>)

  /** The value a valuation of the timepoints gives to a bound in the signed representation. */
  function SignedTime(vb: VarBound, time: Timepoint -> int): int
  {
    if vb.plus then time(vb.variable) else -time(vb.variable)
  }

  predicate DirHolds(c: DirConstraint, time: Timepoint -> int)
  {
    SignedTime(c.target, time) <= SignedTime(c.source, time) + c.weight
  }

  function AsEdge(c: DirConstraint): Edge
  {
    if c.source.plus then Edge(c.source.variable, c.target.variable, c.weight)
    else Edge(c.target.variable, c.source.variable, c.weight)
  }

  /** `ub(source) <= X` implies `ub(target) <= X + weight`. */
  function ForwardConstraint(e: Edge): (c: DirConstraint)
    ensures AsEdge(c) == e && c.enabler == None && c.enablers == []
    ensures c.source.plus && c.target.plus
    ensures forall time :: DirHolds(c, time) <==> EdgeHolds(e, time)
  {
    DirConstraint(Plus(e.source), Plus(e.target), e.weight, None, [])
  }

  /** `lb(target) >= X` implies `lb(source) >= X - weight`. */
  function BackwardConstraint(e: Edge): (c: DirConstraint)
    ensures AsEdge(c) == e && c.enabler == None && c.enablers == []
    ensures !c.source.plus && !c.target.plus
    ensures forall time :: DirHolds(c, time) <==> EdgeHolds(e, time)
  {
    DirConstraint(Minus(e.target), Minus(e.source), e.weight, None, [])
  }

  /** Same bounds and weight: what the store never changes about a directed constraint. */
  predicate SameShape(c: DirConstraint, d: DirConstraint)
  {
    c.source == d.source && c.target == d.target && c.weight == d.weight
  }

  function Canonical(e: Edge): (r: Edge)
    ensures IsCanonical(r) && (r == e || r == Negated(e))
    ensures IsCanonical(e) ==> r == e
    ensures !IsCanonical(e) ==> Negated(r) == e
  {
    NegatedProperties(e);
    if IsCanonical(e) then e else Negated(e)
  }

  /** `ConstraintPair::new_inactives`: the four inactive directed constraints stored for an edge. */
  function NewInactives(e: Edge): (r: seq<DirConstraint>)
    ensures |r| == 4
    ensures forall i :: 0 <= i < 4 ==> r[i].enabler == None && r[i].enablers == []
    ensures AsEdge(r[0]) == AsEdge(r[1]) == Canonical(e)
    ensures AsEdge(r[2]) == AsEdge(r[3]) == Negated(Canonical(e))
    ensures r[0].source.plus && !r[1].source.plus && r[2].source.plus && !r[3].source.plus
    ensures forall i :: 0 <= i < 4 ==>
      (r[i].source.variable == e.source || r[i].source.variable == e.target) &&
      (r[i].target.variable == e.source || r[i].target.variable == e.target)
  {
    var c := Canonical(e);
    [ForwardConstraint(c), BackwardConstraint(c), ForwardConstraint(Negated(c)), BackwardConstraint(Negated(c))]
  }

  datatype EdgeTarget = EdgeTarget(target: VarBound, weight: int, enabler: Lit)

  /** The directed edges watched by a literal that `lit` entails, in insertion order. */
  function Watching(ws: seq<(Lit, DirEdge)>, lit: Lit): (r: seq<DirEdge>)
    ensures forall d :: d in r <==> exists l :: (l, d) in ws && Lits.Entails(lit, l)
  {
    if ws == [] then []
    else
      var rest := Watching(ws[1..], lit);
      assert forall w :: w in ws <==> w == ws[0] || w in ws[1..];
      if Lits.Entails(lit, ws[0].0) then [ws[0].1] + rest else rest
  }

  class ConstraintDb {
    var constraints: seq<DirConstraint>
    /** Base id of every stored canonical edge. */
    var lookup: map<Edge, nat>
    /** Literal and directed edge to activate when a literal entailing it becomes true. */
    var watches: seq<(Lit, DirEdge)>
    /** For every bound, the potential (not necessarily active) outgoing constraints. */
    var edges: seq<seq<EdgeTarget>>

    /** The four directed constraints of base `k` are the views of one canonical edge, registered in `lookup`. */
    ghost predicate PairOk(k: nat)
      reads this`constraints, this`lookup
      requires 4 * k + 3 < |constraints|
    {
      var e := AsEdge(constraints[4 * k]);
      IsCanonical(e) &&
      SameShape(constraints[4 * k], ForwardConstraint(e)) &&
      SameShape(constraints[4 * k + 1], BackwardConstraint(e)) &&
      SameShape(constraints[4 * k + 2], ForwardConstraint(Negated(e))) &&
      SameShape(constraints[4 * k + 3], BackwardConstraint(Negated(e))) &&
      e in lookup && lookup[e] == k
    }

    ghost predicate Valid()
      reads this`constraints, this`lookup
    {
      |constraints| % 4 == 0 && |constraints| < U32 &&
      (forall k :: 0 <= k < |constraints| / 4 ==> PairOk(k)) &&
      (forall e :: e in lookup ==> lookup[e] < |constraints| / 4 && AsEdge(constraints[4 * lookup[e]]) == e)
    }

    constructor ()
      ensures Valid()
      ensures constraints == [] && lookup == map[] && watches == [] && edges == []
    {
      constraints := [];
      lookup := map[];
      watches := [];
      edges := [];
    }

    /** Every stored directed constraint is a view of the edge whose id its index encodes. */
    lemma ViewOf(d: DirEdge)
      requires Valid() && d.raw < |constraints|
      ensures var e := AsEdge(constraints[Forward(EdgeOf(d)).raw]);
        AsEdge(constraints[d.raw]) == e &&
        SameShape(constraints[d.raw], if IsForward(d) then ForwardConstraint(e) else BackwardConstraint(e))
    {
      var k := d.raw / 4;
      assert PairOk(k);
      var e := AsEdge(constraints[4 * k]);
      NegatedProperties(e);
      var r := d.raw % 4;
      assert d.raw == 4 * k + r;
      assert EdgeOf(d).raw == 2 * k + r / 2;
      assert Forward(EdgeOf(d)).raw == 4 * k + 2 * (r / 2);
    }

    /** `find_existing`: the id under which `edge` is stored, directly or as the negation of a canonical edge. */
    function FindExisting(edge: Edge): (r: Option<EdgeId>)
      reads this
      requires Valid()
      ensures r.Some? <==> Canonical(edge) in lookup
      ensures r.Some? ==> HasEdge(|constraints|, r.value) && IsNegated(r.value) == !IsCanonical(edge)
      ensures r.Some? ==> AsEdge(constraints[Forward(r.value).raw]) == edge
      ensures r.Some? ==> AsEdge(constraints[Backward(r.value).raw]) == edge
    {
      var c := Canonical(edge);
      if c in lookup then
        var k := lookup[c];
        assert PairOk(k);
        NegatedProperties(edge);
        Some(NewEdgeId(k, !IsCanonical(edge)))
      else None
    }

    /** Adds an edge unless it (or its negation) is already stored; returns whether it was created and its id. */
    method PushEdge(source: Timepoint, target: Timepoint, weight: int) returns (created: bool, id: EdgeId)
      requires Valid() && |constraints| + 4 < U32
      modifies this
      ensures Valid()
      ensures created <==> Canonical(Edge(source, target, weight)) !in old(lookup)
      ensures HasEdge(|constraints|, id) && IsNegated(id) == !IsCanonical(Edge(source, target, weight))
      ensures AsEdge(constraints[Forward(id).raw]) == Edge(source, target, weight)
      ensures AsEdge(constraints[Backward(id).raw]) == Edge(source, target, weight)
      ensures !created ==> constraints == old(constraints) && lookup == old(lookup)
      ensures created ==> constraints == old(constraints) + NewInactives(Edge(source, target, weight))
      ensures created ==> lookup == old(lookup)[Canonical(Edge(source, target, weight)) := |old(constraints)| / 4]
      ensures created ==> BaseId(id) == |old(constraints)| / 4
      ensures watches == old(watches) && edges == old(edges)
    {
      var edge := Edge(source, target, weight);
      var existing := FindExisting(edge);
      match existing {
        case Some(e) =>
          created, id := false, e;
        case None =>
          var k := |constraints| / 4;
          var pair := NewInactives(edge);
          var base := Canonical(edge);
          constraints := constraints + pair;
          lookup := lookup[base := k];
          created := true;
          id := NewEdgeId(k, !IsCanonical(edge));
          NegatedProperties(edge);
          NegatedProperties(base);
          forall j | 0 <= j < |constraints| / 4
            ensures PairOk(j)
          {
            if j < k {
              assert old(PairOk(j));
              assert AsEdge(constraints[4 * j]) != base;
            }
          }
      }
    }

    /** Removes the last four directed constraints (the last created edge) and its lookup entry. */
    method PopLast()
      requires Valid()
      modifies this`constraints, this`lookup
      ensures Valid()
      ensures |old(constraints)| >= 4 ==>
        constraints == old(constraints[..|constraints| - 4]) &&
        lookup == old(lookup) - {old(AsEdge(constraints[|constraints| - 4]))}
      ensures |old(constraints)| < 4 ==> constraints == old(constraints) && lookup == old(lookup)
    {
      if |constraints| >= 4 {
        var n := |constraints| - 4;
        var c := constraints[n];
        assert PairOk(n / 4);
        constraints := constraints[..n];
        lookup := lookup - {AsEdge(c)};
        forall j | 0 <= j < |constraints| / 4
          ensures PairOk(j)
        {
          assert old(PairOk(j));
          assert old(lookup[AsEdge(constraints[4 * j])]) == j;
        }
        forall e | e in lookup
          ensures lookup[e] < |constraints| / 4 && AsEdge(constraints[4 * lookup[e]]) == e
        {
          assert old(lookup[e]) != n / 4;
        }
      }
    }

    /** When `literal` becomes true, the directed constraint `d` should become active. */
    method AddDirectedEnabler(d: DirEdge, literal: Lit)
      requires Valid() && d.raw < |constraints|
      modifies this
      ensures Valid()
      ensures watches == old(watches) + [(literal, d)]
      ensures constraints == old(constraints)[d.raw := old(constraints[d.raw]).(enablers := old(constraints[d.raw].enablers) + [literal])]
      ensures lookup == old(lookup)
      ensures var i := Idx(constraints[d.raw].source);
        |edges| == (if i < |old(edges)| then |old(edges)| else i + 1) &&
        (forall j :: 0 <= j < |edges| && j != i ==> edges[j] == (if j < |old(edges)| then old(edges[j]) else [])) &&
        edges[i] == (if i < |old(edges)| then old(edges[i]) else []) +
                    [EdgeTarget(constraints[d.raw].target, constraints[d.raw].weight, literal)]
      ensures forall j, o :: 0 <= j < |edges| && o in edges[j] ==>
        (j < |old(edges)| && o in old(edges[j])) || o == EdgeTarget(constraints[d.raw].target, constraints[d.raw].weight, literal)
    {
      watches := watches + [(literal, d)];
      var c := constraints[d.raw];
      var i := Idx(c.source);
      if i >= |edges| {
        edges := edges + seq(i + 1 - |edges|, _ => []);
      }
      edges := edges[i := edges[i] + [EdgeTarget(c.target, c.weight, literal)]];
      constraints := constraints[d.raw := c.(enablers := c.enablers + [literal])];
      forall k | 0 <= k < |constraints| / 4
        ensures PairOk(k)
      {
        assert old(PairOk(k));
        assert forall j :: 4 * k <= j < 4 * k + 4 ==> SameShape(constraints[j], old(constraints[j]));
        assert AsEdge(constraints[4 * k]) == AsEdge(old(constraints[4 * k]));
      }
    }

    /** Sets or clears the literal that made directed constraint `d` active. */
    method SetEnabler(d: nat, enabler: Option<Lit>)
      requires Valid() && d < |constraints|
      modifies this`constraints
      ensures Valid()
      ensures constraints == old(constraints)[d := old(constraints[d]).(enabler := enabler)]
    {
      constraints := constraints[d := constraints[d].(enabler := enabler)];
      forall k | 0 <= k < |constraints| / 4
        ensures PairOk(k)
      {
        assert old(PairOk(k));
        assert AsEdge(constraints[4 * k]) == AsEdge(old(constraints[4 * k]));
      }
    }

    /** When `literal` becomes true, both directed views of edge `e` should become active. */
    method AddEnabler(e: EdgeId, literal: Lit)
      requires Valid() && HasEdge(|constraints|, e)
      modifies this
      ensures Valid()
      ensures watches == old(watches) + [(literal, Forward(e)), (literal, Backward(e))]
      ensures |constraints| == |old(constraints)| && lookup == old(lookup)
      ensures forall j :: 0 <= j < |constraints| ==>
        SameShape(constraints[j], old(constraints[j])) && constraints[j].enabler == old(constraints[j].enabler)
      ensures constraints[Forward(e).raw].enablers == old(constraints[Forward(e).raw].enablers) + [literal]
      ensures constraints[Backward(e).raw].enablers == old(constraints[Backward(e).raw].enablers) + [literal]
      ensures forall j, o :: 0 <= j < |edges| && o in edges[j] ==>
        (j < |old(edges)| && o in old(edges[j])) ||
        (o.enabler == literal && (o.target == constraints[Forward(e).raw].target || o.target == constraints[Backward(e).raw].target))
    {
      AddDirectedEnabler(Forward(e), literal);
      AddDirectedEnabler(Backward(e), literal);
    }

    function PotentialOutEdges(source: VarBound): (r: seq<EdgeTarget>)
      reads this
      ensures Idx(source) < |edges| ==> r == edges[Idx(source)]
      ensures Idx(source) >= |edges| ==> r == []
    {
      if Idx(source) < |edges| then edges[Idx(source)] else []
    }

    /** Directed edges to activate once `lit` holds: those watched by a literal it entails. */
    function WatchesOn(lit: Lit): (r: seq<DirEdge>)
      reads this
      ensures forall d :: d in r <==> exists l :: (l, d) in watches && Lits.Entails(lit, l)
    {
      Watching(watches, lit)
    }
  }
}
