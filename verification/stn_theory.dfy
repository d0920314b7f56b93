/**
 * The incremental difference-logic theory (`StnTheory` in tnet/src/theory.rs).
 *
 * Active directed constraints are kept as propagators in per-bound adjacency lists; every
 * change to the network is recorded on a trail so that it can be undone back to a
 * backtrack point. Bounds live in the model's `Domains` store and are tightened by a
 * queue-based propagation loop (Cesta and Oddi, 1996) that detects negative cycles.
 */
module Stn {
  import opened Wrappers
  import opened Lits
  import opened Domains
  import opened StnIds
  import opened StnConstraints

  datatype TrailEvent = EdgeAdded | EdgeActivated(edge: DirEdge) | AddedTheoryPropagationCause

  datatype Propagator = Propagator(target: VarBound, weight: int, id: DirEdge)

  datatype Activation = ToActivate(edge: DirEdge, enabler: Lit)

  datatype TheoryPropagationCause = PathCause(pathSource: VarBound, pathTarget: VarBound) | BoundsCause(sourceLit: Lit, targetLit: Lit)

  datatype Contradiction = EmptyDomainConflict(variable: VarRef) | Explanation(literals: seq<Lit>)

  /** Why propagation stopped: a conflict, or a state in which the STN panics or never returns. */
  datatype Failure = Conflict(contradiction: Contradiction) | Abort

  function CountAdded(t: seq<TrailEvent>): (n: nat)
    ensures n <= |t|
    decreases |t|
  {
    if t == [] then 0 else CountAdded(t[..|t| - 1]) + (if t[|t| - 1] == EdgeAdded then 1 else 0)
  }

  function CountCauses(t: seq<TrailEvent>): (n: nat)
    ensures n <= |t|
    decreases |t|
  {
    if t == [] then 0 else CountCauses(t[..|t| - 1]) + (if t[|t| - 1] == AddedTheoryPropagationCause then 1 else 0)
  }

  /** The trail records an activation of directed constraint `d`. */
  function ActiveIn(t: seq<TrailEvent>, d: nat): bool
    decreases |t|
  {
    t != [] && (ActiveIn(t[..|t| - 1], d) || t[|t| - 1] == EdgeActivated(DirEdge(d)))
  }

  lemma {:induction false} CountAddedPrefix(t: seq<TrailEvent>, k: nat)
    requires k <= |t|
    ensures CountAdded(t[..k]) <= CountAdded(t)
    decreases |t|
  {
    if k < |t| {
      assert t[..|t| - 1][..k] == t[..k];
      CountAddedPrefix(t[..|t| - 1], k);
    } else {
      assert t[..k] == t;
    }
  }

  /** The propagator that an activation recorded on the trail contributes to the list of bound `i`. */
  function Contribution(ev: TrailEvent, cs: seq<DirConstraint>, i: nat): seq<Propagator>
  {
    if ev.EdgeActivated? && ev.edge.raw < |cs| && Idx(cs[ev.edge.raw].source) == i
       && cs[ev.edge.raw].source != cs[ev.edge.raw].target
    then [Propagator(cs[ev.edge.raw].target, cs[ev.edge.raw].weight, ev.edge)]
    else []
  }

  /** The active propagators out of bound `i` that the trail `t` accounts for, oldest first. */
  function PropsOf(t: seq<TrailEvent>, cs: seq<DirConstraint>, i: nat): seq<Propagator>
    decreases |t|
  {
    if t == [] then [] else PropsOf(t[..|t| - 1], cs, i) + Contribution(t[|t| - 1], cs, i)
  }

  /** Every propagator accounts for an activated, non-self-loop constraint out of bound `i`. */
  lemma {:induction false} PropsOfFacts(t: seq<TrailEvent>, cs: seq<DirConstraint>, i: nat, k: nat)
    requires k < |PropsOf(t, cs, i)|
    ensures var p := PropsOf(t, cs, i)[k];
      p.id.raw < |cs| && Idx(cs[p.id.raw].source) == i && cs[p.id.raw].target == p.target &&
      cs[p.id.raw].weight == p.weight && cs[p.id.raw].source != p.target && ActiveIn(t, p.id.raw)
    decreases |t|
  {
    var pre := t[..|t| - 1];
    if k < |PropsOf(pre, cs, i)| {
      PropsOfFacts(pre, cs, i, k);
    }
  }

  /** The propagators depend only on the shape of the constraints the trail activates. */
  lemma {:induction false} PropsOfFrame(t: seq<TrailEvent>, cs: seq<DirConstraint>, cs': seq<DirConstraint>, i: nat)
    requires forall d: nat :: ActiveIn(t, d) ==> d < |cs| && d < |cs'| && SameShape(cs[d], cs'[d])
    ensures PropsOf(t, cs, i) == PropsOf(t, cs', i)
    decreases |t|
  {
    if t != [] {
      var pre := t[..|t| - 1];
      assert forall d: nat :: ActiveIn(pre, d) ==> ActiveIn(t, d);
      PropsOfFrame(pre, cs, cs', i);
    }
  }

  /** A bound that no constraint starts from has no propagator. */
  lemma {:induction false} PropsOfNone(t: seq<TrailEvent>, cs: seq<DirConstraint>, i: nat)
    requires forall d :: 0 <= d < |cs| ==> Idx(cs[d].source) != i
    ensures PropsOf(t, cs, i) == []
    decreases |t|
  {
    if t != [] {
      PropsOfNone(t[..|t| - 1], cs, i);
    }
  }

  lemma {:induction false} TrailAppend(t: seq<TrailEvent>, ev: TrailEvent, cs: seq<DirConstraint>, i: nat)
    ensures (t + [ev])[..|t|] == t
    ensures forall d: nat :: ActiveIn(t + [ev], d) <==> ActiveIn(t, d) || ev == EdgeActivated(DirEdge(d))
    ensures PropsOf(t + [ev], cs, i) == PropsOf(t, cs, i) + Contribution(ev, cs, i)
    ensures CountAdded(t + [ev]) == CountAdded(t) + (if ev == EdgeAdded then 1 else 0)
    ensures CountCauses(t + [ev]) == CountCauses(t) + (if ev == AddedTheoryPropagationCause then 1 else 0)
  {
    assert (t + [ev])[..|t|] == t;
  }

  /** The propagator from bound `i` holds: target <= source + weight on stored values. */
  predicate PropSat(b: seq<int>, i: nat, p: Propagator)
  {
    i < |b| && Idx(p.target) < |b| && b[Idx(p.target)] <= b[i] + p.weight
  }

  /** Every active propagator holds, except possibly those out of a bound in `S`. */
  predicate SatisfiedExcept(props: seq<seq<Propagator>>, b: seq<int>, S: set<VarBound>)
  {
    forall i, k :: 0 <= i < |props| && 0 <= k < |props[i]| ==> VarBoundAt(i) in S || PropSat(b, i, props[i][k])
  }

  lemma {:induction false} SatisfiedMonotone(props: seq<seq<Propagator>>, b: seq<int>, S: set<VarBound>, S': set<VarBound>)
    requires SatisfiedExcept(props, b, S) && S <= S'
    ensures SatisfiedExcept(props, b, S')
  {
  }

  /** Tightening one bound can only break propagators out of that bound. */
  lemma {:induction false} SatisfiedAfterTightening(props: seq<seq<Propagator>>, b: seq<int>, S: set<VarBound>, j: nat, v: int)
    requires SatisfiedExcept(props, b, S) && j < |b| && v <= b[j]
    ensures SatisfiedExcept(props, b[j := v], S + {VarBoundAt(j)})
  {
    forall i, k | 0 <= i < |props| && 0 <= k < |props[i]| && VarBoundAt(i) !in S + {VarBoundAt(j)}
      ensures PropSat(b[j := v], i, props[i][k])
    {
      assert PropSat(b, i, props[i][k]);
      assert i != j by { assert VarBoundAt(i) != VarBoundAt(j); }
    }
  }

  predicate Below(b: seq<int>, b0: seq<int>)
  {
    |b| == |b0| && forall i :: 0 <= i < |b| ==> b[i] <= b0[i]
  }

  /** No active directed constraint is a self loop of negative weight, which alone is a negative cycle. */
  predicate NoNegativeSelfLoop(cs: seq<DirConstraint>)
  {
    forall i :: 0 <= i < |cs| && cs[i].enabler.Some? && cs[i].source == cs[i].target ==> cs[i].weight >= 0
  }

  function SymIdx(i: nat): nat { if i % 2 == 0 then i + 1 else i - 1 }

  /**
   * Termination measure of propagation: with `b0` the bounds when propagation started, every
   * consistent tightening of a bound `i` keeps `b[i] + b0[sym i] >= 0` and lowers this sum.
   */
  function Potential(b: seq<int>, b0: seq<int>, n: nat): nat
    requires n <= |b| == |b0| && |b0| % 2 == 0
  {
    if n == 0 then 0
    else Potential(b, b0, n - 1) + (if b[n - 1] + b0[SymIdx(n - 1)] > 0 then b[n - 1] + b0[SymIdx(n - 1)] else 0)
  }

  lemma {:induction false} PotentialTightening(b: seq<int>, b0: seq<int>, j: nat, v: int, n: nat)
    requires |b| == |b0| && |b0| % 2 == 0 && n <= |b| && j < |b|
    requires v <= b[j]
    ensures Potential(b[j := v], b0, n) <= Potential(b, b0, n)
    ensures j < n && v < b[j] && v + b0[SymIdx(j)] >= 0 ==> Potential(b[j := v], b0, n) < Potential(b, b0, n)
    decreases n
  {
    if n > 0 {
      PotentialTightening(b, b0, j, v, n - 1);
    }
  }

  /** The tightened value stays compatible with a symmetric bound that was only tightened. */
  lemma {:induction false} PotentialStep(b: seq<int>, b0: seq<int>, vb: VarBound, v: int)
    requires Below(b, b0) && |b0| % 2 == 0 && Idx(vb) < |b|
    requires v < b[Idx(vb)] && CompatibleWithSymmetric(v, b[Idx(vb.Neg())])
    ensures Below(b[Idx(vb) := v], b0)
    ensures Potential(b[Idx(vb) := v], b0, |b|) < Potential(b, b0, |b|)
  {
    IdxInjective(vb, vb.Neg());
    assert Idx(vb.Neg()) == SymIdx(Idx(vb));
    PotentialTightening(b, b0, Idx(vb), v, |b|);
  }

  /** The STN handled this event itself while propagating an edge. */
  predicate SelfHandled(e: Event, writer: nat)
  {
    e.cause.Inference? && e.cause.writer == writer && DecodeCause(e.cause.payload).EdgePropagation?
  }

  /** Bounds changed by the events from `from` on that the STN still has to propagate. */
  ghost function PendingSources(evs: seq<Event>, from: nat, writer: nat): set<VarBound>
  {
    set k | from <= k < |evs| && !SelfHandled(evs[k], writer) :: evs[k].affectedBound
  }

  function NewLiteral(e: Event): Lit { Lit(e.affectedBound, e.newValue) }

  function Activations(ds: seq<DirEdge>, enabler: Lit): (r: seq<Activation>)
    ensures |r| == |ds| && forall k :: 0 <= k < |ds| ==> r[k] == ToActivate(ds[k], enabler)
  {
    seq(|ds|, k requires 0 <= k < |ds| => ToActivate(ds[k], enabler))
  }

  /** Every activation on the trail names a constraint that existed when it was recorded, and none is recorded twice. */
  ghost predicate TrailOk(t: seq<TrailEvent>)
    decreases |t|
  {
    t == [] ||
    (TrailOk(t[..|t| - 1]) &&
     (t[|t| - 1].EdgeActivated? ==>
        t[|t| - 1].edge.raw < 4 * CountAdded(t[..|t| - 1]) && !ActiveIn(t[..|t| - 1], t[|t| - 1].edge.raw)))
  }

  /**
   * The network agrees with its trail: four constraints per recorded edge addition, a constraint
   * is active iff its activation is on the trail, and the adjacency lists hold exactly the
   * propagators of the recorded activations.
   */
  ghost predicate NetOk(cs: seq<DirConstraint>, edges: seq<seq<EdgeTarget>>, props: seq<seq<Propagator>>, t: seq<TrailEvent>)
  {
    |cs| == 4 * CountAdded(t) && |props| % 2 == 0 && TrailOk(t) &&
    (forall d :: 0 <= d < |cs| ==> Idx(cs[d].source) < |props| && Idx(cs[d].target) < |props|) &&
    (forall d :: 0 <= d < |cs| ==> (cs[d].enabler.Some? <==> ActiveIn(t, d))) &&
    (forall i, o :: 0 <= i < |edges| && o in edges[i] ==> Idx(o.target) < |props|) &&
    (forall i {:trigger PropsOf(t, cs, i)} :: 0 <= i < |props| ==> props[i] == PropsOf(t, cs, i))
  }

  /** Every propagator points to a bound of the network and is not a self loop. */
  lemma {:induction false} PropagatorFacts(cs: seq<DirConstraint>, edges: seq<seq<EdgeTarget>>, props: seq<seq<Propagator>>, t: seq<TrailEvent>)
    requires NetOk(cs, edges, props, t)
    ensures forall i, k :: 0 <= i < |props| && 0 <= k < |props[i]| ==>
      Idx(props[i][k].target) < |props| && props[i][k].target != VarBoundAt(i) && props[i][k].id.raw < |cs| &&
      cs[props[i][k].id.raw].source == VarBoundAt(i) && cs[props[i][k].id.raw].target == props[i][k].target &&
      cs[props[i][k].id.raw].weight == props[i][k].weight
  {
    forall i, k | 0 <= i < |props| && 0 <= k < |props[i]|
      ensures Idx(props[i][k].target) < |props| && props[i][k].target != VarBoundAt(i) && props[i][k].id.raw < |cs| &&
        cs[props[i][k].id.raw].source == VarBoundAt(i) && cs[props[i][k].id.raw].target == props[i][k].target &&
        cs[props[i][k].id.raw].weight == props[i][k].weight
    {
      PropsOfFacts(t, cs, i, k);
      IdxInjective(cs[props[i][k].id.raw].source, VarBoundAt(i));
    }
  }

  /** The facts of `PropagatorFacts` for the single propagator at position `k` out of bound `i`. */
  lemma {:induction false} PropagatorFact(cs: seq<DirConstraint>, edges: seq<seq<EdgeTarget>>, props: seq<seq<Propagator>>, t: seq<TrailEvent>,
                                          i: nat, k: nat)
    requires NetOk(cs, edges, props, t) && i < |props| && k < |props[i]|
    ensures Idx(props[i][k].target) < |props| && props[i][k].target != VarBoundAt(i) && props[i][k].id.raw < |cs|
    ensures cs[props[i][k].id.raw].source == VarBoundAt(i) && cs[props[i][k].id.raw].target == props[i][k].target
    ensures cs[props[i][k].id.raw].weight == props[i][k].weight
  {
    PropsOfFacts(t, cs, i, k);
    IdxInjective(cs[props[i][k].id.raw].source, VarBoundAt(i));
  }

  /** Changing enabler lists or adding potential edges keeps the network consistent. */
  lemma {:induction false} NetFrame(cs: seq<DirConstraint>, cs': seq<DirConstraint>, edges: seq<seq<EdgeTarget>>, edges': seq<seq<EdgeTarget>>,
                 props: seq<seq<Propagator>>, t: seq<TrailEvent>)
    requires NetOk(cs, edges, props, t)
    requires |cs'| == |cs| && forall d :: 0 <= d < |cs| ==> SameShape(cs[d], cs'[d]) && cs[d].enabler == cs'[d].enabler
    requires forall i, o :: 0 <= i < |edges'| && o in edges'[i] ==> Idx(o.target) < |props|
    ensures NetOk(cs', edges', props, t)
  {
    TrailEdgesBelow(t);
    forall i | 0 <= i < |props|
      ensures props[i] == PropsOf(t, cs', i)
    {
      PropsOfFrame(t, cs, cs', i);
    }
  }

  lemma {:induction false} NetReserve(cs: seq<DirConstraint>, edges: seq<seq<EdgeTarget>>, props: seq<seq<Propagator>>, t: seq<TrailEvent>)
    requires NetOk(cs, edges, props, t)
    ensures NetOk(cs, edges, props + [[], []], t)
  {
    forall i | |props| <= i < |props| + 2
      ensures PropsOf(t, cs, i) == []
    {
      PropsOfNone(t, cs, i);
    }
  }

  /** Activations on a consistent trail name stored constraints. */
  lemma {:induction false} TrailEdgesBelow(t: seq<TrailEvent>)
    requires TrailOk(t)
    ensures forall d: nat :: ActiveIn(t, d) ==> d < 4 * CountAdded(t)
    decreases |t|
  {
    if t != [] {
      var pre := t[..|t| - 1];
      TrailEdgesBelow(pre);
      TrailAppend(pre, t[|t| - 1], [], 0);
      assert pre + [t[|t| - 1]] == t;
    }
  }

  lemma {:induction false} TrailOkAppend(t: seq<TrailEvent>, ev: TrailEvent)
    requires TrailOk(t) && (ev.EdgeActivated? ==> ev.edge.raw < 4 * CountAdded(t) && !ActiveIn(t, ev.edge.raw))
    ensures TrailOk(t + [ev])
  {
    assert (t + [ev])[..|t|] == t;
  }

  lemma {:induction false} NetAddEdge(cs: seq<DirConstraint>, edges: seq<seq<EdgeTarget>>, props: seq<seq<Propagator>>, t: seq<TrailEvent>,
                   pair: seq<DirConstraint>)
    requires NetOk(cs, edges, props, t)
    requires |pair| == 4 && forall j :: 0 <= j < 4 ==> (pair[j].enabler == None &&
      Idx(pair[j].source) < |props| && Idx(pair[j].target) < |props|)
    ensures NetOk(cs + pair, edges, props, t + [EdgeAdded])
  {
    var t' := t + [EdgeAdded];
    var cs' := cs + pair;
    TrailAppend(t, EdgeAdded, cs', 0);
    TrailOkAppend(t, EdgeAdded);
    TrailEdgesBelow(t);
    forall i | 0 <= i < |props|
      ensures props[i] == PropsOf(t', cs', i)
    {
      TrailAppend(t, EdgeAdded, cs', i);
      PropsOfFrame(t, cs, cs', i);
    }
  }

  /** The constraints stored for an edge between existing timepoints stay among their bounds. */
  lemma {:induction false} NewInactivesWithin(e: Edge, n: nat)
    requires e.source < n && e.target < n
    ensures forall j :: 0 <= j < 4 ==> (NewInactives(e)[j].enabler == None &&
      Idx(NewInactives(e)[j].source) < 2 * n && Idx(NewInactives(e)[j].target) < 2 * n)
  {
  }

  lemma {:induction false} NetAddCause(cs: seq<DirConstraint>, edges: seq<seq<EdgeTarget>>, props: seq<seq<Propagator>>, t: seq<TrailEvent>)
    requires NetOk(cs, edges, props, t)
    ensures NetOk(cs, edges, props, t + [AddedTheoryPropagationCause])
    ensures CountCauses(t + [AddedTheoryPropagationCause]) == CountCauses(t) + 1
  {
    var t' := t + [AddedTheoryPropagationCause];
    forall i | 0 <= i < |props|
      ensures props[i] == PropsOf(t', cs, i)
    {
      TrailAppend(t, AddedTheoryPropagationCause, cs, i);
    }
    TrailAppend(t, AddedTheoryPropagationCause, cs, 0);
    TrailOkAppend(t, AddedTheoryPropagationCause);
  }

  /** The adjacency lists after activating constraint `d`: self loops get no propagator. */
  function ActivatedProps(props: seq<seq<Propagator>>, c: DirConstraint, d: DirEdge): seq<seq<Propagator>>
    requires Idx(c.source) < |props|
  {
    if c.source == c.target then props
    else props[Idx(c.source) := props[Idx(c.source)] + [Propagator(c.target, c.weight, d)]]
  }

  lemma {:induction false} NetActivate(cs: seq<DirConstraint>, edges: seq<seq<EdgeTarget>>, props: seq<seq<Propagator>>, t: seq<TrailEvent>,
                    d: nat, enabler: Lit)
    requires NetOk(cs, edges, props, t) && d < |cs| && cs[d].enabler == None
    ensures NetOk(cs[d := cs[d].(enabler := Some(enabler))], edges, ActivatedProps(props, cs[d], DirEdge(d)),
                  t + [EdgeActivated(DirEdge(d))])
    ensures CountCauses(t + [EdgeActivated(DirEdge(d))]) == CountCauses(t)
  {
    var ev := EdgeActivated(DirEdge(d));
    var t' := t + [ev];
    var cs' := cs[d := cs[d].(enabler := Some(enabler))];
    var props' := ActivatedProps(props, cs[d], DirEdge(d));
    TrailAppend(t, ev, cs', 0);
    TrailOkAppend(t, ev);
    TrailEdgesBelow(t);
    forall i | 0 <= i < |props'|
      ensures props'[i] == PropsOf(t', cs', i)
    {
      TrailAppend(t, ev, cs', i);
      PropsOfFrame(t, cs, cs', i);
    }
  }

  /**
   * The activation step of `propagate_all` as written in tnet/src/theory.rs: the enabler is set in
   * every case, but the activation is recorded on the trail only when the constraint is not a self
   * loop. `StnTheory.Activate` records it in both cases.
   */
  function ActivateAsWritten(cs: seq<DirConstraint>, props: seq<seq<Propagator>>, t: seq<TrailEvent>, d: nat, enabler: Lit)
    : (r: (seq<DirConstraint>, seq<seq<Propagator>>, seq<TrailEvent>))
    requires d < |cs| && Idx(cs[d].source) < |props|
    ensures r.0 == cs[d := cs[d].(enabler := Some(enabler))] && r.1 == ActivatedProps(props, cs[d], DirEdge(d))
    ensures cs[d].source == cs[d].target ==> r.2 == t
  {
    var c := cs[d];
    var cs' := cs[d := c.(enabler := Some(enabler))];
    if c.source == c.target then (cs', props, t)
    else (cs', ActivatedProps(props, c, DirEdge(d)), t + [EdgeActivated(DirEdge(d))])
  }

  /** The four directed constraints stored for the self loop `0 - 0 <= -1`: its canonical form is its negation `0 - 0 <= 0`. */
  lemma {:induction false} SelfLoopStored()
    ensures NewInactives(Edge(0, 0, -1)) == [DirConstraint(Plus(0), Plus(0), 0, None, []), DirConstraint(Minus(0), Minus(0), 0, None, []),
                                            DirConstraint(Plus(0), Plus(0), -1, None, []), DirConstraint(Minus(0), Minus(0), -1, None, [])]
  {
    assert Canonical(Edge(0, 0, -1)) == Edge(0, 0, 0);
    assert Negated(Edge(0, 0, 0)) == Edge(0, 0, -1);
  }

  /**
   * With the step as written, activating the stored self loop `0 - 0 <= -1` (directed constraint 2,
   * stored before the current backtrack point) leaves the trail unchanged: the network no longer
   * agrees with its trail, and undoing back to the backtrack point keeps the enabler set, so a
   * later activation of the same constraint is skipped and its negative cycle goes unreported.
   */
  lemma {:induction false} SelfLoopActivationUnrecorded()
    ensures var cs := NewInactives(Edge(0, 0, -1));
      var r := ActivateAsWritten(cs, [[], []], [EdgeAdded], 2, Lit(Plus(1), 0));
      && (forall d :: 0 <= d < 4 ==> cs[d].enabler.None? && !ActiveIn([EdgeAdded], d))
      && r.2 == [EdgeAdded] && r.0[2].enabler.Some? && r.0[2].weight < 0 && !ActiveIn(r.2, 2)
      && !NetOk(r.0, [], r.1, r.2)
  {
    SelfLoopStored();
    var t: seq<TrailEvent> := [EdgeAdded];
    assert t[..|t| - 1] == [];
    assert forall d: nat :: !ActiveIn(t, d);
  }

  /** Undoing an edge addition drops the last four constraints. */
  lemma {:induction false} NetUndoAdded(cs: seq<DirConstraint>, edges: seq<seq<EdgeTarget>>, props: seq<seq<Propagator>>, t: seq<TrailEvent>)
    requires NetOk(cs, edges, props, t) && |t| > 0 && t[|t| - 1] == EdgeAdded
    ensures |cs| >= 4 && NetOk(cs[..|cs| - 4], edges, props, t[..|t| - 1])
    ensures CountCauses(t[..|t| - 1]) == CountCauses(t)
  {
    var pre := t[..|t| - 1];
    assert t == pre + [EdgeAdded];
    TrailAppend(pre, EdgeAdded, cs, 0);
    TrailEdgesBelow(pre);
    var cs' := cs[..|cs| - 4];
    assert |cs'| == 4 * CountAdded(pre);
    forall i | 0 <= i < |props|
      ensures props[i] == PropsOf(pre, cs', i)
    {
      TrailAppend(pre, EdgeAdded, cs, i);
      PropsOfFrame(pre, cs, cs', i);
    }
  }

  /** The adjacency lists after undoing the activation of constraint `c`: a self loop had no propagator. */
  function DeactivatedProps(props: seq<seq<Propagator>>, c: DirConstraint): (r: seq<seq<Propagator>>)
    requires Idx(c.source) < |props| && (c.source != c.target ==> |props[Idx(c.source)]| > 0)
    ensures |r| == |props|
  {
    if c.source == c.target then props
    else props[Idx(c.source) := props[Idx(c.source)][..|props[Idx(c.source)]| - 1]]
  }

  /** Undoing an activation clears the enabler and pops the propagator it pushed. */
  lemma {:induction false} NetUndoActivated(cs: seq<DirConstraint>, edges: seq<seq<EdgeTarget>>, props: seq<seq<Propagator>>, t: seq<TrailEvent>)
    requires NetOk(cs, edges, props, t) && |t| > 0 && t[|t| - 1].EdgeActivated?
    ensures var d := t[|t| - 1].edge.raw;
      d < |cs| && Idx(cs[d].source) < |props| &&
      (cs[d].source != cs[d].target ==> (|props[Idx(cs[d].source)]| > 0 &&
        props[Idx(cs[d].source)][|props[Idx(cs[d].source)]| - 1].id == DirEdge(d))) &&
      NetOk(cs[d := cs[d].(enabler := None)], edges, DeactivatedProps(props, cs[d]), t[..|t| - 1])
    ensures CountCauses(t[..|t| - 1]) == CountCauses(t)
  {
    var pre := t[..|t| - 1];
    var ev := t[|t| - 1];
    var d := ev.edge.raw;
    assert t == pre + [ev];
    TrailAppend(pre, ev, cs, 0);
    TrailEdgesBelow(pre);
    var c := cs[d];
    var cs' := cs[d := c.(enabler := None)];
    TrailAppend(pre, ev, cs, Idx(c.source));
    var props' := DeactivatedProps(props, c);
    forall i | 0 <= i < |props|
      ensures props'[i] == PropsOf(pre, cs', i)
    {
      TrailAppend(pre, ev, cs, i);
      PropsOfFrame(pre, cs, cs', i);
    }
  }

  lemma {:induction false} NetUndoCause(cs: seq<DirConstraint>, edges: seq<seq<EdgeTarget>>, props: seq<seq<Propagator>>, t: seq<TrailEvent>)
    requires NetOk(cs, edges, props, t) && |t| > 0 && t[|t| - 1] == AddedTheoryPropagationCause
    ensures NetOk(cs, edges, props, t[..|t| - 1])
    ensures CountCauses(t[..|t| - 1]) + 1 == CountCauses(t)
  {
    var pre := t[..|t| - 1];
    var ev := t[|t| - 1];
    assert t == pre + [ev];
    TrailAppend(pre, ev, cs, 0);
    forall i | 0 <= i < |props|
      ensures props[i] == PropsOf(pre, cs, i)
    {
      TrailAppend(pre, ev, cs, i);
    }
  }

  /**
   * The trail determines the network: two consistent networks over the same bounds, with the same
   * trail and the same constraint shapes, have the same propagators and the same active
   * constraints. Undoing the trail back to a backtrack point therefore restores the network that
   * was there when the point was set.
   */
  lemma {:induction false} NetDetermined(cs: seq<DirConstraint>, edges: seq<seq<EdgeTarget>>, props: seq<seq<Propagator>>,
                                         cs': seq<DirConstraint>, edges': seq<seq<EdgeTarget>>, props': seq<seq<Propagator>>,
                                         t: seq<TrailEvent>)
    requires NetOk(cs, edges, props, t) && NetOk(cs', edges', props', t) && |props| == |props'|
    requires forall d :: 0 <= d < |cs| && d < |cs'| ==> SameShape(cs[d], cs'[d])
    ensures |cs| == |cs'| && props == props'
    ensures forall d :: 0 <= d < |cs| ==> (cs[d].enabler.Some? <==> cs'[d].enabler.Some?)
  {
    TrailEdgesBelow(t);
    forall i | 0 <= i < |props|
      ensures props[i] == props'[i]
    {
      PropsOfFrame(t, cs, cs', i);
    }
  }

  /** Every active propagator holds, except those out of bounds in `S` and those of directed constraint `d`. */
  predicate SatisfiedExceptEdge(props: seq<seq<Propagator>>, b: seq<int>, S: set<VarBound>, d: DirEdge)
  {
    forall i, k :: 0 <= i < |props| && 0 <= k < |props[i]| ==> VarBoundAt(i) in S || props[i][k].id == d || PropSat(b, i, props[i][k])
  }

  /** Every active propagator holds, except those out of bounds in `S` and those out of `src` from position `from` on. */
  predicate SatisfiedBut(props: seq<seq<Propagator>>, b: seq<int>, S: set<VarBound>, src: nat, from: nat)
  {
    forall i, k :: 0 <= i < |props| && 0 <= k < |props[i]| ==>
      VarBoundAt(i) in S || PropSat(b, i, props[i][k]) || (i == src && k >= from)
  }

  /** The bounds out of which some active propagator does not hold. */
  ghost function BrokenBounds(props: seq<seq<Propagator>>, b: seq<int>): set<VarBound>
  {
    set i, k | 0 <= i < |props| && 0 <= k < |props[i]| && !PropSat(b, i, props[i][k]) :: VarBoundAt(i)
  }

  lemma {:induction false} BrokenBoundsSat(props: seq<seq<Propagator>>, b: seq<int>, S: set<VarBound>)
    requires BrokenBounds(props, b) <= S
    ensures SatisfiedExcept(props, b, S)
  {
    forall i, k | 0 <= i < |props| && 0 <= k < |props[i]| && !PropSat(b, i, props[i][k])
      ensures VarBoundAt(i) in S
    {
      assert VarBoundAt(i) in BrokenBounds(props, b);
    }
  }

  /** Tightening a bound keeps every propagator that held, except those out of the tightened bound. */
  lemma {:induction false} SatisfiedButTightening(props: seq<seq<Propagator>>, b: seq<int>, S: set<VarBound>, src: nat, from: nat, j: nat, v: int)
    requires SatisfiedBut(props, b, S, src, from) && j < |b| && v <= b[j]
    ensures SatisfiedBut(props, b[j := v], S + {VarBoundAt(j)}, src, from)
  {
    forall i, k | 0 <= i < |props| && 0 <= k < |props[i]| && VarBoundAt(i) !in S + {VarBoundAt(j)} && !(i == src && k >= from)
      ensures PropSat(b[j := v], i, props[i][k])
    {
      assert PropSat(b, i, props[i][k]);
      assert i != j by { assert VarBoundAt(i) != VarBoundAt(j); }
    }
  }

  /** A bound without propagators never needs propagation. */
  lemma {:induction false} SatisfiedOutside(props: seq<seq<Propagator>>, b: seq<int>, S: set<VarBound>, x: VarBound)
    requires SatisfiedExcept(props, b, S + {x}) && Idx(x) >= |props|
    ensures SatisfiedExcept(props, b, S)
  {
    forall i, k | 0 <= i < |props| && 0 <= k < |props[i]| && VarBoundAt(i) !in S
      ensures PropSat(b, i, props[i][k])
    {
      assert VarBoundAt(i) != x;
    }
  }

  /** A freshly activated constraint is the only propagator that may not hold yet. */
  lemma {:induction false} ActivatedSatisfied(props: seq<seq<Propagator>>, b: seq<int>, S: set<VarBound>, c: DirConstraint, d: DirEdge)
    requires SatisfiedExcept(props, b, S) && Idx(c.source) < |props|
    ensures SatisfiedExceptEdge(ActivatedProps(props, c, d), b, S, d)
  {
    var props': seq<seq<Propagator>> := ActivatedProps(props, c, d);
    forall i: int, k: int | 0 <= i < |props'| && 0 <= k < |props'[i]| && VarBoundAt(i) !in S && props'[i][k].id != d
      ensures PropSat(b, i, props'[i][k])
    {
      if c.source != c.target && i == Idx(c.source) {
        assert k < |props[i]| && props'[i][k] == props[i][k];
      }
    }
  }

  /** The bound of `evs[c]` must still be propagated, unless the STN produced that event itself. */
  lemma {:induction false} PendingStep(evs: seq<Event>, c: nat, writer: nat)
    requires c < |evs|
    ensures PendingSources(evs, c, writer) ==
      PendingSources(evs, c + 1, writer) + (if SelfHandled(evs[c], writer) then {} else {evs[c].affectedBound})
  {
  }

  /** Events the STN produced itself add nothing to propagate. */
  lemma {:induction false} PendingOwn(evs: seq<Event>, evs': seq<Event>, c: nat, writer: nat)
    requires |evs| <= |evs'| && evs'[..|evs|] == evs && c <= |evs|
    requires forall k :: |evs| <= k < |evs'| ==> SelfHandled(evs'[k], writer)
    ensures PendingSources(evs', c, writer) == PendingSources(evs, c, writer)
  {
    forall k | c <= k < |evs|
      ensures evs'[k] == evs[k]
    {
      assert evs'[..|evs|][k] == evs[k];
    }
  }

  /** Appending events can only add bounds to propagate. */
  lemma {:induction false} PendingGrow(evs: seq<Event>, evs': seq<Event>, c: nat, writer: nat)
    requires |evs| <= |evs'| && evs'[..|evs|] == evs
    ensures PendingSources(evs, c, writer) <= PendingSources(evs', c, writer)
  {
    forall k | c <= k < |evs|
      ensures evs'[k] == evs[k]
    {
      assert evs'[..|evs|][k] == evs[k];
    }
  }

  /** The propagation of directed constraint `d` is recorded as the cause of event `e`. */
  predicate PropagatedBy(e: Event, d: nat)
  {
    e.cause.Inference? && DecodeCause(e.cause.payload) == EdgePropagation(DirEdge(d))
  }

  /**
   * A walk back from `vb`: the bound of every visited node was last set by propagating an active
   * constraint `ds[k]` (event `ns[k]`), whose source is the next node, and `lits` are the
   * enablers of those constraints.
   */
  ghost predicate CausePath(evs: seq<Event>, cs: seq<DirConstraint>, vb: VarBound, ds: seq<nat>, ns: seq<nat>, lits: seq<Lit>)
  {
    |ds| == |lits| && |ns| == |lits| &&
    (forall k :: 0 <= k < |ds| ==> ds[k] < |cs| && cs[ds[k]].enabler == Some(lits[k]) && ns[k] < |evs| && PropagatedBy(evs[ns[k]], ds[k])) &&
    (|ds| > 0 ==> evs[ns[0]].affectedBound == vb) &&
    (forall k :: 0 < k < |ds| ==> evs[ns[k]].affectedBound == cs[ds[k - 1]].source)
  }

  /** The node a walk back from `vb` has reached. */
  function PathEnd(cs: seq<DirConstraint>, vb: VarBound, ds: seq<nat>): VarBound
    requires forall k :: 0 <= k < |ds| ==> ds[k] < |cs|
  {
    if ds == [] then vb else cs[ds[|ds| - 1]].source
  }

  /** A walk extends through the event that set the bound it reached. */
  lemma {:induction false} CausePathExtend(evs: seq<Event>, cs: seq<DirConstraint>, vb: VarBound, ds: seq<nat>, ns: seq<nat>, lits: seq<Lit>,
                                           d: nat, n: nat)
    requires CausePath(evs, cs, vb, ds, ns, lits)
    requires d < |cs| && cs[d].enabler.Some? && n < |evs| && PropagatedBy(evs[n], d) && evs[n].affectedBound == PathEnd(cs, vb, ds)
    ensures CausePath(evs, cs, vb, ds + [d], ns + [n], lits + [cs[d].enabler.value])
    ensures PathEnd(cs, vb, ds + [d]) == cs[d].source
  {
  }

  /** The explanation `lits` of a cycle through `vb`: a walk back from `vb` that returns to `vb`. */
  ghost predicate CauseChain(evs: seq<Event>, cs: seq<DirConstraint>, vb: VarBound, ds: seq<nat>, ns: seq<nat>, lits: seq<Lit>)
  {
    CausePath(evs, cs, vb, ds, ns, lits) && |lits| > 0 && cs[ds[|ds| - 1]].source == vb
  }

  /** Every directed constraint starts from one of the first `n` bounds. */
  ghost predicate SourcesBelow(cs: seq<DirConstraint>, n: nat)
  {
    forall d :: 0 <= d < |cs| ==> Idx(cs[d].source) < n
  }

  lemma {:induction false} NetSources(cs: seq<DirConstraint>, edges: seq<seq<EdgeTarget>>, props: seq<seq<Propagator>>, t: seq<TrailEvent>, n: nat)
    requires NetOk(cs, edges, props, t) && |props| <= n
    ensures SourcesBelow(cs, n)
  {
  }

  /** The only propagator of an active constraint `d` leads from its source to its target with its weight. */
  lemma {:induction false} PropagatorsOf(cs: seq<DirConstraint>, edges: seq<seq<EdgeTarget>>, props: seq<seq<Propagator>>, t: seq<TrailEvent>, d: nat)
    requires NetOk(cs, edges, props, t) && d < |cs|
    ensures Idx(cs[d].source) < |props| && Idx(cs[d].target) < |props|
    ensures forall i, k :: 0 <= i < |props| && 0 <= k < |props[i]| && props[i][k].id == DirEdge(d) ==>
      i == Idx(cs[d].source) && Idx(props[i][k].target) == Idx(cs[d].target) && props[i][k].weight == cs[d].weight
  {
    forall i, k | 0 <= i < |props| && 0 <= k < |props[i]| && props[i][k].id == DirEdge(d)
      ensures i == Idx(cs[d].source) && Idx(props[i][k].target) == Idx(cs[d].target) && props[i][k].weight == cs[d].weight
    {
      PropagatorFact(cs, edges, props, t, i, k);
    }
  }

  /** Every propagator leads to another bound of the network. */
  ghost predicate PropsOk(props: seq<seq<Propagator>>)
  {
    forall i, k :: 0 <= i < |props| && 0 <= k < |props[i]| ==> Idx(props[i][k].target) < |props| && props[i][k].target != VarBoundAt(i)
  }

  lemma {:induction false} NetPropsOk(cs: seq<DirConstraint>, edges: seq<seq<EdgeTarget>>, props: seq<seq<Propagator>>, t: seq<TrailEvent>)
    requires NetOk(cs, edges, props, t)
    ensures PropsOk(props)
  {
    PropagatorFacts(cs, edges, props, t);
  }

  /** What a failure of propagation tells about the state it leaves. */
  ghost predicate Explained(f: Failure, cs: seq<DirConstraint>, evs: seq<Event>, b: seq<int>)
  {
    match f
    case Abort => true
    case Conflict(EmptyDomainConflict(v)) => Idx(Plus(v)) < |b| && b[Idx(Plus(v))] + b[Idx(Minus(v))] < 0
    case Conflict(Explanation(lits)) =>
      (|lits| == 1 && exists d :: 0 <= d < |cs| && cs[d].source == cs[d].target && cs[d].weight < 0 && cs[d].enabler == Some(lits[0])) ||
      (exists vb, ds, ns :: CauseChain(evs, cs, vb, ds, ns, lits))
  }

  /** A bound update that crossed the symmetric bound empties the variable's domain. */
  lemma {:induction false} EmptyDomainExplained(b: seq<int>, x: VarBound, cs: seq<DirConstraint>, evs: seq<Event>)
    requires Idx(x) < |b| && |b| % 2 == 0 && b[Idx(x)] + b[Idx(x.Neg())] < 0
    ensures Explained(Conflict(EmptyDomainConflict(x.variable)), cs, evs, b)
  {
    IdxInjective(x, x.Neg());
  }

  /** Starting to propagate the propagators out of `x`. */
  lemma {:induction false} SatisfiedButStart(props: seq<seq<Propagator>>, b: seq<int>, T: set<VarBound>, S: set<VarBound>, x: VarBound)
    requires SatisfiedExcept(props, b, T) && T <= S + {x}
    ensures SatisfiedBut(props, b, S, Idx(x), 0)
  {
  }

  /** The propagator at position `from` out of `src` holds: move on to the next. */
  lemma {:induction false} SatisfiedButNext(props: seq<seq<Propagator>>, b: seq<int>, S: set<VarBound>, src: nat, from: nat)
    requires SatisfiedBut(props, b, S, src, from) && src < |props| && from < |props[src]| && PropSat(b, src, props[src][from])
    ensures SatisfiedBut(props, b, S, src, from + 1)
  {
  }

  /** Tightening the target of the propagator at `from` out of `src` to what it demands settles that propagator. */
  lemma {:induction false} SatisfiedButRelaxed(props: seq<seq<Propagator>>, b: seq<int>, S: set<VarBound>, src: nat, from: nat, v: int)
    requires SatisfiedBut(props, b, S, src, from) && src < |props| && from < |props[src]|
    requires Idx(props[src][from].target) < |b| && src < |b| && src != Idx(props[src][from].target)
    requires v <= b[Idx(props[src][from].target)] && v <= b[src] + props[src][from].weight
    ensures SatisfiedBut(props, b[Idx(props[src][from].target) := v], S + {props[src][from].target}, src, from + 1)
  {
    var j := Idx(props[src][from].target);
    SatisfiedButTightening(props, b, S, src, from, j, v);
    IdxInjective(VarBoundAt(j), props[src][from].target);
    SatisfiedButNext(props, b[j := v], S + {props[src][from].target}, src, from);
  }

  /** Once all propagators out of `src` are handled, only `S` remains. */
  lemma {:induction false} SatisfiedButDone(props: seq<seq<Propagator>>, b: seq<int>, S: set<VarBound>, src: nat)
    requires src < |props| && SatisfiedBut(props, b, S, src, |props[src]|)
    ensures SatisfiedExcept(props, b, S)
  {
  }

  /**
   * Once the constraint `d` holds after its target `j` was set, only the bounds in `S`
   * and `j` may have broken propagators, and only those in `S` if `j` did not change.
   */
  lemma {:induction false} EdgeSettled(props: seq<seq<Propagator>>, b: seq<int>, b': seq<int>, S: set<VarBound>, d: DirEdge,
                                       src: nat, j: nat, w: int)
    requires SatisfiedExceptEdge(props, b, S, d)
    requires |b'| == |b| && j < |b| && src < |b| && src != j && b'[j] <= b[j] && b'[j] <= b'[src] + w
    requires forall i :: 0 <= i < |b| && i != j ==> b'[i] == b[i]
    requires forall i, k :: 0 <= i < |props| && 0 <= k < |props[i]| && props[i][k].id == d ==>
      i == src && Idx(props[i][k].target) == j && props[i][k].weight == w
    ensures SatisfiedExcept(props, b', S + {VarBoundAt(j)})
    ensures b'[j] == b[j] ==> SatisfiedExcept(props, b', S)
  {
    forall i, k | 0 <= i < |props| && 0 <= k < |props[i]| && VarBoundAt(i) !in S && (b'[j] != b[j] ==> VarBoundAt(i) != VarBoundAt(j))
      ensures PropSat(b', i, props[i][k])
    {
      if props[i][k].id != d {
        assert PropSat(b, i, props[i][k]);
        if b'[j] != b[j] {
          assert i != j;
        }
      }
    }
  }

  /** Appending one event adds its bound to those to propagate, unless the STN produced it. */
  lemma {:induction false} PendingAppend(evs: seq<Event>, e: Event, c: nat, writer: nat)
    requires c <= |evs|
    ensures PendingSources(evs + [e], c, writer) ==
      PendingSources(evs, c, writer) + (if SelfHandled(e, writer) then {} else {e.affectedBound})
  {
    var evs' := evs + [e];
    forall x | x in PendingSources(evs', c, writer)
      ensures x in PendingSources(evs, c, writer) + (if SelfHandled(e, writer) then {} else {e.affectedBound})
    {
      var k :| c <= k < |evs'| && !SelfHandled(evs'[k], writer) && evs'[k].affectedBound == x;
      if k < |evs| {
        assert evs[k] == evs'[k];
      }
    }
    forall x | x in PendingSources(evs, c, writer)
      ensures x in PendingSources(evs', c, writer)
    {
      var k :| c <= k < |evs| && !SelfHandled(evs[k], writer) && evs[k].affectedBound == x;
      assert evs'[k] == evs[k];
    }
    if !SelfHandled(e, writer) {
      assert evs'[|evs|] == e;
    }
  }

  /** `evs'` extends `evs`. */
  predicate Extends(evs: seq<Event>, evs': seq<Event>)
  {
    |evs| <= |evs'| && evs'[..|evs|] == evs
  }

  lemma {:induction false} ExtendsTrans(a: seq<Event>, b: seq<Event>, c: seq<Event>)
    requires Extends(a, b) && Extends(b, c)
    ensures Extends(a, c)
  {
    assert c[..|a|] == c[..|b|][..|a|];
  }

  /** `evs'` extends `evs` with events only the STN's own edge propagation produced. */
  predicate ExtendsOwn(evs: seq<Event>, evs': seq<Event>, writer: nat)
  {
    |evs| <= |evs'| && evs'[..|evs|] == evs && forall k :: |evs| <= k < |evs'| ==> SelfHandled(evs'[k], writer)
  }

  lemma {:induction false} ExtendsOwnTrans(a: seq<Event>, b: seq<Event>, c: seq<Event>, writer: nat)
    requires ExtendsOwn(a, b, writer) && ExtendsOwn(b, c, writer)
    ensures ExtendsOwn(a, c, writer)
  {
    assert c[..|a|] == c[..|b|][..|a|];
    forall k | |a| <= k < |c|
      ensures SelfHandled(c[k], writer)
    {
      if k < |b| {
        assert c[k] == c[..|b|][k];
      }
    }
  }

  /** What the propagation loops promise about termination: every event they add lowers the potential. */
  function Progress(b: seq<int>, b0: seq<int>, evs: seq<Event>): nat
    requires |b| == |b0| && |b0| % 2 == 0
  {
    Potential(b, b0, |b|) + |evs|
  }

  /**
   * Bound `i` was tightened by disabling a potential edge of `outs` out of `bound` that would
   * close a negative cycle through the origin: `bound`, the edge, then the symmetric bound of its target.
   */
  ghost predicate DisabledBy(outs: seq<EdgeTarget>, bound: Lit, b: seq<int>, i: nat)
  {
    exists o :: o in outs && Idx(Not(o.enabler).svar) == i && i < |b| && Idx(o.target.Neg()) < |b| &&
      bound.ub + o.weight + b[Idx(o.target.Neg())] < 0 && b[i] <= Not(o.enabler).ub
  }

  /** Every edge of `outs` that closed a negative cycle with the bounds `b` is disabled in `b'`. */
  ghost predicate DisablesNegativeCycles(outs: seq<EdgeTarget>, bound: Lit, b: seq<int>, b': seq<int>)
  {
    forall o :: (o in outs && Idx(o.target.Neg()) < |b| && Idx(Not(o.enabler).svar) < |b'| &&
                 bound.ub + o.weight + b[Idx(o.target.Neg())] < 0) ==> b'[Idx(Not(o.enabler).svar)] <= Not(o.enabler).ub
  }

  /**
   * One step of bound theory propagation over the potential edge `o`: bounds only tighten, only the
   * bound of `!enabler` may change and then to make `!enabler` true because `o` closes a negative
   * cycle, and it does whenever `o` closed one with the bounds `b` before the step.
   */
  ghost predicate DisableStep(o: EdgeTarget, bound: Lit, b: seq<int>, b': seq<int>)
  {
    Below(b', b) &&
    (forall i :: 0 <= i < |b'| && b'[i] != b[i] ==>
      i == Idx(Not(o.enabler).svar) && Idx(o.target.Neg()) < |b'| &&
      bound.ub + o.weight + b'[Idx(o.target.Neg())] < 0 && b'[i] <= Not(o.enabler).ub) &&
    ((Idx(o.target.Neg()) < |b| && Idx(Not(o.enabler).svar) < |b| && bound.ub + o.weight + b[Idx(o.target.Neg())] < 0) ==>
      b'[Idx(Not(o.enabler).svar)] <= Not(o.enabler).ub)
  }

  lemma {:induction false} DisableStepCycles(outs: seq<EdgeTarget>, k: nat, bound: Lit, b0: seq<int>, b: seq<int>, b': seq<int>)
    requires k < |outs| && Below(b, b0) && DisablesNegativeCycles(outs[..k], bound, b0, b)
    requires DisableStep(outs[k], bound, b, b')
    ensures DisablesNegativeCycles(outs[..k + 1], bound, b0, b')
  {
    forall o | o in outs[..k + 1] && Idx(o.target.Neg()) < |b0| && Idx(Not(o.enabler).svar) < |b'| &&
               bound.ub + o.weight + b0[Idx(o.target.Neg())] < 0
      ensures b'[Idx(Not(o.enabler).svar)] <= Not(o.enabler).ub
    {
      if o in outs[..k] {
        assert b[Idx(Not(o.enabler).svar)] <= Not(o.enabler).ub;
      } else {
        assert o == outs[k];
      }
    }
  }

  lemma {:induction false} DisableStepExplained(outs: seq<EdgeTarget>, k: nat, bound: Lit, b0: seq<int>, b: seq<int>, b': seq<int>)
    requires k < |outs| && |b| == |b0|
    requires forall i :: 0 <= i < |b| && b[i] != b0[i] ==> DisabledBy(outs, bound, b, i)
    requires DisableStep(outs[k], bound, b, b')
    ensures forall i :: 0 <= i < |b'| && b'[i] != b0[i] ==> DisabledBy(outs, bound, b', i)
  {
    forall i | 0 <= i < |b'| && b'[i] != b0[i]
      ensures DisabledBy(outs, bound, b', i)
    {
      if b'[i] != b[i] {
        assert outs[k] in outs;
      } else {
        var o :| o in outs && Idx(Not(o.enabler).svar) == i && i < |b| && Idx(o.target.Neg()) < |b| &&
          bound.ub + o.weight + b[Idx(o.target.Neg())] < 0 && b[i] <= Not(o.enabler).ub;
        assert b'[Idx(o.target.Neg())] <= b[Idx(o.target.Neg())];
      }
    }
  }

  /** An activation recorded on the trail leaves the propagator of its constraint in the list of its source bound. */
  lemma {:induction false} ActivePropagator(t: seq<TrailEvent>, cs: seq<DirConstraint>, d: nat)
    requires ActiveIn(t, d) && d < |cs| && cs[d].source != cs[d].target
    ensures exists k ::
      && 0 <= k < |PropsOf(t, cs, Idx(cs[d].source))|
      && PropsOf(t, cs, Idx(cs[d].source))[k] == Propagator(cs[d].target, cs[d].weight, DirEdge(d))
    decreases |t|
  {
    var pre := t[..|t| - 1];
    var i := Idx(cs[d].source);
    if ActiveIn(pre, d) {
      ActivePropagator(pre, cs, d);
      var k :| 0 <= k < |PropsOf(pre, cs, i)| && PropsOf(pre, cs, i)[k] == Propagator(cs[d].target, cs[d].weight, DirEdge(d));
      assert PropsOf(t, cs, i)[k] == PropsOf(pre, cs, i)[k];
    } else {
      var k := |PropsOf(pre, cs, i)|;
      assert PropsOf(t, cs, i)[k] == Propagator(cs[d].target, cs[d].weight, DirEdge(d));
    }
  }

  /**
   * Once propagation has reached a fixpoint, every active constraint holds on the stored bounds,
   * except those out of a bound in `S`: `b[target] <= b[source] + weight`.
   */
  lemma {:induction false} ActiveConstraintHolds(cs: seq<DirConstraint>, edges: seq<seq<EdgeTarget>>, props: seq<seq<Propagator>>,
                                                 t: seq<TrailEvent>, b: seq<int>, S: set<VarBound>, d: nat)
    requires NetOk(cs, edges, props, t) && |props| <= |b| && SatisfiedExcept(props, b, S)
    requires d < |cs| && cs[d].enabler.Some? && cs[d].source != cs[d].target && cs[d].source !in S
    ensures Idx(cs[d].source) < |b| && Idx(cs[d].target) < |b|
    ensures b[Idx(cs[d].target)] <= b[Idx(cs[d].source)] + cs[d].weight
  {
    var i := Idx(cs[d].source);
    ActivePropagator(t, cs, d);
    var k :| 0 <= k < |PropsOf(t, cs, i)| && PropsOf(t, cs, i)[k] == Propagator(cs[d].target, cs[d].weight, DirEdge(d));
    assert props[i] == PropsOf(t, cs, i);
    IdxInjective(VarBoundAt(i), cs[d].source);
    assert PropSat(b, i, props[i][k]);
  }

  /** The bounds with a broken propagator that no event from `cursor` on schedules for propagation. */
  ghost function Unscheduled(props: seq<seq<Propagator>>, b: seq<int>, evs: seq<Event>, cursor: nat, writer: nat): set<VarBound>
  {
    BrokenBounds(props, b) - PendingSources(evs, if cursor <= |evs| then cursor else |evs|, writer)
  }

  lemma {:induction false} UnscheduledSat(props: seq<seq<Propagator>>, b: seq<int>, evs: seq<Event>, cursor: nat, writer: nat)
    requires cursor <= |evs|
    ensures SatisfiedExcept(props, b, Unscheduled(props, b, evs, cursor, writer) + PendingSources(evs, cursor, writer))
  {
    BrokenBoundsSat(props, b, Unscheduled(props, b, evs, cursor, writer) + PendingSources(evs, cursor, writer));
  }

  class StnTheory {
    const constraints: ConstraintDb
    const writer: nat
    const level: TheoryPropagationLevel
    /** For every bound, the propagators of its active outgoing constraints. */
    var activePropagators: seq<seq<Propagator>>
    var pendingUpdates: set<VarBound>
    var trail: seq<TrailEvent>
    var savePoints: seq<nat>
    var pendingActivations: seq<Activation>
    /** Number of model events already read. */
    var cursor: nat
    var explanation: seq<DirEdge>
    var theoryPropagationCauses: seq<TheoryPropagationCause>
    var queue: seq<VarBound>

    /** The network agrees with its trail, and the backtrack points are positions on the trail. */
    ghost predicate NetValid()
      reads this`activePropagators, this`trail, this`theoryPropagationCauses, this`savePoints, constraints
    {
      constraints.Valid() &&
      NetOk(constraints.constraints, constraints.edges, activePropagators, trail) &&
      |theoryPropagationCauses| == CountCauses(trail) &&
      (forall n :: 0 <= n < |savePoints| ==> savePoints[n] <= |trail|) &&
      (forall n, m :: 0 <= n < m < |savePoints| ==> savePoints[n] <= savePoints[m])
    }

    /** Every pending bound is queued, and every queued bound belongs to the network. */
    ghost predicate QueueOk()
      reads this`queue, this`pendingUpdates, this`activePropagators
    {
      (forall x :: x in pendingUpdates ==> x in queue) &&
      (forall x :: x in queue ==> Idx(x) < |activePropagators|)
    }

    ghost predicate Valid()
      reads this, constraints
    {
      NetValid() && QueueOk()
    }

    /** The network's bounds and the enabling literals of its potential edges belong to the model. */
    ghost predicate Linked(model: Domains)
      reads this`activePropagators, constraints, model
    {
      |activePropagators| <= |model.bounds| &&
      forall i, o :: 0 <= i < |constraints.edges| && o in constraints.edges[i] ==> o.enabler.svar.variable < |model.bounds| / 2
    }

    constructor (writer: nat, level: TheoryPropagationLevel)
      ensures Valid() && fresh(constraints)
      ensures this.writer == writer && this.level == level
      ensures activePropagators == [] && trail == [] && savePoints == [] && pendingActivations == []
      ensures constraints.constraints == [] && cursor == 0
    {
      this.writer := writer;
      this.level := level;
      constraints := new ConstraintDb();
      activePropagators := [];
      pendingUpdates := {};
      trail := [];
      savePoints := [];
      pendingActivations := [];
      cursor := 0;
      explanation := [];
      theoryPropagationCauses := [];
      queue := [];
    }

    function NumNodes(): nat
      reads this
    {
      |activePropagators| / 2
    }

    method ReserveTimepoint()
      requires Valid()
      modifies this`activePropagators
      ensures Valid()
      ensures activePropagators == old(activePropagators) + [[], []]
    {
      NetReserve(constraints.constraints, constraints.edges, activePropagators, trail);
      activePropagators := activePropagators + [[], []];
    }

    /** Queue both directed views of `edge` for activation by `enabler` at the next propagation. */
    method MarkActive(edge: EdgeId, enabler: Lit)
      requires Valid() && HasEdge(|constraints.constraints|, edge)
      modifies this`pendingActivations
      ensures Valid()
      ensures pendingActivations == old(pendingActivations) + [ToActivate(Forward(edge), enabler), ToActivate(Backward(edge), enabler)]
    {
      pendingActivations := pendingActivations + [ToActivate(Forward(edge), enabler), ToActivate(Backward(edge), enabler)];
    }

    method SetBacktrackPoint() returns (level: nat)
      requires Valid() && pendingActivations == []
      modifies this`savePoints
      ensures Valid()
      ensures savePoints == old(savePoints) + [|trail|] && level == |savePoints|
    {
      savePoints := savePoints + [|trail|];
      level := |savePoints|;
    }

    /** Creates timepoints until both `source` and `target` exist. */
    method ReserveTimepoints(source: Timepoint, target: Timepoint)
      requires Valid()
      modifies this`activePropagators
      ensures Valid()
      ensures source < NumNodes() && target < NumNodes() && old(NumNodes()) <= NumNodes()
      ensures NumNodes() <= old(NumNodes()) || NumNodes() <= source + 1 || NumNodes() <= target + 1
      ensures |activePropagators| >= old(|activePropagators|)
      ensures forall i :: 0 <= i < |activePropagators| ==>
        activePropagators[i] == (if i < old(|activePropagators|) then old(activePropagators[i]) else [])
    {
      while source >= NumNodes() || target >= NumNodes()
        invariant Valid()
        invariant old(NumNodes()) <= NumNodes()
        invariant NumNodes() <= old(NumNodes()) || NumNodes() <= source + 1 || NumNodes() <= target + 1
        invariant |activePropagators| >= old(|activePropagators|)
        invariant forall i :: 0 <= i < |activePropagators| ==>
          activePropagators[i] == (if i < old(|activePropagators|) then old(activePropagators[i]) else [])
        decreases source + target + 2 - NumNodes()
      {
        ReserveTimepoint();
      }
    }

    /** Stores the edge `target - source <= weight` between existing timepoints as inactive, unless already stored. */
    method InsertInactive(source: Timepoint, target: Timepoint, weight: int) returns (id: EdgeId, created: bool)
      requires Valid() && |constraints.constraints| + 4 < U32
      requires source < NumNodes() && target < NumNodes()
      modifies this`trail, constraints
      ensures Valid()
      ensures HasEdge(|constraints.constraints|, id)
      ensures AsEdge(constraints.constraints[Forward(id).raw]) == Edge(source, target, weight)
      ensures AsEdge(constraints.constraints[Backward(id).raw]) == Edge(source, target, weight)
      ensures created <==> Canonical(Edge(source, target, weight)) !in old(constraints.lookup)
      ensures created ==> (trail == old(trail) + [EdgeAdded] &&
                           constraints.constraints == old(constraints.constraints) + NewInactives(Edge(source, target, weight)))
      ensures !created ==> trail == old(trail) && constraints.constraints == old(constraints.constraints)
      ensures constraints.watches == old(constraints.watches) && constraints.edges == old(constraints.edges)
    {
      ghost var cs0 := constraints.constraints;
      created, id := constraints.PushEdge(source, target, weight);
      if created {
        ghost var pair := NewInactives(Edge(source, target, weight));
        NewInactivesWithin(Edge(source, target, weight), NumNodes());
        NetAddEdge(cs0, constraints.edges, activePropagators, trail, pair);
        TrailAppend(trail, EdgeAdded, cs0, 0);
        trail := trail + [EdgeAdded];
      }
    }

    /** Adds the edge `target - source <= weight` as inactive, creating timepoints as needed, unless already stored. */
    method AddInactiveConstraint(source: Timepoint, target: Timepoint, weight: int) returns (id: EdgeId, created: bool)
      requires Valid() && |constraints.constraints| + 4 < U32
      modifies this`activePropagators, this`trail, constraints
      ensures Valid()
      ensures source < NumNodes() && target < NumNodes() && old(NumNodes()) <= NumNodes()
      ensures NumNodes() <= old(NumNodes()) || NumNodes() <= source + 1 || NumNodes() <= target + 1
      ensures HasEdge(|constraints.constraints|, id)
      ensures AsEdge(constraints.constraints[Forward(id).raw]) == Edge(source, target, weight)
      ensures AsEdge(constraints.constraints[Backward(id).raw]) == Edge(source, target, weight)
      ensures created <==> Canonical(Edge(source, target, weight)) !in old(constraints.lookup)
      ensures created ==> (trail == old(trail) + [EdgeAdded] &&
                           constraints.constraints == old(constraints.constraints) + NewInactives(Edge(source, target, weight)))
      ensures !created ==> trail == old(trail) && constraints.constraints == old(constraints.constraints)
      ensures constraints.watches == old(constraints.watches) && constraints.edges == old(constraints.edges)
    {
      ReserveTimepoints(source, target);
      id, created := InsertInactive(source, target, weight);
    }

    /** `ConstraintDb::add_enabler`, keeping the network consistent. */
    method AddEnablerTo(e: EdgeId, literal: Lit)
      requires Valid() && HasEdge(|constraints.constraints|, e)
      modifies constraints
      ensures Valid()
      ensures constraints.watches == old(constraints.watches) + [(literal, Forward(e)), (literal, Backward(e))]
      ensures |constraints.constraints| == |old(constraints.constraints)| && constraints.lookup == old(constraints.lookup)
      ensures forall j :: 0 <= j < |constraints.constraints| ==>
        SameShape(constraints.constraints[j], old(constraints.constraints[j])) &&
        constraints.constraints[j].enabler == old(constraints.constraints[j].enabler)
      ensures forall i, o :: 0 <= i < |constraints.edges| && o in constraints.edges[i] ==>
        o.enabler == literal || (i < |old(constraints.edges)| && o in old(constraints.edges[i]))
    {
      ghost var cs0 := constraints.constraints;
      ghost var edges0 := constraints.edges;
      constraints.AddEnabler(e, literal);
      NetFrame(cs0, constraints.constraints, edges0, constraints.edges, activePropagators, trail);
    }

    /** The enabling part of `add_reified_edge`: activate now if `literal` holds, otherwise watch `literal` and `!literal`. */
    method EnableReified(e: EdgeId, literal: Lit, model: Domains)
      requires Valid() && model.Valid() && Linked(model) && HasEdge(|constraints.constraints|, e)
      requires literal.svar.variable < |model.bounds| / 2
      modifies this`pendingActivations, constraints
      ensures Valid() && Linked(model)
      ensures constraints.constraints[Forward(e).raw].source == old(constraints.constraints[Forward(e).raw].source)
      ensures constraints.constraints[Forward(e).raw].target == old(constraints.constraints[Forward(e).raw].target)
      ensures constraints.constraints[Forward(e).raw].weight == old(constraints.constraints[Forward(e).raw].weight)
      ensures |constraints.constraints| == old(|constraints.constraints|)
      ensures model.Entails(literal) ==>
        (pendingActivations == old(pendingActivations) + [ToActivate(Forward(e), literal), ToActivate(Backward(e), literal)] &&
         constraints.watches == old(constraints.watches))
      ensures !model.Entails(literal) ==>
        (pendingActivations == old(pendingActivations) &&
         constraints.watches == old(constraints.watches) + [(literal, Forward(e)), (literal, Backward(e)),
                                                           (Not(literal), Forward(NotEdgeId(e))), (Not(literal), Backward(NotEdgeId(e)))])
    {
      hide NetValid, QueueOk;
      if model.Entails(literal) {
        MarkActive(e, literal);
      } else {
        AddEnablerTo(e, literal);
        AddEnablerTo(NotEdgeId(e), Not(literal));
      }
    }

    /** Adds the edge `target - source <= weight` enabled by `literal`, and its negation enabled by `!literal`. */
    method AddReifiedEdge(literal: Lit, source: Timepoint, target: Timepoint, weight: int, model: Domains) returns (e: EdgeId)
      requires Valid() && model.Valid() && Linked(model)
      requires |constraints.constraints| + 4 < U32 && literal.svar.variable < |model.bounds| / 2
      requires source < |model.bounds| / 2 && target < |model.bounds| / 2
      modifies this`activePropagators, this`trail, this`pendingActivations, constraints
      ensures Valid() && Linked(model)
      ensures HasEdge(|constraints.constraints|, e)
      ensures AsEdge(constraints.constraints[Forward(e).raw]) == Edge(source, target, weight)
      ensures model.Entails(literal) ==>
        (pendingActivations == old(pendingActivations) + [ToActivate(Forward(e), literal), ToActivate(Backward(e), literal)] &&
         constraints.watches == old(constraints.watches))
      ensures !model.Entails(literal) ==>
        (pendingActivations == old(pendingActivations) &&
         constraints.watches == old(constraints.watches) + [(literal, Forward(e)), (literal, Backward(e)),
                                                           (Not(literal), Forward(NotEdgeId(e))), (Not(literal), Backward(NotEdgeId(e)))])
    {
      var created;
      e, created := AddInactiveConstraint(source, target, weight);
      EnableReified(e, literal, model);
    }

    /** One directed half of `add_optional_true_edge`: watch `literal` for `d`, and queue `d` now if `literal` already holds. */
    method EnableDirected(d: DirEdge, literal: Lit, model: Domains)
      requires Valid() && model.Valid() && Linked(model) && d.raw < |constraints.constraints|
      requires literal.svar.variable < |model.bounds| / 2
      modifies this`pendingActivations, constraints
      ensures Valid() && Linked(model)
      ensures |constraints.constraints| == old(|constraints.constraints|) && constraints.lookup == old(constraints.lookup)
      ensures forall j :: 0 <= j < |constraints.constraints| ==> SameShape(constraints.constraints[j], old(constraints.constraints[j]))
      ensures constraints.watches == old(constraints.watches) + [(literal, d)]
      ensures pendingActivations == old(pendingActivations) + (if model.Entails(literal) then [ToActivate(d, literal)] else [])
    {
      ghost var cs0 := constraints.constraints;
      ghost var edges0 := constraints.edges;
      constraints.AddDirectedEnabler(d, literal);
      NetFrame(cs0, constraints.constraints, edges0, constraints.edges, activePropagators, trail);
      if model.Entails(literal) {
        pendingActivations := pendingActivations + [ToActivate(d, literal)];
      }
    }

    /**
     * `add_optional_true_edge`: stores `target - source <= weight`; its forward view is enabled by
     * `forwardProp` and its backward view by `backwardProp`, each queued at once if its literal holds.
     */
    method AddOptionalTrueEdge(source: Timepoint, target: Timepoint, weight: int, forwardProp: Lit, backwardProp: Lit, model: Domains)
      returns (e: EdgeId)
      requires Valid() && model.Valid() && Linked(model) && |constraints.constraints| + 4 < U32
      requires forwardProp.svar.variable < |model.bounds| / 2 && backwardProp.svar.variable < |model.bounds| / 2
      requires source < |model.bounds| / 2 && target < |model.bounds| / 2
      modifies this`activePropagators, this`trail, this`pendingActivations, constraints
      ensures Valid() && Linked(model)
      ensures HasEdge(|constraints.constraints|, e)
      ensures AsEdge(constraints.constraints[Forward(e).raw]) == Edge(source, target, weight)
      ensures constraints.watches == old(constraints.watches) + [(forwardProp, Forward(e)), (backwardProp, Backward(e))]
      ensures pendingActivations == old(pendingActivations)
                                    + (if model.Entails(forwardProp) then [ToActivate(Forward(e), forwardProp)] else [])
                                    + (if model.Entails(backwardProp) then [ToActivate(Backward(e), backwardProp)] else [])
    {
      var created;
      e, created := AddInactiveConstraint(source, target, weight);
      EnableOptional(e, forwardProp, backwardProp, model);
    }

    /** The enabling part of `add_optional_true_edge`. */
    method EnableOptional(e: EdgeId, forwardProp: Lit, backwardProp: Lit, model: Domains)
      requires Valid() && model.Valid() && Linked(model) && HasEdge(|constraints.constraints|, e)
      requires forwardProp.svar.variable < |model.bounds| / 2 && backwardProp.svar.variable < |model.bounds| / 2
      modifies this`pendingActivations, constraints
      ensures Valid() && Linked(model)
      ensures |constraints.constraints| == old(|constraints.constraints|)
      ensures SameShape(constraints.constraints[Forward(e).raw], old(constraints.constraints[Forward(e).raw]))
      ensures constraints.watches == old(constraints.watches) + [(forwardProp, Forward(e)), (backwardProp, Backward(e))]
      ensures pendingActivations == old(pendingActivations)
                                    + (if model.Entails(forwardProp) then [ToActivate(Forward(e), forwardProp)] else [])
                                    + (if model.Entails(backwardProp) then [ToActivate(Backward(e), backwardProp)] else [])
    {
      HasEdgeIffViewsStored(|constraints.constraints|, e);
      EnableDirected(Forward(e), forwardProp, model);
      EnableDirected(Backward(e), backwardProp, model);
    }

    /**
     * The event that set the current bound of `curr` and the active constraint whose propagation
     * caused it; `None` when that bound was not set by edge propagation.
     */
    method PropagationCause(curr: VarBound, model: Domains) returns (r: Option<(nat, nat)>)
      requires model.Valid() && Idx(curr) < |model.bounds|
      ensures r.Some? ==>
        r.value.0 < |model.events| && model.events[r.value.0].affectedBound == curr &&
        PropagatedBy(model.events[r.value.0], r.value.1) &&
        r.value.1 < |constraints.constraints| && constraints.constraints[r.value.1].enabler.Some?
    {
      var value := model.GetBound(curr);
      var ev := model.ImplyingEvent(Lit(curr, value));
      if ev.None? {
        return None;
      }
      var e := model.events[ev.value];
      if !e.cause.Inference? || !DecodeCause(e.cause.payload).EdgePropagation? {
        return None;
      }
      var d := DecodeCause(e.cause.payload).edge.raw;
      if d >= |constraints.constraints| || constraints.constraints[d].enabler.None? {
        return None;
      }
      return Some((ev.value, d));
    }

    /**
     * Walks back from `vb` through the events that set each bound, collecting the enablers of
     * the propagated constraints until the walk returns to `vb`. `None` stands for the cases the
     * implementation treats as unreachable (a bound not set by edge propagation, an inactive
     * constraint), and for a walk longer than the model's history.
     */
    method ExtractCycle(vb: VarBound, model: Domains) returns (r: Option<seq<Lit>>)
      requires model.Valid() && Idx(vb) < |model.bounds|
      requires SourcesBelow(constraints.constraints, |model.bounds|)
      ensures r.Some? ==> exists ds, ns :: CauseChain(model.events, constraints.constraints, vb, ds, ns, r.value)
    {
      var expl: seq<Lit> := [];
      var curr := vb;
      ghost var ds: seq<nat> := [];
      ghost var ns: seq<nat> := [];
      var fuel := |model.events| + 1;
      while fuel > 0
        invariant CausePath(model.events, constraints.constraints, vb, ds, ns, expl)
        invariant curr == PathEnd(constraints.constraints, vb, ds) && Idx(curr) < |model.bounds|
      {
        var cause := PropagationCause(curr, model);
        if cause.None? {
          return None;
        }
        var (n, d) := cause.value;
        CausePathExtend(model.events, constraints.constraints, vb, ds, ns, expl, d, n);
        ds, ns, expl := ds + [d], ns + [n], expl + [constraints.constraints[d].enabler.value];
        curr := constraints.constraints[d].source;
        if curr == vb {
          assert CauseChain(model.events, constraints.constraints, vb, ds, ns, expl);
          return Some(expl);
        }
        fuel := fuel - 1;
      }
      return None;
    }

    /** Sets `target` to at most `value`, recording the propagation of `id` as the cause. */
    method TightenBy(target: VarBound, value: int, id: DirEdge, model: Domains, ghost b0: seq<int>) returns (r: Result<bool, EmptyDomain>)
      requires model.Valid() && Below(model.bounds, b0) && |b0| % 2 == 0 && Idx(target) < |model.bounds|
      modifies model
      ensures model.Valid() && Below(model.bounds, b0)
      ensures ExtendsOwn(old(model.events), model.events, writer)
      ensures r.Ok? ==> model.bounds[Idx(target)] <= value
      ensures r == Ok(false) ==> model.bounds == old(model.bounds) && model.events == old(model.events)
      ensures r == Ok(true) ==>
        value < old(model.bounds[Idx(target)]) && model.bounds == old(model.bounds)[Idx(target) := value] &&
        Potential(model.bounds, b0, |b0|) < old(Potential(model.bounds, b0, |b0|)) &&
        Progress(model.bounds, b0, model.events) <= old(Progress(model.bounds, b0, model.events))
      ensures r.Err? ==> model.bounds[Idx(target)] + model.bounds[Idx(target.Neg())] < 0 && r.error == EmptyDomain(target.variable)
      ensures r.Err? ==> model.bounds == old(model.bounds)[Idx(target) := value]
    {
      ghost var bBefore := model.bounds;
      ghost var evsBefore := model.events;
      r := model.SetBound(target, value, Inference(writer, EncodeCause(EdgePropagation(id))));
      assert model.events[..|evsBefore|] == evsBefore;
      if r == Ok(true) {
        PotentialStep(bBefore, b0, target, value);
      }
    }

    /** Queues `x` for propagation. */
    method Enqueue(x: VarBound)
      requires QueueOk() && Idx(x) < |activePropagators|
      modifies this`queue, this`pendingUpdates
      ensures QueueOk()
      ensures queue == old(queue) + [x] && pendingUpdates == old(pendingUpdates) + {x}
    {
      queue := queue + [x];
      pendingUpdates := pendingUpdates + {x};
    }

    /** The conflict reported when propagation comes back to tighten `vb` again. */
    method CycleConflict(vb: VarBound, model: Domains) returns (f: Failure)
      requires model.Valid() && Idx(vb) < |model.bounds| && SourcesBelow(constraints.constraints, |model.bounds|)
      ensures Explained(f, constraints.constraints, model.events, model.bounds)
    {
      var cycle := ExtractCycle(vb, model);
      if cycle.None? {
        return Abort;
      }
      return Conflict(Explanation(cycle.value));
    }

    /**
     * Relaxes the propagator at position `k` out of `source`, whose bound is `sourceBound`:
     * `Ok(true)` when its target was tightened and must be propagated in turn.
     */
    method RelaxPropagator(source: VarBound, k: nat, p: Propagator, sourceBound: int, original: VarBound, cycleOnUpdate: bool,
                           model: Domains, ghost E: set<VarBound>, ghost b0: seq<int>) returns (r: Result<bool, Failure>)
      requires model.Valid() && Below(model.bounds, b0) && |b0| % 2 == 0 && Idx(original) < |model.bounds|
      requires SourcesBelow(constraints.constraints, |model.bounds|) && |activePropagators| <= |model.bounds|
      requires Idx(source) < |activePropagators| && k < |activePropagators[Idx(source)]| && p == activePropagators[Idx(source)][k]
      requires Idx(p.target) < |activePropagators| && p.target != source
      requires model.bounds[Idx(source)] == sourceBound
      requires SatisfiedBut(activePropagators, model.bounds, E, Idx(source), k)
      modifies model
      ensures model.Valid() && Below(model.bounds, b0)
      ensures model.bounds[Idx(source)] == sourceBound
      ensures ExtendsOwn(old(model.events), model.events, writer)
      ensures r == Ok(true) ==>
        SatisfiedBut(activePropagators, model.bounds, E + {p.target}, Idx(source), k + 1) &&
        Potential(model.bounds, b0, |b0|) < old(Potential(model.bounds, b0, |b0|)) &&
        Progress(model.bounds, b0, model.events) <= old(Progress(model.bounds, b0, model.events))
      ensures r == Ok(false) ==>
        SatisfiedBut(activePropagators, model.bounds, E, Idx(source), k + 1) &&
        model.bounds == old(model.bounds) && model.events == old(model.events)
      ensures r.Err? ==> Explained(r.error, constraints.constraints, model.events, model.bounds)
    {
      IdxInjective(source, p.target);
      var updated := TightenBy(p.target, sourceBound + p.weight, p.id, model, b0);
      if updated.Err? {
        EmptyDomainExplained(model.bounds, p.target, constraints.constraints, model.events);
        return Err(Conflict(EmptyDomainConflict(p.target.variable)));
      }
      if !updated.value {
        SatisfiedButNext(activePropagators, model.bounds, E, Idx(source), k);
        return Ok(false);
      }
      SatisfiedButRelaxed(activePropagators, old(model.bounds), E, Idx(source), k, sourceBound + p.weight);
      if cycleOnUpdate && p.target == original {
        var f := CycleConflict(p.target, model);
        return Err(f);
      }
      return Ok(true);
    }

    /**
     * One step of the propagation loop: relaxes every active propagator out of `source`,
     * queueing the targets whose bound was tightened.
     */
    method RelaxOutEdges(source: VarBound, original: VarBound, cycleOnUpdate: bool, model: Domains,
                         ghost S: set<VarBound>, ghost b0: seq<int>) returns (r: Result<(), Failure>)
      requires QueueOk() && PropsOk(activePropagators) && |activePropagators| <= |model.bounds|
      requires SourcesBelow(constraints.constraints, |model.bounds|)
      requires model.Valid() && Below(model.bounds, b0) && |b0| % 2 == 0
      requires Idx(source) < |activePropagators| && Idx(original) < |activePropagators|
      requires SatisfiedBut(activePropagators, model.bounds, S + pendingUpdates, Idx(source), 0)
      modifies model, this`queue, this`pendingUpdates
      ensures QueueOk() && model.Valid() && Below(model.bounds, b0)
      ensures ExtendsOwn(old(model.events), model.events, writer)
      ensures r.Ok? ==> SatisfiedExcept(activePropagators, model.bounds, S + pendingUpdates)
      ensures r.Ok? ==> Progress(model.bounds, b0, model.events) <= old(Progress(model.bounds, b0, model.events))
      ensures r.Ok? ==> (Potential(model.bounds, b0, |b0|) < old(Potential(model.bounds, b0, |b0|)) ||
                         (model.bounds == old(model.bounds) && queue == old(queue)))
      ensures r.Err? ==> Explained(r.error, constraints.constraints, model.events, model.bounds)
    {
      IdxInjective(VarBoundAt(Idx(source)), source);
      var n := |activePropagators[Idx(source)]|;
      var sourceBound := model.GetBound(source);
      var k := 0;
      while k < n
        invariant k <= n
        invariant QueueOk() && model.Valid() && Below(model.bounds, b0)
        invariant model.bounds[Idx(source)] == sourceBound
        invariant ExtendsOwn(old(model.events), model.events, writer)
        invariant SatisfiedBut(activePropagators, model.bounds, S + pendingUpdates, Idx(source), k)
        invariant Progress(model.bounds, b0, model.events) <= old(Progress(model.bounds, b0, model.events))
        invariant Potential(model.bounds, b0, |b0|) < old(Potential(model.bounds, b0, |b0|)) ||
                  (model.bounds == old(model.bounds) && queue == old(queue) && model.events == old(model.events))
      {
        ghost var evs0 := model.events;
        ghost var excused := S + pendingUpdates;
        var p := activePropagators[Idx(source)][k];
        var relaxed := RelaxPropagator(source, k, p, sourceBound, original, cycleOnUpdate, model, excused, b0);
        ExtendsOwnTrans(old(model.events), evs0, model.events, writer);
        if relaxed.Err? {
          return Err(relaxed.error);
        }
        if relaxed.value {
          Enqueue(p.target);
          assert S + pendingUpdates == excused + {p.target};
        }
        k := k + 1;
      }
      SatisfiedButDone(activePropagators, model.bounds, S + pendingUpdates, Idx(source));
      return Ok(());
    }

    /** The loop of `run_propagation_loop`: pops queued bounds and relaxes their out-edges until the queue is empty. */
    method DrainQueue(original: VarBound, cycleOnUpdate: bool, model: Domains,
                      ghost S: set<VarBound>, ghost b0: seq<int>) returns (r: Result<(), Failure>)
      requires QueueOk() && PropsOk(activePropagators) && |activePropagators| <= |model.bounds|
      requires SourcesBelow(constraints.constraints, |model.bounds|)
      requires model.Valid() && Below(model.bounds, b0) && |b0| % 2 == 0
      requires Idx(original) < |activePropagators|
      requires SatisfiedExcept(activePropagators, model.bounds, S + pendingUpdates)
      modifies model, this`queue, this`pendingUpdates
      ensures QueueOk() && model.Valid() && Below(model.bounds, b0)
      ensures ExtendsOwn(old(model.events), model.events, writer)
      ensures r.Ok? ==> SatisfiedExcept(activePropagators, model.bounds, S)
      ensures r.Ok? ==> Progress(model.bounds, b0, model.events) <= old(Progress(model.bounds, b0, model.events))
      ensures r.Err? ==> Explained(r.error, constraints.constraints, model.events, model.bounds)
    {
      while queue != []
        invariant QueueOk() && model.Valid() && Below(model.bounds, b0)
        invariant ExtendsOwn(old(model.events), model.events, writer)
        invariant SatisfiedExcept(activePropagators, model.bounds, S + pendingUpdates)
        invariant Progress(model.bounds, b0, model.events) <= old(Progress(model.bounds, b0, model.events))
        decreases Potential(model.bounds, b0, |b0|), |queue|
      {
        var source := queue[0];
        queue := queue[1..];
        if source in pendingUpdates {
          ghost var pending0 := pendingUpdates;
          pendingUpdates := pendingUpdates - {source};
          SatisfiedButStart(activePropagators, model.bounds, S + pending0, S + pendingUpdates, source);
          ghost var evs0 := model.events;
          r := RelaxOutEdges(source, original, cycleOnUpdate, model, S, b0);
          ExtendsOwnTrans(old(model.events), evs0, model.events, writer);
          if r.Err? {
            return;
          }
        }
      }
      assert pendingUpdates == {};
      return Ok(());
    }

    /**
     * Propagates the tightening of `original` to a fixpoint. With `cycleOnUpdate`, coming back
     * to tighten `original` again reveals a negative cycle, reported through its enablers.
     */
    method RunPropagationLoop(original: VarBound, cycleOnUpdate: bool, model: Domains,
                              ghost S: set<VarBound>, ghost b0: seq<int>) returns (r: Result<(), Failure>)
      requires QueueOk() && PropsOk(activePropagators) && |activePropagators| <= |model.bounds|
      requires SourcesBelow(constraints.constraints, |model.bounds|)
      requires model.Valid() && Below(model.bounds, b0) && |b0| % 2 == 0
      requires Idx(original) < |activePropagators|
      requires SatisfiedExcept(activePropagators, model.bounds, S + {original})
      modifies model, this`queue, this`pendingUpdates
      ensures QueueOk() && model.Valid() && |model.bounds| == old(|model.bounds|) && Below(model.bounds, b0)
      ensures ExtendsOwn(old(model.events), model.events, writer)
      ensures r.Ok? ==> SatisfiedExcept(activePropagators, model.bounds, S)
      ensures r.Ok? ==> Progress(model.bounds, b0, model.events) <= old(Progress(model.bounds, b0, model.events))
      ensures r.Err? ==> Explained(r.error, constraints.constraints, model.events, model.bounds)
    {
      // clean_up_propagation_state: every pending bound is in the queue
      pendingUpdates := pendingUpdates - (set x | x in queue);
      queue := [original];
      pendingUpdates := {original};
      r := DrainQueue(original, cycleOnUpdate, model, S, b0);
    }

    /**
     * Relaxes the freshly activated constraint `d` from `src` to `tgt` with weight `w`:
     * `Ok(true)` when the bound of `tgt` was tightened and must be propagated in turn.
     */
    method SettleEdge(d: DirEdge, src: VarBound, tgt: VarBound, w: int, model: Domains, ghost S: set<VarBound>, ghost b0: seq<int>)
      returns (r: Result<bool, Failure>)
      requires model.Valid() && Below(model.bounds, b0) && |b0| % 2 == 0
      requires Idx(src) < |model.bounds| && Idx(tgt) < |model.bounds| && src != tgt
      requires forall i, k :: 0 <= i < |activePropagators| && 0 <= k < |activePropagators[i]| && activePropagators[i][k].id == d ==>
        i == Idx(src) && Idx(activePropagators[i][k].target) == Idx(tgt) && activePropagators[i][k].weight == w
      requires SatisfiedExceptEdge(activePropagators, model.bounds, S, d)
      modifies model
      ensures model.Valid() && Below(model.bounds, b0)
      ensures ExtendsOwn(old(model.events), model.events, writer)
      ensures r == Ok(true) ==> SatisfiedExcept(activePropagators, model.bounds, S + {tgt})
      ensures r == Ok(false) ==> SatisfiedExcept(activePropagators, model.bounds, S)
      ensures r.Ok? ==> Progress(model.bounds, b0, model.events) <= old(Progress(model.bounds, b0, model.events))
      ensures r.Err? ==> Explained(r.error, constraints.constraints, model.events, model.bounds)
    {
      IdxInjective(src, tgt);
      var sourceBound := model.GetBound(src);
      ghost var bBefore := model.bounds;
      var updated := TightenBy(tgt, sourceBound + w, d, model, b0);
      if updated.Err? {
        EmptyDomainExplained(model.bounds, tgt, constraints.constraints, model.events);
        return Err(Conflict(EmptyDomainConflict(tgt.variable)));
      }
      if !updated.value {
        assert updated == Ok(false);
        EdgeSettled(activePropagators, bBefore, model.bounds, S, d, Idx(src), Idx(tgt), w);
        return Ok(false);
      }
      assert updated == Ok(true);
      EdgeSettled(activePropagators, bBefore, model.bounds, S, d, Idx(src), Idx(tgt), w);
      IdxInjective(VarBoundAt(Idx(tgt)), tgt);
      return Ok(true);
    }

    /**
     * `propagate_new_edge`: propagates the freshly activated constraint `d`, not a self loop,
     * in a network where every other propagator out of a bound outside `S` already holds.
     */
    method PropagateNewEdge(d: nat, model: Domains, ghost S: set<VarBound>, ghost b0: seq<int>) returns (r: Result<(), Failure>)
      requires Valid() && model.Valid() && Linked(model) && Below(model.bounds, b0) && |b0| % 2 == 0
      requires d < |constraints.constraints| && constraints.constraints[d].source != constraints.constraints[d].target
      requires SatisfiedExceptEdge(activePropagators, model.bounds, S, DirEdge(d))
      modifies model, this`queue, this`pendingUpdates
      ensures QueueOk() && model.Valid() && |model.bounds| == old(|model.bounds|) && Below(model.bounds, b0)
      ensures ExtendsOwn(old(model.events), model.events, writer)
      ensures r.Ok? ==> SatisfiedExcept(activePropagators, model.bounds, S)
      ensures r.Ok? ==> Progress(model.bounds, b0, model.events) <= old(Progress(model.bounds, b0, model.events))
      ensures r.Err? ==> Explained(r.error, constraints.constraints, model.events, model.bounds)
    {
      var c := constraints.constraints[d];
      PropagatorsOf(constraints.constraints, constraints.edges, activePropagators, trail, d);
      NetPropsOk(constraints.constraints, constraints.edges, activePropagators, trail);
      NetSources(constraints.constraints, constraints.edges, activePropagators, trail, |model.bounds|);
      ghost var evsBefore := model.events;
      var updated := SettleEdge(DirEdge(d), c.source, c.target, c.weight, model, S, b0);
      if updated.Err? {
        return Err(updated.error);
      }
      if !updated.value {
        return Ok(());
      }
      r := RunPropagationLoop(c.target, true, model, S, b0);
      ExtendsOwnTrans(old(model.events), evsBefore, model.events, writer);
    }

    /** `propagate_bound_change`: propagates the new value of `bound`, which only bounds of the network need. */
    method PropagateBoundChange(bound: VarBound, model: Domains, ghost S: set<VarBound>, ghost b0: seq<int>) returns (r: Result<(), Failure>)
      requires Valid() && model.Valid() && Linked(model) && Below(model.bounds, b0) && |b0| % 2 == 0
      requires SatisfiedExcept(activePropagators, model.bounds, S + {bound})
      modifies model, this`queue, this`pendingUpdates
      ensures QueueOk() && model.Valid() && |model.bounds| == old(|model.bounds|) && Below(model.bounds, b0)
      ensures ExtendsOwn(old(model.events), model.events, writer)
      ensures r.Ok? ==> SatisfiedExcept(activePropagators, model.bounds, S)
      ensures r.Ok? ==> Progress(model.bounds, b0, model.events) <= old(Progress(model.bounds, b0, model.events))
      ensures r.Err? ==> Explained(r.error, constraints.constraints, model.events, model.bounds)
    {
      NetPropsOk(constraints.constraints, constraints.edges, activePropagators, trail);
      NetSources(constraints.constraints, constraints.edges, activePropagators, trail, |model.bounds|);
      if bound.variable >= NumNodes() {
        SatisfiedOutside(activePropagators, model.bounds, S, bound);
        assert model.events[..|model.events|] == model.events;
        return Ok(());
      }
      r := RunPropagationLoop(bound, false, model, S, b0);
    }

    /** Records a theory propagation cause, to be undone with the trail; returns its index. */
    method RecordCause(cause: TheoryPropagationCause) returns (index: nat)
      requires Valid()
      modifies this`theoryPropagationCauses, this`trail
      ensures Valid()
      ensures index == old(|theoryPropagationCauses|) && theoryPropagationCauses == old(theoryPropagationCauses) + [cause]
      ensures trail == old(trail) + [AddedTheoryPropagationCause]
    {
      NetAddCause(constraints.constraints, constraints.edges, activePropagators, trail);
      index := |theoryPropagationCauses|;
      theoryPropagationCauses := theoryPropagationCauses + [cause];
      trail := trail + [AddedTheoryPropagationCause];
    }

    /** The potential edges out of `x` lead to bounds of the model and are enabled by literals of the model. */
    lemma OutEdgesWithin(x: VarBound, model: Domains)
      requires Valid() && Linked(model) && |model.bounds| % 2 == 0
      ensures forall o :: o in constraints.PotentialOutEdges(x) ==>
        Idx(Not(o.enabler).svar) < |model.bounds| && Idx(o.target.Neg()) < |model.bounds|
    {
      forall o | o in constraints.PotentialOutEdges(x)
        ensures Idx(Not(o.enabler).svar) < |model.bounds| && Idx(o.target.Neg()) < |model.bounds|
      {
        IdxInjective(o.target, o.target.Neg());
        IdxInjective(o.enabler.svar, Not(o.enabler).svar);
      }
    }

    /**
     * The body of `theory_propagate_bound` for the potential edge `o` out of `bound`'s signed variable:
     * unless `!enabler` already holds, disables `o` when it closes a negative cycle through the origin.
     */
    method DisableIfNegativeCycle(o: EdgeTarget, bound: Lit, model: Domains, ghost S: set<VarBound>, ghost c0: nat, ghost b0: seq<int>)
      returns (r: Result<(), Failure>)
      requires Valid() && model.Valid() && Below(model.bounds, b0) && |b0| % 2 == 0
      requires Idx(Not(o.enabler).svar) < |b0| && Idx(o.target.Neg()) < |b0|
      requires c0 <= |model.events| && SatisfiedExcept(activePropagators, model.bounds, S + PendingSources(model.events, c0, writer))
      modifies this`theoryPropagationCauses, this`trail, model
      ensures Valid() && model.Valid() && Below(model.bounds, b0)
      ensures Extends(old(model.events), model.events)
      ensures r.Ok? ==> Progress(model.bounds, b0, model.events) <= old(Progress(model.bounds, b0, model.events))
      ensures r.Ok? ==> SatisfiedExcept(activePropagators, model.bounds, S + PendingSources(model.events, c0, writer))
      ensures r.Ok? ==> DisableStep(o, bound, old(model.bounds), model.bounds)
      ensures r.Err? ==> Explained(r.error, constraints.constraints, model.events, model.bounds)
    {
      var notEnabler := Not(o.enabler);
      if model.Entails(notEnabler) {
        assert model.events[..|model.events|] == model.events;
        return Ok(());
      }
      var ySym := o.target.Neg();
      var ySymBound := model.GetBound(ySym);
      if bound.ub + o.weight + ySymBound >= 0 {
        assert model.events[..|model.events|] == model.events;
        return Ok(());
      }
      var index := RecordCause(BoundsCause(bound, Lit(ySym, ySymBound)));
      r := SetDisabled(notEnabler, index, model, S, c0, b0);
    }

    /** Makes `lit` true, recording the theory propagation `index` as the cause. */
    method SetDisabled(lit: Lit, index: nat, model: Domains, ghost S: set<VarBound>, ghost c0: nat, ghost b0: seq<int>)
      returns (r: Result<(), Failure>)
      requires model.Valid() && Below(model.bounds, b0) && |b0| % 2 == 0 && Idx(lit.svar) < |b0| && !model.Entails(lit)
      requires c0 <= |model.events| && SatisfiedExcept(activePropagators, model.bounds, S + PendingSources(model.events, c0, writer))
      modifies model
      ensures model.Valid() && Below(model.bounds, b0)
      ensures Extends(old(model.events), model.events)
      ensures model.bounds == old(model.bounds)[Idx(lit.svar) := lit.ub]
      ensures r.Ok? ==> Progress(model.bounds, b0, model.events) <= old(Progress(model.bounds, b0, model.events))
      ensures r.Ok? ==> SatisfiedExcept(activePropagators, model.bounds, S + PendingSources(model.events, c0, writer))
      ensures r.Err? ==> Explained(r.error, constraints.constraints, model.events, model.bounds)
    {
      ghost var bBefore := model.bounds;
      ghost var evsBefore := model.events;
      var disabled := model.Set(lit, Inference(writer, EncodeCause(TheoryPropagation(index))));
      assert model.events[..|evsBefore|] == evsBefore;
      if disabled.Err? {
        EmptyDomainExplained(model.bounds, lit.svar, constraints.constraints, model.events);
        return Err(Conflict(EmptyDomainConflict(lit.svar.variable)));
      }
      ghost var j := Idx(lit.svar);
      PotentialStep(bBefore, b0, lit.svar, lit.ub);
      SatisfiedAfterTightening(activePropagators, bBefore, S + PendingSources(evsBefore, c0, writer), j, lit.ub);
      PendingAppend(evsBefore, model.events[|evsBefore|], c0, writer);
      assert evsBefore + [model.events[|evsBefore|]] == model.events;
      IdxInjective(VarBoundAt(j), lit.svar);
      return Ok(());
    }

    /**
     * `theory_propagate_bound`: with `bound` holding, disables every potential edge out of its
     * signed variable that would close a negative cycle through the origin, by setting its enabler false.
     */
    method TheoryPropagateBound(bound: Lit, model: Domains, ghost S: set<VarBound>, ghost c0: nat, ghost b0: seq<int>)
      returns (r: Result<(), Failure>)
      requires Valid() && model.Valid() && Linked(model) && Below(model.bounds, b0) && |b0| % 2 == 0
      requires c0 <= |model.events| && SatisfiedExcept(activePropagators, model.bounds, S + PendingSources(model.events, c0, writer))
      modifies this`theoryPropagationCauses, this`trail, model
      ensures Valid() && model.Valid() && |model.bounds| == old(|model.bounds|) && Below(model.bounds, b0)
      ensures Extends(old(model.events), model.events)
      ensures r.Ok? ==> Progress(model.bounds, b0, model.events) <= old(Progress(model.bounds, b0, model.events))
      ensures r.Ok? ==> SatisfiedExcept(activePropagators, model.bounds, S + PendingSources(model.events, c0, writer))
      ensures r.Ok? ==> DisablesNegativeCycles(constraints.PotentialOutEdges(bound.svar), bound, old(model.bounds), model.bounds)
      ensures r.Ok? ==> forall i :: 0 <= i < |model.bounds| && model.bounds[i] != old(model.bounds[i]) ==>
        DisabledBy(constraints.PotentialOutEdges(bound.svar), bound, model.bounds, i)
      ensures r.Err? ==> Explained(r.error, constraints.constraints, model.events, model.bounds)
    {
      hide SatisfiedExcept, PendingSources, Progress, Explained, DisabledBy;
      var outs := constraints.PotentialOutEdges(bound.svar);
      OutEdgesWithin(bound.svar, model);
      ghost var bStart := model.bounds;
      var k := 0;
      while k < |outs|
        invariant k <= |outs|
        invariant Valid() && model.Valid() && Below(model.bounds, b0) && Below(model.bounds, bStart)
        invariant Extends(old(model.events), model.events)
        invariant Progress(model.bounds, b0, model.events) <= old(Progress(model.bounds, b0, model.events))
        invariant SatisfiedExcept(activePropagators, model.bounds, S + PendingSources(model.events, c0, writer))
        invariant DisablesNegativeCycles(outs[..k], bound, bStart, model.bounds)
        invariant forall i :: 0 <= i < |model.bounds| && model.bounds[i] != bStart[i] ==> DisabledBy(outs, bound, model.bounds, i)
      {
        ghost var bBefore := model.bounds;
        ghost var evsBefore := model.events;
        r := DisableIfNegativeCycle(outs[k], bound, model, S, c0, b0);
        if r.Err? {
          return;
        }
        ExtendsTrans(old(model.events), evsBefore, model.events);
        DisableStepCycles(outs, k, bound, bStart, bBefore, model.bounds);
        DisableStepExplained(outs, k, bound, bStart, bBefore, model.bounds);
        k := k + 1;
      }
      assert outs[..k] == outs;
      return Ok(());
    }

    /**
     * Makes directed constraint `d` active with `enabler`: its propagator joins the adjacency list
     * of its source (none for a self loop) and the activation is recorded on the trail, self loops
     * included so that backtracking clears their enabler too.
     */
    method Activate(d: nat, enabler: Lit)
      requires Valid() && d < |constraints.constraints| && constraints.constraints[d].enabler == None
      modifies this`activePropagators, this`trail, constraints
      ensures Valid()
      ensures Idx(old(constraints.constraints[d]).source) < |old(activePropagators)|
      ensures constraints.constraints == old(constraints.constraints)[d := old(constraints.constraints[d]).(enabler := Some(enabler))]
      ensures activePropagators == ActivatedProps(old(activePropagators), old(constraints.constraints[d]), DirEdge(d))
      ensures trail == old(trail) + [EdgeActivated(DirEdge(d))]
      ensures constraints.lookup == old(constraints.lookup) && constraints.watches == old(constraints.watches)
      ensures constraints.edges == old(constraints.edges)
    {
      var c := constraints.constraints[d];
      NetActivate(constraints.constraints, constraints.edges, activePropagators, trail, d, enabler);
      constraints.SetEnabler(d, Some(enabler));
      activePropagators := ActivatedProps(activePropagators, c, DirEdge(d));
      trail := trail + [EdgeActivated(DirEdge(d))];
    }

    /**
     * One iteration of the activation loop of `propagate_all`: activates the directed constraint of
     * `a` unless it is already active, reports a negative self loop, and propagates any other new edge.
     */
    method ActivateOne(a: Activation, model: Domains, ghost S: set<VarBound>, ghost b0: seq<int>) returns (r: Result<(), Failure>)
      requires Valid() && model.Valid() && Linked(model) && Below(model.bounds, b0) && |b0| % 2 == 0
      requires SatisfiedExcept(activePropagators, model.bounds, S)
      modifies this`activePropagators, this`trail, this`queue, this`pendingUpdates, constraints, model
      ensures Valid() && model.Valid() && |model.bounds| == old(|model.bounds|) && Below(model.bounds, b0)
      ensures |activePropagators| == old(|activePropagators|) && constraints.edges == old(constraints.edges)
      ensures constraints.lookup == old(constraints.lookup) && constraints.watches == old(constraints.watches)
      ensures ExtendsOwn(old(model.events), model.events, writer)
      ensures a.edge.raw >= old(|constraints.constraints|) ==> r == Err(Abort)
      ensures a.edge.raw < old(|constraints.constraints|) && old(constraints.constraints[a.edge.raw].enabler).Some? ==>
        r == Ok(()) && constraints.constraints == old(constraints.constraints) && trail == old(trail) &&
        activePropagators == old(activePropagators) && model.bounds == old(model.bounds)
      ensures a.edge.raw < old(|constraints.constraints|) && old(constraints.constraints[a.edge.raw].enabler) == None ==>
        |constraints.constraints| == old(|constraints.constraints|) &&
        constraints.constraints[a.edge.raw].enabler == Some(a.enabler) &&
        trail == old(trail) + [EdgeActivated(a.edge)]
      ensures a.edge.raw < old(|constraints.constraints|) && old(constraints.constraints[a.edge.raw]).enabler == None &&
              old(constraints.constraints[a.edge.raw]).source == old(constraints.constraints[a.edge.raw]).target ==>
        r == (if old(constraints.constraints[a.edge.raw]).weight < 0 then Err(Conflict(Explanation([a.enabler]))) else Ok(()))
      ensures r.Ok? && old(NoNegativeSelfLoop(constraints.constraints)) ==> NoNegativeSelfLoop(constraints.constraints)
      ensures r.Ok? ==> SatisfiedExcept(activePropagators, model.bounds, S)
      ensures r.Ok? ==> Progress(model.bounds, b0, model.events) <= old(Progress(model.bounds, b0, model.events))
      ensures r.Err? ==> Explained(r.error, constraints.constraints, model.events, model.bounds)
    {
      var d := a.edge.raw;
      if d >= |constraints.constraints| {
        return Err(Abort);
      }
      var c := constraints.constraints[d];
      if c.enabler.Some? {
        assert model.events[..|model.events|] == model.events;
        return Ok(());
      }
      Activate(d, a.enabler);
      assert model.events[..|model.events|] == model.events;
      if c.source == c.target {
        if c.weight < 0 {
          assert constraints.constraints[d].enabler == Some(a.enabler);
          return Err(Conflict(Explanation([a.enabler])));
        }
        return Ok(());
      }
      ActivatedSatisfied(old(activePropagators), model.bounds, S, c, DirEdge(d));
      r := PropagateNewEdge(d, model, S, b0);
    }

    /**
     * One iteration of the event loop of `propagate_all`: reads the next model event, queues the
     * activations its literal triggers, runs bound theory propagation when configured, and propagates
     * the new bound unless the STN produced the event itself.
     */
    method ProcessEvent(model: Domains, ghost W: set<VarBound>, ghost b0: seq<int>) returns (r: Result<(), Failure>)
      requires Valid() && model.Valid() && Linked(model) && Below(model.bounds, b0) && |b0| % 2 == 0
      requires cursor < |model.events| && SatisfiedExcept(activePropagators, model.bounds, W + PendingSources(model.events, cursor, writer))
      modifies this`cursor, this`pendingActivations, this`theoryPropagationCauses, this`trail, this`queue, this`pendingUpdates, model
      ensures Valid() && model.Valid() && Linked(model) && Below(model.bounds, b0)
      ensures cursor == old(cursor) + 1 && Extends(old(model.events), model.events)
      ensures pendingActivations ==
        old(pendingActivations) + Activations(constraints.WatchesOn(NewLiteral(old(model.events[cursor]))), NewLiteral(old(model.events[cursor])))
      ensures r.Ok? ==> SatisfiedExcept(activePropagators, model.bounds, W + PendingSources(model.events, cursor, writer))
      ensures r.Ok? ==> Progress(model.bounds, b0, model.events) <= old(Progress(model.bounds, b0, model.events))
      ensures r.Err? ==> Explained(r.error, constraints.constraints, model.events, model.bounds)
    {
      var c := cursor;
      var ev := model.events[c];
      cursor := cursor + 1;
      var literal := NewLiteral(ev);
      pendingActivations := pendingActivations + Activations(constraints.WatchesOn(literal), literal);
      r := PropagateEvent(ev, c, model, W, b0);
    }

    /**
     * The propagation part of one iteration of the event loop of `propagate_all`, for the event at
     * position `c` of the model's events.
     */
    method PropagateEvent(ev: Event, c: nat, model: Domains, ghost W: set<VarBound>, ghost b0: seq<int>) returns (r: Result<(), Failure>)
      requires Valid() && model.Valid() && Linked(model) && Below(model.bounds, b0) && |b0| % 2 == 0
      requires c < |model.events| && model.events[c] == ev
      requires SatisfiedExcept(activePropagators, model.bounds, W + PendingSources(model.events, c, writer))
      modifies this`theoryPropagationCauses, this`trail, this`queue, this`pendingUpdates, model
      ensures Valid() && model.Valid() && |model.bounds| == old(|model.bounds|) && Below(model.bounds, b0)
      ensures Extends(old(model.events), model.events)
      ensures r.Ok? ==> SatisfiedExcept(activePropagators, model.bounds, W + PendingSources(model.events, c + 1, writer))
      ensures r.Ok? ==> Progress(model.bounds, b0, model.events) <= old(Progress(model.bounds, b0, model.events))
      ensures r.Err? ==> Explained(r.error, constraints.constraints, model.events, model.bounds)
    {
      ghost var evs0 := model.events;
      if OnBounds(level) {
        r := TheoryPropagateBound(NewLiteral(ev), model, W, c, b0);
        if r.Err? {
          return;
        }
      }
      assert Extends(evs0, model.events) by {
        if !OnBounds(level) {
          assert model.events[..|evs0|] == evs0;
        }
      }
      assert model.events[c] == ev by {
        assert model.events[..|evs0|][c] == ev;
      }
      ghost var evs1 := model.events;
      r := PropagateEventBound(ev, c, model, W, b0);
      ExtendsTrans(old(model.events), evs1, model.events);
    }

    /** Propagates the bound changed by the event at position `c`, unless the STN produced that event itself. */
    method PropagateEventBound(ev: Event, c: nat, model: Domains, ghost W: set<VarBound>, ghost b0: seq<int>) returns (r: Result<(), Failure>)
      requires Valid() && model.Valid() && Linked(model) && Below(model.bounds, b0) && |b0| % 2 == 0
      requires c < |model.events| && model.events[c] == ev
      requires SatisfiedExcept(activePropagators, model.bounds, W + PendingSources(model.events, c, writer))
      modifies this`queue, this`pendingUpdates, model
      ensures Valid() && model.Valid() && |model.bounds| == old(|model.bounds|) && Below(model.bounds, b0)
      ensures Extends(old(model.events), model.events)
      ensures r.Ok? ==> SatisfiedExcept(activePropagators, model.bounds, W + PendingSources(model.events, c + 1, writer))
      ensures r.Ok? ==> Progress(model.bounds, b0, model.events) <= old(Progress(model.bounds, b0, model.events))
      ensures r.Err? ==> Explained(r.error, constraints.constraints, model.events, model.bounds)
    {
      PendingStep(model.events, c, writer);
      if SelfHandled(ev, writer) {
        assert model.events[..|model.events|] == model.events;
        return Ok(());
      }
      r := PropagateBoundChange(ev.affectedBound, model, W + PendingSources(model.events, c + 1, writer), b0);
      if r.Ok? {
        PendingOwn(old(model.events), model.events, c + 1, writer);
      }
    }

    /** One iteration of the activation loop of `propagate_all`: activates the oldest pending activation. */
    method ProcessActivation(model: Domains, ghost W: set<VarBound>, ghost b0: seq<int>) returns (r: Result<(), Failure>)
      requires Valid() && model.Valid() && Linked(model) && Below(model.bounds, b0) && |b0| % 2 == 0
      requires pendingActivations != [] && cursor <= |model.events|
      requires SatisfiedExcept(activePropagators, model.bounds, W + PendingSources(model.events, cursor, writer))
      modifies this`pendingActivations, this`activePropagators, this`trail, this`queue, this`pendingUpdates, constraints, model
      ensures Valid() && model.Valid() && Linked(model) && Below(model.bounds, b0)
      ensures cursor <= |model.events| && pendingActivations == old(pendingActivations[1..])
      ensures r.Ok? && old(NoNegativeSelfLoop(constraints.constraints)) ==> NoNegativeSelfLoop(constraints.constraints)
      ensures r.Ok? ==> SatisfiedExcept(activePropagators, model.bounds, W + PendingSources(model.events, cursor, writer))
      ensures r.Ok? ==> Progress(model.bounds, b0, model.events) <= old(Progress(model.bounds, b0, model.events))
      ensures r.Err? ==> Explained(r.error, constraints.constraints, model.events, model.bounds)
    {
      hide NoNegativeSelfLoop;
      var a := pendingActivations[0];
      pendingActivations := pendingActivations[1..];
      ghost var evs0 := model.events;
      r := ActivateOne(a, model, W + PendingSources(model.events, cursor, writer), b0);
      if r.Ok? {
        PendingOwn(evs0, model.events, cursor, writer);
      }
    }

    /**
     * `propagate_all`: processes every model event not yet read and every pending activation, until
     * none is left. On success every active propagator holds, except those out of bounds that were
     * already broken without any unread event to schedule them.
     */
    method PropagateAll(model: Domains) returns (r: Result<(), Failure>)
      requires Valid() && model.Valid() && Linked(model)
      modifies this`cursor, this`pendingActivations, this`theoryPropagationCauses, this`trail, this`queue, this`pendingUpdates
      modifies this`activePropagators, constraints, model
      ensures Valid() && model.Valid() && Linked(model)
      ensures r.Ok? ==> cursor == |model.events| && pendingActivations == []
      ensures r.Ok? ==> SatisfiedExcept(activePropagators, model.bounds,
                                        old(Unscheduled(activePropagators, model.bounds, model.events, cursor, writer)))
      ensures r.Ok? && old(NoNegativeSelfLoop(constraints.constraints)) ==> NoNegativeSelfLoop(constraints.constraints)
      ensures r.Err? ==> Explained(r.error, constraints.constraints, model.events, model.bounds)
    {
      hide NoNegativeSelfLoop;
      if cursor > |model.events| {
        cursor := |model.events|;
      }
      ghost var b0 := model.bounds;
      ghost var W := Unscheduled(activePropagators, model.bounds, model.events, cursor, writer);
      UnscheduledSat(activePropagators, model.bounds, model.events, cursor, writer);
      while cursor < |model.events| || pendingActivations != []
        invariant Valid() && model.Valid() && Linked(model) && Below(model.bounds, b0)
        invariant cursor <= |model.events|
        invariant SatisfiedExcept(activePropagators, model.bounds, W + PendingSources(model.events, cursor, writer))
        invariant old(NoNegativeSelfLoop(constraints.constraints)) ==> NoNegativeSelfLoop(constraints.constraints)
        decreases Progress(model.bounds, b0, model.events) - cursor, |pendingActivations|
      {
        r := DrainEvents(model, W, b0);
        if r.Err? {
          return;
        }
        r := DrainActivations(model, W, b0);
        if r.Err? {
          return;
        }
      }
      return Ok(());
    }

    /**
     * At a fixpoint of propagation, every active edge holds on the model's bounds: a forward view
     * gives `ub(target) <= ub(source) + weight`, a backward view `lb(source) >= lb(target) - weight`.
     */
    lemma ActiveEdgesHold(model: Domains)
      requires Valid() && Linked(model) && SatisfiedExcept(activePropagators, model.bounds, {})
      ensures forall d ::
        (0 <= d < |constraints.constraints| && constraints.constraints[d].enabler.Some? &&
         constraints.constraints[d].source != constraints.constraints[d].target) ==>
          var e := AsEdge(constraints.constraints[d]);
          Idx(Plus(e.source)) < |model.bounds| && Idx(Plus(e.target)) < |model.bounds| &&
          (if constraints.constraints[d].source.plus then model.Ub(e.target) <= model.Ub(e.source) + e.weight
           else model.Lb(e.source) >= model.Lb(e.target) - e.weight)
    {
      var cs := constraints.constraints;
      forall d | 0 <= d < |cs| && cs[d].enabler.Some? && cs[d].source != cs[d].target
        ensures var e := AsEdge(cs[d]);
          Idx(Plus(e.source)) < |model.bounds| && Idx(Plus(e.target)) < |model.bounds| &&
          (if cs[d].source.plus then model.Ub(e.target) <= model.Ub(e.source) + e.weight
           else model.Lb(e.source) >= model.Lb(e.target) - e.weight)
      {
        ActiveConstraintHolds(cs, constraints.edges, activePropagators, trail, model.bounds, {}, d);
        constraints.ViewOf(DirEdge(d));
      }
    }

    /** The event loop of `propagate_all`: reads model events until none is left unread. */
    method DrainEvents(model: Domains, ghost W: set<VarBound>, ghost b0: seq<int>) returns (r: Result<(), Failure>)
      requires Valid() && model.Valid() && Linked(model) && Below(model.bounds, b0) && |b0| % 2 == 0
      requires cursor <= |model.events|
      requires SatisfiedExcept(activePropagators, model.bounds, W + PendingSources(model.events, cursor, writer))
      modifies this`cursor, this`pendingActivations, this`theoryPropagationCauses, this`trail, this`queue, this`pendingUpdates, model
      ensures Valid() && model.Valid() && Linked(model) && Below(model.bounds, b0)
      ensures cursor <= |model.events| && |model.events| >= old(|model.events|)
      ensures SatisfiedExcept(activePropagators, model.bounds, W + PendingSources(model.events, cursor, writer)) || r.Err?
      ensures r.Ok? ==> cursor == |model.events|
      ensures r.Ok? ==> Progress(model.bounds, b0, model.events) - cursor <= old(Progress(model.bounds, b0, model.events) - cursor)
      ensures r.Ok? && old(cursor < |model.events|) ==>
                Progress(model.bounds, b0, model.events) - cursor < old(Progress(model.bounds, b0, model.events) - cursor)
      ensures r.Ok? && old(cursor >= |model.events|) ==> pendingActivations == old(pendingActivations)
      ensures r.Err? ==> Explained(r.error, constraints.constraints, model.events, model.bounds)
    {
      r := Ok(());
      if cursor == |model.events| {
        return;
      }
      while cursor < |model.events|
        invariant Valid() && model.Valid() && Linked(model) && Below(model.bounds, b0)
        invariant cursor <= |model.events| && |model.events| >= old(|model.events|) && r.Ok?
        invariant SatisfiedExcept(activePropagators, model.bounds, W + PendingSources(model.events, cursor, writer))
        invariant || Progress(model.bounds, b0, model.events) - cursor < old(Progress(model.bounds, b0, model.events) - cursor)
                  || (cursor == old(cursor) && model.events == old(model.events) && model.bounds == old(model.bounds))
        decreases Progress(model.bounds, b0, model.events) - cursor
      {
        r := ProcessEvent(model, W, b0);
        if r.Err? {
          return;
        }
      }
    }

    /** The activation loop of `propagate_all`: activates pending activations until none is left. */
    method DrainActivations(model: Domains, ghost W: set<VarBound>, ghost b0: seq<int>) returns (r: Result<(), Failure>)
      requires Valid() && model.Valid() && Linked(model) && Below(model.bounds, b0) && |b0| % 2 == 0
      requires cursor <= |model.events|
      requires SatisfiedExcept(activePropagators, model.bounds, W + PendingSources(model.events, cursor, writer))
      modifies this`pendingActivations, this`activePropagators, this`trail, this`queue, this`pendingUpdates, constraints, model
      ensures Valid() && model.Valid() && Linked(model) && Below(model.bounds, b0)
      ensures cursor <= |model.events|
      ensures SatisfiedExcept(activePropagators, model.bounds, W + PendingSources(model.events, cursor, writer)) || r.Err?
      ensures r.Ok? ==> pendingActivations == []
      ensures r.Ok? ==> Progress(model.bounds, b0, model.events) <= old(Progress(model.bounds, b0, model.events))
      ensures r.Ok? && old(NoNegativeSelfLoop(constraints.constraints)) ==> NoNegativeSelfLoop(constraints.constraints)
      ensures r.Err? ==> Explained(r.error, constraints.constraints, model.events, model.bounds)
    {
      hide NoNegativeSelfLoop;
      r := Ok(());
      while pendingActivations != []
        invariant Valid() && model.Valid() && Linked(model) && Below(model.bounds, b0)
        invariant cursor <= |model.events|
        invariant SatisfiedExcept(activePropagators, model.bounds, W + PendingSources(model.events, cursor, writer))
        invariant Progress(model.bounds, b0, model.events) <= old(Progress(model.bounds, b0, model.events)) && r.Ok?
        invariant old(NoNegativeSelfLoop(constraints.constraints)) ==> NoNegativeSelfLoop(constraints.constraints)
        decreases |pendingActivations|
      {
        r := ProcessActivation(model, W, b0);
        if r.Err? {
          return;
        }
      }
    }

    /**
     * `undo_last_event`: undoes the newest change on the trail, which lies after the last
     * backtrack point: an edge addition drops its four constraints, an activation clears the
     * enabler and removes its propagator, a recorded cause is dropped.
     */
    method UndoLastEvent()
      requires Valid() && |trail| > 0 && (savePoints == [] || savePoints[|savePoints| - 1] < |trail|)
      modifies this`trail, this`activePropagators, this`theoryPropagationCauses, constraints`constraints, constraints`lookup
      ensures Valid()
      ensures trail == old(trail[..|trail| - 1]) && savePoints == old(savePoints)
      ensures |activePropagators| == old(|activePropagators|) && |constraints.constraints| <= old(|constraints.constraints|)
      ensures forall d :: 0 <= d < |constraints.constraints| ==> SameShape(constraints.constraints[d], old(constraints.constraints[d]))
      ensures |theoryPropagationCauses| <= old(|theoryPropagationCauses|)
      ensures theoryPropagationCauses == old(theoryPropagationCauses)[..|theoryPropagationCauses|]
      ensures old(trail[|trail| - 1]) == EdgeAdded ==>
        && |old(constraints.constraints)| >= 4
        && constraints.constraints == old(constraints.constraints[..|constraints.constraints| - 4])
        && activePropagators == old(activePropagators) && theoryPropagationCauses == old(theoryPropagationCauses)
      ensures old(trail[|trail| - 1]).EdgeActivated? ==>
        var d := old(trail[|trail| - 1]).edge.raw;
        && d < |old(constraints.constraints)| && Idx(old(constraints.constraints[d]).source) < |old(activePropagators)|
        && constraints.constraints == old(constraints.constraints[d := constraints.constraints[d].(enabler := None)])
        && (old(constraints.constraints[d]).source != old(constraints.constraints[d]).target ==>
              |old(activePropagators)[Idx(old(constraints.constraints[d]).source)]| > 0)
        && activePropagators == DeactivatedProps(old(activePropagators), old(constraints.constraints[d]))
        && theoryPropagationCauses == old(theoryPropagationCauses)
      ensures old(trail[|trail| - 1]) == AddedTheoryPropagationCause ==>
        && |old(theoryPropagationCauses)| > 0
        && theoryPropagationCauses == old(theoryPropagationCauses[..|theoryPropagationCauses| - 1])
        && constraints.constraints == old(constraints.constraints) && activePropagators == old(activePropagators)
    {
      match trail[|trail| - 1] {
        case EdgeAdded => UndoEdgeAdded();
        case EdgeActivated(e) => var _, _ := UndoActivation();
        case AddedTheoryPropagationCause => UndoCause();
      }
    }

    /** Undoing an edge addition: `pop_last` on the constraint store. */
    method UndoEdgeAdded()
      requires Valid() && |trail| > 0 && trail[|trail| - 1] == EdgeAdded
      requires savePoints == [] || savePoints[|savePoints| - 1] < |trail|
      modifies this`trail, constraints`constraints, constraints`lookup
      ensures Valid()
      ensures trail == old(trail[..|trail| - 1])
      ensures |old(constraints.constraints)| >= 4 && constraints.constraints == old(constraints.constraints[..|constraints.constraints| - 4])
    {
      NetUndoAdded(constraints.constraints, constraints.edges, activePropagators, trail);
      constraints.PopLast();
      trail := trail[..|trail| - 1];
    }

    /** Undoing an activation: the enabler is cleared and the propagator pushed last out of its source is popped. */
    method UndoActivation() returns (ghost d: nat, ghost c: DirConstraint)
      requires Valid() && |trail| > 0 && trail[|trail| - 1].EdgeActivated?
      requires savePoints == [] || savePoints[|savePoints| - 1] < |trail|
      modifies this`trail, this`activePropagators, constraints`constraints
      ensures Valid()
      ensures trail == old(trail[..|trail| - 1])
      ensures d == old(trail[|trail| - 1]).edge.raw && d < |old(constraints.constraints)| && c == old(constraints.constraints)[d]
      ensures constraints.constraints == old(constraints.constraints)[d := c.(enabler := None)]
      ensures Idx(c.source) < |old(activePropagators)| && (c.source != c.target ==> |old(activePropagators)[Idx(c.source)]| > 0)
      ensures activePropagators == DeactivatedProps(old(activePropagators), c)
    {
      hide NetOk, DeactivatedProps, CountCauses;
      var raw := trail[|trail| - 1].edge.raw;
      d := raw;
      NetUndoActivated(constraints.constraints, constraints.edges, activePropagators, trail);
      var dc := constraints.constraints[raw];
      c := dc;
      ghost var cs' := constraints.constraints[raw := dc.(enabler := None)];
      var props' := DeactivatedProps(activePropagators, dc);
      var t' := trail[..|trail| - 1];
      assert NetOk(cs', constraints.edges, props', t') && CountCauses(t') == |theoryPropagationCauses|;
      activePropagators := props';
      constraints.SetEnabler(raw, None);
      trail := t';
      assert constraints.constraints == cs';
    }

    /** Undoing a recorded theory-propagation cause: the newest cause is dropped. */
    method UndoCause()
      requires Valid() && |trail| > 0 && trail[|trail| - 1] == AddedTheoryPropagationCause
      requires savePoints == [] || savePoints[|savePoints| - 1] < |trail|
      modifies this`trail, this`theoryPropagationCauses
      ensures Valid()
      ensures trail == old(trail[..|trail| - 1])
      ensures |old(theoryPropagationCauses)| > 0
      ensures theoryPropagationCauses == old(theoryPropagationCauses[..|theoryPropagationCauses| - 1])
    {
      NetUndoCause(constraints.constraints, constraints.edges, activePropagators, trail);
      theoryPropagationCauses := theoryPropagationCauses[..|theoryPropagationCauses| - 1];
      trail := trail[..|trail| - 1];
    }

    /**
     * `undo_to_last_backtrack_point`: drops the pending activations and undoes every change made
     * since the last backtrack point, newest first; the network is then the one its trail prefix
     * describes (see `NetDetermined`).
     */
    method UndoToLastBacktrackPoint()
      requires Valid() && savePoints != []
      modifies this`pendingActivations, this`trail, this`activePropagators, this`theoryPropagationCauses, this`savePoints
      modifies constraints`constraints, constraints`lookup
      ensures Valid() && pendingActivations == []
      ensures savePoints == old(savePoints[..|savePoints| - 1])
      ensures trail == old(trail[..savePoints[|savePoints| - 1]])
      ensures |activePropagators| == old(|activePropagators|)
      ensures |constraints.constraints| <= old(|constraints.constraints|)
      ensures forall d :: 0 <= d < |constraints.constraints| ==> SameShape(constraints.constraints[d], old(constraints.constraints[d]))
      ensures |theoryPropagationCauses| <= old(|theoryPropagationCauses|)
      ensures theoryPropagationCauses == old(theoryPropagationCauses)[..|theoryPropagationCauses|]
    {
      pendingActivations := [];
      UndoTo(savePoints[|savePoints| - 1]);
      assert forall n :: 0 <= n < |savePoints| ==> savePoints[n] <= |trail|;
      savePoints := savePoints[..|savePoints| - 1];
    }

    /** Undoes trail events, newest first, until the trail has length `target`, the last backtrack point. */
    method UndoTo(target: nat)
      requires Valid() && savePoints != [] && target == savePoints[|savePoints| - 1]
      modifies this`trail, this`activePropagators, this`theoryPropagationCauses, constraints`constraints, constraints`lookup
      ensures Valid() && trail == old(trail[..target])
      ensures |activePropagators| == old(|activePropagators|)
      ensures |constraints.constraints| <= old(|constraints.constraints|)
      ensures forall d :: 0 <= d < |constraints.constraints| ==> SameShape(constraints.constraints[d], old(constraints.constraints[d]))
      ensures |theoryPropagationCauses| <= old(|theoryPropagationCauses|)
      ensures theoryPropagationCauses == old(theoryPropagationCauses)[..|theoryPropagationCauses|]
    {
      while |trail| > target
        invariant Valid() && target <= |trail| <= old(|trail|)
        invariant trail == old(trail)[..|trail|]
        invariant |activePropagators| == old(|activePropagators|)
        invariant |constraints.constraints| <= old(|constraints.constraints|)
        invariant forall d :: 0 <= d < |constraints.constraints| ==> SameShape(constraints.constraints[d], old(constraints.constraints[d]))
        invariant |theoryPropagationCauses| <= old(|theoryPropagationCauses|)
        invariant theoryPropagationCauses == old(theoryPropagationCauses)[..|theoryPropagationCauses|]
        decreases |trail|
      {
        ghost var t := trail;
        ghost var c := theoryPropagationCauses;
        UndoLastEvent();
        assert old(trail)[..|t|][..|t| - 1] == old(trail)[..|t| - 1];
        assert old(theoryPropagationCauses)[..|c|][..|theoryPropagationCauses|] == old(theoryPropagationCauses)[..|theoryPropagationCauses|];
      }
    }
  }
}
