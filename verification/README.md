# Aries core in Dafny

This project models the integer-bound core of the Aries constraint solver and planner and proves properties of the model. At its centre is the incremental difference-logic theory: a simple temporal network (STN) of reified edges `target - source <= weight`. Each edge is stored together with its negation and becomes active when its enabling literal is entailed. Active edges propagate upper bounds forward and lower bounds backward through a queue. A negative cycle is reported as a conflict explained by the enablers of its edges, and every change is undone from a trail.

Around it the model covers the bound machinery the theory relies on:

- literals as an upper bound on a signed variable;
- bound-change events;
- the bound store with its event trail;
- per-variable clause watches.

It also covers several self-contained pieces of the repository:

- rational linear sums and their normal form;
- the interval-numbered type hierarchy;
- Tarjan's strongly connected components, proved to be exactly the classes of mutually reachable vertices, in reverse topological order, and the fluent hierarchy built on them;
- the DIMACS CNF parser;
- the open-shop instance arithmetic and parser;
- the decision rules of the search controllers (EMA, lexical, forward search, strategy names);
- assignment and atom helpers;
- the effect, condition and refinement enumerations of the planning encoding.

Each source file becomes one module, in the form the source has:

- **Pure code** becomes datatypes, functions and lemmas. This covers the literal and edge encodings, the cause codec, assignments, atoms, events and the decision rules.
- **Code that updates objects in place** becomes classes whose methods state their whole new state. This covers:
  - `ConstraintDb` and `StnTheory`;
  - `Domains`;
  - `Watches`;
  - `LinearSum`;
  - `StronglyConnectedComponents`;
  - `VarSelect` and `EMABrancher`;
  - the brancher save and restore counters;
  - `Encoding`.
- **Loops** become methods with loop invariants. Each is proved against a specification function, and lemmas state what the source promises about that function.

The representation follows each file's own types:

- Integer widths are unbounded, except that the `u32` packings of edge identifiers and update causes wrap explicitly at 2^32.
- The Tarjan state words wrap explicitly at 2^64.
- Strings are sequences of characters.

Three choices of the code that the model keeps:

- `push_edge` detects an edge that is already stored, or the negation of one, and returns the existing identifier.
- The theory keeps a lower and an upper bound per timepoint in the bound store.
- A bound update that empties a domain is kept in the store, and the error is returned alongside it. Nothing is rolled back before the conflict is reported.

## Model

| member | source | states |
|---|---|---|
| Lits.RelationOf | solver/src/core/lit.rs:103-110 | the relation is `Leq` exactly for a literal on a plus signed variable |
| Lits.Unpack | solver/src/core/lit.rs:112-119 | unpacking gives the variable, the relation and a value such that `variable relation value` holds exactly when the literal holds (`Gt` with `-ub-1` on a minus variable) |
| Lits.LeqLit | solver/src/core/lit.rs:131-137 | `leq(v, d)` is the literal on `v` that holds exactly when the signed value of `v` is at most `d` |
| Lits.LtLit | solver/src/core/lit.rs:138-141 | `lt(v, d)` is `leq(v, d-1)` and holds exactly when the value is below `d` |
| Lits.GeqLit | solver/src/core/lit.rs:143-146 | `geq(v, d)` is `-v <= -d` and holds exactly when the value is at least `d` |
| Lits.GtLit | solver/src/core/lit.rs:148-151 | `gt(v, d)` is `-v <= -d-1` and holds exactly when the value is above `d` |
| Lits.Not | solver/src/core/lit.rs:153-169 | the negation is on the opposite signed variable with bound `-ub-1`, and holds exactly when the literal does not |
| Lits.NotInvolution | solver/src/core/lit.rs:88-92 | negation is an involution and swaps TRUE and FALSE |
| Lits.EntailsSound | solver/src/core/lit.rs:171-187 | when `a` entails `b`, every valuation satisfying `a` satisfies `b` |
| Lits.EntailsComplete | solver/src/core/lit.rs:171-187 | when `a` does not entail `b`, some valuation satisfies `a` and not `b` |
| Lits.EntailsReflexiveTransitive | solver/src/core/lit.rs:171-187 | entailment is reflexive and transitive and never relates literals on different variables |
| Lits.FromBool | solver/src/core/lit.rs:207-215 | the literal of a boolean holds (with the ZERO variable at 0) exactly when the boolean is true |
| Lits.ToBool | solver/src/core/lit.rs:217-229 | the conversion succeeds exactly on TRUE and FALSE, and then gives back the boolean they come from |
| Lits.BoolRoundTrip | solver/src/core/lit.rs:207-229 | converting a boolean to a literal and back gives the boolean |
| Lits.LitLtStrictTotalOrder | solver/src/core/lit.rs:44-51 | the literal order (signed variable first, then bound) is irreflexive, transitive and total |
| Lits.SortExample | solver/src/core/lit.rs:54-61 | the sorted list of the ordering example, with x = 1 and y = 2, is sorted by the model's literal order |
| Lits.SortedEntailment | solver/src/core/lit.rs:44-62 | in a list sorted by the literal order, a literal entails only literals after it, and every literal in between entails the later one and is entailed by the earlier one |
| Events.NewLiteral | solver/src/core/state/event.rs:33-38 | the literal after the event is on the affected bound and entails exactly the literals the new value is at least as strong as |
| Events.PreviousLiteral | solver/src/core/state/event.rs:40-43 | the literal before the event entails exactly the literals the previous value is at least as strong as |
| Events.MakesTrue | solver/src/core/state/event.rs:26-31 | the event makes a literal true exactly when the new literal entails it and the previous one does not |
| Events.InitialUpperBound | solver/src/core/state/event.rs:45-56 | the event sets `+v <= ub` from `INT_CST_MAX` with no previous cause and an Encoding origin |
| Events.InitialLowerBound | solver/src/core/state/event.rs:57-68 | the event sets `v >= lb`, the bound `-lb` of `-v`, from `INT_CST_MAX` with an Encoding origin |
| Events.InitialEventsMakeTrue | solver/src/core/state/event.rs:45-68 | an initial event makes its own literal true exactly when its bound is below `INT_CST_MAX` |
| Events.MakesTrueWindow | solver/src/core/state/event.rs:26-31 | a literal on the affected bound is made true exactly when its bound lies between the new value (inclusive) and the previous one |
| Atoms.KindOf | model/src/lang/atom.rs:13-19 | Bool, Int and Sym atoms have the Bool, Int and Sym kinds, each exactly |
| Atoms.IntView | model/src/lang/atom.rs:23-31 | an integer atom is its own view, a symbolic atom has its symbol's view, and a boolean atom has a view exactly when it is TRUE or FALSE |
| Atoms.ToLit | model/src/lang/atom.rs:62-71 | the conversion to a literal succeeds exactly on boolean atoms and returns the wrapped literal |
| Atoms.ToIAtom | model/src/lang/atom.rs:73-82 | the conversion to an integer atom succeeds exactly on integer atoms |
| Atoms.ToSAtom | model/src/lang/atom.rs:84-93 | the conversion to a symbolic atom succeeds exactly on symbolic atoms |
| Atoms.WrapUnwrap | model/src/lang/atom.rs:34-93 | wrapping with `From` and unwrapping with the matching `TryFrom` is the identity |
| Atoms.KindSelectsConversion | model/src/lang/atom.rs:13-93 | exactly one conversion succeeds for an atom: the one its kind names |
| Atoms.IntViewDefinedness | model/src/lang/atom.rs:23-31 | only a non-constant boolean atom lacks an integer view, and TRUE and FALSE have different views (1 and 0) |
| Assignments.DomainOf | model/src/assignments.rs:20-30 | the domain of an integer atom is its variable's bounds shifted, or `(shift, shift)` without a variable |
| Assignments.LowerBound | model/src/assignments.rs:39-41 | the lower bound is the first component of the variable's domain |
| Assignments.UpperBound | model/src/assignments.rs:43-45 | the upper bound is the second component of the variable's domain |
| Assignments.LiteralValue | model/src/assignments.rs:34-37 | a SAT literal has a value exactly when its variable does, and it is true exactly when the variable has the literal's polarity |
| Assignments.SymDomainOf | model/src/assignments.rs:47-58 | a constant symbol gives the singleton range, and a variable the range of its bounds, cast to `usize` |
| Assignments.SymValueOf | model/src/assignments.rs:60-66 | a symbolic atom has a value exactly when its range is a singleton, and the value is that symbol |
| Assignments.DomainTruth | model/src/assignments.rs:68-86 | a boolean variable reads true exactly on domain (1,1) and false exactly on (0,0) |
| Assignments.BooleanValueOf | model/src/assignments.rs:68-86 | a constant gives its value, a variable the truth of its domain, flipped when negated, and an expression the value of its literal |
| Assignments.DomainOfShift | model/src/assignments.rs:20-30 | shifting an atom shifts both bounds by the same amount and keeps the width |
| Assignments.LiteralValueOpposite | model/src/assignments.rs:34-37 | the two polarities of a SAT variable are assigned together and read opposite values |
| Assignments.BooleanValueNegation | model/src/assignments.rs:68-86 | negating a boolean variable atom negates its value, and a value is read only from a fixed domain |
| Assignments.SymValueOfBound | model/src/assignments.rs:47-66 | a symbolic constant is its own value, and a symbolic variable has a value exactly when it is bound |
| Assignments.AsUsize | model/src/assignments.rs:51-53 | the `as usize` cast keeps a non-negative bound and wraps a negative one to `x + 2^64` |
| Domains.IdxInjective | model/src/int_model/domains.rs:34-43 | the slot of a signed variable (lower bound first, then upper) is distinct for distinct signed variables, and its symmetric bound sits next to it |
| Domains.UndoAllAppend | model/src/int_model/domains.rs:153-168 | undoing a trail with one more event first undoes that last event, then the rest |
| Domains.UndoAllExtend | model/src/int_model/domains.rs:34-43 | undoing events on existing bounds leaves the bounds of variables created later untouched |
| Domains.Domains.constructor | model/src/int_model/domains.rs:26-31 | a new store holds no variable, no event and no save point |
| Domains.Domains.Bounds | model/src/int_model/domains.rs:45-55 | `(lb, ub)` are the strongest lower and upper bounds the store entails |
| Domains.Domains.Entails | model/src/int_model/domains.rs:57-59 | the store entails a literal exactly when its stored bound on the literal's signed variable entails it |
| Domains.Domains.NewVar | model/src/int_model/domains.rs:34-43 | a new variable gets the next index and the bounds `(lb, ub)`, so it entails `v >= d` exactly for `d <= lb` and `v <= d` exactly for `d >= ub`, with no event recorded |
| Domains.Domains.SetBound | model/src/int_model/domains.rs:76-99 | a bound no stronger than the current one gives `Ok(false)` and changes nothing; a stronger one is written, one event with the previous value and previous event is pushed, and the result is `Ok(true)` or `EmptyDomain` exactly as the symmetric bound allows, the update being kept in both cases |
| Domains.Domains.Set | model/src/int_model/domains.rs:62-74 | setting an entailed literal changes nothing; otherwise the literal's bound is written with one event, with `Ok(true)` or `EmptyDomain` |
| Domains.Domains.BoundVariables | model/src/int_model/domains.rs:102-117 | exactly the variables with `lb == ub`, paired with that value, in increasing order |
| Domains.Domains.ImplyingEvent | model/src/int_model/domains.rs:19-23 | the result is the first event, walking the bound's chain from the most recent, that made the literal true, and None when no event of the chain did (see also lines 120-131) |
| Domains.Domains.UndoLastEvent | model/src/int_model/domains.rs:135-150 | the last event is popped, its bound and cause index get their recorded previous values back, the state is the one before that event, and its cause is returned |
| Domains.Domains.SaveState | model/src/int_model/domains.rs:154-156 | a save point at the end of the trail, the number of save points returned, nothing else changed |
| Domains.Domains.RestoreLast | model/src/int_model/domains.rs:162-169 | the events since the last save point are undone most recent first, the trail is cut back to it and the state is the one saved there |
| Domains.Domains.UndoEvent | model/src/int_model/domains.rs:135-142 | the event's bound and cause index get the recorded previous values back |
| ClauseWatches.LBToLit | smt/src/clauses/watches.rs:12-16 | a lower-bound watch stands for the literal `v > guard` |
| ClauseWatches.UBToLit | smt/src/clauses/watches.rs:24-28 | an upper-bound watch stands for the literal `v <= guard` |
| ClauseWatches.FindUb | smt/src/clauses/watches.rs:72-75 | the search succeeds exactly when some upper-bound watch of the clause has a guard at most `ub` |
| ClauseWatches.FindLb | smt/src/clauses/watches.rs:76-79 | the search succeeds exactly when some lower-bound watch of the clause has a guard at least `below_lb` |
| ClauseWatches.Watches.constructor | smt/src/clauses/watches.rs:30-34 | both tables start empty and of equal length |
| ClauseWatches.Watches.EnsureCapacity | smt/src/clauses/watches.rs:36-41 | both tables grow together to cover `var`, keeping every existing list |
| ClauseWatches.Watches.AddWatch | smt/src/clauses/watches.rs:43-56 | `LEQ(v, ub)` appends `{clause, ub}` to `v`'s upper-bound list only and `GT(v, b)` appends `{clause, b}` to its lower-bound list only; the stored watch converts back to the literal and the clause is then watched by it |
| ClauseWatches.Watches.MoveLbWatchesTo | smt/src/clauses/watches.rs:58-63 | every lower-bound watch of `v` is appended to `out` in order and `v`'s list is left empty |
| ClauseWatches.Watches.MoveUbWatchesTo | smt/src/clauses/watches.rs:64-69 | every upper-bound watch of `v` is appended to `out` in order and `v`'s list is left empty |
| ClauseWatches.Watches.IsWatchedBy | smt/src/clauses/watches.rs:71-81 | holds exactly when the clause has an upper-bound watch with guard at most `ub` (for `LEQ`) or a lower-bound watch with guard at least `below_lb` (for `GT`) on the literal's variable |
| ClauseWatches.WatchEntailsQuery | smt/src/clauses/watches.rs:71-81 | a watch found by the query stands for a literal that entails the queried one |
| StnIds.Shl1 | tnet/src/theory.rs:126-133 | a u32 left shift by one is even and below 2^32, and doubles its operand when the top bit is clear |
| StnIds.NewEdgeId | tnet/src/theory.rs:126-143 | the id built from a base id and a polarity reports that polarity, and that base id when it fits in 31 bits |
| StnIds.NotEdgeId | tnet/src/theory.rs:155-162 | negating an edge id keeps the base id and flips the polarity |
| StnIds.NotEdgeIdInvolution | tnet/src/theory.rs:155-162 | negating an edge id twice gives it back |
| StnIds.Forward | tnet/src/theory.rs:318-321 | the forward view of an edge is forward and projects back to that edge |
| StnIds.Backward | tnet/src/theory.rs:323-326 | the backward view of an edge is backward and projects back to that edge |
| StnIds.DirEdgeViews | tnet/src/theory.rs:318-335 | every directed edge is the forward or backward view of the edge it projects to, as its low bit says |
| StnIds.DirEdgesOfBase | tnet/src/theory.rs:126-153 | the four directed views of base id `b` are the consecutive indices `4b .. 4b+3`: forward, backward, negated forward, negated backward |
| StnIds.Negated | tnet/src/theory.rs:219-225 | under every assignment of times, the negated edge holds exactly when the edge does not |
| StnIds.NegatedProperties | tnet/src/theory.rs:206-225 | negation is an involution and exactly one of an edge and its negation is canonical |
| StnIds.NegationExample | tnet/src/theory.rs:210-218 | `b - a <= 3` negates to `a - b <= -4` |
| StnIds.EncodeCause | tnet/src/theory.rs:599-606 | the u32 code of a cause is even exactly for an edge propagation |
| StnIds.DecodeCause | tnet/src/theory.rs:589-597 | a u32 decodes to an edge propagation exactly when it is even |
| StnIds.CauseRoundTrip | tnet/src/theory.rs:589-606 | decoding an encoded cause whose payload fits in 31 bits gives the cause back |
| StnIds.CodeRoundTrip | tnet/src/theory.rs:589-606 | encoding a decoded u32 gives the u32 back |
| StnIds.ParseLevel | tnet/src/theory.rs:66-84 | parsing succeeds exactly on `none`, `bounds`, `edges`, `full`, returning the level with that name, and otherwise fails with the message listing the valid options |
| StnIds.LevelRoundTrip | tnet/src/theory.rs:38-84 | parsing a level's name gives the level back; `full` is the only level propagating on both bounds and edges, `none` the only one propagating on neither |
| StnIds.HasEdgeAsWrittenAcceptsMissing | tnet/src/theory.rs:472-474 | with `<=`, a store holding no constraint claims to hold edge 0, and a store of four constraints claims edge `(4, negated)` |
| StnIds.HasEdgeIffViewsStored | tnet/src/theory.rs:472-474 | with the strict comparison, an edge id is known exactly when both of its directed views index stored constraints |
| StnConstraints.ForwardConstraint | tnet/src/theory.rs:248-257 | the forward constraint is an inactive upper-bound-to-upper-bound constraint of the same edge, satisfied by exactly the times that satisfy the edge |
| StnConstraints.BackwardConstraint | tnet/src/theory.rs:259-267 | the backward constraint is an inactive lower-bound-to-lower-bound constraint of the same edge, satisfied by exactly the times that satisfy the edge |
| StnConstraints.Canonical | tnet/src/theory.rs:206-225 | the canonical form of an edge is the edge itself when canonical, otherwise its negation, and is always canonical |
| StnConstraints.NewInactives | tnet/src/theory.rs:299-309 | four inactive constraints: the forward and backward views of the canonical edge, then of its negation, all on the edge's two timepoints |
| StnConstraints.Watching | tnet/src/theory.rs:402-404 | a directed edge is returned exactly when some watch on it is by a literal that the given literal entails (see also lines 800-811) |
| StnConstraints.ConstraintDb.constructor | tnet/src/theory.rs:386-393 | the store starts with no constraint, lookup entry, watch or out-edge, and satisfies its invariant |
| StnConstraints.ConstraintDb.ViewOf | tnet/src/theory.rs:362-376 | every stored directed constraint is, with the same bounds and weight, the forward or backward view of the edge its index encodes (see also lines 433-457) |
| StnConstraints.ConstraintDb.FindExisting | tnet/src/theory.rs:422-428 | an id is found exactly when the canonical form of the edge is stored; its polarity says whether the edge was given negated, and both its views are the given edge |
| StnConstraints.ConstraintDb.PushEdge | tnet/src/theory.rs:433-457 | a new edge is created exactly when neither it nor its negation is stored; then four inactive constraints are appended under a fresh base id, otherwise nothing changes; either way the returned id's views are the given edge |
| StnConstraints.ConstraintDb.PopLast | tnet/src/theory.rs:460-470 | removes the last four constraints and the lookup entry of their edge, keeping the store's invariant |
| StnConstraints.ConstraintDb.AddDirectedEnabler | tnet/src/theory.rs:402-412 | records the watch, adds the literal to the constraint's enablers and appends the out-edge under its source bound, growing the out-edge table as needed; nothing else changes |
| StnConstraints.ConstraintDb.SetEnabler | tnet/src/theory.rs:826-833 | changes only the active enabler of one directed constraint, keeping the store's invariant (see also lines 886-890) |
| StnConstraints.ConstraintDb.AddEnabler | tnet/src/theory.rs:397-400 | both directed views of the edge gain the literal as an enabler and are watched by it; bounds, weights and active enablers are unchanged; every new out-edge is enabled by the literal |
| StnConstraints.ConstraintDb.WatchesOn | tnet/src/theory.rs:800-811 | the directed edges to activate once a literal holds are exactly those watched by a literal it entails |
| Stn.NetAddEdge | tnet/src/theory.rs:923-932 | recording an edge addition and appending its four inactive constraints keeps the network in agreement with its trail |
| Stn.NetActivate | tnet/src/theory.rs:826-858 | setting the enabler of an inactive constraint, pushing its propagator (none for a self loop) and recording the activation keeps the network in agreement with its trail |
| Stn.NetUndoAdded | tnet/src/theory.rs:883-884 | undoing an edge addition at the top of the trail drops exactly the last four constraints and leaves a network that agrees with the shorter trail |
| Stn.NetUndoActivated | tnet/src/theory.rs:885-890 | undoing an activation at the top of the trail clears the enabler and pops the propagator it pushed, leaving a network that agrees with the shorter trail |
| Stn.NetUndoCause | tnet/src/theory.rs:891-893 | undoing a recorded theory-propagation cause leaves the network unchanged and one cause fewer |
| Stn.NetDetermined | tnet/src/theory.rs:879-918 | two networks that agree with the same trail and have the same constraint shapes have the same propagators and the same active constraints, so undoing to a backtrack point restores the network that was there when it was set |
| Stn.PropagatorFacts | tnet/src/theory.rs:840-851 | every propagator out of a bound is an active, non-self-loop constraint from that bound, with its target and weight |
| Stn.ActiveConstraintHolds | tnet/src/theory.rs:978-1018 | at a propagation fixpoint every active constraint out of a bound outside `S` holds on the stored bounds |
| Stn.ActivateAsWritten | tnet/src/theory.rs:826-858 | the activation step as written sets the enabler and pushes the propagator, but leaves the trail unchanged for a self loop |
| Stn.SelfLoopActivationUnrecorded | tnet/src/theory.rs:826-858 | activating the stored negative self loop `0 - 0 <= -1` as written sets its enabler without recording it, so the network no longer agrees with its trail |
| Stn.PotentialTightening | tnet/src/theory.rs:978-1018 | tightening a bound never raises the termination measure of propagation, and strictly lowers it when the bound really decreases and stays compatible with the initial symmetric bound |
| Stn.EmptyDomainExplained | tnet/src/theory.rs:962-1018 | a bound that crossed its symmetric bound is explained by the empty-domain conflict on its variable |
| Stn.StnTheory.constructor | tnet/src/theory.rs:625-641 | a new STN has no timepoint, propagator, trail entry, backtrack point or pending activation |
| Stn.StnTheory.ReserveTimepoint | tnet/src/theory.rs:646-650 | a new timepoint adds two empty propagator lists, one per bound |
| Stn.StnTheory.MarkActive | tnet/src/theory.rs:703-709 | queues the forward then the backward view of the edge for activation by the literal, changing nothing else |
| Stn.StnTheory.SetBacktrackPoint | tnet/src/theory.rs:869-876 | with no pending activation, records the current trail length as a new backtrack point and returns the new level (see also lines 1461-1463) |
| Stn.StnTheory.AddInactiveConstraint | tnet/src/theory.rs:923-932 | creates the timepoints the edge needs, stores it as inactive unless it or its negation is already stored, records the addition on the trail exactly when it was created, and returns an id whose views are the given edge |
| Stn.StnTheory.AddReifiedEdge | tnet/src/theory.rs:652-672 | stores the edge; if the literal holds, queues both views for activation, otherwise the edge is watched by the literal and its negation by the negated literal |
| Stn.StnTheory.AddOptionalTrueEdge | tnet/src/theory.rs:674-700 | stores the edge, watches its forward view by one literal and its backward view by the other, and queues each view whose literal already holds |
| Stn.StnTheory.PropagationCause | tnet/src/theory.rs:1024-1038 | when found, the event that set the current bound was caused by the propagation of an active constraint |
| Stn.StnTheory.ExtractCycle | tnet/src/theory.rs:1020-1049 | a returned explanation is the list of enablers along a walk back through propagation causes from `vb` to `vb` |
| Stn.StnTheory.TightenBy | tnet/src/theory.rs:967-971 | sets the bound to at most the value; it reports a change exactly when the bound decreased, and an empty domain when it crossed its symmetric bound (see also lines 1001-1003) |
| Stn.StnTheory.RunPropagationLoop | tnet/src/theory.rs:978-1018 | on success every propagator out of a bound outside `S` holds; on failure the conflict is an empty domain or a cycle of enablers; only the STN's own propagation events are added |
| Stn.StnTheory.PropagateNewEdge | tnet/src/theory.rs:962-976 | propagating a fresh non-self-loop constraint in a network where every other propagator outside `S` holds leaves every propagator outside `S` holding, or reports an explained conflict |
| Stn.StnTheory.PropagateBoundChange | tnet/src/theory.rs:953-958 | propagating a changed bound leaves every propagator outside `S` holding, or reports an explained conflict |
| Stn.StnTheory.RecordCause | tnet/src/theory.rs:1091-1097 | appends the cause, returns its index and records the addition on the trail |
| Stn.StnTheory.DisableIfNegativeCycle | tnet/src/theory.rs:1081-1107 | bounds only tighten; only the bound of the edge's negated enabler may change, and only to make it true because the edge closes a negative cycle through the origin; whenever the edge closed such a cycle, its enabler ends false |
| Stn.StnTheory.TheoryPropagateBound | tnet/src/theory.rs:1066-1110 | every potential edge out of the bound's variable that closed a negative cycle through the origin is disabled, and every bound that changed was changed by such a disabling |
| Stn.StnTheory.Activate | tnet/src/theory.rs:826-858 | sets the enabler of an inactive constraint, adds its propagator to its source bound's list (none for a self loop) and records the activation on the trail, self loops included |
| Stn.StnTheory.ActivateOne | tnet/src/theory.rs:824-858 | an already active constraint is left alone; otherwise it becomes active with the given enabler and is recorded on the trail; a newly active self loop ends the call: with an `Err` whose explanation is its enabler alone when its weight is negative, with `Ok` otherwise; success keeps every active self loop non-negative when they all were; every propagator outside `S` holds afterwards |
| Stn.StnTheory.ProcessEvent | tnet/src/theory.rs:805-823 | reading one model event queues activations for exactly the directed edges watched by a literal it entails, and keeps every propagator outside the unscheduled bounds holding |
| Stn.StnTheory.PropagateAll | tnet/src/theory.rs:800-864 | on success every model event has been read, no activation is pending and every active propagator holds except those out of bounds broken before the call and not scheduled by any event, and no active self loop has a negative weight when none had one before; on failure the conflict is explained (see also lines 1433-1435) |
| Stn.StnTheory.ActiveEdgesHold | tnet/src/theory.rs:800-864 | at a fixpoint every active edge holds on the model's bounds: upper bounds through forward views, lower bounds through backward views |
| Stn.StnTheory.UndoLastEvent | tnet/src/theory.rs:879-895 | undoes the newest trail entry after the last backtrack point: an edge addition drops its four constraints, an activation clears its enabler and pops the propagator it pushed (a self-loop activation, recorded in the corrected model, pushed none and pops none), a cause is dropped |
| Stn.StnTheory.UndoToLastBacktrackPoint | tnet/src/theory.rs:897-918 | drops the pending activations and the last backtrack point, cuts the trail back to it and leaves the shapes of surviving constraints unchanged (see also lines 1469-1471) |
| Stn.StnTheory.UndoTo | tnet/src/theory.rs:906-916 | undoes trail entries newest first until the trail has the given length |
| Dimacs.IdOf | apps/src/bin/minisat.rs:73 | the variable id of a literal is its absolute value, which fits in a `u32` for every `i32` literal |
| Dimacs.ParseI32 | apps/src/bin/minisat.rs:70 | a token parses as an `i32` only to a value in the `i32` range |
| Dimacs.ParseI32Decimal | apps/src/bin/minisat.rs:70 | parsing the decimal rendering of any `i32` gives it back |
| Dimacs.NonComment | apps/src/bin/minisat.rs:61 | a line is kept exactly when it is an input line that does not start with `c` |
| Dimacs.LineInts | apps/src/bin/minisat.rs:69-83 | the literals read from a line are non-zero `i32` values, at most one per token |
| Dimacs.ClausesInts | apps/src/bin/minisat.rs:67-85 | on success there is one clause per clause line |
| Dimacs.ParseInts | apps/src/bin/minisat.rs:61-65 | without a first non-comment line starting with `p` the parse fails with the header message; on success there is one clause per non-comment line after the header |
| Dimacs.ClausesStep | apps/src/bin/minisat.rs:67-85 | a line that parses appends its clause to those read so far, and its ids to the ids met |
| Dimacs.ClausesFail | apps/src/bin/minisat.rs:81 | the first line holding an invalid literal decides the error of the whole parse |
| Dimacs.AllocateFresh | apps/src/bin/minisat.rs:74-76 | creating the next variable for a new id keeps exactly one distinct fresh variable per id met |
| Dimacs.ParseLine | apps/src/bin/minisat.rs:68-83 | one line fails exactly when a token before its `0` is not an `i32`, with that token in the message; otherwise its ids gain exactly one fresh variable each, earlier variables are kept, and each literal is its variable, negated for a negative value |
| Dimacs.Parse | apps/src/bin/minisat.rs:57-87 | the parse fails exactly when the integer reading fails, with the same message; on success there is one clause per clause line, each the literals of its line, and exactly one distinct fresh variable per id met |
| Dimacs.ClauseTextParse | apps/src/bin/minisat.rs:69-83 | a clause written as its literals followed by `0` reads back as that clause, and is not taken for a comment |
| Dimacs.ParseCnfText | apps/src/bin/minisat.rs:57-87 | writing clauses under a header starting with `p` and parsing the text gives them back |
| Dimacs.ParseExample | apps/src/bin/minisat.rs:94-108 | the text of the source's test, two comments, a header and four clause lines, parses to the four clauses `[-1]`, `[-2]`, `[1, 2, 3]`, `[1, 2, -3]` |
| Ema.DecisionLiteral | examples/scheduling/src/search/ema.rs:182-197 | the decision literal is on the chosen variable |
| Ema.DecisionFollowsDefault | examples/scheduling/src/search/ema.rs:182-197 | giving the variable its preferred value (its default, or else its lower bound), clamped to the domain, satisfies the decision literal |
| Ema.DecisionSplitsDomain | examples/scheduling/src/search/ema.rs:182-197 | on a domain with `lb < ub`, some value of the domain satisfies the decision literal and some other value violates it, so the decision always splits the domain |
| Ema.VarSelect.constructor | examples/scheduling/src/search/ema.rs:297-304 | a new selector has no declared variable, an empty queue, an empty trail and no save point |
| Ema.VarSelect.DeclareVariable | examples/scheduling/src/search/ema.rs:313-322 | the variable becomes declared and is not queued |
| Ema.VarSelect.EnqueueVariable | examples/scheduling/src/search/ema.rs:324-328 | the variable is queued afterwards, together with every variable queued before; a variable already queued leaves the queue unchanged |
| Ema.VarSelect.EnqueueAll | examples/scheduling/src/search/ema.rs:136-138 | the queued variables gain exactly the given variables |
| Ema.VarSelect.Peek | examples/scheduling/src/search/ema.rs:462-466 | returns the head of the queue, or nothing exactly when the queue is empty |
| Ema.VarSelect.Pop | examples/scheduling/src/search/ema.rs:468-475 | removes and returns the head of the queue and records it on the trail; on an empty queue returns nothing and changes nothing |
| Ema.VarSelect.SaveState | examples/scheduling/src/search/ema.rs:436-438 | records the trail length as a new save point and returns the new number of save points |
| Ema.VarSelect.RestoreLast | examples/scheduling/src/search/ema.rs:444-448 | every variable removed since the last save point is queued again, the trail is cut back to that point and the save point is dropped |
| Ema.WatchesOn | examples/scheduling/src/search/ema.rs:136 | a variable is woken exactly when it watches a literal that the new literal entails |
| Ema.DecisionVars | examples/scheduling/src/search/ema.rs:139-140 | a variable is recorded exactly when it is a decision variable whose bound some event changed |
| Ema.NewWatches | examples/scheduling/src/search/ema.rs:109-115 | every watch added by the import is for a new precedence variable |
| Ema.OverwriteUntouched | examples/scheduling/src/search/ema.rs:522-524 | a variable that the solution does not bind keeps its previous default, or still has none |
| Ema.OverwriteLast | examples/scheduling/src/search/ema.rs:522-524 | after the overwrite a variable holds the value of its last binding in the solution |
| Ema.CountOn | examples/scheduling/src/search/ema.rs:556-569 | the count of culprits on a variable is at most their number, and zero exactly when no culprit is on that variable |
| Ema.Stamp | examples/scheduling/src/search/ema.rs:139-145 | stamping adds exactly the stamped variables to the map's keys |
| Ema.StampLookup | examples/scheduling/src/search/ema.rs:139-145 | a stamped variable maps to the stamp, and every other variable keeps its entry |
| Ema.EMABrancher.constructor | examples/scheduling/src/search/ema.rs:87-101 | a new brancher has an empty selector, no default value, no known objective, no processed variable and no watch |
| Ema.EMABrancher.DeclareNewVariables | examples/scheduling/src/search/ema.rs:103-124 | the precedence variables among those not processed before are declared, watched through their presence literal, and queued when that literal is entailed; the processed count becomes the number of variables |
| Ema.EMABrancher.ProcessEvents | examples/scheduling/src/search/ema.rs:133-148 | the queued variables gain exactly the watchers woken by the events; each decision variable whose bound changed is appended to the assignment trail, stamped with the current number of conflicts and given zero involvements |
| Ema.EMABrancher.ImportVars | examples/scheduling/src/search/ema.rs:103-127 | the new precedence variables are declared and watched, and the pending events are then processed with the new watches |
| Ema.EMABrancher.SetDefaultValue | examples/scheduling/src/search/ema.rs:206-208 | the variable's default becomes the given value; no other default changes |
| Ema.EMABrancher.NewAssignmentFound | examples/scheduling/src/search/ema.rs:512-526 | when no objective was known or the new one is strictly smaller, the objective is kept and the solution's values overwrite the defaults; otherwise nothing changes |
| Ema.EMABrancher.Conflict | examples/scheduling/src/search/ema.rs:528-571 | one more conflict, and every decision variable's involvement count grows by the number of culprits on it; no other count changes |
| Ema.EMABrancher.SaveState | examples/scheduling/src/search/ema.rs:479-482 | a save point on the assignment trail and on the selector's trail; returns the selector's new number of save points |
| Ema.EMABrancher.RestoreLast | examples/scheduling/src/search/ema.rs:488-500 | the assignment trail is cut back to the last save point and its popped variables lose their assignment time; the selector queues again the variables removed since its last save point |
| Ema.EMABrancher.SkipDecided | examples/scheduling/src/search/ema.rs:164-182 | drops a prefix of the queue onto the trail, every dropped variable being bound or not surely present; returns nothing exactly when the queue became empty, otherwise the head, which is undecided |
| Ema.EMABrancher.NextDecision | examples/scheduling/src/search/ema.rs:157-204 | after the import, only variables that are bound or not surely present leave the queue, every undecided queued variable stays queued, and the result is the decision literal of the queue's undecided head, or nothing when the queue is empty |
| Lexical.DecisionOn | solver/src/solver/search/lexical.rs:66-69 | the decision is on the given variable, and holds for a value exactly when it is at most the lower bound (Min) or at least the upper bound (Max) |
| Lexical.FirstDecision | solver/src/solver/search/lexical.rs:55-76 | there is no decision exactly when no variable is present and unbound; otherwise the decision is on the first such variable |
| Lexical.DecisionSplitsDomain | solver/src/solver/search/lexical.rs:63-69 | on an unbound domain, some value of the domain satisfies the decision and some other value violates it |
| Lexical.Lexical.constructor | solver/src/solver/search/lexical.rs:22-27 | keeps the preferred value and starts with no save point |
| Lexical.Lexical.WithMin | solver/src/solver/search/lexical.rs:30-32 | a controller preferring the minimal value |
| Lexical.Lexical.WithMax | solver/src/solver/search/lexical.rs:35-37 | a controller preferring the maximal value |
| Lexical.Lexical.SaveState | solver/src/solver/search/lexical.rs:41-43 | one more save point, returned as the new level; the preference is unchanged |
| Lexical.Lexical.RestoreLast | solver/src/solver/search/lexical.rs:49-51 | one save point fewer; the preference is unchanged |
| Lexical.Lexical.NextDecision | solver/src/solver/search/lexical.rs:55-76 | the decision on the first variable, in order, that is present and unbound; none exactly when there is no such variable |
| OpenShop.MakespanLowerBound | examples/scheduling/bin/openshop.rs:37-49 | the bound is at least the total duration of every job and of every machine, and equals one of them |
| OpenShop.LowerBoundCoversDurations | examples/scheduling/bin/openshop.rs:35-49 | with non-negative durations the bound is at least every single operation's duration |
| OpenShop.Lines | examples/scheduling/bin/openshop.rs:168-179 | the lines kept are exactly the input lines that contain no `#`, in order |
| OpenShop.LinesSkipsComments | examples/scheduling/bin/openshop.rs:168-179 | inserting a comment line anywhere does not change the lines read |
| OpenShop.Words | examples/scheduling/bin/openshop.rs:173-175 | every token is a non-empty run of characters without the Unicode `White_Space` property |
| OpenShop.WordsUnwords | examples/scheduling/bin/openshop.rs:173-175 | splitting words joined by single spaces gives the words back |
| OpenShop.ParseUsize | examples/scheduling/bin/openshop.rs:174 | a token parses as a `usize` only to a value below 2^64 |
| OpenShop.ParseUsizeDecimal | examples/scheduling/bin/openshop.rs:174 | parsing the decimal rendering of any `usize` gives it back |
| OpenShop.IntsOf | examples/scheduling/bin/openshop.rs:173-175 | the integers of a line are read exactly when every token is a `usize`, one per token in order |
| OpenShop.Header | examples/scheduling/bin/openshop.rs:188-190 | the header is read exactly when its first two tokens are `usize` values, which it returns; later tokens are never read |
| OpenShop.AsI32 | examples/scheduling/bin/openshop.rs:198 | the conversion lands in the `i32` range and keeps every value already in it |
| OpenShop.ParseSpec | examples/scheduling/bin/openshop.rs:181-207 | a parsed instance needs a skipped line, a header and one line per job |
| OpenShop.Parse | examples/scheduling/bin/openshop.rs:181-207 | the line-by-line reader computes exactly the instance `ParseSpec` describes, failing where it fails |
| OpenShop.PushRow | examples/scheduling/bin/openshop.rs:197-199 | the durations of the line are appended, converted to `i32`, in order |
| OpenShop.ParseRender | examples/scheduling/bin/openshop.rs:181-207 | parsing the rendering of a table of durations gives back the instance whose durations are the rows laid end to end |
| OpenShop.ActiveFrom | examples/scheduling/bin/openshop.rs:271-280 | the first operation of the job whose start is not fixed, with its start bounds; none exactly when every start of the job is fixed |
| OpenShop.BestFromFirstMinimal | examples/scheduling/bin/openshop.rs:284 | the selected candidate is the first one with the smallest `(est, lst)` key |
| OpenShop.NextEstDecision | examples/scheduling/bin/openshop.rs:270-289 | there is no decision exactly when no job has an operation whose start is not fixed |
| OpenShop.NextEstDecisionChoice | examples/scheduling/bin/openshop.rs:270-289 | the decision is `start <= est` for the first candidate with the smallest `(est, lst)`; none exactly when every start time is fixed |
| OpenShop.EstBrancher.constructor | examples/scheduling/bin/openshop.rs:264-267 | keeps the instance and starts with no save point |
| OpenShop.EstBrancher.SaveState | examples/scheduling/bin/openshop.rs:297-300 | one more save point, returned as the new level |
| OpenShop.EstBrancher.NumSaved | examples/scheduling/bin/openshop.rs:302-304 | the number of save points not yet restored: the level the newest `save_state` returned, raised by one by each save and lowered by one by each restore |
| OpenShop.EstBrancher.RestoreLast | examples/scheduling/bin/openshop.rs:306-308 | one save point fewer |
| SchedulingSearch.ParseStrategy | examples/scheduling/src/search.rs:42-52 | `lrb` and `learning-rate` give the learning-rate strategy, `vsids` and `activity` the activity strategy; every other option fails with a message naming it |
| SchedulingSearch.UnrecognizedMessageInjective | examples/scheduling/src/search.rs:49 | two different rejected options give two different messages |
| SchedulingSearch.DecisionStage | examples/scheduling/src/search.rs:54-64 | the stage is 0 exactly for orderings and presences, 1 exactly for the makespan and start times, 2 otherwise |
| SchedulingSearch.StagesOrdered | examples/scheduling/src/search.rs:54-64 | every labelled variable is decided before every unlabelled one, and orderings before start times |
| ForwardSearch.TasksUpToComplete | planners/src/forward_search.rs:26-39 | every subtask of every chronicle instance is enumerated with its instance's presence |
| ForwardSearch.MinIndexByKey | planners/src/forward_search.rs:50 | the position of the first element with the smallest key (see also line 74) |
| ForwardSearch.MinByKey | planners/src/forward_search.rs:50 | none exactly for an empty input; otherwise an element with no smaller key, at a position where every earlier element has a strictly larger key: the first minimum (see also line 74) |
| ForwardSearch.AsVariable | planners/src/forward_search.rs:57 | an integer atom is a variable exactly when it has one and no shift |
| ForwardSearch.Variables | planners/src/forward_search.rs:54-62 | a variable is listed exactly when some atom's integer view is that plain variable |
| ForwardSearch.ConstantsHaveNoVariable | planners/src/forward_search.rs:54-62 | constant atoms contribute no variable |
| ForwardSearch.EarliestPendingTask | planners/src/forward_search.rs:42-51 | none exactly when no task is present and undecomposed; otherwise such a task whose start lower bound is smallest, and the first such task in the enumeration order: every pending task before it has a strictly larger start lower bound |
| ForwardSearch.PendingTasksFirst | planners/src/forward_search.rs:42-51 | filtering the pending tasks keeps their order: the first minimum among the pending tasks is the first minimum among the pending tasks of the whole enumeration |
| ForwardSearch.EarliestPendingChronicle | planners/src/forward_search.rs:66-75 | none exactly when no chronicle is present with an unbound parameter; otherwise such a chronicle with the smallest start domain, and the first such chronicle: every pending chronicle before it has a strictly larger start domain |
| ForwardSearch.PendingChroniclesFirst | planners/src/forward_search.rs:66-75 | filtering the pending chronicles keeps their order: the first minimum among the pending chronicles is the first minimum among the pending chronicles of the whole list |
| ForwardSearch.NextChronicleDecision | planners/src/forward_search.rs:78-86 | panics exactly when the chronicle has no unbound parameter; otherwise binds the first unbound parameter to its lower bound, every parameter before it being bound |
| ForwardSearch.NextRefinementDecision | planners/src/forward_search.rs:89-97 | panics exactly when every refinement of the task is known absent; otherwise makes present the first refinement not known absent, every refinement before it being known absent |
| ForwardSearch.NextDecision | planners/src/forward_search.rs:126-154 | there is no decision exactly when there is neither a pending chronicle nor a pending task |
| ForwardSearch.NextDecisionPanics | planners/src/forward_search.rs:126-154 | a decision panics only for a task every refinement of which is known absent, never for a chronicle |
| ForwardSearch.ChronicleFirstOnTies | planners/src/forward_search.rs:129-143 | with both candidates, the chronicle is decided exactly when its start lower bound is not after the task's |
| ForwardSearch.ForwardSearcher.constructor | planners/src/forward_search.rs:117-122 | keeps the problem and starts with no save point |
| ForwardSearch.ForwardSearcher.SaveState | planners/src/forward_search.rs:162-165 | one more save point, returned as the new level |
| ForwardSearch.ForwardSearcher.NumSaved | planners/src/forward_search.rs:167-169 | the number of save points not yet restored: the level the newest `save_state` returned, raised by one by each save and lowered by one by each restore |
| ForwardSearch.ForwardSearcher.RestoreLast | planners/src/forward_search.rs:171-173 | one save point fewer |
| Encoding.Encoding.constructor | planning/planners/src/encoding.rs:50-53 | a fresh encoding (`Default`) holds no tag |
| Encoding.Encoding.AddTag | planning/planners/src/encoding.rs:55-57 | tagging inserts the pair `(tag, lit)` into the tag set and nothing else; tagging with a pair already present leaves the set unchanged (set semantics of `BTreeSet::insert`) |
| Encoding.EffectsUpTo | planning/planners/src/encoding.rs:65-73 | the effects of the first `n` instances are exactly as many as the effect offset of instance `n`, i.e. the sum of their effect counts |
| Encoding.Effects | planning/planners/src/encoding.rs:65-73 | the enumeration of all effects has one entry per effect of every chronicle instance |
| Encoding.EffectsPosition | planning/planners/src/encoding.rs:65-73 | effect `k` of instance `i` appears, at position offset(i)+k, paired with the identifier `EffID{instance_id: i, eff_id: k}` and with the presence literal of instance `i` (every effect is enumerated, in instance-major order) |
| Encoding.EffectsSound | planning/planners/src/encoding.rs:62-73 | conversely every entry is an effect of the instance its identifier names, carries that instance's presence literal, and sits at the position its identifier determines (nothing else is enumerated) |
| Encoding.FilterOpsConcat | planning/planners/src/encoding.rs:76-83 | the filter keeps the order of the entries: filtering a concatenation is the concatenation of the filtered parts |
| Encoding.FilterOps | planning/planners/src/encoding.rs:76-83 | the filter keeps exactly the entries whose effect operation is of the requested kind (assignment or increase), and never more entries than it was given |
| Encoding.AssignmentEffects | planning/planners/src/encoding.rs:75-78 | an entry is an assignment effect iff it is among all effects and its operation is `Assign` |
| Encoding.IncreaseEffects | planning/planners/src/encoding.rs:80-83 | an entry is an increase effect iff it is among all effects and its operation is `Increase` |
| Encoding.FiltersPartition | planning/planners/src/encoding.rs:76-83 | since every effect operation is either an assignment or an increase, the two filters together keep every effect exactly once (their sizes add up to the whole) |
| Encoding.ConditionsUpTo | planning/planners/src/encoding.rs:90-98 | the conditions of the first `n` instances are exactly as many as the sum of their condition counts |
| Encoding.Conditions | planning/planners/src/encoding.rs:85-98 | the enumeration of all conditions has one entry per condition of every chronicle instance |
| Encoding.ConditionsSound | planning/planners/src/encoding.rs:85-98 | conversely every entry is a condition of the instance its identifier names, carries that instance's presence literal, and sits at the position its identifier determines |
| Encoding.ConditionsPosition | planning/planners/src/encoding.rs:85-98 | condition `k` of instance `i` appears, at position offset(i)+k, with identifier `CondID::new(i, k)` and the presence literal of instance `i` |
| Encoding.GetTaskRef | planning/planners/src/encoding.rs:107-116 | the reference to subtask `task_id` of instance `instance_id` carries the presence literal of that instance's chronicle together with the subtask's own start, end and task name |
| Encoding.RefinementsUpTo | planning/planners/src/encoding.rs:121-139 | among the first `n` chronicles at most one reference per chronicle is produced |
| Encoding.RefinementsExact | planning/planners/src/encoding.rs:121-139 | a task reference is a supporter exactly when some chronicle whose origin is a refinement of the target task produces it (its presence, start, end and task): both directions |
| Encoding.RefinementsOf | planning/planners/src/encoding.rs:121-139 | the loop returns precisely the refinement references of the target, in chronicle order |
| TypeSystem.New | src/chronicles/typesystem.rs:39-74 | `new` succeeds iff every type is reachable from a parentless root through the parent relation; on failure it returns a non-empty list of exactly-unreachable input entries; on success every input type gets an id, ids follow a depth-first pre-order (each type's parent has a smaller id and the pair `(type, parent)` is an input entry), the last-subtype map is defined and in range for every id, and `is_subtype(i, j)` holds iff `i` is `j` or an ancestor of `j` |
| TypeSystem.OpenChild | src/chronicles/typesystem.rs:51-58 | when some remaining entry has the top of the trace as parent, the first such entry is removed, given the next id and pushed on the trace, and the loop invariant of `new` is kept |
| TypeSystem.CloseParent | src/chronicles/typesystem.rs:59-66 | when no remaining entry has the top of the trace as parent, a named parent records the id of the last type placed as its last subtype (the root marker records nothing), the trace is popped, and the loop invariant is kept |
| TypeSystem.Finished | src/chronicles/typesystem.rs:50-73 | once the trace is empty every entry still remaining is unreachable from a root, and if none remains the numbering has all the properties `new` promises on success |
| TypeSystem.Position | src/chronicles/typesystem.rs:52 | `position` finds the first entry whose parent equals the given parent, and finds none exactly when no entry has it |
| TypeSystem.IdOf | src/chronicles/typesystem.rs:77-79 | `id_of` gives the id holding the name (the first one), and nothing exactly when the name was never numbered |
| TypeSystem.SubtypeOrder | src/chronicles/typesystem.rs:81-83 | in a well-formed hierarchy the subtype test is reflexive and antisymmetric |
| TypeSystem.LastSubtype | src/chronicles/typesystem.rs:85-89 | the recorded last subtype is itself a subtype (the `debug_assert`), and every subtype's id is at most it |
| TypeSystem.Types | src/chronicles/typesystem.rs:91-94 | the iterator yields every id once, by increasing value |
| TypeSystem.RootsUnrelated | src/chronicles/typesystem.rs:130-131 | a root is a descendant of no other type, so two roots are never subtypes of one another |
| TypeSystem.PlacedCount | src/chronicles/typesystem.rs:54-55 | with distinct names, placing every input entry numbers exactly as many types as there are entries |
| FluentHierarchy.Dom | planning/planning/src/chronicles/preprocessing/fluent_hierarchy.rs:13 | the symbols `sym_domain_of` yields for an atom lie in the contiguous range from its first to its last symbol, all of them valid symbol ids |
| FluentHierarchy.AddLink | planning/planning/src/chronicles/preprocessing/fluent_hierarchy.rs:12-21 | after `add_link(src, tgt)` every symbol of the source's domain is a key, and its successors are its old successors plus every symbol of the target's domain; other keys are unchanged |
| FluentHierarchy.LinkSource | planning/planning/src/chronicles/preprocessing/fluent_hierarchy.rs:13-19 | the inner step of `add_link`: one source symbol becomes a key (with an empty set if it was new) and gains every target symbol as a successor |
| FluentHierarchy.LinkConditions | planning/planning/src/chronicles/preprocessing/fluent_hierarchy.rs:27-30 | the loop over the conditions links each condition's fluent to the effect's fluent, in order |
| FluentHierarchy.LinkEffects | planning/planning/src/chronicles/preprocessing/fluent_hierarchy.rs:32-35 | the loop over the effects links the effect's fluent to each effect's fluent, in order |
| FluentHierarchy.LinkTemplate | planning/planning/src/chronicles/preprocessing/fluent_hierarchy.rs:24-36 | the loop over the effects of one template makes, for each effect, the condition links then the effect links |
| FluentHierarchy.Hierarchy | planning/planning/src/chronicles/preprocessing/fluent_hierarchy.rs:9-39 | `hierarchy` builds exactly the links of every template, in template order, and groups every linked symbol by its component as `ordered_scc` orders them |
| FluentHierarchy.FoldAppend | planning/planning/src/chronicles/preprocessing/fluent_hierarchy.rs:23-37 | the links after two successive batches of `add_link` calls are the links after the concatenated batch |
| FluentHierarchy.FoldIn | planning/planning/src/chronicles/preprocessing/fluent_hierarchy.rs:12-21 | after a batch of `add_link` calls the keys are the old keys plus every source symbol of a call, and the successors of a symbol are its old ones plus the targets of the calls whose source names it |
| FluentHierarchy.HierarchyLinksIn | planning/planning/src/chronicles/preprocessing/fluent_hierarchy.rs:23-37 | `hierarchy` calls `add_link(a, e)` exactly for a condition or effect `a` and an effect `e` of the same template, and makes no other call |
| FluentHierarchy.HierarchyLinked | planning/planning/src/chronicles/preprocessing/fluent_hierarchy.rs:9-37 | symbol `x` is a successor of symbol `s` iff some template has a condition or effect whose fluent may be `s` and an effect whose fluent may be `x` (both directions) |
| FluentHierarchy.HierarchyClosed | planning/planning/src/chronicles/preprocessing/fluent_hierarchy.rs:14-19 | every successor is itself a key, so the graph handed to `ordered_scc` has no dangling edge (every effect fluent is linked to itself as a source) |
| FluentHierarchy.HierarchyBelow | planning/planning/src/chronicles/preprocessing/fluent_hierarchy.rs:101 | the graph has fewer vertices than the not-done marker, so discovery times never reach the marker bit |
| TarjanState.SetDone | planning/planning/src/chronicles/preprocessing/fluent_hierarchy.rs:103-106 | `set_done` flips the not-done marker bit of a 64-bit state |
| TarjanState.IsInStack | planning/planning/src/chronicles/preprocessing/fluent_hierarchy.rs:108-111 | `is_in_stack` holds iff the marker bit is set (an unvisited state, equal to the marker alone, also qualifies) |
| TarjanState.GetDiscoverTime | planning/planning/src/chronicles/preprocessing/fluent_hierarchy.rs:118-121 | `get_discover_time` clears the marker bit of a marked state (and sets it on an unmarked one) |
| TarjanState.XorTopBit | planning/planning/src/chronicles/preprocessing/fluent_hierarchy.rs:101-106 | exclusive or with bit 63 of a 64-bit word flips that bit and keeps the others |
| TarjanState.AndTopBit | planning/planning/src/chronicles/preprocessing/fluent_hierarchy.rs:108-111 | and with bit 63 of a 64-bit word is non-zero exactly when that bit is set |
| TarjanState.MarkVisited | planning/planning/src/chronicles/preprocessing/fluent_hierarchy.rs:145-147 | xoring an unvisited state with a discovery time gives the marker plus that time: the vertex is on the stack with that discovery time |
| TarjanState.HelpersDecode | planning/planning/src/chronicles/preprocessing/fluent_hierarchy.rs:103-121 | the four helpers agree with the decoding of a state as unvisited, on the stack with a discovery time, or done; `set_done` turns an on-stack vertex into a done one with the same time |
| TarjanState.Initial | planning/planning/src/chronicles/preprocessing/fluent_hierarchy.rs:124-135 | the start of `new`: every vertex unvisited, with component 0, an empty stack and time 1, is a valid search state |
| TarjanState.Finished | planning/planning/src/chronicles/preprocessing/fluent_hierarchy.rs:137-142 | once every vertex is visited and the stack is empty, every vertex is done and has a component between 1 and the number of components |
| TarjanState.StackDistinct | planning/planning/src/chronicles/preprocessing/fluent_hierarchy.rs:94-95 | discovery times strictly increase along the stack, so no vertex is on it twice |
| Tarjan.StronglyConnectedComponents.constructor | planning/planning/src/chronicles/preprocessing/fluent_hierarchy.rs:124-143 | on a graph whose successors are all vertices, `new` leaves the stack empty and every vertex done, in a component numbered from 1 to `num_components`; two vertices share a component exactly when each reaches the other, and a vertex reaches only components numbered no higher than its own (reverse topological order) |
| Tarjan.StronglyConnectedComponents.Visit | planning/planning/src/chronicles/preprocessing/fluent_hierarchy.rs:145-149 | the start of `dfs`: `v` gets the current time as discovery time and goes on top of the stack, the time advances by one, nothing else changes; the reachability invariants hold with `v` on the stack |
| Tarjan.StronglyConnectedComponents.Dfs | planning/planning/src/chronicles/preprocessing/fluent_hierarchy.rs:144-174 | `dfs` keeps the search state valid, only visits vertices that were unvisited (others keep their state and component), returns a time between the lowest time on the stack and `v`'s own discovery time, and when it returns `v`'s time the vertices it pushed were all popped into a component; otherwise the vertices it left on the stack reach `v`, their successors are done or on the stack no lower than the returned time, and `v` reaches a vertex below it with that time |
| Tarjan.StronglyConnectedComponents.Explore | planning/planning/src/chronicles/preprocessing/fluent_hierarchy.rs:151-157 | the neighbour loop of `dfs` recurses into unvisited neighbours, takes the minimum with on-stack neighbours' times, keeps the state valid and never returns less than the lowest time on the stack; afterwards every neighbour of `v` is done or on the stack no lower than the returned time, and a returned time below the starting one is that of a stack vertex `v` reaches |
| Tarjan.StronglyConnectedComponents.PopComponent | planning/planning/src/chronicles/preprocessing/fluent_hierarchy.rs:159-171 | when `v` heads a component a new component number is opened and the stack is popped down to and including `v`; each popped vertex is done with that number and its discovery time, everything else unchanged; when the popped vertices reach `v` and their successors are done or popped with them, done vertices of one component still reach each other and reach no higher-numbered component |
| TarjanReach.SccStart | planning/planning/src/chronicles/preprocessing/fluent_hierarchy.rs:124-135 | at the start of `new` (all unvisited, empty stack) the reachability invariants hold |
| TarjanReach.VisitedScc | planning/planning/src/chronicles/preprocessing/fluent_hierarchy.rs:145-149 | pushing a newly discovered vertex that every stack vertex reaches keeps the invariants: each stack vertex reaches the ones above it |
| TarjanReach.ExploreStart | planning/planning/src/chronicles/preprocessing/fluent_hierarchy.rs:151 | before the neighbour loop no neighbour is processed and the region above `v` is empty of obligations |
| TarjanReach.ExploreDone | planning/planning/src/chronicles/preprocessing/fluent_hierarchy.rs:151-157 | a done neighbour is settled for any time, so skipping it keeps the loop invariant |
| TarjanReach.ExploreOnStack | planning/planning/src/chronicles/preprocessing/fluent_hierarchy.rs:154-155 | taking the minimum with an on-stack neighbour's discovery time keeps the loop invariant: that neighbour is settled for the new minimum and `v` reaches it |
| TarjanReach.ExploreSearched | planning/planning/src/chronicles/preprocessing/fluent_hierarchy.rs:152-153 | after recursing into an unvisited neighbour, taking the minimum with its result keeps the loop invariant: the neighbour is done or on the stack, what it left on the stack reaches `v`, and a smaller time is witnessed by a stack vertex `v` reaches |
| TarjanReach.ExploreEnd | planning/planning/src/chronicles/preprocessing/fluent_hierarchy.rs:151-157 | at the end of the loop every neighbour of `v` is settled for the returned time |
| TarjanReach.RegionFrom | planning/planning/src/chronicles/preprocessing/fluent_hierarchy.rs:159 | `v` with settled neighbours, together with the settled region above it, makes the region from `v` settled, and every vertex from `v` up reaches `v` |
| TarjanReach.EmptyRegion | planning/planning/src/chronicles/preprocessing/fluent_hierarchy.rs:159-171 | after popping, nothing above the old stack is left with obligations |
| TarjanReach.WitnessBelow | planning/planning/src/chronicles/preprocessing/fluent_hierarchy.rs:152-153 | a stack vertex with a discovery time older than the start of `dfs(v)` lies below the part of the stack `dfs(v)` pushed |
| TarjanReach.DoneReach | planning/planning/src/chronicles/preprocessing/fluent_hierarchy.rs:159-171 | whatever a done vertex reaches is done |
| TarjanReach.PoppedScc | planning/planning/src/chronicles/preprocessing/fluent_hierarchy.rs:159-171 | popping the vertices from `v` up into a new component, when they reach `v` and their successors are done or among them, keeps every invariant: stack reachability, done vertices closed under successors, same component implies mutual reachability, and reachability never leads to a higher component |
| TarjanReach.PoppedClosed | planning/planning/src/chronicles/preprocessing/fluent_hierarchy.rs:159-171 | after popping, every successor of a done vertex is done |
| TarjanReach.SettledPopped | planning/planning/src/chronicles/preprocessing/fluent_hierarchy.rs:159-171 | a vertex done, or on the stack no lower than `v`'s discovery time, is done once the vertices from `v` up are popped |
| TarjanReach.PoppedSound | planning/planning/src/chronicles/preprocessing/fluent_hierarchy.rs:159-171 | after popping, two done vertices with the same component number reach each other |
| TarjanReach.PoppedOrder | planning/planning/src/chronicles/preprocessing/fluent_hierarchy.rs:159-171 | after popping, a done vertex reaches only done vertices whose component number is not larger |
| TarjanReach.SccFinished | planning/planning/src/chronicles/preprocessing/fluent_hierarchy.rs:137-142 | when every vertex is done, two vertices share a component exactly when each reaches the other, and an edge path never leads to a higher component number |
| Tarjan.Group | planning/planning/src/chronicles/preprocessing/fluent_hierarchy.rs:55-58 | the loop of `ordered_scc`: every vertex lands in the group at index `num_components - component`, and each group is in increasing vertex order |
| Tarjan.GroupedPartitions | planning/planning/src/chronicles/preprocessing/fluent_hierarchy.rs:53-60 | grouping vertices by an in-range component number partitions them: each vertex lies in exactly one group, no group holds a foreign vertex |
| Tarjan.OrderedScc | planning/planning/src/chronicles/preprocessing/fluent_hierarchy.rs:53-60 | `ordered_scc` returns one group per component: a vertex is in group `i` iff its component number is `num_components - i`, every vertex of the graph is in exactly one group, and groups list vertices by increasing id; the groups are exactly the strongly connected components and come in topological order (a vertex reaches only its own group or later ones) |
| Linear.Lcm | solver/src/model/lang/linear.rs:168 | `lcm` of two non-zero denominators is positive and a multiple of both |
| Linear.LcmLeast | solver/src/model/lang/linear.rs:168 | no positive common multiple is smaller than `lcm`, so rescaling goes to the least common denominator (see also line 176) |
| Linear.LcmExamples | solver/src/model/lang/linear.rs:526 | the lcm of 28 and 77 is 308 |
| Linear.NegTerm | solver/src/model/lang/linear.rs:94-105 | negating a term changes the sign of its factor, keeps variable, literal and denominator, and so negates its value |
| Linear.SetDenomOf | solver/src/model/lang/linear.rs:153-165 | `set_denom` to a multiple of the denominator gives that denominator to the sum and to every term, keeping the number of terms and the common-denominator invariant |
| Linear.SetDenomValue | solver/src/model/lang/linear.rs:153-165 | `set_denom` does not change the rational value the sum represents |
| Linear.AddTermOf | solver/src/model/lang/linear.rs:167-173 | `add_term` moves the sum to the lcm of the two denominators, appends one term, and keeps the common-denominator invariant |
| Linear.AddTermValue | solver/src/model/lang/linear.rs:167-173 | `add_term` adds the value of the term to the value of the sum |
| Linear.AddRationalOf | solver/src/model/lang/linear.rs:175-180 | `add_rational` moves the sum to the lcm of the denominators, keeps the terms' number and keeps the invariant |
| Linear.AddRationalValue | solver/src/model/lang/linear.rs:175-180 | `add_rational(num, d)` adds `num/d` to the value of the sum |
| Linear.AddSumOf | solver/src/model/lang/linear.rs:271-279 | `+=` appends one term per term of the right-hand side over a positive denominator and keeps the invariant |
| Linear.AddSumValue | solver/src/model/lang/linear.rs:254-279 | `self += rhs` (and `self + rhs`) adds the value of `rhs` to the value of `self` |
| Linear.NegOf | solver/src/model/lang/linear.rs:287-297 | unary minus keeps the denominator and the number of terms, and keeps the invariant |
| Linear.NegValue | solver/src/model/lang/linear.rs:287-297 | unary minus negates the value of the sum |
| Linear.NegInvolutive | solver/src/model/lang/linear.rs:287-297 | negating a sum twice gives it back |
| Linear.SubOf | solver/src/model/lang/linear.rs:263-285 | `a - b` (and `a -= b`) is `a + (-b)` and yields a valid sum over a positive denominator |
| Linear.SubValue | solver/src/model/lang/linear.rs:263-285 | `a - b` subtracts the value of `b` from that of `a` |
| Linear.WithLitOf | solver/src/model/lang/linear.rs:127-131 | `with_lit` conditions every term on the literal and changes nothing else |
| Linear.WithLitValue | solver/src/model/lang/linear.rs:127-131 | after `with_lit`, when the literal is false only the constant remains; when it and the terms' former literals hold, the value is unchanged |
| Linear.OfSums | solver/src/model/lang/linear.rs:145-151 | `LinearSum::of` yields a valid sum |
| Linear.OfValue | solver/src/model/lang/linear.rs:145-151 | `LinearSum::of` represents the sum of the values of its elements |
| Linear.AtomSum | solver/src/model/lang/linear.rs:220-252 | the sum an atom `(var + shift) / d` converts to is valid |
| Linear.AtomValue | solver/src/model/lang/linear.rs:220-252 | that sum represents `(var + shift) / d` |
| Linear.LeqOf | solver/src/model/lang/linear.rs:182-184 | `leq` builds a constraint with bound 0 over a valid sum with a positive denominator |
| Linear.GeqOf | solver/src/model/lang/linear.rs:185-187 | `geq` likewise, as `(-self).leq(-lb)` |
| Linear.DifferentDenominators | solver/src/model/lang/linear.rs:482-514 | the source's examples: adding or subtracting sums over denominators 28 and 77 rescales both to 308 with the expected numerators (the right-hand side's negated for `-`) and constant 0 |
| Linear.Group | solver/src/model/lang/linear.rs:317-324 | the grouping loop gives one item per distinct `(var, lit)` key of the input, whose factor is the total of the input factors with that key |
| Linear.Accumulate | solver/src/model/lang/linear.rs:318-324 | the map accumulation has exactly the input's keys, each mapped to the total factor of that key |
| Linear.Entries | solver/src/model/lang/linear.rs:325-329 | listing the map gives one item per key with the key's factor |
| Linear.GroupedSum | solver/src/model/lang/linear.rs:317-329 | merging items by key does not change their weighted sum |
| Linear.ToNormalForm | solver/src/model/lang/linear.rs:315-333 | the conversion to normal form groups the terms' numerators by `(var, lit)` and sets the bound to `ub - constant` |
| Linear.NormalFormMeaning | solver/src/model/lang/linear.rs:315-333 | the normal form holds exactly when the sum's value scaled by its denominator is at most `ub` |
| Linear.LeqMeaning | solver/src/model/lang/linear.rs:315-333 | the normal form of `s.leq(ub)` holds exactly when the value of `s` is at most that of `ub` (see also lines 182-184) |
| Linear.GeqMeaning | solver/src/model/lang/linear.rs:315-333 | the normal form of `s.geq(lb)` holds exactly when the value of `s` is at least that of `lb` (see also lines 185-187) |
| Linear.KeepSignificant | solver/src/model/lang/linear.rs:390-400 | the filter keeps exactly the items whose factor is non-zero and whose variable is not ZERO, and keeps keys distinct |
| Linear.Simplify | solver/src/model/lang/linear.rs:380-403 | `simplify` keeps the bound and gives one item per key of the input whose total factor is non-zero and whose variable is not ZERO, with that total as factor |
| Linear.SimplifiedSum | solver/src/model/lang/linear.rs:380-403 | given that ZERO is worth 0, `simplify` preserves the sum of the items and therefore the meaning of the constraint |
| Linear.SimplifyExample | solver/src/model/lang/linear.rs:529-577 | the source's example simplifies to the single item `-1 * var10 <= 5` |
| Linear.NotOf | solver/src/model/lang/linear.rs:406-417 | `!` keeps the number of items |
| Linear.NotMeaning | solver/src/model/lang/linear.rs:406-417 | over the integers the negated normal form holds exactly when the original does not, and negating twice gives it back |
| LinearSums.LinearSum.Zero | solver/src/model/lang/linear.rs:119-125 | `zero()` is the empty sum over denominator 1 |
| LinearSums.LinearSum.ConstantRational | solver/src/model/lang/linear.rs:137-143 | `constant_rational(num, d)` holds no term and the constant `num` over `d` |
| LinearSums.LinearSum.FromTerm | solver/src/model/lang/linear.rs:202-210 | the sum of one term takes that term's denominator |
| LinearSums.LinearSum.FromConstant | solver/src/model/lang/linear.rs:211-219 | a constant converts to a sum with no term over denominator 1 |
| LinearSums.LinearSum.FromFAtom | solver/src/model/lang/linear.rs:220-235 | converting `(var + shift) / d` builds the variable's term and then adds the constant term `shift / d` with `+=` |
| LinearSums.LinearSum.FromIAtom | solver/src/model/lang/linear.rs:237-252 | converting `var + shift` is the same with denominator 1 |
| LinearSums.LinearSum.ConstantInt | solver/src/model/lang/linear.rs:133-135 | `constant_int(n)` is `zero() + n` |
| LinearSums.LinearSum.Of | solver/src/model/lang/linear.rs:145-151 | the loop of `of` adds every element in turn to `zero()` |
| LinearSums.LinearSum.WithLit | solver/src/model/lang/linear.rs:127-131 | the in-place loop of `with_lit` conditions every term on the literal and leaves the constant and denominator |
| LinearSums.LinearSum.SetDenom | solver/src/model/lang/linear.rs:153-165 | the in-place rescaling of `set_denom` produces the rescaled sum (nothing changes when the factor is 1) |
| LinearSums.LinearSum.AddTerm | solver/src/model/lang/linear.rs:167-173 | `add_term` in place yields the sum `AddTermOf` describes |
| LinearSums.LinearSum.AddRational | solver/src/model/lang/linear.rs:175-180 | `add_rational` in place yields the sum `AddRationalOf` describes |
| LinearSums.LinearSum.AddAssign | solver/src/model/lang/linear.rs:271-279 | `+=` adds every term of the right-hand side, then its constant |
| LinearSums.LinearSum.SubAssign | solver/src/model/lang/linear.rs:280-285 | `-=` adds the negation of the right-hand side |
| LinearSums.LinearSum.Negate | solver/src/model/lang/linear.rs:287-297 | unary minus negates every term and the constant in place |
| LinearSums.LinearSum.Leq | solver/src/model/lang/linear.rs:182-184 | `leq` consumes the sum and returns `(self - ub) <= 0` |
| LinearSums.LinearSum.Geq | solver/src/model/lang/linear.rs:185-187 | `geq` consumes the sum and returns `(-self).leq(-lb)` |

## Left out

- The gRPC translation of chronicles is not part of this model. It is built on protocol and error-handling libraries outside the repository's core.
- The top-level SMT driver loop is not part of this model (smt/src/solver.rs). It coordinates a SAT solver and theories that are outside this model, and records wall-clock statistics.
- The command-line entry points are not part of this model: the scheduling `main`, the `lcp` binary and the gRPC CI script. They do file and directory walking, process exit and subprocesses.
- The STN test scaffolding is not part of this model (cp/reasoners/stn/src/stn.rs).
- The floating-point activity heuristics of the EMA brancher are left out: activity update, rescaling and decay, the `f32` summaries and their comparison. The queue is a sequence in extraction order, and a re-enqueued variable goes to a position the model does not determine.
- `ParSolver`, `get_solver` and the brancher combinators are left out: they build parallel portfolios (concurrency and library wiring).
- The `EnvParam` environment reads and `print_stats` of the STN are left out. They are I/O; the theory's parameters are passed as values.
- `Theory::bind` of the STN is left out: it is expression plumbing into the model.
- `theory_propagate_edge` and `distances_from` are left out, and with them the shortest-distance queries. They depend on a Dijkstra state that is not part of this model. Bound-level theory propagation (`theory_propagate_bound`) is modelled.
- The deep explanation walk over the model's event history (`explain`, `build_contradiction`) is left out. A conflict is modelled as the list of enablers of the cycle's edges: each is the stored enabler of an active constraint on the cycle. That these literals hold in the model is not stated.
- The trail and observable-cursor implementation used by the STN and the bound store is not part of this model. The model keeps the trail as a sequence with save points, and the propagation cursor is kept within the event trail.
- Panics of the STN are modelled as an `Abort` failure: an out-of-range constraint index, or a cycle walk that does not return to its origin. The model does not show that they cannot happen.
- The `encode`, `solve` and `main` functions of `openshop.rs` are left out: they build the model through the solver API and read files.
- `refinements_of_task` is left out: it depends on `unifiable_seq` of the model, which is not part of this model.
- The printing of the groups in `hierarchy` is left out. The model returns the groups instead.
- `NFLinearLeq::validity_scope` is left out: it builds a `ValidityScope`, which is not part of this model.
- The key order of the `BTreeMap`s in the normal-form conversion and in `simplify` is not modelled. The items come out with distinct keys and the right factors, in an unspecified order.
- `FAtom::new` is not part of this model. An atom is given by its variable, shift and denominator.
- `symbols.rs` is not part of this model. A contiguous symbol range is iterated as `first..=last`.
- Conditions and effects of the fluent hierarchy keep only `state_var[0]`, the only part `hierarchy` reads.
- The `HashMap` of variables in the DIMACS parser is a map with no iteration order, and variables get fresh ids in creation order.
- The DIMACS and open-shop inputs are given as their lines already split. `str::lines` splits at `\n` and drops one trailing `\r`, and this splitting is not modelled; since `\r` is whitespace to `split_whitespace`, a kept `\r` changes no token of a line.
- The `b{id}` labels of the DIMACS variables are left out.
- The clauses of the DIMACS parser are returned as literal lists rather than reified through `model.or`, because the solver's model is not part of this model.
- The `u64` and `usize` counters of the search controllers (saved levels, conflict counts) are unbounded integers.
- `pre_conflict_analysis` of the EMA brancher is not modelled separately: it only calls `process_events`.
- The culprit computation of the EMA brancher (`LitSet`, explainer) is left out. The conflict's culprits, the events since the last call, and the precedence, presence and entailment queries are parameters.
- The heap, trail, cursor and watches of the EMA brancher are also left out, for the same reason.
- The zero-fill of `conflict_since_assignment` (`fill_with`) is left out. The model's map holds only the variables set.
- The learning-rate update of `restore_last` in the EMA brancher is floating point and left out.
- The debug assertions of `conflict` in the EMA brancher are left out.
- Stn.StnTheory.UndoLastEvent: undoing an activation pops a propagator only for a constraint that is not a self loop, where `undo_last_event` pops one unconditionally. The corrected activation records self loops too and pushes no propagator for them (see Findings), so this follows the intended behaviour rather than the code as written.
- Ema.EMABrancher.ProcessEvents: requires that no decision variable of the events already has an assignment time and that none occurs twice, where the source's `assert!` panics. The panic path is not modelled.
- Encoding.RefinementsOf: requires that every chronicle refining the task has a task, where the source's `unwrap` panics. The panic path is not modelled.
- OpenShop.Parse: a malformed instance, where the source panics through `unwrap` on a missing line or number, is returned as an `Err` naming the failure.
- The TaskRef and SubTask start and end timepoints are integer atoms (a variable and a shift). The `FAtom` denominator of the source is dropped, since the forward search only reads these timepoints' integer domains.
- TypeSystem.New: requires that type names are distinct. The source's `RefPool` is keyed by name, so the source assumes this too.
- OpenShop.MakespanLowerBound: requires at least one job and one machine, where the source's `max().unwrap()` panics. It also requires a complete duration table (`Complete`). The parser (examples/scheduling/bin/openshop.rs:195-199) builds a shorter table when a job line is short, and then `duration` (openshop.rs:25-27) panics on the out-of-range index.
- Dimacs.IdOf: for the literal `-2147483648`, `i32::abs` overflows in the source: it panics in debug builds and gives `2^31` as `u32` in release builds. The model gives `2^31`, the release-build result.

## Findings

| source | as written | input that shows it | evidently intended | confidence | as-written member | corrected member |
|---|---|---|---|---|---|---|
| tnet/src/theory.rs:472-474 | `has_edge` compares the edge's base id with the number of directed constraints (four per edge), using `<=` | an empty store (no constraint): edge 0 is reported as present; with one edge stored, edge 1 is reported as present | an edge is present when its base id is below the number of stored edges, i.e. both of its directed views index stored constraints | not executed | StnIds.HasEdgeAsWrittenAcceptsMissing | StnIds.HasEdgeIffViewsStored |
| tnet/src/theory.rs:826-858 | activating a self loop sets its enabler but pushes no `EdgeActivated` event on the trail | store the negative self loop `0 - 0 <= -1`, activate it, then undo to the previous backtrack point: the enabler stays set, so a later activation is skipped as already active and the negative cycle is not reported | every activation, self loops included, is recorded so that undo clears the enabler; undoing a recorded self-loop activation then pops no propagator, since none was pushed for it (`undo_last_event` at tnet/src/theory.rs:886-890 pops unconditionally, which is only right while self loops go unrecorded) | not executed | Stn.SelfLoopActivationUnrecorded | Stn.StnTheory.Activate |
