/**
 * The EMA branching scheme of the scheduling example (examples/scheduling/src/search/ema.rs):
 * a queue of decision variables from which `next_decision` drops the variables that are
 * already bound or not surely present, a trail of those removals that backtracking replays
 * to put them back, default values taken from the best solution found so far, and the
 * per-variable conflict counters that feed the learning-rate heuristic.
 *
 * The floating-point activities that order the queue are not modelled: the queue is a
 * sequence in extraction order, and a variable enqueued again goes to some position in it.
 */
module Ema {
  import opened Wrappers
  import opened Lits
  import opened Lexical

  // ---------------------------------------------------------------------------
  // The decision literal
  // ---------------------------------------------------------------------------

  /** The preferred value of a variable: its default value, or else its lower bound. */
  function PreferredValue(default: Option<int>, dom: IntDomain): int
  {
    match default
    case None => dom.lb
    case Some(x) => x
  }

  /** `x` brought into `[lb, ub]`. */
  function Clamp(x: int, lb: int, ub: int): int
  {
    if x <= lb then lb else if x >= ub then ub else x
  }

  /** The literal `next_decision` sets for `v`: `v <= value`, clamped to the domain's bounds. */
  function DecisionLiteral(v: VarRef, dom: IntDomain, default: Option<int>): (l: Lit)
    ensures Variable(l) == v
  {
    var value := PreferredValue(default, dom);
    if value <= dom.lb then LeqLit(Plus(v), dom.lb)
    else if value >= dom.ub then GeqLit(Plus(v), dom.ub)
    else LeqLit(Plus(v), value)
  }

  /** Giving `v` its preferred value, clamped to the domain, satisfies the decision. */
  lemma {:induction false} DecisionFollowsDefault(v: VarRef, dom: IntDomain, default: Option<int>, val: VarRef -> int)
    requires dom.lb < dom.ub
    requires val(v) == Clamp(PreferredValue(default, dom), dom.lb, dom.ub)
    ensures Holds(DecisionLiteral(v, dom, default), val)
  {
  }

  /**
   * On an unbound domain the decision splits it: some value of the domain satisfies the
   * literal and some other value satisfies its negation.
   */
  lemma {:induction false} DecisionSplitsDomain(v: VarRef, dom: IntDomain, default: Option<int>)
    requires dom.lb < dom.ub
    ensures var l := DecisionLiteral(v, dom, default);
      && (exists val: VarRef -> int :: dom.lb <= val(v) <= dom.ub && Holds(l, val))
      && (exists val: VarRef -> int :: dom.lb <= val(v) <= dom.ub && !Holds(l, val))
  {
    var l := DecisionLiteral(v, dom, default);
    var value := PreferredValue(default, dom);
    var lo: VarRef -> int := _ => dom.lb;
    var hi: VarRef -> int := _ => dom.ub;
    if value >= dom.ub {
      assert Holds(l, hi) && !Holds(l, lo);
    } else if value <= dom.lb {
      assert Holds(l, lo) && !Holds(l, hi);
    } else {
      var mid: VarRef -> int := _ => value;
      assert Holds(l, mid) && !Holds(l, hi);
    }
  }

  // ---------------------------------------------------------------------------
  // The queue of decision variables and its trail of removals
  // ---------------------------------------------------------------------------

  /** `VarSelect`: the declared variables, the queue, and the trail of removals with its save points. */
  class VarSelect {
    var declared: set<VarRef>
    /** The queue, in extraction order. */
    var queue: seq<VarRef>
    /** Every `HeapEvent::Removal` since the first save point. */
    var trail: seq<VarRef>
    /** The length of the trail at each save point. */
    var saved: seq<nat>

    ghost predicate Valid()
      reads this
    {
      && (forall i, j :: 0 <= i < j < |queue| ==> queue[i] != queue[j])
      && (forall i :: 0 <= i < |queue| ==> queue[i] in declared)
      && (forall i :: 0 <= i < |trail| ==> trail[i] in declared)
      && (forall i, j :: 0 <= i < j < |saved| ==> saved[i] <= saved[j])
      && (forall i :: 0 <= i < |saved| ==> saved[i] <= |trail|)
    }

    ghost function Queued(): set<VarRef>
      reads this
    {
      set v | v in queue
    }

    /** The variables removed from the queue since the last save point. */
    ghost function RemovedSinceSave(): set<VarRef>
      requires Valid() && |saved| > 0
      reads this
    {
      var since := trail[saved[|saved| - 1]..];
      set v | v in since
    }

    constructor ()
      ensures Valid() && declared == {} && queue == [] && trail == [] && saved == []
    {
      declared, queue, trail, saved := {}, [], [], [];
    }

    /** `declare_variable`: the variable becomes known but is not queued. */
    method DeclareVariable(v: VarRef)
      requires Valid() && v !in declared
      modifies this`declared
      ensures Valid() && declared == old(declared) + {v}
    {
      declared := declared + {v};
    }

    /**
     * `enqueue_variable`: the variable is in the queue afterwards, at the place its activity
     * gives it; a variable already queued stays where it is.
     */
    method EnqueueVariable(v: VarRef)
      requires Valid() && v in declared
      modifies this`queue
      ensures Valid() && Queued() == old(Queued()) + {v}
      ensures v in old(queue) ==> queue == old(queue)
    {
      if v !in queue {
        var pos :| 0 <= pos <= |queue|;
        queue := queue[..pos] + [v] + queue[pos..];
        assert forall i :: 0 <= i < |queue| ==> queue[i] == v || queue[i] in old(queue);
      }
    }

    /** Every variable of `vs` enqueued in turn. */
    method EnqueueAll(vs: seq<VarRef>)
      requires Valid() && forall i :: 0 <= i < |vs| ==> vs[i] in declared
      modifies this`queue
      ensures Valid() && Queued() == old(Queued()) + set v | v in vs
    {
      for i := 0 to |vs|
        invariant Valid() && Queued() == old(Queued()) + set v | v in vs[..i]
      {
        assert forall v :: v in vs[..i + 1] <==> v in vs[..i] || v == vs[i];
        EnqueueVariable(vs[i]);
      }
      assert vs[..|vs|] == vs;
    }

    /** `Popper::peek`: the head of the queue, which stays in place. */
    method Peek() returns (r: Option<VarRef>)
      ensures r.None? <==> queue == []
      ensures r.Some? ==> r.value == queue[0] && r.value in Queued()
    {
      r := if queue == [] then None else Some(queue[0]);
    }

    /** `Popper::pop`: the head of the queue is removed, and the removal is recorded on the trail. */
    method Pop() returns (r: Option<VarRef>)
      requires Valid()
      modifies this`queue, this`trail
      ensures Valid()
      ensures old(queue) == [] ==> r.None? && queue == old(queue) && trail == old(trail)
      ensures old(queue) != [] ==> && r == Some(old(queue)[0])
                                   && queue == old(queue)[1..] && trail == old(trail) + [old(queue)[0]]
    {
      if queue == [] {
        r := None;
      } else {
        var v := queue[0];
        queue := queue[1..];
        trail := trail + [v];
        r := Some(v);
      }
    }

    /** `save_state`: a save point at the current end of the trail; the new number of save points. */
    method SaveState() returns (lvl: nat)
      requires Valid()
      modifies this`saved
      ensures Valid() && saved == old(saved) + [|trail|] && lvl == |saved|
    {
      saved := saved + [|trail|];
      lvl := |saved|;
    }

    /**
     * `restore_last`: the removals since the last save point are undone, most recent first,
     * by enqueuing the removed variables again, and the save point is dropped.
     */
    method RestoreLast()
      requires Valid() && |saved| > 0
      modifies this`queue, this`trail, this`saved
      ensures Valid()
      ensures Queued() == old(Queued()) + old(RemovedSinceSave())
      ensures trail == old(trail)[..old(saved)[|old(saved)| - 1]]
      ensures saved == old(saved)[..|old(saved)| - 1]
    {
      var sp := saved[|saved| - 1];
      saved := saved[..|saved| - 1];
      while |trail| > sp
        invariant Valid() && sp <= |trail| <= |old(trail)| && trail == old(trail)[..|trail|]
        invariant saved == old(saved)[..|old(saved)| - 1] && sp == old(saved)[|old(saved)| - 1]
        invariant forall i :: 0 <= i < |saved| ==> saved[i] <= sp
        invariant Queued() == old(Queued()) + set v | v in old(trail)[|trail|..]
        decreases |trail|
      {
        var v := trail[|trail| - 1];
        assert forall w :: w in old(trail)[|trail| - 1..] <==> w == v || w in old(trail)[|trail|..];
        trail := trail[..|trail| - 1];
        EnqueueVariable(v);
      }
    }
  }

  // ---------------------------------------------------------------------------
  // The brancher
  // ---------------------------------------------------------------------------

  /** One event of the model's trail: the literal it made true and the variable whose bound changed. */
  datatype Event = Event(newLiteral: Lit, variable: VarRef)

  /** A presence watch: `watcher` is to be enqueued once a literal entailing `on` is true. */
  datatype Watch = Watch(on: Lit, watcher: VarRef)

  /** `presences.watches_on(l)`: the watchers of the literals that `l` entails. */
  function WatchesOn(ws: seq<Watch>, l: Lit): (r: seq<VarRef>)
    ensures forall v :: v in r <==> exists i :: 0 <= i < |ws| && ws[i].watcher == v && Entails(l, ws[i].on)
  {
    if ws == [] then []
    else
      var rest := WatchesOn(ws[1..], l);
      assert forall i :: 1 <= i < |ws| ==> ws[i] == ws[1..][i - 1];
      if Entails(l, ws[0].on) then [ws[0].watcher] + rest else rest
  }

  /** The variables woken up by a sequence of events. */
  function WakeUps(ws: seq<Watch>, events: seq<Event>): set<VarRef>
  {
    if events == [] then {}
    else
      var woken := WatchesOn(ws, events[|events| - 1].newLiteral);
      WakeUps(ws, events[..|events| - 1]) + set v | v in woken
  }

  /** The decision variables whose bounds the events changed, in order. */
  function DecisionVars(events: seq<Event>, declared: set<VarRef>): (r: seq<VarRef>)
    ensures forall v :: v in r <==> v in declared && exists i :: 0 <= i < |events| && events[i].variable == v
  {
    if events == [] then []
    else
      var n := |events| - 1;
      var rest := DecisionVars(events[..n], declared);
      assert forall i :: 0 <= i < n ==> events[i] == events[..n][i];
      if events[n].variable in declared then rest + [events[n].variable] else rest
  }

  lemma {:induction false} EventsSnoc(ws: seq<Watch>, events: seq<Event>, i: nat, declared: set<VarRef>)
    requires i < |events|
    ensures WakeUps(ws, events[..i + 1]) == WakeUps(ws, events[..i]) + set v | v in WatchesOn(ws, events[i].newLiteral)
    ensures DecisionVars(events[..i + 1], declared)
         == DecisionVars(events[..i], declared) + if events[i].variable in declared then [events[i].variable] else []
  {
    assert events[..i + 1][..i] == events[..i];
  }

  /** The watches `import_vars` adds for the variables `lo <= v < hi` that are precedence variables. */
  function NewWatches(lo: nat, hi: nat, isPrec: VarRef -> bool, presence: VarRef -> Lit): (r: seq<Watch>)
    ensures forall i :: 0 <= i < |r| ==> lo <= r[i].watcher < hi && isPrec(r[i].watcher)
    decreases hi
  {
    if hi <= lo then []
    else
      var rest := NewWatches(lo, hi - 1, isPrec, presence);
      if isPrec(hi - 1) then rest + [Watch(presence(hi - 1), hi - 1)] else rest
  }

  lemma {:induction false} NewWatchesStep(lo: nat, v: nat, isPrec: VarRef -> bool, presence: VarRef -> Lit)
    requires lo <= v
    ensures NewWatches(lo, v + 1, isPrec, presence)
         == NewWatches(lo, v, isPrec, presence) + if isPrec(v) then [Watch(presence(v), v)] else []
  {
  }

  /** `defaults` after every pair of `assignment` has been written to it in turn. */
  function Overwrite(defaults: map<VarRef, int>, assignment: seq<(VarRef, int)>): map<VarRef, int>
  {
    if assignment == [] then defaults
    else
      var n := |assignment| - 1;
      Overwrite(defaults, assignment[..n])[assignment[n].0 := assignment[n].1]
  }

  /** A variable without a pair in `assignment` keeps its previous default, or still has none. */
  lemma {:induction false} OverwriteUntouched(defaults: map<VarRef, int>, assignment: seq<(VarRef, int)>, v: VarRef)
    requires forall i :: 0 <= i < |assignment| ==> assignment[i].0 != v
    ensures v in Overwrite(defaults, assignment) <==> v in defaults
    ensures v in defaults ==> Overwrite(defaults, assignment)[v] == defaults[v]
  {
    if assignment != [] {
      var n := |assignment| - 1;
      assert forall i :: 0 <= i < n ==> assignment[..n][i] == assignment[i];
      OverwriteUntouched(defaults, assignment[..n], v);
    }
  }

  /** After the overwrite a variable holds the value of its last pair in `assignment`. */
  lemma {:induction false} OverwriteLast(defaults: map<VarRef, int>, assignment: seq<(VarRef, int)>, i: nat)
    requires i < |assignment|
    requires forall j :: i < j < |assignment| ==> assignment[j].0 != assignment[i].0
    ensures assignment[i].0 in Overwrite(defaults, assignment)
    ensures Overwrite(defaults, assignment)[assignment[i].0] == assignment[i].1
  {
    var n := |assignment| - 1;
    if i < n {
      assert forall j :: i < j < n ==> assignment[..n][j] == assignment[j];
      OverwriteLast(defaults, assignment[..n], i);
    }
  }

  /** The number of literals of `ls` on the variable `v`. */
  function CountOn(ls: seq<Lit>, v: VarRef): (c: nat)
    ensures c <= |ls|
    ensures c == 0 <==> forall i :: 0 <= i < |ls| ==> Variable(ls[i]) != v
  {
    if ls == [] then 0
    else
      var n := |ls| - 1;
      assert forall i :: 0 <= i < n ==> ls[..n][i] == ls[i];
      CountOn(ls[..n], v) + if Variable(ls[n]) == v then 1 else 0
  }

  lemma {:induction false} CountOnSnoc(ls: seq<Lit>, i: nat)
    requires i < |ls|
    ensures forall v :: CountOn(ls[..i + 1], v) == CountOn(ls[..i], v) + if Variable(ls[i]) == v then 1 else 0
  {
    assert ls[..i + 1][..i] == ls[..i];
  }

  /** `times` with every variable of `vs` mapped to `t`. */
  function Stamp(times: map<VarRef, nat>, vs: seq<VarRef>, t: nat): (r: map<VarRef, nat>)
    ensures r.Keys == times.Keys + set v | v in vs
  {
    if vs == [] then times
    else
      var n := |vs| - 1;
      assert forall v :: v in vs <==> v in vs[..n] || v == vs[n];
      Stamp(times, vs[..n], t)[vs[n] := t]
  }

  lemma {:induction false} StampSnoc(times: map<VarRef, nat>, vs: seq<VarRef>, v: VarRef, t: nat)
    ensures Stamp(times, vs + [v], t) == Stamp(times, vs, t)[v := t]
  {
    assert (vs + [v])[..|vs|] == vs;
  }

  /** A stamped variable maps to `t`; every other variable keeps its entry. */
  lemma {:induction false} StampLookup(times: map<VarRef, nat>, vs: seq<VarRef>, t: nat, v: VarRef)
    ensures v in vs ==> Stamp(times, vs, t)[v] == t
    ensures v !in vs && v in times ==> Stamp(times, vs, t)[v] == times[v]
  {
    if vs != [] {
      var n := |vs| - 1;
      StampLookup(times, vs[..n], t, v);
      assert v in vs ==> v in vs[..n] || v == vs[n];
      assert v in vs[..n] ==> v in vs;
    }
  }

  /** `EMABrancher`, without the activity heuristic. */
  class EMABrancher {
    const heap: VarSelect
    /** `default_assignment.values`. */
    var defaults: map<VarRef, int>
    /** `default_assignment.objective_found`. */
    var objectiveFound: Option<int>
    var numProcessedVar: nat
    var presences: seq<Watch>
    var numConflicts: nat
    var assignmentTime: map<VarRef, nat>
    var conflictSinceAssignment: map<VarRef, nat>
    /** The trail of decision variables that became bound, with its save points. */
    var assignments: seq<VarRef>
    var assignmentsSaved: seq<nat>

    ghost predicate Valid()
      reads this, heap
    {
      heap.Valid() && Declarations() && Assignments() && |assignmentsSaved| == |heap.saved|
    }

    lemma Unpack()
      requires Valid()
      ensures heap.Valid() && Declarations() && Assignments() && |assignmentsSaved| == |heap.saved|
    {
    }

    lemma Pack()
      requires heap.Valid() && Declarations() && Assignments() && |assignmentsSaved| == |heap.saved|
      ensures Valid()
    {
    }

    /** Every watcher is declared, and only variables already processed are. */
    ghost predicate Declarations()
      reads this`presences, this`numProcessedVar, heap`declared
    {
      && (forall i :: 0 <= i < |presences| ==> presences[i].watcher in heap.declared)
      && (forall v :: v in heap.declared ==> v < numProcessedVar)
    }

    /**
     * The trail of bound decision variables has no repetition, exactly its variables have an
     * assignment time, which is never in the future, and a conflict count.
     */
    ghost predicate Assignments()
      reads this`assignments, this`assignmentTime, this`numConflicts, this`conflictSinceAssignment,
            this`assignmentsSaved
    {
      && (forall i, j :: 0 <= i < j < |assignments| ==> assignments[i] != assignments[j])
      && (forall v :: v in assignmentTime <==> v in assignments)
      && (forall v :: v in assignmentTime ==> assignmentTime[v] <= numConflicts && v in conflictSinceAssignment)
      && (forall i, j :: 0 <= i < j < |assignmentsSaved| ==> assignmentsSaved[i] <= assignmentsSaved[j])
      && (forall i :: 0 <= i < |assignmentsSaved| ==> assignmentsSaved[i] <= |assignments|)
    }

    function DefaultOf(v: VarRef): (r: Option<int>)
      reads this
      ensures r.Some? <==> v in defaults
    {
      if v in defaults then Some(defaults[v]) else None
    }

    /** `EMABrancher::new`. */
    constructor ()
      ensures Valid() && fresh(heap)
      ensures heap.declared == {} && heap.queue == [] && heap.trail == [] && heap.saved == []
      ensures defaults == map[] && objectiveFound.None? && numProcessedVar == 0 && presences == []
      ensures numConflicts == 0 && assignmentTime == map[] && conflictSinceAssignment == map[]
      ensures assignments == [] && assignmentsSaved == []
    {
      heap := new VarSelect();
      defaults, objectiveFound, numProcessedVar, presences := map[], None, 0, [];
      numConflicts, assignmentTime, conflictSinceAssignment := 0, map[], map[];
      assignments, assignmentsSaved := [], [];
    }

    /**
     * The loop of `import_vars`: every variable of the model not seen before that is a
     * precedence variable is declared and watched through its presence literal, and it is
     * queued at once when that literal is already entailed.
     */
    method DeclareNewVariables(numVars: nat, isPrec: VarRef -> bool, presence: VarRef -> Lit, entailed: Lit -> bool)
      requires Valid()
      modifies this`numProcessedVar, this`presences, heap`declared, heap`queue
      ensures Valid()
      ensures numProcessedVar == if numVars > old(numProcessedVar) then numVars else old(numProcessedVar)
      ensures heap.declared == old(heap.declared) + PrecsIn(old(numProcessedVar), numVars, isPrec)
      ensures presences == old(presences) + NewWatches(old(numProcessedVar), numVars, isPrec, presence)
      ensures heap.Queued() == old(heap.Queued()) + WokenIn(old(numProcessedVar), numVars, isPrec, presence, entailed)
    {
      if numVars <= numProcessedVar {
        PrecsStep(numProcessedVar, numVars, isPrec, presence, entailed);
        return;
      }
      Unpack();
      var lo := numProcessedVar;
      DeclareRange(lo, numVars, isPrec, presence, entailed);
      numProcessedVar := numVars;
      PrecsStep(lo, numVars, isPrec, presence, entailed);
      Pack();
    }

    /** The variables `lo <= v < hi` imported in turn, `lo` being above every declared variable. */
    method DeclareRange(lo: nat, hi: nat, isPrec: VarRef -> bool, presence: VarRef -> Lit, entailed: Lit -> bool)
      requires heap.Valid() && lo <= hi
      requires forall w :: w in heap.declared ==> w < lo
      requires forall i :: 0 <= i < |presences| ==> presences[i].watcher in heap.declared
      modifies this`presences, heap`declared, heap`queue
      ensures heap.Valid() && heap.trail == old(heap.trail) && heap.saved == old(heap.saved)
      ensures heap.declared == old(heap.declared) + PrecsIn(lo, hi, isPrec)
      ensures presences == old(presences) + NewWatches(lo, hi, isPrec, presence)
      ensures forall i :: 0 <= i < |presences| ==> presences[i].watcher in heap.declared
      ensures heap.Queued() == old(heap.Queued()) + WokenIn(lo, hi, isPrec, presence, entailed)
    {
      assert NewWatches(lo, lo, isPrec, presence) == [];
      hide VarSelect.Valid, VarSelect.Queued, NewWatches, PrecsIn, WokenIn;
      PrecsStep(lo, lo, isPrec, presence, entailed);
      for v := lo to hi
        invariant heap.Valid()
        invariant heap.declared == old(heap.declared) + PrecsIn(lo, v, isPrec)
        invariant presences == old(presences) + NewWatches(lo, v, isPrec, presence)
        invariant forall i :: 0 <= i < |presences| ==> presences[i].watcher in heap.declared
        invariant heap.Queued() == old(heap.Queued()) + WokenIn(lo, v, isPrec, presence, entailed)
      {
        PrecsStep(lo, v, isPrec, presence, entailed);
        NewWatchesStep(lo, v, isPrec, presence);
        ImportVariable(v, isPrec(v), presence(v), entailed(presence(v)));
      }
    }

    /** The precedence variables `lo <= w < v`. */
    static ghost function PrecsIn(lo: nat, v: nat, isPrec: VarRef -> bool): set<VarRef>
    {
      set w | lo <= w < v && isPrec(w)
    }

    /** The precedence variables `lo <= w < v` whose presence literal is entailed. */
    static ghost function WokenIn(lo: nat, v: nat, isPrec: VarRef -> bool, presence: VarRef -> Lit, entailed: Lit -> bool): set<VarRef>
    {
      set w | lo <= w < v && isPrec(w) && entailed(presence(w))
    }

    static lemma {:induction false} PrecsStep(lo: nat, v: nat, isPrec: VarRef -> bool, presence: VarRef -> Lit, entailed: Lit -> bool)
      ensures forall w :: w in PrecsIn(lo, v, isPrec) ==> lo <= w < v
      ensures v <= lo ==> PrecsIn(lo, v, isPrec) == {} && WokenIn(lo, v, isPrec, presence, entailed) == {}
      ensures PrecsIn(lo, v + 1, isPrec) == PrecsIn(lo, v, isPrec) + (if lo <= v && isPrec(v) then {v} else {})
      ensures WokenIn(lo, v + 1, isPrec, presence, entailed)
           == WokenIn(lo, v, isPrec, presence, entailed)
              + (if lo <= v && isPrec(v) && entailed(presence(v)) then {v} else {})
    {
    }

    /**
     * One variable of the `import_vars` loop: a precedence variable is declared and watched
     * through its presence literal, and queued at once when that literal is entailed.
     */
    method ImportVariable(v: VarRef, prec: bool, prez: Lit, prezEntailed: bool)
      requires heap.Valid() && v !in heap.declared
      requires forall i :: 0 <= i < |presences| ==> presences[i].watcher in heap.declared
      modifies this`presences, heap`declared, heap`queue
      ensures heap.Valid() && heap.declared == old(heap.declared) + (if prec then {v} else {})
      ensures presences == old(presences) + (if prec then [Watch(prez, v)] else [])
      ensures forall i :: 0 <= i < |presences| ==> presences[i].watcher in heap.declared
      ensures heap.Queued() == old(heap.Queued()) + (if prec && prezEntailed then {v} else {})
    {
      if prec {
        heap.DeclareVariable(v);
        presences := presences + [Watch(prez, v)];
        if prezEntailed {
          heap.EnqueueVariable(v);
        }
      }
    }

    /**
     * `process_events`: each event enqueues the variables watching its literal and, when it
     * bounds a decision variable, records the variable on the trail with the current number
     * of conflicts as its assignment time and a fresh conflict count of zero. The source
     * asserts that such a variable has no assignment time yet.
     */
    method ProcessEvents(events: seq<Event>)
      requires Valid()
      requires forall i :: 0 <= i < |events| && events[i].variable in heap.declared ==> events[i].variable !in assignmentTime
      requires forall i, j :: 0 <= i < j < |events| && events[i].variable in heap.declared ==> events[i].variable != events[j].variable
      modifies this`assignments, this`assignmentTime, this`conflictSinceAssignment, heap`queue
      ensures Valid()
      ensures heap.Queued() == old(heap.Queued()) + WakeUps(presences, events)
      ensures var dv := DecisionVars(events, heap.declared);
        && assignments == old(assignments) + dv
        && assignmentTime == Stamp(old(assignmentTime), dv, numConflicts)
        && conflictSinceAssignment == Stamp(old(conflictSinceAssignment), dv, 0)
    {
      assert events[..0] == [];
      assert WakeUps(presences, []) == {} && DecisionVars([], heap.declared) == [];
      assert Stamp(assignmentTime, [], numConflicts) == assignmentTime;
      assert Stamp(conflictSinceAssignment, [], 0) == conflictSinceAssignment;
      ghost var q0, a0, at0, cs0 := heap.Queued(), assignments, assignmentTime, conflictSinceAssignment;
      for i := 0 to |events|
        invariant Valid() && EventsProcessed(events, i, q0, a0, at0, cs0)
      {
        ProcessEventAt(events, i, q0, a0, at0, cs0);
      }
      assert events[..|events|] == events;
    }

    /** The state after the first `i` events, from the queue and trail `q0`, `a0`, `at0`, `cs0`. */
    ghost predicate EventsProcessed(events: seq<Event>, i: nat, q0: set<VarRef>, a0: seq<VarRef>,
                                    at0: map<VarRef, nat>, cs0: map<VarRef, nat>)
      requires i <= |events|
      reads this, heap
    {
      && heap.Queued() == q0 + WakeUps(presences, events[..i])
      && (var dv := DecisionVars(events[..i], heap.declared);
          && assignments == a0 + dv
          && assignmentTime == Stamp(at0, dv, numConflicts)
          && conflictSinceAssignment == Stamp(cs0, dv, 0))
      && forall j :: i <= j < |events| && events[j].variable in heap.declared ==> events[j].variable !in assignmentTime
    }

    /** The `i`-th step of the `process_events` loop. */
    method ProcessEventAt(events: seq<Event>, i: nat, ghost q0: set<VarRef>, ghost a0: seq<VarRef>,
                          ghost at0: map<VarRef, nat>, ghost cs0: map<VarRef, nat>)
      requires i < |events| && Valid() && EventsProcessed(events, i, q0, a0, at0, cs0)
      requires forall i, j :: 0 <= i < j < |events| && events[i].variable in heap.declared ==> events[i].variable != events[j].variable
      modifies this`assignments, this`assignmentTime, this`conflictSinceAssignment, heap`queue
      ensures Valid() && EventsProcessed(events, i + 1, q0, a0, at0, cs0)
    {
      hide Valid, VarSelect.Queued, WakeUps, DecisionVars, Stamp;
      var e := events[i];
      EventsSnoc(presences, events, i, heap.declared);
      ghost var dv := DecisionVars(events[..i], heap.declared);
      ghost var dv' := DecisionVars(events[..i + 1], heap.declared);
      ProcessEvent(e);
      if e.variable in heap.declared {
        assert dv' == dv + [e.variable];
        StampSnoc(at0, dv, e.variable, numConflicts);
        StampSnoc(cs0, dv, e.variable, 0);
      } else {
        assert dv' == dv;
      }
    }

    /** One event of `process_events`. */
    method ProcessEvent(e: Event)
      requires Valid()
      requires e.variable in heap.declared ==> e.variable !in assignmentTime
      modifies this`assignments, this`assignmentTime, this`conflictSinceAssignment, heap`queue
      ensures Valid()
      ensures heap.Queued() == old(heap.Queued()) + set v | v in WatchesOn(presences, e.newLiteral)
      ensures e.variable in heap.declared ==>
        && assignments == old(assignments) + [e.variable]
        && assignmentTime == old(assignmentTime)[e.variable := numConflicts]
        && conflictSinceAssignment == old(conflictSinceAssignment)[e.variable := 0]
      ensures e.variable !in heap.declared ==>
        && assignments == old(assignments) && assignmentTime == old(assignmentTime)
        && conflictSinceAssignment == old(conflictSinceAssignment)
    {
      Unpack();
      var ws := WatchesOn(presences, e.newLiteral);
      forall k | 0 <= k < |ws| ensures ws[k] in heap.declared {
        assert ws[k] in ws;
      }
      heap.EnqueueAll(ws);
      if e.variable in heap.declared {
        var v := e.variable;
        conflictSinceAssignment := conflictSinceAssignment[v := 0];
        assignmentTime := assignmentTime[v := numConflicts];
        assignments := assignments + [v];
      }
      Pack();
    }

    /** `import_vars`: the new variables are declared, then the pending events processed. */
    method ImportVars(numVars: nat, isPrec: VarRef -> bool, presence: VarRef -> Lit, entailed: Lit -> bool,
                      events: seq<Event>)
      requires Valid()
      requires var declared := heap.declared + PrecsIn(numProcessedVar, numVars, isPrec);
        && (forall i :: 0 <= i < |events| && events[i].variable in declared ==> events[i].variable !in assignmentTime)
        && (forall i, j :: 0 <= i < j < |events| && events[i].variable in declared ==> events[i].variable != events[j].variable)
      modifies this`numProcessedVar, this`presences, this`assignments, this`assignmentTime,
               this`conflictSinceAssignment, heap`declared, heap`queue
      ensures Valid()
      ensures numProcessedVar == if numVars > old(numProcessedVar) then numVars else old(numProcessedVar)
      ensures heap.declared == old(heap.declared) + PrecsIn(old(numProcessedVar), numVars, isPrec)
      ensures presences == old(presences) + NewWatches(old(numProcessedVar), numVars, isPrec, presence)
      ensures heap.Queued() == old(heap.Queued()) + WokenIn(old(numProcessedVar), numVars, isPrec, presence, entailed)
                                                  + WakeUps(presences, events)
      ensures assignments == old(assignments) + DecisionVars(events, heap.declared)
    {
      DeclareNewVariables(numVars, isPrec, presence, entailed);
      ProcessEvents(events);
    }

    /** `set_default_value`. */
    method SetDefaultValue(v: VarRef, val: int)
      modifies this`defaults
      ensures defaults == old(defaults)[v := val]
    {
      defaults := defaults[v := val];
    }

    /**
     * `new_assignment_found`: when no solution was known before or the new objective is
     * strictly smaller, the objective is kept and every value of the solution becomes the
     * default of its variable; otherwise nothing changes.
     */
    method NewAssignmentFound(objective: int, assignment: seq<(VarRef, int)>)
      modifies this`objectiveFound, this`defaults
      ensures var improvement := old(objectiveFound).None? || objective < old(objectiveFound).value;
        && (improvement ==> objectiveFound == Some(objective) && defaults == Overwrite(old(defaults), assignment))
        && (!improvement ==> objectiveFound == old(objectiveFound) && defaults == old(defaults))
    {
      var improvement := match objectiveFound { case None => true case Some(prev) => objective < prev };
      if improvement {
        objectiveFound := Some(objective);
        for i := 0 to |assignment|
          invariant objectiveFound == Some(objective)
          invariant defaults == Overwrite(old(defaults), assignment[..i])
        {
          assert assignment[..i + 1][..i] == assignment[..i];
          SetDefaultValue(assignment[i].0, assignment[i].1);
        }
        assert assignment[..|assignment|] == assignment;
      }
    }

    /**
     * The counting part of `conflict`: one more conflict, and one more involvement for every
     * culprit literal on a decision variable. The source's debug assertion requires every
     * such variable to have an assignment time.
     */
    method Conflict(culprits: seq<Lit>)
      requires Valid()
      requires forall i :: 0 <= i < |culprits| && Variable(culprits[i]) in heap.declared ==>
        Variable(culprits[i]) in assignmentTime
      modifies this`numConflicts, this`conflictSinceAssignment
      ensures Valid()
      ensures numConflicts == old(numConflicts) + 1
      ensures conflictSinceAssignment.Keys == old(conflictSinceAssignment).Keys
      ensures forall v :: v in conflictSinceAssignment ==>
        conflictSinceAssignment[v] == old(conflictSinceAssignment)[v] + if v in heap.declared then CountOn(culprits, v) else 0
    {
      Unpack();
      hide Valid, VarSelect.Valid, Declarations, CountOn;
      numConflicts := numConflicts + 1;
      for i := 0 to |culprits|
        invariant numConflicts == old(numConflicts) + 1
        invariant conflictSinceAssignment.Keys == old(conflictSinceAssignment).Keys
        invariant forall v :: v in conflictSinceAssignment ==>
          conflictSinceAssignment[v] == old(conflictSinceAssignment)[v]
                                        + if v in heap.declared then CountOn(culprits[..i], v) else 0
      {
        CountOnSnoc(culprits, i);
        var v := Variable(culprits[i]);
        if v in heap.declared {
          conflictSinceAssignment := conflictSinceAssignment[v := conflictSinceAssignment[v] + 1];
        }
      }
      assert culprits[..|culprits|] == culprits;
      Pack();
    }

    /** `save_state`: a save point on both trails; the new number of save points. */
    method SaveState() returns (lvl: nat)
      requires Valid()
      modifies this`assignmentsSaved, heap`saved
      ensures Valid()
      ensures assignmentsSaved == old(assignmentsSaved) + [|assignments|]
      ensures heap.saved == old(heap.saved) + [|heap.trail|] && lvl == |heap.saved|
    {
      assignmentsSaved := assignmentsSaved + [|assignments|];
      lvl := heap.SaveState();
    }

    /**
     * `restore_last`: the decision variables bound since the last save point lose their
     * assignment time, and the queue gets back the variables removed since that point.
     */
    method RestoreLast()
      requires Valid() && |heap.saved| > 0
      modifies this`assignments, this`assignmentsSaved, this`assignmentTime, heap`queue, heap`trail, heap`saved
      ensures Valid()
      ensures assignments == old(assignments)[..old(assignmentsSaved)[|old(assignmentsSaved)| - 1]]
      ensures assignmentsSaved == old(assignmentsSaved)[..|old(assignmentsSaved)| - 1]
      ensures forall v :: v in assignmentTime <==> v in assignments
      ensures forall v :: v in assignmentTime ==> assignmentTime[v] == old(assignmentTime)[v]
      ensures heap.Queued() == old(heap.Queued()) + old(heap.RemovedSinceSave())
      ensures heap.trail == old(heap.trail)[..old(heap.saved)[|old(heap.saved)| - 1]]
      ensures heap.saved == old(heap.saved)[..|old(heap.saved)| - 1]
    {
      Unpack();
      var sp := assignmentsSaved[|assignmentsSaved| - 1];
      assignmentsSaved := assignmentsSaved[..|assignmentsSaved| - 1];
      UnwindAssignments(sp);
      heap.RestoreLast();
      Pack();
    }

    /** The assignment trail popped down to length `sp`, each popped variable losing its time. */
    method UnwindAssignments(sp: nat)
      requires sp <= |assignments|
      requires forall i, j :: 0 <= i < j < |assignments| ==> assignments[i] != assignments[j]
      requires forall v :: v in assignmentTime <==> v in assignments
      modifies this`assignments, this`assignmentTime
      ensures assignments == old(assignments)[..sp]
      ensures forall v :: v in assignmentTime <==> v in assignments
      ensures forall v :: v in assignmentTime ==> assignmentTime[v] == old(assignmentTime)[v]
    {
      while |assignments| > sp
        invariant sp <= |assignments| <= |old(assignments)| && assignments == old(assignments)[..|assignments|]
        invariant forall v :: v in assignmentTime <==> v in assignments
        invariant forall v :: v in assignmentTime ==> assignmentTime[v] == old(assignmentTime)[v]
        decreases |assignments|
      {
        var v := assignments[|assignments| - 1];
        assert old(assignments)[..|assignments|][..|assignments| - 1] == old(assignments)[..|assignments| - 1];
        assignmentTime := assignmentTime - {v};
        assignments := assignments[..|assignments| - 1];
      }
    }

    /** The head of the queue popped, the removal going on the trail. */
    method DropHead()
      requires Valid() && heap.queue != []
      modifies heap`queue, heap`trail
      ensures Valid()
      ensures heap.queue == old(heap.queue)[1..] && heap.trail == old(heap.trail) + [old(heap.queue)[0]]
    {
      var _ := heap.Pop();
    }

    /**
     * The loop of `next_decision`: the head of the queue is popped while it is not undecided;
     * the first undecided head, if any, stays in place and is returned.
     */
    method SkipDecided(present: VarRef -> Option<bool>, domain: VarRef -> IntDomain) returns (next: Option<VarRef>)
      requires Valid()
      modifies heap`queue, heap`trail
      ensures Valid() && |heap.queue| <= |old(heap.queue)|
      ensures heap.queue == old(heap.queue)[|old(heap.queue)| - |heap.queue|..]
      ensures heap.trail == old(heap.trail) + old(heap.queue)[..|old(heap.queue)| - |heap.queue|]
      ensures forall i :: 0 <= i < |old(heap.queue)| - |heap.queue| ==> !Undecided(old(heap.queue)[i], present, domain)
      ensures next.None? ==> heap.queue == []
      ensures next.Some? ==> heap.queue != [] && next.value == heap.queue[0] && Undecided(next.value, present, domain)
    {
      ghost var k := 0;
      next := None;
      while true
        invariant Valid() && 0 <= k <= |old(heap.queue)|
        invariant heap.queue == old(heap.queue)[k..] && heap.trail == old(heap.trail) + old(heap.queue)[..k]
        invariant forall i :: 0 <= i < k ==> !Undecided(old(heap.queue)[i], present, domain)
        invariant next.Some? ==> heap.queue != [] && next.value == heap.queue[0] && Undecided(next.value, present, domain)
        decreases |heap.queue|, if next.None? then 1 else 0
      {
        var p := heap.Peek();
        match p {
          case None =>
            break;
          case Some(v) =>
            if !Undecided(v, present, domain) {
              DropHead();
              assert old(heap.queue)[..k + 1] == old(heap.queue)[..k] + [v];
              k := k + 1;
            } else {
              next := Some(v);
              break;
            }
        }
      }
    }

    /**
     * `next_decision`: after importing the new variables, the queue's head is dropped while
     * it is bound or not surely present; the first variable that is neither gets the
     * decision literal of its default value, and an exhausted queue gives no decision.
     * A variable that was queued and is still undecided is never dropped.
     */
    method NextDecision(numVars: nat, isPrec: VarRef -> bool, presence: VarRef -> Lit, entailed: Lit -> bool,
                        events: seq<Event>, present: VarRef -> Option<bool>, domain: VarRef -> IntDomain)
      returns (r: Option<Lit>)
      requires Valid()
      requires var declared := heap.declared + PrecsIn(numProcessedVar, numVars, isPrec);
        && (forall i :: 0 <= i < |events| && events[i].variable in declared ==> events[i].variable !in assignmentTime)
        && (forall i, j :: 0 <= i < j < |events| && events[i].variable in declared ==> events[i].variable != events[j].variable)
      modifies this`numProcessedVar, this`presences, this`assignments, this`assignmentTime,
               this`conflictSinceAssignment, heap`declared, heap`queue, heap`trail
      ensures Valid()
      ensures |old(heap.trail)| <= |heap.trail| && heap.trail[..|old(heap.trail)|] == old(heap.trail)
      ensures forall i :: |old(heap.trail)| <= i < |heap.trail| ==> !Undecided(heap.trail[i], present, domain)
      ensures forall v :: v in old(heap.Queued()) && Undecided(v, present, domain) ==> v in heap.Queued()
      ensures r.None? ==> heap.queue == []
      ensures r.Some? ==> && heap.queue != [] && Undecided(heap.queue[0], present, domain)
                          && r.value == DecisionLiteral(heap.queue[0], domain(heap.queue[0]), DefaultOf(heap.queue[0]))
    {
      ImportVars(numVars, isPrec, presence, entailed, events);
      ghost var imported := heap.queue;
      var next := SkipDecided(present, domain);
      forall v | v in imported && Undecided(v, present, domain) ensures v in heap.Queued() {
        var j :| 0 <= j < |imported| && imported[j] == v;
        assert heap.queue[j - (|imported| - |heap.queue|)] == v;
      }
      r := match next {
        case None => None
        case Some(v) => Some(DecisionLiteral(v, domain(v), DefaultOf(v)))
      };
    }
  }
}
