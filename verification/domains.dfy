/**
 * The integer bound store of the model (model/src/int_model/domains.rs).
 *
 * Every variable has two bounds, stored as upper bounds of signed variables: the
 * upper bound of `+v` is `ub(v)` and the upper bound of `-v` is `-lb(v)`. A bound
 * (a `VarBound`) is a signed variable, stored at index `2v` for `-v` and `2v+1` for
 * `+v`. Every change is recorded in an event trail that supports undo.
 */
module Domains {
  import opened Wrappers
  import opened Lits

  /** `VarBound`: a signed variable; `plus` is the upper bound, `minus` the lower bound. */
  type VarBound = SignedVar

  function Idx(vb: VarBound): nat { 2 * vb.variable + (if vb.plus then 1 else 0) }

  function VarBoundAt(i: nat): (vb: VarBound)
    ensures Idx(vb) == i
  {
    SignedVar(i / 2, i % 2 == 1)
  }

  lemma IdxInjective(a: VarBound, b: VarBound)
    ensures Idx(a) == Idx(b) <==> a == b
    ensures Idx(a.Neg()) == (if a.plus then Idx(a) - 1 else Idx(a) + 1)
  {
  }

  /** `BoundValue::compatible_with_symmetric`: `lb <= ub`, i.e. the two stored values sum to at least 0. */
  predicate CompatibleWithSymmetric(v: int, other: int) { v + other >= 0 }

  datatype Cause = Decision | Inference(writer: nat, payload: nat)

  datatype EmptyDomain = EmptyDomain(variable: VarRef)

  datatype Event = Event(affectedBound: VarBound, cause: Cause, previousValue: int, newValue: int,
                         previousEvent: Option<nat>)

  /** The event makes `lit` true while it was previously unknown. */
  predicate MakesTrue(e: Event, lit: Lit)
  {
    e.newValue <= lit.ub && !(e.previousValue <= lit.ub)
  }

  /** The part of the store that undoing an event restores. */
  datatype Snapshot = Snapshot(bounds: seq<int>, causes: seq<Option<nat>>)

  function UndoOne(s: Snapshot, e: Event): (r: Snapshot)
    ensures |r.bounds| == |s.bounds| && |r.causes| == |s.causes|
  {
    var i := Idx(e.affectedBound);
    if i < |s.bounds| && i < |s.causes| then
      Snapshot(s.bounds[i := e.previousValue], s.causes[i := e.previousEvent])
    else s
  }

  /** Undo the events of `evs`, the last one first. */
  function UndoAll(s: Snapshot, evs: seq<Event>): (r: Snapshot)
    ensures |r.bounds| == |s.bounds| && |r.causes| == |s.causes|
  {
    if evs == [] then s else UndoOne(UndoAll(s, evs[1..]), evs[0])
  }

  function Prefix(s: Snapshot, t: Snapshot): Snapshot
    requires |t.bounds| <= |s.bounds| && |t.causes| <= |s.causes|
  {
    Snapshot(s.bounds[..|t.bounds|], s.causes[..|t.causes|])
  }

  lemma {:induction false} UndoAllAppend(s: Snapshot, evs: seq<Event>, e: Event)
    ensures UndoAll(s, evs + [e]) == UndoAll(UndoOne(s, e), evs)
    decreases |evs|
  {
    if evs == [] {
      assert [e][1..] == [];
    } else {
      assert (evs + [e])[1..] == evs[1..] + [e];
      UndoAllAppend(s, evs[1..], e);
    }
  }

  /** Undoing events that only touch existing bounds leaves bounds appended later untouched. */
  lemma {:induction false} UndoAllExtend(s: Snapshot, evs: seq<Event>, xb: seq<int>, xc: seq<Option<nat>>)
    requires |s.bounds| == |s.causes|
    requires forall k :: 0 <= k < |evs| ==> Idx(evs[k].affectedBound) < |s.bounds|
    ensures UndoAll(Snapshot(s.bounds + xb, s.causes + xc), evs)
         == Snapshot(UndoAll(s, evs).bounds + xb, UndoAll(s, evs).causes + xc)
    decreases |evs|
  {
    if evs != [] {
      UndoAllExtend(s, evs[1..], xb, xc);
      var u := UndoAll(s, evs[1..]);
      var i := Idx(evs[0].affectedBound);
      assert (u.bounds + xb)[i := evs[0].previousValue] == u.bounds[i := evs[0].previousValue] + xb;
      assert (u.causes + xc)[i := evs[0].previousEvent] == u.causes[i := evs[0].previousEvent] + xc;
    }
  }

  class Domains {
    var bounds: seq<int>
    var causesIndex: seq<Option<nat>>
    var events: seq<Event>
    /** Number of events at each saved state (the trail's save points). */
    var savePoints: seq<nat>
    /** For every event, the bounds and cause indices just before it was pushed. */
    ghost var history: seq<Snapshot>

    ghost function Current(): Snapshot
      reads this`bounds, this`causesIndex
    {
      Snapshot(bounds, causesIndex)
    }

    ghost predicate EventOk(k: nat)
      reads this`events, this`bounds
      requires k < |events|
    {
      var e := events[k];
      Idx(e.affectedBound) < |bounds| &&
      e.newValue < e.previousValue &&
      match e.previousEvent
      case None => true
      case Some(j) => j < k && events[j].affectedBound == e.affectedBound && events[j].newValue == e.previousValue
    }

    ghost predicate CauseOk(i: nat)
      reads this`causesIndex, this`bounds, this`events
      requires i < |causesIndex| && i < |bounds|
    {
      match causesIndex[i]
      case None => true
      case Some(k) => k < |events| && Idx(events[k].affectedBound) == i && events[k].newValue == bounds[i]
    }

    ghost predicate HistoryOk(k: nat)
      reads this`events, this`bounds, this`causesIndex, this`history
      requires k < |events| && k < |history|
    {
      |history[k].bounds| <= |bounds| && |history[k].causes| <= |causesIndex| &&
      Prefix(UndoAll(Current(), events[k..]), history[k]) == history[k]
    }

    ghost predicate Valid()
      reads this
    {
      |bounds| == |causesIndex| && |bounds| % 2 == 0 &&
      (forall k :: 0 <= k < |events| ==> EventOk(k)) &&
      (forall i :: 0 <= i < |bounds| ==> CauseOk(i)) &&
      (forall n :: 0 <= n < |savePoints| ==> savePoints[n] <= |events|) &&
      (forall n, m :: 0 <= n < m < |savePoints| ==> savePoints[n] <= savePoints[m]) &&
      |history| == |events| &&
      (forall k :: 0 <= k < |events| ==> HistoryOk(k))
    }

    constructor ()
      ensures Valid()
      ensures bounds == [] && causesIndex == [] && events == [] && savePoints == []
    {
      bounds := [];
      causesIndex := [];
      events := [];
      savePoints := [];
      history := [];
    }

    function NumVars(): nat
      reads this
    {
      |bounds| / 2
    }

    function Ub(v: VarRef): int
      reads this
      requires Idx(Plus(v)) < |bounds|
    {
      bounds[Idx(Plus(v))]
    }

    function Lb(v: VarRef): int
      reads this
      requires Idx(Plus(v)) < |bounds|
    {
      -bounds[Idx(Minus(v))]
    }

    /** `(lb, ub)` of a variable: the strongest lower and upper bounds the store entails. */
    function Bounds(v: VarRef): (r: (int, int))
      reads this
      requires Idx(Plus(v)) < |bounds|
      ensures forall d :: Entails(GeqLit(Plus(v), d)) <==> d <= r.0
      ensures forall d :: Entails(LeqLit(Plus(v), d)) <==> r.1 <= d
    {
      (Lb(v), Ub(v))
    }

    /** The current upper bound of a signed variable. */
    function GetBound(vb: VarBound): int
      reads this
      requires Idx(vb) < |bounds|
    {
      bounds[Idx(vb)]
    }

    /** The stored bound is at least as strong as the literal. */
    function Entails(lit: Lit): (r: bool)
      reads this
      requires Idx(lit.svar) < |bounds|
      ensures r <==> Lits.Entails(Lit(lit.svar, GetBound(lit.svar)), lit)
    {
      bounds[Idx(lit.svar)] <= lit.ub
    }

    method NewVar(lb: int, ub: int) returns (v: VarRef)
      requires Valid()
      modifies this
      ensures Valid()
      ensures v == old(NumVars()) && NumVars() == v + 1
      ensures bounds == old(bounds) + [-lb, ub] && causesIndex == old(causesIndex) + [None, None]
      ensures Bounds(v) == (lb, ub)
      ensures forall d :: Entails(GeqLit(Plus(v), d)) <==> d <= lb
      ensures forall d :: Entails(LeqLit(Plus(v), d)) <==> ub <= d
      ensures events == old(events) && savePoints == old(savePoints)
    {
      v := |bounds| / 2;
      var oldState := Current();
      bounds := bounds + [-lb, ub];
      causesIndex := causesIndex + [None, None];
      forall k | 0 <= k < |events|
        ensures EventOk(k)
      {
        assert old(EventOk(k));
      }
      forall j | 0 <= j < |bounds|
        ensures CauseOk(j)
      {
        if j < |oldState.bounds| {
          assert old(CauseOk(j));
        }
      }
      forall k | 0 <= k < |events|
        ensures HistoryOk(k)
      {
        assert old(HistoryOk(k));
        forall j | 0 <= j < |events[k..]|
          ensures Idx(events[k..][j].affectedBound) < |oldState.bounds|
        {
          assert old(EventOk(k + j));
        }
        UndoAllExtend(oldState, events[k..], [-lb, ub], [None, None]);
      }
    }

    /** Write a new upper bound for `affected` if it is strictly stronger than the current one. */
    method SetBound(affected: VarBound, value: int, cause: Cause) returns (r: Result<bool, EmptyDomain>)
      requires Valid() && Idx(affected) < |bounds|
      modifies this
      ensures Valid()
      ensures savePoints == old(savePoints)
      ensures old(bounds[Idx(affected)]) <= value ==>
        r == Ok(false) && bounds == old(bounds) && causesIndex == old(causesIndex) && events == old(events)
      ensures value < old(bounds[Idx(affected)]) ==>
        && bounds == old(bounds)[Idx(affected) := value]
        && causesIndex == old(causesIndex)[Idx(affected) := Some(|old(events)|)]
        && events == old(events) + [Event(affected, cause, old(bounds[Idx(affected)]), value, old(causesIndex[Idx(affected)]))]
        && (r == Ok(true) <==> CompatibleWithSymmetric(value, bounds[Idx(affected.Neg())]))
        && (r.Err? <==> !CompatibleWithSymmetric(value, bounds[Idx(affected.Neg())]))
        && (r.Err? ==> r.error == EmptyDomain(affected.variable))
    {
      var i := Idx(affected);
      var prev := bounds[i];
      if prev <= value {
        return Ok(false);
      }
      var oldState := Current();
      var previousEvent := causesIndex[i];
      var e := Event(affected, cause, prev, value, previousEvent);
      bounds := bounds[i := value];
      causesIndex := causesIndex[i := Some(|events|)];
      events := events + [e];
      history := history + [oldState];
      assert UndoOne(Current(), e) == oldState;
      forall k | 0 <= k < |events|
        ensures EventOk(k)
      {
        if k < |events| - 1 {
          assert old(EventOk(k));
        } else {
          assert old(CauseOk(i));
          if previousEvent.Some? {
            IdxInjective(affected, events[previousEvent.value].affectedBound);
          }
        }
      }
      forall j | 0 <= j < |bounds|
        ensures CauseOk(j)
      {
        assert old(CauseOk(j));
      }
      forall k | 0 <= k < |events|
        ensures HistoryOk(k)
      {
        if k < |events| - 1 {
          assert old(HistoryOk(k));
          assert events[k..] == old(events)[k..] + [e];
          UndoAllAppend(Current(), old(events)[k..], e);
        } else {
          assert events[k..] == [e];
          assert UndoAll(Current(), [e]) == UndoOne(UndoAll(Current(), []), e);
        }
      }
      IdxInjective(affected, affected.Neg());
      var other := bounds[Idx(affected.Neg())];
      if CompatibleWithSymmetric(value, other) {
        r := Ok(true);
      } else {
        r := Err(EmptyDomain(affected.variable));
      }
    }

    method Set(lit: Lit, cause: Cause) returns (r: Result<bool, EmptyDomain>)
      requires Valid() && Idx(lit.svar) < |bounds|
      modifies this
      ensures Valid()
      ensures savePoints == old(savePoints)
      ensures old(Entails(lit)) ==> r == Ok(false) && bounds == old(bounds) && events == old(events)
      ensures !old(Entails(lit)) ==>
        && bounds == old(bounds)[Idx(lit.svar) := lit.ub]
        && events == old(events) + [Event(lit.svar, cause, old(bounds[Idx(lit.svar)]), lit.ub, old(causesIndex[Idx(lit.svar)]))]
        && (r == Ok(true) <==> CompatibleWithSymmetric(lit.ub, bounds[Idx(lit.svar.Neg())]))
        && (r.Err? ==> r.error == EmptyDomain(lit.svar.variable))
        && (r.Ok? ==> r.value)
    {
      r := SetBound(lit.svar, lit.ub, cause);
    }

    /** The variables whose lower and upper bounds coincide, with that value, in increasing order. */
    method BoundVariables() returns (r: seq<(VarRef, int)>)
      requires Valid()
      ensures forall v: VarRef, x: int :: (v, x) in r <==> v < NumVars() && Lb(v) == Ub(v) == x
      ensures forall p, q :: 0 <= p < q < |r| ==> r[p].0 < r[q].0
    {
      r := [];
      var v := 0;
      while v < |bounds| / 2
        invariant v <= NumVars()
        invariant forall w: VarRef, x: int :: (w, x) in r <==> w < v && Lb(w) == Ub(w) == x
        invariant forall p, q :: 0 <= p < q < |r| ==> r[p].0 < r[q].0
        invariant forall p :: 0 <= p < |r| ==> r[p].0 < v
      {
        var lb := Lb(v);
        var ub := Ub(v);
        if lb == ub {
          r := r + [(v, lb)];
        }
        v := v + 1;
      }
    }

    /** The event chain of a bound, most recent event first. */
    ghost function Chain(cur: Option<nat>): (c: seq<nat>)
      reads this
      requires Valid()
      requires cur.Some? ==> cur.value < |events|
      ensures forall n :: 0 <= n < |c| ==> c[n] < |events|
      decreases if cur.Some? then cur.value + 1 else 0
    {
      match cur
      case None => []
      case Some(k) =>
        assert EventOk(k);
        [k] + Chain(events[k].previousEvent)
    }

    /** The latest event in the chain of `lit`'s bound that made `lit` true, if any. */
    method ImplyingEvent(lit: Lit) returns (r: Option<nat>)
      requires Valid() && Idx(lit.svar) < |bounds|
      ensures r.Some? ==> r.value < |events| && events[r.value].affectedBound == lit.svar && MakesTrue(events[r.value], lit)
      ensures assert CauseOk(Idx(lit.svar));
        var chain := Chain(causesIndex[Idx(lit.svar)]);
        match r
        case None => forall n :: 0 <= n < |chain| ==> !MakesTrue(events[chain[n]], lit)
        case Some(k) => exists m :: 0 <= m < |chain| && chain[m] == k &&
                          forall n :: 0 <= n < m ==> !MakesTrue(events[chain[n]], lit)
    {
      var i := Idx(lit.svar);
      assert CauseOk(i);
      var cur := causesIndex[i];
      ghost var visited: seq<nat> := [];
      while cur.Some?
        invariant cur.Some? ==> cur.value < |events| && events[cur.value].affectedBound == lit.svar
        invariant Chain(causesIndex[i]) == visited + Chain(cur)
        invariant forall n :: 0 <= n < |visited| ==> visited[n] < |events|
        invariant forall n :: 0 <= n < |visited| ==> !MakesTrue(events[visited[n]], lit)
        decreases if cur.Some? then cur.value + 1 else 0
      {
        var k := cur.value;
        var ev := events[k];
        if MakesTrue(ev, lit) {
          break;
        }
        assert EventOk(k);
        visited := visited + [k];
        cur := ev.previousEvent;
      }
      r := cur;
      if r.Some? {
        assert Chain(causesIndex[i])[|visited|] == r.value;
      }
    }

    /** Undo the most recent event and return its cause. */
    method UndoLastEvent() returns (cause: Cause)
      requires Valid() && |events| > 0
      requires |savePoints| == 0 || savePoints[|savePoints| - 1] < |events|
      modifies this
      ensures Valid()
      ensures var e := old(events[|events| - 1]);
        && cause == e.cause
        && events == old(events[..|events| - 1])
        && Idx(e.affectedBound) < |old(bounds)|
        && bounds == old(bounds)[Idx(e.affectedBound) := e.previousValue]
        && causesIndex == old(causesIndex)[Idx(e.affectedBound) := e.previousEvent]
      ensures var h := old(history[|events| - 1]);
        |h.bounds| <= |bounds| && |h.causes| <= |causesIndex| && Prefix(Current(), h) == h
      ensures savePoints == old(savePoints) && history == old(history[..|events| - 1])
    {
      var n := |events| - 1;
      var e := events[n];
      assert HistoryOk(n) && EventOk(n);
      assert events[n..] == [e];
      assert UndoAll(Current(), [e]) == UndoOne(UndoAll(Current(), []), e);
      UndoEvent(e);
      events := events[..n];
      history := history[..n];
      cause := e.cause;
      forall k | 0 <= k < |events|
        ensures EventOk(k)
      {
        assert old(EventOk(k));
      }
      forall j | 0 <= j < |bounds|
        ensures CauseOk(j)
      {
        assert old(CauseOk(j));
        if j == Idx(e.affectedBound) && e.previousEvent.Some? {
          IdxInjective(e.affectedBound, old(events)[e.previousEvent.value].affectedBound);
        }
      }
      forall k | 0 <= k < |events|
        ensures HistoryOk(k)
      {
        assert old(HistoryOk(k));
        assert old(events)[k..] == events[k..] + [e];
        UndoAllAppend(old(Current()), events[k..], e);
      }
    }

    /** Record a save point at the current end of the trail; returns the number of saved states. */
    method SaveState() returns (n: nat)
      requires Valid()
      modifies this
      ensures Valid()
      ensures savePoints == old(savePoints) + [|events|] && n == |savePoints|
      ensures bounds == old(bounds) && causesIndex == old(causesIndex) && events == old(events)
    {
      savePoints := savePoints + [|events|];
      n := |savePoints|;
    }

    /** Undo, the most recent first, every event pushed since the last save point, and drop that save point. */
    method RestoreLast()
      requires Valid() && |savePoints| > 0
      modifies this
      ensures Valid()
      ensures var save := old(savePoints[|savePoints| - 1]);
        && savePoints == old(savePoints[..|savePoints| - 1])
        && events == old(events[..save])
        && Current() == UndoAll(old(Current()), old(events[save..]))
      ensures var save := old(savePoints[|savePoints| - 1]);
        save < old(|events|) ==>
          var h := old(history[save]);
          |h.bounds| <= |bounds| && |h.causes| <= |causesIndex| && Prefix(Current(), h) == h
    {
      var save := savePoints[|savePoints| - 1];
      savePoints := savePoints[..|savePoints| - 1];
      ghost var oldEvents := events;
      ghost var oldHistory := history;
      ghost var start := Current();
      while |events| > save
        invariant Valid()
        invariant save <= |events| <= |oldEvents|
        invariant events == oldEvents[..|events|] && history == oldHistory[..|events|]
        invariant savePoints == old(savePoints[..|savePoints| - 1])
        invariant Current() == UndoAll(start, oldEvents[|events|..])
        invariant |events| < |oldEvents| ==>
          var h := oldHistory[|events|];
          |h.bounds| <= |bounds| && |h.causes| <= |causesIndex| && Prefix(Current(), h) == h
        decreases |events|
      {
        ghost var before := Current();
        ghost var m := |events|;
        var _ := UndoLastEvent();
        assert Current() == UndoOne(before, oldEvents[m - 1]);
        assert oldEvents[m - 1..][1..] == oldEvents[m..];
      }
    }

    /** Write back the previous bound value and previous event of `e`. */
    method UndoEvent(e: Event)
      requires Idx(e.affectedBound) < |bounds| && |bounds| == |causesIndex|
      modifies this
      ensures Current() == UndoOne(old(Current()), e)
      ensures events == old(events) && savePoints == old(savePoints) && history == old(history)
    {
      var i := Idx(e.affectedBound);
      bounds := bounds[i := e.previousValue];
      causesIndex := causesIndex[i := e.previousEvent];
    }
  }
}
