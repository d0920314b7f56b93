/**
 * Forward search for HTN planning (planners/src/forward_search.rs): among the present tasks that are
 * not yet decomposed and the present chronicles that are not fully instantiated, pick the one with
 * the earliest start and make a decision on it.
 */
module ForwardSearch {
  import opened Wrappers
  import opened Lits
  import opened Atoms
  import opened Encoding

  /** What the search reads from the solver's model: entailed literals and variable domains. */
  datatype ModelView = ModelView(entails: Lit -> bool, varDomain: VarRef -> (int, int))

  /** Bounds of an integer atom: its variable's bounds shifted, or the shift of a constant. */
  function DomainOfAtom(m: ModelView, a: IAtom): (r: (int, int))
    ensures a.ivar.None? ==> r == (a.shift, a.shift)
    ensures a.ivar.Some? ==> r == (m.varDomain(a.ivar.value).0 + a.shift, m.varDomain(a.ivar.value).1 + a.shift)
  {
    if a.ivar.Some? then (m.varDomain(a.ivar.value).0 + a.shift, m.varDomain(a.ivar.value).1 + a.shift)
    else (a.shift, a.shift)
  }

  /** A subtask of a chronicle instance with its position and the instance's presence. */
  datatype Task = Task(instanceId: nat, taskId: nat, presence: Lit, details: SubTask)

  function TasksOf(pb: FiniteProblem, i: nat): seq<Task>
    requires i < |pb.chronicles|
  {
    var ch := pb.chronicles[i].chronicle;
    seq(|ch.subtasks|, k requires 0 <= k < |ch.subtasks| => Task(i, k, ch.presence, ch.subtasks[k]))
  }

  function TasksUpTo(pb: FiniteProblem, n: nat): (r: seq<Task>)
    requires n <= |pb.chronicles|
    ensures forall t :: t in r ==>
      && t.instanceId < n
      && t.taskId < |pb.chronicles[t.instanceId].chronicle.subtasks|
      && t == Task(t.instanceId, t.taskId, pb.chronicles[t.instanceId].chronicle.presence,
                   pb.chronicles[t.instanceId].chronicle.subtasks[t.taskId])
  {
    if n == 0 then [] else TasksUpTo(pb, n - 1) + TasksOf(pb, n - 1)
  }

  /** Every subtask of every chronicle instance. */
  function AllTasks(pb: FiniteProblem): seq<Task>
  {
    TasksUpTo(pb, |pb.chronicles|)
  }

  /** Every subtask of every instance among the first `n` is enumerated. */
  lemma {:induction false} TasksUpToComplete(pb: FiniteProblem, n: nat, i: nat, k: nat)
    requires i < n <= |pb.chronicles| && k < |pb.chronicles[i].chronicle.subtasks|
    ensures Task(i, k, pb.chronicles[i].chronicle.presence, pb.chronicles[i].chronicle.subtasks[k]) in TasksUpTo(pb, n)
  {
    if i < n - 1 {
      TasksUpToComplete(pb, n - 1, i, k);
    } else {
      assert TasksOf(pb, i)[k] == Task(i, k, pb.chronicles[i].chronicle.presence, pb.chronicles[i].chronicle.subtasks[k]);
    }
  }

  // ---------------------------------------------------------------- minimum by key

  predicate KeyLt(a: (int, int), b: (int, int))
  {
    a.0 < b.0 || (a.0 == b.0 && a.1 < b.1)
  }

  /** `min_by_key`: the position of the first element whose key is smallest. */
  function MinIndexByKey<T>(xs: seq<T>, key: T -> (int, int)): (r: nat)
    requires |xs| > 0
    ensures r < |xs|
    ensures forall j :: 0 <= j < |xs| ==> !KeyLt(key(xs[j]), key(xs[r]))
    ensures forall j :: 0 <= j < r ==> KeyLt(key(xs[r]), key(xs[j]))
  {
    if |xs| == 1 then 0
    else
      var k := MinIndexByKey(xs[..|xs| - 1], key);
      assert forall j :: 0 <= j < |xs| - 1 ==> xs[..|xs| - 1][j] == xs[j];
      if KeyLt(key(xs[|xs| - 1]), key(xs[k])) then |xs| - 1 else k
  }

  function MinByKey<T>(xs: seq<T>, key: T -> (int, int)): (r: Option<T>)
    ensures r.None? <==> |xs| == 0
    ensures r.Some? ==> r.value in xs && forall x :: x in xs ==> !KeyLt(key(x), key(r.value))
    ensures r.Some? ==> exists i :: 0 <= i < |xs| && xs[i] == r.value && forall j :: 0 <= j < i ==> KeyLt(key(r.value), key(xs[j]))
  {
    if |xs| == 0 then None else Some(xs[MinIndexByKey(xs, key)])
  }

  // ---------------------------------------------------------------- variables

  /** `IVar::try_from(IAtom)`: an integer atom is a variable when it has one and no shift. */
  function AsVariable(a: IAtom): (r: Option<VarRef>)
    ensures r.Some? <==> a.ivar.Some? && a.shift == 0
  {
    if a.ivar.Some? && a.shift == 0 then Some(a.ivar.value) else None
  }

  /** The variables of the atoms whose integer view is a plain variable, in order. */
  function Variables(atoms: seq<Atom>, symView: SAtom -> IAtom): (r: seq<VarRef>)
    ensures |r| <= |atoms|
    ensures forall v :: v in r <==> exists a :: a in atoms && IntView(a, symView).Some? && AsVariable(IntView(a, symView).value) == Some(v)
  {
    if |atoms| == 0 then []
    else
      var rest := Variables(atoms[1..], symView);
      var view := IntView(atoms[0], symView);
      assert forall a :: a in atoms <==> a == atoms[0] || a in atoms[1..];
      if view.Some? && AsVariable(view.value).Some? then [AsVariable(view.value).value] + rest else rest
  }

  /** A constant atom contributes no variable. */
  lemma {:induction false} ConstantsHaveNoVariable(c: int, l: Lit, symView: SAtom -> IAtom)
    ensures Variables([Int(Cst(c))], symView) == []
    ensures Variables([Bool(TRUE), Bool(FALSE)], symView) == []
  {
    assert [Bool(TRUE), Bool(FALSE)][1..] == [Bool(FALSE)];
  }

  // ---------------------------------------------------------------- candidates

  /** No refinement of the task is known to be present yet. */
  predicate Undecomposed(pb: FiniteProblem, m: ModelView, t: Task)
    requires RefinersHaveTask(pb, TaskId(t.instanceId, t.taskId))
  {
    var refs := Refinements(pb, TaskId(t.instanceId, t.taskId));
    forall k :: 0 <= k < |refs| ==> !m.entails(refs[k].presence)
  }

  /** Every task has the refinement references the source builds for it. */
  predicate WellFormed(pb: FiniteProblem)
  {
    forall i, k :: 0 <= i < |pb.chronicles| && 0 <= k < |pb.chronicles[i].chronicle.subtasks| ==>
      RefinersHaveTask(pb, TaskId(i, k))
  }

  function PendingTasks(pb: FiniteProblem, m: ModelView, ts: seq<Task>): (r: seq<Task>)
    requires WellFormed(pb)
    requires forall t :: t in ts ==> t.instanceId < |pb.chronicles| && t.taskId < |pb.chronicles[t.instanceId].chronicle.subtasks|
    ensures forall t :: t in r <==> t in ts && m.entails(t.presence) && Undecomposed(pb, m, t)
  {
    if |ts| == 0 then []
    else
      var rest := PendingTasks(pb, m, ts[1..]);
      assert forall t :: t in ts <==> t == ts[0] || t in ts[1..];
      if m.entails(ts[0].presence) && Undecomposed(pb, m, ts[0]) then [ts[0]] + rest else rest
  }

  /**
   * A task that comes first among the pending ones with a smaller key than all before it comes so
   * among all tasks too: the filter keeps the order.
   */
  lemma {:induction false} PendingTasksFirst(pb: FiniteProblem, m: ModelView, ts: seq<Task>, key: Task -> (int, int), x: Task, k: nat)
    requires WellFormed(pb)
    requires forall t :: t in ts ==> t.instanceId < |pb.chronicles| && t.taskId < |pb.chronicles[t.instanceId].chronicle.subtasks|
    requires k < |PendingTasks(pb, m, ts)| && PendingTasks(pb, m, ts)[k] == x
    requires forall j :: 0 <= j < k ==> KeyLt(key(x), key(PendingTasks(pb, m, ts)[j]))
    ensures exists i ::
      && 0 <= i < |ts| && ts[i] == x
      && forall j :: 0 <= j < i && m.entails(ts[j].presence) && Undecomposed(pb, m, ts[j]) ==> KeyLt(key(x), key(ts[j]))
    decreases |ts|
  {
    hide Undecomposed;
    var p := PendingTasks(pb, m, ts);
    var rest := PendingTasks(pb, m, ts[1..]);
    var k' := k;
    if m.entails(ts[0].presence) && Undecomposed(pb, m, ts[0]) {
      assert p == [ts[0]] + rest;
      if k == 0 {
        assert ts[0] == x;
        return;
      }
      k' := k - 1;
      forall j | 0 <= j < k' ensures KeyLt(key(x), key(rest[j])) {
        assert rest[j] == p[j + 1];
      }
    } else {
      assert p == rest;
    }
    assert rest[k'] == x;
    PendingTasksFirst(pb, m, ts[1..], key, x, k');
    var i :| 0 <= i < |ts[1..]| && ts[1..][i] == x &&
      forall j :: 0 <= j < i && m.entails(ts[1..][j].presence) && Undecomposed(pb, m, ts[1..][j]) ==> KeyLt(key(x), key(ts[1..][j]));
    forall j | 0 <= j < i + 1 && m.entails(ts[j].presence) && Undecomposed(pb, m, ts[j])
      ensures KeyLt(key(x), key(ts[j]))
    {
      if j == 0 {
        assert p[0] == ts[0];
      } else {
        assert ts[j] == ts[1..][j - 1];
      }
    }
    assert ts[i + 1] == x;
  }

  /**
   * `earliest_pending_task`: among present tasks with no present refinement, the first one whose
   * start has the smallest lower bound.
   */
  function EarliestPendingTask(pb: FiniteProblem, m: ModelView): (r: Option<Task>)
    requires WellFormed(pb)
    ensures r.None? <==> forall t :: t in AllTasks(pb) ==> !(m.entails(t.presence) && Undecomposed(pb, m, t))
    ensures r.Some? ==> r.value in AllTasks(pb) && m.entails(r.value.presence) && Undecomposed(pb, m, r.value)
    ensures r.Some? ==> forall t :: t in AllTasks(pb) && m.entails(t.presence) && Undecomposed(pb, m, t) ==>
      DomainOfAtom(m, r.value.details.start).0 <= DomainOfAtom(m, t.details.start).0
    ensures r.Some? ==> exists i ::
      && 0 <= i < |AllTasks(pb)| && AllTasks(pb)[i] == r.value
      && forall j :: 0 <= j < i && m.entails(AllTasks(pb)[j].presence) && Undecomposed(pb, m, AllTasks(pb)[j]) ==>
        DomainOfAtom(m, r.value.details.start).0 < DomainOfAtom(m, AllTasks(pb)[j].details.start).0
  {
    var pending := PendingTasks(pb, m, AllTasks(pb));
    var key := (t: Task) => (DomainOfAtom(m, t.details.start).0, 0);
    if |pending| == 0 then None
    else
      var k := MinIndexByKey(pending, key);
      PendingTasksFirst(pb, m, AllTasks(pb), key, pending[k], k);
      Some(pending[k])
  }

  /** The chronicle has a parameter variable whose domain is not a single value. */
  predicate HasUnboundParameter(m: ModelView, ch: ChronicleInstance, symView: SAtom -> IAtom)
  {
    exists v :: v in Variables(ch.parameters, symView) && m.varDomain(v).0 < m.varDomain(v).1
  }

  /** A present chronicle with an unbound parameter: a candidate for the next decision. */
  predicate OpenChronicle(m: ModelView, ch: ChronicleInstance, symView: SAtom -> IAtom)
  {
    m.entails(ch.chronicle.presence) && HasUnboundParameter(m, ch, symView)
  }

  function PendingChronicles(m: ModelView, chs: seq<ChronicleInstance>, symView: SAtom -> IAtom): (r: seq<ChronicleInstance>)
    ensures forall ch :: ch in r <==> ch in chs && OpenChronicle(m, ch, symView)
  {
    if |chs| == 0 then []
    else
      var rest := PendingChronicles(m, chs[1..], symView);
      assert forall ch :: ch in chs <==> ch == chs[0] || ch in chs[1..];
      if OpenChronicle(m, chs[0], symView) then [chs[0]] + rest else rest
  }

  /**
   * A chronicle that comes first among the pending ones with a smaller key than all before it comes
   * so among all chronicles too: the filter keeps the order.
   */
  lemma {:induction false} PendingChroniclesFirst(m: ModelView, chs: seq<ChronicleInstance>, symView: SAtom -> IAtom,
                                                  key: ChronicleInstance -> (int, int), x: ChronicleInstance, k: nat)
    requires k < |PendingChronicles(m, chs, symView)| && PendingChronicles(m, chs, symView)[k] == x
    requires forall j :: 0 <= j < k ==> KeyLt(key(x), key(PendingChronicles(m, chs, symView)[j]))
    ensures exists i ::
      && 0 <= i < |chs| && chs[i] == x
      && forall j :: 0 <= j < i && OpenChronicle(m, chs[j], symView) ==>
        KeyLt(key(x), key(chs[j]))
    decreases |chs|
  {
    hide OpenChronicle;
    var p := PendingChronicles(m, chs, symView);
    var rest := PendingChronicles(m, chs[1..], symView);
    var k' := k;
    if OpenChronicle(m, chs[0], symView) {
      assert p == [chs[0]] + rest;
      if k == 0 {
        assert chs[0] == x;
        return;
      }
      k' := k - 1;
      forall j | 0 <= j < k' ensures KeyLt(key(x), key(rest[j])) {
        assert rest[j] == p[j + 1];
      }
    } else {
      assert p == rest;
    }
    assert rest[k'] == x;
    PendingChroniclesFirst(m, chs[1..], symView, key, x, k');
    var i :| 0 <= i < |chs[1..]| && chs[1..][i] == x &&
      forall j :: 0 <= j < i && OpenChronicle(m, chs[1..][j], symView) ==>
        KeyLt(key(x), key(chs[1..][j]));
    forall j | 0 <= j < i + 1 && OpenChronicle(m, chs[j], symView)
      ensures KeyLt(key(x), key(chs[j]))
    {
      if j == 0 {
        assert p[0] == chs[0];
      } else {
        assert chs[j] == chs[1..][j - 1];
      }
    }
    assert chs[i + 1] == x;
  }

  /**
   * `earliest_pending_chronicle`: among present chronicles with an unbound parameter, the first one
   * whose start domain `(lb, ub)` is smallest.
   */
  function EarliestPendingChronicle(pb: FiniteProblem, m: ModelView, symView: SAtom -> IAtom): (r: Option<ChronicleInstance>)
    ensures r.None? <==> forall ch :: ch in pb.chronicles ==> !(m.entails(ch.chronicle.presence) && HasUnboundParameter(m, ch, symView))
    ensures r.Some? ==> r.value in pb.chronicles && m.entails(r.value.chronicle.presence) && HasUnboundParameter(m, r.value, symView)
    ensures r.Some? ==> forall ch :: ch in pb.chronicles && m.entails(ch.chronicle.presence) && HasUnboundParameter(m, ch, symView) ==>
      !KeyLt(DomainOfAtom(m, ch.chronicle.start), DomainOfAtom(m, r.value.chronicle.start))
    ensures r.Some? ==> exists i ::
      && 0 <= i < |pb.chronicles| && pb.chronicles[i] == r.value
      && forall j :: 0 <= j < i && m.entails(pb.chronicles[j].chronicle.presence) && HasUnboundParameter(m, pb.chronicles[j], symView) ==>
        KeyLt(DomainOfAtom(m, r.value.chronicle.start), DomainOfAtom(m, pb.chronicles[j].chronicle.start))
  {
    var pending := PendingChronicles(m, pb.chronicles, symView);
    var key := (ch: ChronicleInstance) => DomainOfAtom(m, ch.chronicle.start);
    if |pending| == 0 then None
    else
      var k := MinIndexByKey(pending, key);
      PendingChroniclesFirst(m, pb.chronicles, symView, key, pending[k], k);
      Some(pending[k])
  }

  // ---------------------------------------------------------------- decisions

  /** A variable whose domain `(lb, ub)` holds a single value. */
  predicate Bound(m: ModelView, v: VarRef)
  {
    m.varDomain(v).0 >= m.varDomain(v).1
  }

  /** The first unbound variable of a list, as `v <= lb`: every variable before it is bound. */
  function FirstUnboundDecision(m: ModelView, vs: seq<VarRef>): (r: Option<Lit>)
    ensures r.None? <==> forall v :: v in vs ==> Bound(m, v)
    ensures r.Some? ==> exists k ::
      && 0 <= k < |vs| && !Bound(m, vs[k]) && r.value == LeqLit(Plus(vs[k]), m.varDomain(vs[k]).0)
      && forall j :: 0 <= j < k ==> Bound(m, vs[j])
  {
    if |vs| == 0 then None
    else if !Bound(m, vs[0]) then Some(LeqLit(Plus(vs[0]), m.varDomain(vs[0]).0))
    else
      assert forall v :: v in vs <==> v == vs[0] || v in vs[1..];
      var r := FirstUnboundDecision(m, vs[1..]);
      assert forall k :: 1 <= k < |vs| ==> vs[k] == vs[1..][k - 1];
      r
  }

  datatype Outcome = Decide(lit: Lit) | Panic(message: string)

  /**
   * `next_chronicle_decision`: bind the first unbound parameter to its lower bound; the parameters
   * before it are all bound.
   */
  function NextChronicleDecision(ch: ChronicleInstance, m: ModelView, symView: SAtom -> IAtom): (r: Outcome)
    ensures r.Panic? <==> !HasUnboundParameter(m, ch, symView)
    ensures r.Decide? ==> exists k :: var vs := Variables(ch.parameters, symView);
      && 0 <= k < |vs| && !Bound(m, vs[k]) && r.lit == LeqLit(Plus(vs[k]), m.varDomain(vs[k]).0)
      && forall j :: 0 <= j < k ==> Bound(m, vs[j])
  {
    match FirstUnboundDecision(m, Variables(ch.parameters, symView))
    case Some(l) => Decide(l)
    case None => Panic("No decision left to take for this chronicle")
  }

  /** The presence of the first refinement that is not known to be absent. */
  function FirstPossible(m: ModelView, refs: seq<TaskRef>): (r: Option<Lit>)
    ensures r.None? <==> forall k :: 0 <= k < |refs| ==> m.entails(Not(refs[k].presence))
    ensures r.Some? ==> exists k ::
      && 0 <= k < |refs| && !m.entails(Not(refs[k].presence)) && r.value == refs[k].presence
      && forall j :: 0 <= j < k ==> m.entails(Not(refs[j].presence))
  {
    if |refs| == 0 then None
    else if !m.entails(Not(refs[0].presence)) then Some(refs[0].presence)
    else
      var r := FirstPossible(m, refs[1..]);
      assert forall k :: 1 <= k < |refs| ==> refs[k] == refs[1..][k - 1];
      r
  }

  /**
   * `next_refinement_decision`: make present the first refinement of the task that may still be
   * present; the refinements before it are all known to be absent.
   */
  function NextRefinementDecision(instanceId: nat, taskId: nat, pb: FiniteProblem, m: ModelView): (r: Outcome)
    requires RefinersHaveTask(pb, TaskId(instanceId, taskId))
    ensures var refs := Refinements(pb, TaskId(instanceId, taskId));
      r.Panic? <==> forall k :: 0 <= k < |refs| ==> m.entails(Not(refs[k].presence))
    ensures r.Decide? ==> exists k :: var refs := Refinements(pb, TaskId(instanceId, taskId));
      && 0 <= k < |refs| && r.lit == refs[k].presence && !m.entails(Not(r.lit))
      && forall j :: 0 <= j < k ==> m.entails(Not(refs[j].presence))
  {
    match FirstPossible(m, Refinements(pb, TaskId(instanceId, taskId)))
    case Some(l) => Decide(l)
    case None => Panic("No possible refinement for task.")
  }

  /**
   * `next_decision`: decide on the earliest pending chronicle or task, the chronicle when its start
   * lower bound is not after the task's; no decision when neither exists.
   */
  function NextDecision(pb: FiniteProblem, m: ModelView, symView: SAtom -> IAtom): (r: Option<Outcome>)
    requires WellFormed(pb)
    ensures r.None? <==> EarliestPendingChronicle(pb, m, symView).None? && EarliestPendingTask(pb, m).None?
  {
    var xx := EarliestPendingChronicle(pb, m, symView);
    var yy := EarliestPendingTask(pb, m);
    match (xx, yy)
    case (Some(ch), Some(tsk)) =>
      var chEst := DomainOfAtom(m, ch.chronicle.start).0;
      var tskEst := DomainOfAtom(m, tsk.details.start).0;
      if chEst <= tskEst then Some(NextChronicleDecision(ch, m, symView))
      else Some(NextRefinementDecision(tsk.instanceId, tsk.taskId, pb, m))
    case (Some(ch), None) => Some(NextChronicleDecision(ch, m, symView))
    case (None, Some(tsk)) => Some(NextRefinementDecision(tsk.instanceId, tsk.taskId, pb, m))
    case (None, None) => None
  }

  /**
   * A decision on a chronicle never panics, since only chronicles with an unbound parameter are
   * pending; a decision on a task panics only when every refinement of it is known to be absent.
   */
  lemma {:induction false} NextDecisionPanics(pb: FiniteProblem, m: ModelView, symView: SAtom -> IAtom)
    requires WellFormed(pb)
    ensures var r := NextDecision(pb, m, symView);
      r.Some? && r.value.Panic? ==>
        && r.value.message == "No possible refinement for task."
        && var t := EarliestPendingTask(pb, m).value;
           forall k :: 0 <= k < |Refinements(pb, TaskId(t.instanceId, t.taskId))| ==>
             m.entails(Not(Refinements(pb, TaskId(t.instanceId, t.taskId))[k].presence))
  {
    var xx := EarliestPendingChronicle(pb, m, symView);
    var yy := EarliestPendingTask(pb, m);
    var r := NextDecision(pb, m, symView);
    if xx.Some? {
      assert NextChronicleDecision(xx.value, m, symView).Decide?;
      if yy.Some? && DomainOfAtom(m, xx.value.chronicle.start).0 > DomainOfAtom(m, yy.value.details.start).0 {
        assert r == Some(NextRefinementDecision(yy.value.instanceId, yy.value.taskId, pb, m));
      } else {
        assert r == Some(NextChronicleDecision(xx.value, m, symView));
      }
    } else if yy.Some? {
      assert r == Some(NextRefinementDecision(yy.value.instanceId, yy.value.taskId, pb, m));
    }
  }

  /** When both candidates exist, the chronicle wins exactly when its start lower bound is not later. */
  lemma {:induction false} ChronicleFirstOnTies(pb: FiniteProblem, m: ModelView, symView: SAtom -> IAtom)
    requires WellFormed(pb)
    requires EarliestPendingChronicle(pb, m, symView).Some? && EarliestPendingTask(pb, m).Some?
    ensures var ch := EarliestPendingChronicle(pb, m, symView).value;
      var tsk := EarliestPendingTask(pb, m).value;
      DomainOfAtom(m, ch.chronicle.start).0 <= DomainOfAtom(m, tsk.details.start).0 ==>
        NextDecision(pb, m, symView) == Some(NextChronicleDecision(ch, m, symView))
    ensures var ch := EarliestPendingChronicle(pb, m, symView).value;
      var tsk := EarliestPendingTask(pb, m).value;
      DomainOfAtom(m, ch.chronicle.start).0 > DomainOfAtom(m, tsk.details.start).0 ==>
        NextDecision(pb, m, symView) == Some(NextRefinementDecision(tsk.instanceId, tsk.taskId, pb, m))
  {
  }

  /** The searcher's backtracking state: the number of saved levels. */
  class ForwardSearcher {
    const problem: FiniteProblem
    var saved: nat

    constructor (pb: FiniteProblem)
      ensures problem == pb && saved == 0
    {
      problem := pb;
      saved := 0;
    }

    method SaveState() returns (lvl: nat)
      modifies this
      ensures saved == old(saved) + 1 && lvl == saved
      ensures lvl == NumSaved() == old(NumSaved()) + 1
    {
      saved := saved + 1;
      lvl := saved;
    }

    /** `num_saved`: the number of save points not yet restored, the level of the newest one. */
    function NumSaved(): (n: nat)
      reads this
      ensures n == saved
    {
      saved
    }

    method RestoreLast()
      requires saved > 0
      modifies this
      ensures saved == old(saved) - 1
      ensures NumSaved() == old(NumSaved()) - 1
    {
      saved := saved - 1;
    }
  }
}
