/**
 * Metadata and enumerations of the planning encoding (planning/planners/src/encoding.rs): the tags
 * attached to literals, the enumeration of every effect and condition of a finite problem with
 * its identifier and presence literal, and the refinements of a task.
 */
module Encoding {
  import opened Wrappers
  import opened Lits
  import opened Atoms

  type ChronicleId = nat

  datatype TaskId = TaskId(instanceId: ChronicleId, taskId: nat)
  datatype CondId = CondId(instanceId: ChronicleId, condId: nat)
  datatype EffId = EffId(instanceId: ChronicleId, effId: nat)

  datatype EffectOp = Assign(value: int) | Increase(amount: int)
  datatype Effect = Effect(fluent: nat, operation: EffectOp)
  datatype Condition = Condition(fluent: nat, value: int)

  /** A subtask of a chronicle: its start and end timepoints and its name. */
  datatype SubTask = SubTask(start: IAtom, end: IAtom, taskName: seq<nat>)

  datatype Chronicle = Chronicle(
    presence: Lit,
    start: IAtom,
    end: IAtom,
    task: Option<seq<nat>>,
    effects: seq<Effect>,
    conditions: seq<Condition>,
    subtasks: seq<SubTask>)

  /** Why a chronicle instance exists; a refinement lists the tasks it refines. */
  datatype ChronicleOrigin = Original | FreeAction(template: nat) | Refinement(refined: seq<TaskId>, template: nat)

  datatype ChronicleInstance = ChronicleInstance(parameters: seq<Atom>, origin: ChronicleOrigin, chronicle: Chronicle)

  datatype FiniteProblem = FiniteProblem(chronicles: seq<ChronicleInstance>)

  datatype Tag = Support(cond: CondId, eff: EffId) | Decomposition(task: TaskId, chronicle: ChronicleId)

  /** The tags of an encoding: a set of `(tag, literal)` pairs. */
  class Encoding {
    var tags: set<(Tag, Lit)>

    constructor ()
      ensures tags == {}
    {
      tags := {};
    }

    /** Tagging inserts the pair; tagging again with the same pair changes nothing. */
    method AddTag(lit: Lit, tag: Tag)
      modifies this
      ensures tags == old(tags) + {(tag, lit)}
      ensures (tag, lit) in tags
      ensures old((tag, lit) in tags) ==> tags == old(tags)
    {
      tags := tags + {(tag, lit)};
    }
  }

  // ---------------------------------------------------------------- effects and conditions

  /** Number of effects in chronicles `0..n`: the position of the first effect of chronicle `n`. */
  function EffectOffset(pb: FiniteProblem, n: nat): nat
    requires n <= |pb.chronicles|
  {
    if n == 0 then 0 else EffectOffset(pb, n - 1) + |pb.chronicles[n - 1].chronicle.effects|
  }

  function EffectsOf(pb: FiniteProblem, i: nat): seq<(EffId, Lit, Effect)>
    requires i < |pb.chronicles|
  {
    var ch := pb.chronicles[i].chronicle;
    seq(|ch.effects|, k requires 0 <= k < |ch.effects| => (EffId(i, k), ch.presence, ch.effects[k]))
  }

  /** Effects of chronicles `0..n`, chronicle by chronicle. */
  function EffectsUpTo(pb: FiniteProblem, n: nat): (r: seq<(EffId, Lit, Effect)>)
    requires n <= |pb.chronicles|
    ensures |r| == EffectOffset(pb, n)
  {
    if n == 0 then [] else EffectsUpTo(pb, n - 1) + EffectsOf(pb, n - 1)
  }

  /** Every effect of every chronicle instance, paired with its identifier and the instance's presence. */
  function Effects(pb: FiniteProblem): (r: seq<(EffId, Lit, Effect)>)
    ensures |r| == EffectOffset(pb, |pb.chronicles|)
  {
    EffectsUpTo(pb, |pb.chronicles|)
  }

  lemma {:induction false} EffectOffsetMonotone(pb: FiniteProblem, i: nat, n: nat)
    requires i <= n <= |pb.chronicles|
    ensures EffectOffset(pb, i) <= EffectOffset(pb, n)
    decreases n - i
  {
    if i < n {
      EffectOffsetMonotone(pb, i, n - 1);
    }
  }

  /**
   * Effect `k` of instance `i` sits at position `EffectOffset(pb, i) + k` of the enumeration, with
   * its identifier, the instance's presence literal and the effect itself.
   */
  lemma {:induction false} EffectsPosition(pb: FiniteProblem, n: nat, i: nat, k: nat)
    requires i < n <= |pb.chronicles| && k < |pb.chronicles[i].chronicle.effects|
    ensures EffectOffset(pb, i) + k < EffectOffset(pb, n)
    ensures EffectsUpTo(pb, n)[EffectOffset(pb, i) + k] ==
      (EffId(i, k), pb.chronicles[i].chronicle.presence, pb.chronicles[i].chronicle.effects[k])
    decreases n
  {
    if i < n - 1 {
      EffectsPosition(pb, n - 1, i, k);
      EffectOffsetMonotone(pb, i + 1, n - 1);
    }
  }

  /** Every entry of the enumeration is an effect of the instance its identifier names. */
  lemma {:induction false} EffectsSound(pb: FiniteProblem, n: nat, p: nat)
    requires n <= |pb.chronicles| && p < |EffectsUpTo(pb, n)|
    ensures var e := EffectsUpTo(pb, n)[p];
      && e.0.instanceId < n
      && e.0.effId < |pb.chronicles[e.0.instanceId].chronicle.effects|
      && p == EffectOffset(pb, e.0.instanceId) + e.0.effId
      && e.1 == pb.chronicles[e.0.instanceId].chronicle.presence
      && e.2 == pb.chronicles[e.0.instanceId].chronicle.effects[e.0.effId]
    decreases n
  {
    if p < EffectOffset(pb, n - 1) {
      EffectsSound(pb, n - 1, p);
    }
  }

  /** The elements of `xs` whose effect is an assignment (`assign == true`) or an increase. */
  function FilterOps(xs: seq<(EffId, Lit, Effect)>, assign: bool): (r: seq<(EffId, Lit, Effect)>)
    ensures |r| <= |xs|
    ensures forall x :: x in r <==> x in xs && x.2.operation.Assign? == assign
  {
    if |xs| == 0 then []
    else
      var rest := FilterOps(xs[1..], assign);
      assert forall x :: x in xs <==> x == xs[0] || x in xs[1..];
      if xs[0].2.operation.Assign? == assign then [xs[0]] + rest else rest
  }

  /** Filtering keeps the order: it distributes over concatenation. */
  lemma {:induction false} FilterOpsConcat(a: seq<(EffId, Lit, Effect)>, b: seq<(EffId, Lit, Effect)>, assign: bool)
    ensures FilterOps(a + b, assign) == FilterOps(a, assign) + FilterOps(b, assign)
  {
    hide FilterOps;
    if |a| == 0 {
      assert a + b == b;
      FilterOpsEmpty(assign);
    } else {
      assert a + b == [a[0]] + (a[1..] + b) && a == [a[0]] + a[1..];
      FilterOpsCons(a[0], a[1..] + b, assign);
      FilterOpsCons(a[0], a[1..], assign);
      FilterOpsConcat(a[1..], b, assign);
    }
  }

  lemma {:induction false} FilterOpsEmpty(assign: bool)
    ensures FilterOps([], assign) == []
  {
  }

  lemma {:induction false} FilterOpsCons(x: (EffId, Lit, Effect), xs: seq<(EffId, Lit, Effect)>, assign: bool)
    ensures FilterOps([x] + xs, assign) == (if x.2.operation.Assign? == assign then [x] else []) + FilterOps(xs, assign)
  {
    assert ([x] + xs)[0] == x && ([x] + xs)[1..] == xs;
  }

  /** The assignment effects, in enumeration order. */
  function AssignmentEffects(pb: FiniteProblem): (r: seq<(EffId, Lit, Effect)>)
    ensures forall x :: x in r <==> x in Effects(pb) && x.2.operation.Assign?
  {
    FilterOps(Effects(pb), true)
  }

  /** The increase effects, in enumeration order. */
  function IncreaseEffects(pb: FiniteProblem): (r: seq<(EffId, Lit, Effect)>)
    ensures forall x :: x in r <==> x in Effects(pb) && x.2.operation.Increase?
  {
    FilterOps(Effects(pb), false)
  }

  /** Every effect is an assignment or an increase, so the two filters split the enumeration. */
  lemma {:induction false} FiltersPartition(xs: seq<(EffId, Lit, Effect)>)
    ensures |FilterOps(xs, true)| + |FilterOps(xs, false)| == |xs|
  {
    if |xs| > 0 {
      FiltersPartition(xs[1..]);
    }
  }

  function ConditionOffset(pb: FiniteProblem, n: nat): nat
    requires n <= |pb.chronicles|
  {
    if n == 0 then 0 else ConditionOffset(pb, n - 1) + |pb.chronicles[n - 1].chronicle.conditions|
  }

  function ConditionsOf(pb: FiniteProblem, i: nat): seq<(CondId, Lit, Condition)>
    requires i < |pb.chronicles|
  {
    var ch := pb.chronicles[i].chronicle;
    seq(|ch.conditions|, k requires 0 <= k < |ch.conditions| => (CondId(i, k), ch.presence, ch.conditions[k]))
  }

  function ConditionsUpTo(pb: FiniteProblem, n: nat): (r: seq<(CondId, Lit, Condition)>)
    requires n <= |pb.chronicles|
    ensures |r| == ConditionOffset(pb, n)
  {
    if n == 0 then [] else ConditionsUpTo(pb, n - 1) + ConditionsOf(pb, n - 1)
  }

  /** Every condition of every chronicle instance, paired with its identifier and the instance's presence. */
  function Conditions(pb: FiniteProblem): (r: seq<(CondId, Lit, Condition)>)
    ensures |r| == ConditionOffset(pb, |pb.chronicles|)
  {
    ConditionsUpTo(pb, |pb.chronicles|)
  }

  lemma {:induction false} ConditionOffsetMonotone(pb: FiniteProblem, i: nat, n: nat)
    requires i <= n <= |pb.chronicles|
    ensures ConditionOffset(pb, i) <= ConditionOffset(pb, n)
    decreases n - i
  {
    if i < n {
      ConditionOffsetMonotone(pb, i, n - 1);
    }
  }

  /** Condition `k` of instance `i` sits at position `ConditionOffset(pb, i) + k` of the enumeration. */
  lemma {:induction false} ConditionsPosition(pb: FiniteProblem, n: nat, i: nat, k: nat)
    requires i < n <= |pb.chronicles| && k < |pb.chronicles[i].chronicle.conditions|
    ensures ConditionOffset(pb, i) + k < ConditionOffset(pb, n)
    ensures ConditionsUpTo(pb, n)[ConditionOffset(pb, i) + k] ==
      (CondId(i, k), pb.chronicles[i].chronicle.presence, pb.chronicles[i].chronicle.conditions[k])
    decreases n
  {
    if i < n - 1 {
      ConditionsPosition(pb, n - 1, i, k);
      ConditionOffsetMonotone(pb, i + 1, n - 1);
    }
  }

  /** Each enumerated condition is the condition its id names, at the position of that id. */
  lemma {:induction false} ConditionsSound(pb: FiniteProblem, n: nat, p: nat)
    requires n <= |pb.chronicles| && p < |ConditionsUpTo(pb, n)|
    ensures var c := ConditionsUpTo(pb, n)[p];
      && c.0.instanceId < n
      && c.0.condId < |pb.chronicles[c.0.instanceId].chronicle.conditions|
      && p == ConditionOffset(pb, c.0.instanceId) + c.0.condId
      && c.1 == pb.chronicles[c.0.instanceId].chronicle.presence
      && c.2 == pb.chronicles[c.0.instanceId].chronicle.conditions[c.0.condId]
    decreases n
  {
    if p < ConditionOffset(pb, n - 1) {
      ConditionsSound(pb, n - 1, p);
    }
  }

  // ---------------------------------------------------------------- tasks

  /** A reference to a task: its presence, start, end and name. */
  datatype TaskRef = TaskRef(presence: Lit, start: IAtom, end: IAtom, task: seq<nat>)

  /** The subtask a task id names, with the presence of its chronicle. */
  function GetTaskRef(pb: FiniteProblem, id: TaskId): (r: TaskRef)
    requires id.instanceId < |pb.chronicles|
    requires id.taskId < |pb.chronicles[id.instanceId].chronicle.subtasks|
    ensures var ch := pb.chronicles[id.instanceId].chronicle;
      && r.presence == ch.presence
      && r.start == ch.subtasks[id.taskId].start
      && r.end == ch.subtasks[id.taskId].end
      && r.task == ch.subtasks[id.taskId].taskName
  {
    var ch := pb.chronicles[id.instanceId].chronicle;
    var t := ch.subtasks[id.taskId];
    TaskRef(ch.presence, t.start, t.end, t.taskName)
  }

  /** Instance `ch` was created to refine the task `target`. */
  predicate Refines(ch: ChronicleInstance, target: TaskId)
  {
    ch.origin.Refinement? && target in ch.origin.refined
  }

  /** Every refinement of `target` names the task it achieves (the source unwraps it). */
  predicate RefinersHaveTask(pb: FiniteProblem, target: TaskId)
  {
    forall i :: 0 <= i < |pb.chronicles| && Refines(pb.chronicles[i], target) ==> pb.chronicles[i].chronicle.task.Some?
  }

  function RefinerRef(ch: ChronicleInstance): TaskRef
    requires ch.chronicle.task.Some?
  {
    TaskRef(ch.chronicle.presence, ch.chronicle.start, ch.chronicle.end, ch.chronicle.task.value)
  }

  /** The refinements of `target` among chronicles `0..n`, in chronicle order. */
  function RefinementsUpTo(pb: FiniteProblem, target: TaskId, n: nat): (r: seq<TaskRef>)
    requires n <= |pb.chronicles| && RefinersHaveTask(pb, target)
    ensures |r| <= n
  {
    if n == 0 then []
    else if Refines(pb.chronicles[n - 1], target) then RefinementsUpTo(pb, target, n - 1) + [RefinerRef(pb.chronicles[n - 1])]
    else RefinementsUpTo(pb, target, n - 1)
  }

  function Refinements(pb: FiniteProblem, target: TaskId): seq<TaskRef>
    requires RefinersHaveTask(pb, target)
  {
    RefinementsUpTo(pb, target, |pb.chronicles|)
  }

  /** A task reference is listed exactly when some chronicle refining the target produces it. */
  lemma {:induction false} RefinementsExact(pb: FiniteProblem, target: TaskId, n: nat, t: TaskRef)
    requires n <= |pb.chronicles| && RefinersHaveTask(pb, target)
    ensures t in RefinementsUpTo(pb, target, n) <==>
      exists i :: 0 <= i < n && Refines(pb.chronicles[i], target) && RefinerRef(pb.chronicles[i]) == t
  {
    if n > 0 {
      RefinementsExact(pb, target, n - 1, t);
      if Refines(pb.chronicles[n - 1], target) && RefinerRef(pb.chronicles[n - 1]) == t {
        assert t in RefinementsUpTo(pb, target, n);
      }
    }
  }

  /** `refinements_of`: scans the chronicles and pushes a reference to each one refining the task. */
  method RefinementsOf(instanceId: nat, taskId: nat, pb: FiniteProblem) returns (supporters: seq<TaskRef>)
    requires RefinersHaveTask(pb, TaskId(instanceId, taskId))
    ensures supporters == Refinements(pb, TaskId(instanceId, taskId))
  {
    supporters := [];
    var target := TaskId(instanceId, taskId);
    var i := 0;
    while i < |pb.chronicles|
      invariant 0 <= i <= |pb.chronicles|
      invariant supporters == RefinementsUpTo(pb, target, i)
    {
      var ch := pb.chronicles[i];
      if ch.origin.Refinement? && target in ch.origin.refined {
        var task := ch.chronicle.task.value;
        supporters := supporters + [TaskRef(ch.chronicle.presence, ch.chronicle.start, ch.chronicle.end, task)];
      }
      i := i + 1;
    }
  }
}
