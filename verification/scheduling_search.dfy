/**
 * Search options of the scheduling example (examples/scheduling/src/search.rs): parsing the
 * name of a search strategy and the decision stage given to each kind of variable.
 */
module SchedulingSearch {
  import opened Wrappers

  type OpAltId = nat

  /** Labels of the variables of a scheduling model. */
  datatype Var = Makespan | Start(op: OpAltId) | Prec(before: OpAltId, after: OpAltId) | Presence(alt: OpAltId)

  datatype SearchStrategy = Activity | LearningRate

  /** The names a strategy may be given on the command line. */
  predicate IsStrategyName(s: string)
  {
    s == "lrb" || s == "learning-rate" || s == "vsids" || s == "activity"
  }

  function UnrecognizedMessage(s: string): string
  {
    "Unrecognized option: '" + s + "'"
  }

  function ParseStrategy(s: string): (r: Result<SearchStrategy, string>)
    ensures r.Ok? <==> IsStrategyName(s)
    ensures r == Ok(LearningRate) <==> (s == "lrb" || s == "learning-rate")
    ensures r == Ok(Activity) <==> (s == "vsids" || s == "activity")
    ensures r.Err? ==> r.error == UnrecognizedMessage(s)
  {
    if s == "lrb" || s == "learning-rate" then Ok(LearningRate)
    else if s == "vsids" || s == "activity" then Ok(Activity)
    else Err(UnrecognizedMessage(s))
  }

  /** The error message names the rejected option: two rejected options give two different messages. */
  lemma {:induction false} UnrecognizedMessageInjective(s: string, t: string)
    requires !IsStrategyName(s) && !IsStrategyName(t) && s != t
    ensures ParseStrategy(s) != ParseStrategy(t)
  {
    var m, n := UnrecognizedMessage(s), UnrecognizedMessage(t);
    var p := "Unrecognized option: '";
    assert m[..|p|] == p && n[..|p|] == p;
    if |s| == |t| {
      var i :| 0 <= i < |s| && s[i] != t[i];
      assert m[|p| + i] == s[i] && n[|p| + i] == t[i];
    } else {
      assert |m| != |n|;
    }
  }

  /**
   * Stage in which a variable is decided by the `ResourceOrderingFirst` heuristic: orderings
   * and presences first, then the temporal variables, then unlabelled variables.
   */
  function DecisionStage(varLabel: Option<Var>): (r: nat)
    ensures r <= 2
    ensures r == 0 <==> varLabel.Some? && (varLabel.value.Prec? || varLabel.value.Presence?)
    ensures r == 1 <==> varLabel.Some? && (varLabel.value.Makespan? || varLabel.value.Start?)
    ensures r == 2 <==> varLabel.None?
  {
    match varLabel
    case Some(Prec(_, _)) => 0
    case Some(Presence(_)) => 0
    case Some(Makespan) => 1
    case Some(Start(_)) => 1
    case None => 2
  }

  /** Every labelled variable is decided before every unlabelled one, orderings before start times. */
  lemma {:induction false} StagesOrdered(v: Var, a: OpAltId, b: OpAltId)
    ensures DecisionStage(Some(v)) < DecisionStage(None)
    ensures DecisionStage(Some(Prec(a, b))) < DecisionStage(Some(Start(a)))
    ensures DecisionStage(Some(Presence(a))) < DecisionStage(Some(Makespan))
  {
  }
}
