/** The per-metric evaluation step of the request handler, between the storage helpers and the summarizer. */
module Measure {
  import opened Wrappers
  import opened Schemas
  import opened Evaluator
  import Summarizer

  /** `float(actuals.get(m, 0.0))`. */
  function ActualFor(actuals: map<string, real>, metric: string): (a: real)
    ensures metric in actuals ==> a == actuals[metric]
    ensures metric !in actuals ==> a == 0.0
  {
    if metric in actuals then actuals[metric] else 0.0
  }

  /** `targets.get(m)`. */
  function TargetFor(targets: map<string, TargetDef>, metric: string): (t: Option<TargetDef>)
    ensures t.Some? <==> metric in targets
    ensures t.Some? ==> t.value == targets[metric]
  {
    if metric in targets then Some(targets[metric]) else None
  }

  /**
   * The loop evaluating each requested metric in order. The first evaluation that raises aborts the
   * request with its error (no earlier metric raises); otherwise there is one evaluation per metric, in the order requested.
   */
  method EvaluateAll(metrics: seq<string>, actuals: map<string, real>, targets: map<string, TargetDef>)
    returns (r: Result<seq<MetricEvaluation>, EvalError>)
    ensures r.Success? <==>
              forall i | 0 <= i < |metrics| :: !Crashes(ActualFor(actuals, metrics[i]), TargetFor(targets, metrics[i]))
    ensures r.Success? ==>
              && |r.value| == |metrics|
              && forall i | 0 <= i < |metrics| ::
                   Success(r.value[i]) == Evaluate(metrics[i], ActualFor(actuals, metrics[i]), TargetFor(targets, metrics[i]))
    ensures r.Failure? ==>
              exists i | 0 <= i < |metrics| ::
                && Evaluate(metrics[i], ActualFor(actuals, metrics[i]), TargetFor(targets, metrics[i])) == Failure(r.error)
                && forall j | 0 <= j < i :: !Crashes(ActualFor(actuals, metrics[j]), TargetFor(targets, metrics[j]))
  {
    var evals: seq<MetricEvaluation> := [];
    for i := 0 to |metrics|
      invariant |evals| == i
      invariant forall j | 0 <= j < i ::
                  Success(evals[j]) == Evaluate(metrics[j], ActualFor(actuals, metrics[j]), TargetFor(targets, metrics[j]))
    {
      var m := metrics[i];
      var res := Evaluate(m, ActualFor(actuals, m), TargetFor(targets, m));
      if res.Failure? {
        return Failure(res.error);
      }
      evals := evals + [res.value];
    }
    r := Success(evals);
  }

  /** RANGE results, NO_TARGET results and unknown target types never reach the insights. */
  lemma OnlyMinMaxRanked(name: string, actual: real, targetDef: Option<TargetDef>, evals: seq<MetricEvaluation>)
    requires targetDef.None? || (targetDef.value.targetType != "MIN" && targetDef.value.targetType != "MAX")
    requires Evaluate(name, actual, targetDef).Success?
    ensures Evaluate(name, actual, targetDef).value !in Summarizer.Ranked(evals)
  {
    Summarizer.RankedAreTracked(evals);
  }
}
