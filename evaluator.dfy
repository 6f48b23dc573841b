/**
 * The metric evaluator: classifies one actual value against an optional target definition
 * (MIN, MAX or RANGE) and computes its absolute and relative variance.
 */
module Evaluator {
  import opened Wrappers
  import opened Schemas

  const NO_ACTIVE_TARGET_NOTE := "No active target in period"

  /** Relative variance beyond which a MIN or MAX result is upgraded to ABOVE_TARGET. */
  const WELL_BEYOND: real := 0.03

  /**
   * The two ways evaluation raises on a malformed target definition:
   * `float(None)` and an ordering comparison of a float with `None`.
   */
  datatype EvalError = FloatOfNone | CompareWithNone

  /** Python truthiness of an optional number: `None` and zero are falsy. */
  predicate Truthy(v: Option<real>) {
    v.Some? && v.value != 0.0
  }

  /** `num / den if den else None`: the ratio, present exactly when the denominator is truthy. */
  function Ratio(num: real, den: Option<real>): (r: Option<real>)
    ensures r.Some? <==> Truthy(den)
    ensures r.Some? ==> r.value * den.value == num
  {
    if Truthy(den) then Some(num / den.value) else None
  }

  /** Exactly the inputs on which `evaluate_metric` raises instead of returning. */
  predicate Crashes(actual: real, targetDef: Option<TargetDef>): (b: bool)
    ensures b ==> targetDef.Some? && targetDef.value.targetType in ["MIN", "MAX", "RANGE"]
    ensures b ==> targetDef.value.targetValue.None? || targetDef.value.lowerBound.None? || targetDef.value.upperBound.None?
    ensures targetDef.Some? && targetDef.value.targetType == "RANGE" && targetDef.value.lowerBound.None? ==> b
  {
    && targetDef.Some?
    && var t := targetDef.value;
       || ((t.targetType == "MIN" || t.targetType == "MAX") && t.targetValue.None?)
       || (&& t.targetType == "RANGE"
           && (t.lowerBound.None? || (t.upperBound.None? && actual >= t.lowerBound.value)))
  }

  /** `evaluate_metric(name, actual, target_def)`. */
  function Evaluate(name: string, actual: real, targetDef: Option<TargetDef>): (r: Result<MetricEvaluation, EvalError>)
    ensures r.Failure? <==> Crashes(actual, targetDef)
    ensures r.Success? ==> r.value.name == name && r.value.actual == actual
    ensures r.Success? && r.value.target.Some? ==>
              && targetDef.Some?
              && (targetDef.value.targetType == "MIN" || targetDef.value.targetType == "MAX")
              && r.value.target == targetDef.value.targetValue
    ensures r.Success? ==> (r.value.notes.Some? <==> targetDef.None?)
    ensures r.Success? && r.value.status == NoTarget ==>
              r.value.target.None? && r.value.varianceAbs.None? && r.value.variancePct.None?
  {
    if targetDef.None? then
      Success(MetricEvaluation(name, actual, None, None, None, NoTarget, Some(NO_ACTIVE_TARGET_NOTE)))
    else
      var TargetDef(targetType, targetValue, lower, upper, _) := targetDef.value;
      if targetType == "MIN" then
        if targetValue.None? then Failure(FloatOfNone)
        else
          var varianceAbs := actual - targetValue.value;
          var variancePct := Ratio(varianceAbs, targetValue);
          var base := if actual >= targetValue.value then MeetsTarget else BelowTarget;
          var status := if variancePct.Some? && variancePct.value > WELL_BEYOND then AboveTarget else base;
          Success(MetricEvaluation(name, actual, targetValue, Some(varianceAbs), variancePct, status, None))
      else if targetType == "MAX" then
        if targetValue.None? then Failure(FloatOfNone)
        else
          var varianceAbs := actual - targetValue.value;
          var variancePct := Ratio(varianceAbs, targetValue);
          var base := if actual <= targetValue.value then MeetsTarget else BelowTarget;
          var status := if variancePct.Some? && variancePct.value < -WELL_BEYOND then AboveTarget else base;
          Success(MetricEvaluation(name, actual, targetValue, Some(varianceAbs), variancePct, status, None))
      else if targetType == "RANGE" then
        var inRange := lower.Some? && upper.Some? && lower.value <= actual <= upper.value;
        if inRange then
          Success(MetricEvaluation(name, actual, None, Some(0.0), Some(0.0), MeetsTarget, None))
        else if lower.None? then Failure(CompareWithNone)
        else
          var nearest := if actual < lower.value then lower else upper;
          if nearest.None? then Failure(FloatOfNone)
          else
            var varianceAbs := actual - nearest.value;
            Success(MetricEvaluation(name, actual, None, Some(varianceAbs), Ratio(varianceAbs, nearest), BelowTarget, None))
      else
        Success(MetricEvaluation(name, actual, None, None, None, NoTarget, None))
  }

  /** Dividing by a positive number preserves a strict comparison. */
  lemma DivAbove(num: real, den: real, c: real)
    requires den > 0.0
    ensures num / den > c <==> num > c * den
    ensures num / den < c <==> num < c * den
  {
    var q := num / den;
    assert q * den == num;
    if q > c {
      assert q * den > c * den;
    } else if q < c {
      assert q * den < c * den;
    }
  }

  /** Without a target definition the result is NO_TARGET with the explanatory note and nothing else. */
  lemma AbsentTargetIsNoTarget(name: string, actual: real)
    ensures Evaluate(name, actual, None)
         == Success(MetricEvaluation(name, actual, None, None, None, NoTarget, Some(NO_ACTIVE_TARGET_NOTE)))
  {
  }

  /**
   * A MIN target `t`: the variances are `actual - t` and `(actual - t) / t` (absent when `t` is 0), and the
   * status is ABOVE_TARGET exactly when the actual is more than 3% beyond `t` in the direction of `t`'s sign,
   * otherwise MEETS_TARGET when `actual >= t` and BELOW_TARGET when not.
   */
  lemma MinClassification(name: string, actual: real, t: real, lower: Option<real>, upper: Option<real>, currency: Option<string>)
    ensures var r := Evaluate(name, actual, Some(TargetDef("MIN", Some(t), lower, upper, currency)));
      && r.Success?
      && r.value.target == Some(t)
      && r.value.varianceAbs == Some(actual - t)
      && (r.value.variancePct.Some? <==> t != 0.0)
      && (r.value.variancePct.Some? ==> r.value.variancePct.value * t == actual - t)
      && (r.value.status == AboveTarget <==> (t > 0.0 && actual > t * 1.03) || (t < 0.0 && actual < t * 1.03))
      && (r.value.status == MeetsTarget <==> r.value.status != AboveTarget && actual >= t)
      && (r.value.status == BelowTarget <==> r.value.status != AboveTarget && actual < t)
  {
    if t > 0.0 {
      DivAbove(actual - t, t, WELL_BEYOND);
    } else if t < 0.0 {
      DivAbove(actual - t, -t, -WELL_BEYOND);
      assert (actual - t) / t == -((actual - t) / (-t));
    }
  }

  /**
   * A MAX target `t`: the same variances, and ABOVE_TARGET ("favourable") exactly when the actual is more
   * than 3% short of `t` relative to `t`'s sign, otherwise MEETS_TARGET when `actual <= t` and BELOW_TARGET when not.
   */
  lemma MaxClassification(name: string, actual: real, t: real, lower: Option<real>, upper: Option<real>, currency: Option<string>)
    ensures var r := Evaluate(name, actual, Some(TargetDef("MAX", Some(t), lower, upper, currency)));
      && r.Success?
      && r.value.target == Some(t)
      && r.value.varianceAbs == Some(actual - t)
      && (r.value.variancePct.Some? <==> t != 0.0)
      && (r.value.variancePct.Some? ==> r.value.variancePct.value * t == actual - t)
      && (r.value.status == AboveTarget <==> (t > 0.0 && actual < t * 0.97) || (t < 0.0 && actual > t * 0.97))
      && (r.value.status == MeetsTarget <==> r.value.status != AboveTarget && actual <= t)
      && (r.value.status == BelowTarget <==> r.value.status != AboveTarget && actual > t)
  {
    if t > 0.0 {
      DivAbove(actual - t, t, -WELL_BEYOND);
    } else if t < 0.0 {
      DivAbove(actual - t, -t, WELL_BEYOND);
      assert (actual - t) / t == -((actual - t) / (-t));
    }
  }

  /** For a positive MIN target, ABOVE_TARGET implies the actual exceeds the target. */
  lemma MinAboveExceedsPositiveTarget(name: string, actual: real, t: real, lower: Option<real>, upper: Option<real>, currency: Option<string>)
    requires t > 0.0
    requires Evaluate(name, actual, Some(TargetDef("MIN", Some(t), lower, upper, currency))).value.status == AboveTarget
    ensures actual > t
  {
    MinClassification(name, actual, t, lower, upper, currency);
  }

  /**
   * For a negative MIN target the upgrade rule reads the sign backwards: an actual far below the target
   * is reported ABOVE_TARGET (here target -100, actual -200, relative variance 1.0).
   */
  lemma MinNegativeTargetFarBelowIsAbove()
    ensures var r := Evaluate("roas", -200.0, Some(TargetDef("MIN", Some(-100.0), None, None, None)));
      r.Success? && r.value.actual < r.value.target.value && r.value.status == AboveTarget
  {
  }

  /**
   * A RANGE target, whatever its target value (usually absent), never yields a target value or
   * ABOVE_TARGET. With both bounds present and the actual between them it is MEETS_TARGET with zero
   * variances; otherwise it is BELOW_TARGET measured from the nearest bound (the lower one when the
   * actual is below it, else the upper one).
   */
  lemma RangeClassification(name: string, actual: real, tv: Option<real>, lower: Option<real>, upper: Option<real>, currency: Option<string>)
    requires !Crashes(actual, Some(TargetDef("RANGE", tv, lower, upper, currency)))
    ensures var r := Evaluate(name, actual, Some(TargetDef("RANGE", tv, lower, upper, currency)));
      && r.Success?
      && r.value.target.None?
      && r.value.status != AboveTarget
      && (r.value.status == MeetsTarget <==> lower.Some? && upper.Some? && lower.value <= actual <= upper.value)
      && (r.value.status == MeetsTarget ==> r.value.varianceAbs == Some(0.0) && r.value.variancePct == Some(0.0))
      && (r.value.status != MeetsTarget ==>
            var nearest := if actual < lower.value then lower.value else upper.value;
            && r.value.status == BelowTarget
            && r.value.varianceAbs == Some(actual - nearest)
            && r.value.variancePct == (if nearest == 0.0 then None else Some((actual - nearest) / nearest)))
  {
  }

  /** A RANGE target whose lower bound is missing always raises, at the comparison `actual < lower`. */
  lemma RangeWithoutLowerRaises(name: string, actual: real, tv: Option<real>, upper: Option<real>, currency: Option<string>)
    ensures Evaluate(name, actual, Some(TargetDef("RANGE", tv, None, upper, currency))) == Failure(CompareWithNone)
  {
  }

  /** An unrecognised target type yields NO_TARGET with no target, variances or notes. */
  lemma UnknownTypeIsNoTarget(name: string, actual: real, td: TargetDef)
    requires td.targetType != "MIN" && td.targetType != "MAX" && td.targetType != "RANGE"
    ensures Evaluate(name, actual, Some(td)) == Success(MetricEvaluation(name, actual, None, None, None, NoTarget, None))
  {
  }
}
