/** The records exchanged between the evaluator, the summarizer and the storage helpers. */
module Schemas {
  import opened Wrappers

  /** Per-metric status literals of `MetricEvaluation.status`. */
  datatype Status = AboveTarget | MeetsTarget | BelowTarget | NoTarget

  /** Importance literals of `KeyInsight.importance`. */
  datatype Importance = High | Medium | Low

  /** Literals of `MeasureResponse.overall_status`; only the first two are ever produced. */
  datatype OverallStatus = MeetingTargets | AtRisk | Failing | NoTargets

  /** The evaluation of one metric against its target. */
  datatype MetricEvaluation = MetricEvaluation(
    name: string,
    actual: real,
    target: Option<real>,
    varianceAbs: Option<real>,
    variancePct: Option<real>,
    status: Status,
    notes: Option<string>)

  /** One ranked observation of the summary. */
  datatype KeyInsight = KeyInsight(message: string, importance: Importance)

  /**
   * A target definition, the 5-tuple `(target_type, target_value, lower_bound, upper_bound, currency)`.
   * `targetType` is the raw text of the column, so values other than MIN, MAX and RANGE can occur.
   */
  datatype TargetDef = TargetDef(
    targetType: string,
    targetValue: Option<real>,
    lowerBound: Option<real>,
    upperBound: Option<real>,
    currency: Option<string>)
}
