# DMAIC Measure agent: evaluation and summary core

A Dafny model of the decision logic of the DMAIC "Measure" service. For one client and one period, the
service compares each requested metric (`cost`, `revenue`, `roas`, ...) with its active target and turns
the comparisons into a report: a 0-100 performance score, an overall status, up to three ranked
insights, an executive summary and a chat message.

The model has one module per source file, plus two shared modules:

- `Wrappers` (`wrappers.dfy`): `Option` (Python's `None`) and `Result` (a return value or a raised error).
- `Schemas` (`schemas.dfy`): the status and importance literals, `MetricEvaluation`, `KeyInsight` and the
  target 5-tuple `TargetDef`.
- `Evaluator` (`evaluator.dfy`, from `evaluator.py`): `evaluate_metric` as a pure function
  `Evaluate`. It returns `Failure` exactly on the inputs where the Python code raises a `TypeError`.
  That happens in two ways: `float(None)` when a MIN or MAX target has no value, or when a RANGE actual
  at or above its lower bound meets a missing upper bound; and `actual < None` when a RANGE target has
  no lower bound.
- `Summarizer` (`summarizer.dfy`, from `app/summarizer.py`):
  - `compute_score` and `top_insights` are methods whose loops are proved against the specification
    functions `Score` and `KeyInsights`.
  - `overall` and the summary texts are functions.
  - Python's stable `sorted(..., reverse=True)` is modelled as a stable insertion sort, `SortDesc`.
    The sort is proved sorted and a permutation. It is also proved stable: for every magnitude, the
    entries with that magnitude keep their input order.
- `Postgres` (`postgres.dfy`, from `app/postgres.py`): the table-name check, with the regular
  expression modelled as an automaton and proved equal to a character-class definition; the row fold
  of `fetch_targets` (last row wins); and the checks after the query in `fetch_client_bq_config`.
- `BigQuery` (`bigquery.dfy`, from `app/bigquery.py`): the two table names, and the shaping of the
  totals row into the metrics dictionary with the zero-guarded ROAS.
- `Measure` (`measure.dfy`, from `app/main.py`): the per-metric evaluation loop of the request handler.

Numbers are Dafny `real`s standing for Python floats. The thresholds 0.03 and 0.1 are exact.

Two behaviours of the code that are easy to misread:

- A RANGE target with a missing bound is not simply "out of range". The code raises when the lower
  bound is missing. It also raises when the upper bound is missing and the actual is at or above the
  lower bound. With only the lower bound and an actual below it, the result is BELOW_TARGET measured
  from the lower bound (`Evaluator.Crashes`, `Evaluator.RangeClassification`).
- The upgrade to ABOVE_TARGET does not imply that a MIN actual is at or above its target. For a negative
  target the relative variance has the opposite sign. So an actual far below a negative MIN target is
  reported ABOVE_TARGET (`Evaluator.MinNegativeTargetFarBelowIsAbove`). The same holds, mirrored, for
  MAX. For a positive target the implication does hold (`Evaluator.MinAboveExceedsPositiveTarget`).

## Model

| member | source | states |
|---|---|---|
| `Evaluator.Ratio` | evaluator.py:12 | `x / t if t else None`: present exactly when `t` is neither None nor 0, and then times `t` it gives back `x` |
| `Evaluator.Evaluate` | evaluator.py:3-46 | fails exactly on the inputs `Crashes` describes; a success keeps name and actual and carries a note exactly when there is no target definition; only MIN/MAX results carry a target, equal to the target value; NO_TARGET results carry no target or variances |
| `Evaluator.Crashes` | evaluator.py:11-37 | raising needs a MIN, MAX or RANGE definition with a missing value or bound; a RANGE without a lower bound always raises |
| `Evaluator.AbsentTargetIsNoTarget` | evaluator.py:4-7 | no target definition gives NO_TARGET, no target, no variances, note "No active target in period" |
| `Evaluator.MinClassification` | evaluator.py:10-19 | MIN: variance_abs = actual - t; variance_pct present iff t != 0 and equal to variance_abs / t; ABOVE_TARGET iff actual > 1.03 t (t > 0) or actual < 1.03 t (t < 0); otherwise MEETS_TARGET iff actual >= t, else BELOW_TARGET; target = t |
| `Evaluator.MaxClassification` | evaluator.py:21-30 | MAX: same variances; ABOVE_TARGET iff actual < 0.97 t (t > 0) or actual > 0.97 t (t < 0); otherwise MEETS_TARGET iff actual <= t, else BELOW_TARGET; target = t |
| `Evaluator.MinAboveExceedsPositiveTarget` | evaluator.py:13-15 | for a positive MIN target, ABOVE_TARGET implies actual > target |
| `Evaluator.MinNegativeTargetFarBelowIsAbove` | evaluator.py:11-15 | MIN target -100, actual -200: reported ABOVE_TARGET although the actual is below the target |
| `Evaluator.RangeClassification` | evaluator.py:32-44 | RANGE that does not raise, whatever its target value (usually NULL): never a target, never ABOVE_TARGET; MEETS_TARGET iff both bounds present and lower <= actual <= upper, then both variances 0; otherwise BELOW_TARGET measured from the nearest bound (lower if actual < lower, else upper), with no relative variance when that bound is 0 |
| `Evaluator.RangeWithoutLowerRaises` | evaluator.py:33-36 | a RANGE target without a lower bound always raises, at the comparison with None |
| `Evaluator.UnknownTypeIsNoTarget` | evaluator.py:46 | an unrecognised target type gives NO_TARGET with no target, variances or notes |
| `Summarizer.CountStatus` | app/summarizer.py:5-9 | the number of evaluations with a status never exceeds the list's length |
| `Summarizer.Score` | app/summarizer.py:3-10 | 100 - 20 per BELOW_TARGET - 5 per NO_TARGET, clamped; always within [0, 100] |
| `Summarizer.ComputeScore` | app/summarizer.py:3-10 | the accumulator loop computes exactly `Score`, within [0, 100] |
| `Summarizer.FavourableEntryKeepsScore` | app/summarizer.py:5-9 | inserting an ABOVE_TARGET or MEETS_TARGET evaluation anywhere leaves the score unchanged |
| `Summarizer.EntryNeverRaisesScore` | app/summarizer.py:5-10 | inserting any evaluation anywhere never raises the score |
| `Summarizer.FullScoreIff` | app/summarizer.py:4-10 | the score is 100 iff every evaluation is ABOVE_TARGET or MEETS_TARGET |
| `Summarizer.AllNoTargetScore` | app/summarizer.py:8-10 | n NO_TARGET evaluations score max(0, 100 - 5n), so 20 or more score 0 |
| `Summarizer.Overall` | app/summarizer.py:21-26 | AT_RISK iff some evaluation is BELOW_TARGET (count positive), else MEETING_TARGETS; FAILING and NO_TARGETS are never returned |
| `Summarizer.AtRiskCapsScore` | app/summarizer.py:3-23 | an AT_RISK list scores at most 80 |
| `Summarizer.PctOrZero` | app/summarizer.py:15-17 | `variance_pct or 0`: the relative variance when present, else 0 |
| `Summarizer.Magnitude` | app/summarizer.py:15 | the ranking key abs(variance_pct or 0) is non-negative and is plus or minus variance_pct or 0 |
| `Summarizer.Tracked` | app/summarizer.py:14 | the filtered list is never longer than the input |
| `Summarizer.TrackedMembers` | app/summarizer.py:14 | an evaluation survives the filter exactly when it is in the input and has a target |
| `Summarizer.TrackedAll` | app/summarizer.py:14 | when every evaluation has a target the filter returns the input unchanged |
| `Summarizer.TrackedAppend` | app/summarizer.py:14 | filtering a concatenation is the concatenation of the filtered parts, so the kept evaluations keep their input order and multiplicity |
| `Summarizer.TrackedSingle` | app/summarizer.py:14 | a single evaluation is kept iff it has a target |
| `Summarizer.Insert` | app/summarizer.py:14-15 | one insertion step of the sort adds exactly one entry (multiset union) |
| `Summarizer.SortDesc` | app/summarizer.py:14-15 | the sort's result is in non-increasing magnitude and is a permutation of its input |
| `Summarizer.InsertStable` | app/summarizer.py:15 | inserting into a sorted list places the new entry after those of equal magnitude and moves no other entry relative to its peers |
| `Summarizer.SortDescStable` | app/summarizer.py:14-15 | the sort is stable: for every magnitude, the entries with it appear in input order |
| `Summarizer.Ranked` | app/summarizer.py:14-15 | the selection has min(3, number tracked) entries, in non-increasing magnitude |
| `Summarizer.Upper` | app/summarizer.py:16 | upper-casing keeps the length, turns each ASCII letter a-z into its capital and keeps every other character |
| `Summarizer.ToInsight` | app/summarizer.py:16-17 | HIGH iff the magnitude exceeds 0.1, else MEDIUM, never LOW; the message is the upper-cased name, " variance ", the rendering of the signed `variance_pct or 0`, and "%" |
| `Summarizer.KeyInsights` | app/summarizer.py:12-19 | between 1 and 3 insights |
| `Summarizer.TopInsights` | app/summarizer.py:12-19 | the append loop computes exactly `KeyInsights`, between 1 and 3 insights |
| `Summarizer.InsightCount` | app/summarizer.py:14-19 | one insight per tracked evaluation up to three, or one when none is tracked |
| `Summarizer.FallbackIff` | app/summarizer.py:19 | the LOW "Stable performance across tracked metrics" insight alone is reported iff no evaluation has a target |
| `Summarizer.RankedAreTracked` | app/summarizer.py:14 | every selected evaluation comes from the input and has a target |
| `Summarizer.RankedAreLargest` | app/summarizer.py:14-15 | a tracked evaluation that was not selected has a magnitude no larger than any selected one |
| `Summarizer.RankedKeepsTieOrder` | app/summarizer.py:14-15 | for every magnitude, the selected entries with it are a prefix of the tracked entries with it, in order |
| `Summarizer.SortThreeIncreasing` | app/summarizer.py:14-15 | three entries of strictly increasing magnitude are sorted into reverse order |
| `Summarizer.RankingExample` | app/summarizer.py:14-15 | any three tracked evaluations with relative variances 0.02, -0.15 and 0.30 are ranked 0.30, -0.15, 0.02 (by magnitude, sign ignored) |
| `Summarizer.InsightImportance` | app/summarizer.py:17 | a reported insight is HIGH iff its magnitude exceeds 0.1, otherwise MEDIUM, never LOW |
| `Summarizer.NatToString` | app/summarizer.py:33-34 | `str(n)`: a non-empty string of decimal digits, starting with 0 only for 0, a single digit iff n < 10 |
| `Summarizer.NatToStringRoundTrip` | app/summarizer.py:33-34 | the rendered score reads back as the score |
| `Summarizer.NatToStringCanonical` | app/summarizer.py:33-34 | the rendering is the only digit string without a leading zero that reads back as the number |
| `Summarizer.Join` | app/summarizer.py:33 | joining no messages gives "", joining one gives that message |
| `Summarizer.JoinCons` | app/summarizer.py:33 | joining two or more messages gives the first, the separator, then the join of the rest |
| `Summarizer.Headline` | app/summarizer.py:32 | "Performance on track" iff the overall status is MEETING_TARGETS, else "Performance at risk" |
| `Summarizer.ExecutiveSummary` | app/summarizer.py:33 | the summary starts with the headline and ". Score " and ends with the insight messages joined by "; " |
| `Summarizer.ExecutiveSummaryCarriesScore` | app/summarizer.py:33 | after the headline and ". Score " come digits that read back as the score, then ". ", then the insight messages joined by "; " |
| `Summarizer.SlackMessage` | app/summarizer.py:34 | the chat message starts with "DMAIC • ", the headline and " • Score ", and ends with "." |
| `Summarizer.HeadlineReportsRisk` | app/summarizer.py:32 | the headline is "Performance at risk" iff some evaluation is BELOW_TARGET, else "Performance on track" |
| `Summarizer.SlackMessageCarriesScore` | app/summarizer.py:34 | the chat message is "DMAIC • headline • Score " followed by exactly `str(score)` (digits that read back as the score), then "." |
| `Summarizer.EmptyListSummary` | app/summarizer.py:28-35 | an empty list: score 100, MEETING_TARGETS, only the fallback insight, summary "Performance on track. Score 100. Stable performance across tracked metrics" |
| `Summarizer.Summarize` | app/summarizer.py:28-35 | the score, overall status and insights are those specified above, AT_RISK iff some BELOW_TARGET; summary = headline + ". Score " + score + ". " + messages joined by "; "; chat message = "DMAIC • " + headline + " • Score " + score + "." |
| `Postgres.FullMatchIffIdentifier` | app/postgres.py:39 | the automaton for `[A-Za-z_][A-Za-z0-9_]*` accepts a name iff its first character is a letter or `_` and every other is a letter, digit or `_` |
| `Postgres.TargetsTableName` | app/postgres.py:34-41 | accepted iff the name (default "targets") is an identifier, then returned unchanged and free of quotes, spaces, dots, semicolons and dashes; otherwise ValueError("Invalid TARGETS_TABLE name.") |
| `Postgres.DefaultAcceptedEmptyRejected` | app/postgres.py:38-40 | the default "targets" is accepted; an empty TARGETS_TABLE is rejected |
| `Postgres.FetchTargets` | app/postgres.py:75-84 | the keys are exactly the rows' metric names, and each maps to the (type, value, lower, upper, currency) tuple of the last row with that name |
| `Postgres.RowTarget` | app/postgres.py:77-83 | the definition tuple carries the row's type, value, bounds and currency unchanged |
| `Postgres.TargetsLastRowWins` | app/postgres.py:76-83 | every key of the result has a last row with that name, whose tuple it holds |
| `Postgres.FetchClientBqConfig` | app/postgres.py:111-120 | fails with the messages `fetch_client_bq_config` raises when there is no row or the table prefix is null or empty; otherwise returns the row's project, dataset and (non-empty) table prefix |
| `BigQuery.Qualifier` | app/bigquery.py:44-45 | `f"{project}.{dataset}."`: the rendered project, a dot, the rendered dataset, a final dot |
| `BigQuery.Show` | app/bigquery.py:44-45 | `f"{v}"` of a configuration value: the value itself, or "None" when it is NULL |
| `BigQuery.Table` | app/bigquery.py:44-45 | `project.dataset.` followed by the source (`google_ads_` or `shopify_`) and the prefix |
| `BigQuery.TableNamesDistinct` | app/bigquery.py:44-45 | the ads and shop tables always differ and both end with the client's prefix |
| `BigQuery.OrZero` | app/bigquery.py:102-103 | `x or 0` is 0 for NULL and the value otherwise |
| `BigQuery.TotalCost` | app/bigquery.py:102 | 0 with no row or a NULL sum, else the first row's cost |
| `BigQuery.TotalRevenue` | app/bigquery.py:103 | 0 with no row or a NULL sum, else the first row's revenue |
| `BigQuery.Roas` | app/bigquery.py:111 | revenue / cost when cost > 0 (times cost gives revenue back), else 0.0; never a division by zero |
| `BigQuery.ActualsFromTotals` | app/bigquery.py:102-113 | keys only among cost, revenue and roas, each present iff requested, with the total cost, total revenue and ROAS |
| `BigQuery.NoRowsAllZero` | app/bigquery.py:102-111 | with no totals row, cost, revenue and ROAS are all 0 |
| `Measure.EvaluateAll` | app/main.py:59-62 | succeeds iff no requested metric's evaluation raises; then one evaluation per metric in request order, with actual 0.0 for a missing metric; otherwise the error of the first metric whose evaluation raises |
| `Measure.ActualFor` | app/main.py:61 | `actuals.get(m, 0.0)`: the actual when the metric is present, else 0.0 |
| `Measure.TargetFor` | app/main.py:62 | `targets.get(m)`: present iff the metric has a target, and then that target |
| `Measure.OnlyMinMaxRanked` | app/summarizer.py:14 | RANGE, NO_TARGET and unknown-type results are never among the ranked insights |

## Left out

- Database access: the engine cache, SQL text, connections and commits are not modelled. `client_exists`,
  `upsert_client_config` and `upsert_target` are pure database round-trips and are left out. The query's
  filtering by client, metric, period overlap and ACTIVE status is left out too, so `FetchTargets`
  takes the rows the query returned.
- `FetchClientBqConfig`: takes the row as the query returns it. Project and dataset are already
  coalesced with the BQ_PROJECT_ID / BQ_DATASET environment values, which happens inside the SQL. The
  dictionary's three keys are the three fields of `BqConfig`.
- Environment variables: TARGETS_TABLE is a parameter of `TargetsTableName`.
- The warehouse client, credential loading, the query text, job execution and the RuntimeError rewrap
  are left out. The query's per-day sums and outer join are left out too: `ActualsFromTotals` takes the
  rows of its result.
- The HTTP layer (FastAPI handlers, the catch-all that turns any error into a 500, the response model)
  and Pydantic validation are left out. `EvaluateAll` returns the first error instead.
- Floating point: values are exact reals, so IEEE rounding, infinities and NaN are not modelled.
  Decimal values coming from the database are treated as the same reals.
- `Summarizer.ToInsight`: the text of `round(pct * 100, 2)` is the parameter `pctText`. The decimal
  rendering of floats is not modelled.
- `Summarizer.Upper`: ASCII only. Python's full Unicode case mapping (for example one character
  becoming two) is not modelled.
- `Evaluator.Evaluate`: a target definition is `None` or a 5-tuple, as `fetch_targets` produces.
  An empty tuple (also falsy) is not representable. A NULL `target_type` is not representable either;
  it would behave like any other unrecognised type.
- `Evaluator.Evaluate`: the raised `TypeError`s are modelled as two error kinds, not their message texts.
- The older root-level `postgres.py` and `schemas.py` duplicates are not part of this model.
