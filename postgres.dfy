/**
 * The data-shaping steps of the relational-store helpers: the targets table name check, the fold of
 * target rows into a per-metric dictionary, and the checks on the client configuration row.
 */
module Postgres {
  import opened Wrappers
  import opened Schemas

  const DEFAULT_TARGETS_TABLE := "targets"

  /** A `ValueError` raised with its message. */
  datatype ConfigError = ValueError(message: string)

  // ---------------------------------------------------------------------------
  // Table name
  // ---------------------------------------------------------------------------

  /** `[A-Za-z_]`. */
  predicate IsIdentStart(c: char) {
    ('A' <= c <= 'Z') || ('a' <= c <= 'z') || c == '_'
  }

  /** `[A-Za-z0-9_]`. */
  predicate IsIdentPart(c: char) {
    IsIdentStart(c) || ('0' <= c <= '9')
  }

  /** A name of the shape `[A-Za-z_][A-Za-z0-9_]*`, stated character by character. */
  predicate IsIdentifier(s: string) {
    && |s| > 0
    && IsIdentStart(s[0])
    && forall i | 1 <= i < |s| :: IsIdentPart(s[i])
  }

  /** States of the automaton for `[A-Za-z_][A-Za-z0-9_]*`. */
  datatype MatchState = Start | InName | Rejected

  function Step(state: MatchState, c: char): MatchState {
    match state
    case Start => if IsIdentStart(c) then InName else Rejected
    case InName => if IsIdentPart(c) then InName else Rejected
    case Rejected => Rejected
  }

  function Run(state: MatchState, s: string): MatchState
    decreases s
  {
    if s == [] then state else Run(Step(state, s[0]), s[1..])
  }

  /** `re.fullmatch(r"[A-Za-z_][A-Za-z0-9_]*", s)` succeeds. */
  predicate FullMatch(s: string) {
    Run(Start, s) == InName
  }

  lemma {:induction false} RunRejectedStays(s: string)
    ensures Run(Rejected, s) == Rejected
  {
    if s != [] {
      RunRejectedStays(s[1..]);
    }
  }

  lemma {:induction false} RunInName(s: string)
    ensures Run(InName, s) == InName <==> forall i | 0 <= i < |s| :: IsIdentPart(s[i])
  {
    if s != [] {
      RunInName(s[1..]);
      if IsIdentPart(s[0]) {
        forall i | 0 <= i < |s| - 1 ensures s[1..][i] == s[i + 1] {
        }
      } else {
        RunRejectedStays(s[1..]);
      }
    }
  }

  /** The automaton accepts exactly the identifiers. */
  lemma FullMatchIffIdentifier(s: string)
    ensures FullMatch(s) <==> IsIdentifier(s)
  {
    if s != [] {
      if IsIdentStart(s[0]) {
        RunInName(s[1..]);
        assert forall i | 1 <= i < |s| :: s[i] == s[1..][i - 1];
      } else {
        RunRejectedStays(s[1..]);
      }
    }
  }

  /**
   * `_targets_table_name`, with `env` the value of the TARGETS_TABLE variable: the name (default "targets")
   * is returned unchanged when it is an identifier, so it holds no quote, space, dot, semicolon or dash.
   */
  function TargetsTableName(env: Option<string>): (r: Result<string, ConfigError>)
    ensures r.Success? <==> IsIdentifier(env.GetOr(DEFAULT_TARGETS_TABLE))
    ensures r.Success? ==> r.value == env.GetOr(DEFAULT_TARGETS_TABLE)
    ensures r.Failure? ==> r.error == ValueError("Invalid TARGETS_TABLE name.")
    ensures r.Success? ==> forall i | 0 <= i < |r.value| :: r.value[i] !in {' ', '\'', '"', ';', '.', '-'}
  {
    var name := env.GetOr(DEFAULT_TARGETS_TABLE);
    FullMatchIffIdentifier(name);
    if !FullMatch(name) then Failure(ValueError("Invalid TARGETS_TABLE name.")) else Success(name)
  }

  /** The default name is accepted; an empty TARGETS_TABLE is rejected. */
  lemma DefaultAcceptedEmptyRejected()
    ensures TargetsTableName(None) == Success("targets")
    ensures TargetsTableName(Some("")).Failure?
  {
    assert IsIdentifier(DEFAULT_TARGETS_TABLE);
  }

  // ---------------------------------------------------------------------------
  // fetch_targets: rows -> dictionary
  // ---------------------------------------------------------------------------

  /**
   * One result row of the targets query. `currency` is `None` both for a NULL value and when the
   * column is absent from the result (`r.get("currency")`).
   */
  datatype TargetRow = TargetRow(
    metricName: string,
    targetType: string,
    targetValue: Option<real>,
    lowerBound: Option<real>,
    upperBound: Option<real>,
    currency: Option<string>)

  /** The tuple `(target_type, target_value, lower_bound, upper_bound, currency)` of a row. */
  function RowTarget(row: TargetRow): (t: TargetDef)
    ensures t.targetType == row.targetType && t.targetValue == row.targetValue
    ensures t.lowerBound == row.lowerBound && t.upperBound == row.upperBound && t.currency == row.currency
  {
    TargetDef(row.targetType, row.targetValue, row.lowerBound, row.upperBound, row.currency)
  }

  /** Row `i` is the last of `rows` with its metric name. */
  ghost predicate LastWithName(rows: seq<TargetRow>, i: int)
    requires 0 <= i < |rows|
  {
    forall j | i < j < |rows| :: rows[j].metricName != rows[i].metricName
  }

  /**
   * The fold at the end of `fetch_targets`, over the rows the query returned: one entry per metric name
   * of the rows, holding the tuple of the last row with that name.
   */
  method FetchTargets(rows: seq<TargetRow>) returns (out: map<string, TargetDef>)
    ensures out.Keys == Names(rows, |rows|)
    ensures forall i | 0 <= i < |rows| && LastWithName(rows, i) :: out[rows[i].metricName] == RowTarget(rows[i])
  {
    out := map[];
    for n := 0 to |rows|
      invariant out.Keys == Names(rows, n)
      invariant forall i | 0 <= i < n && LastWithName(rows[..n], i) :: out[rows[i].metricName] == RowTarget(rows[i])
    {
      var r := rows[n];
      ghost var before := out;
      out := out[r.metricName := RowTarget(r)];
      forall i | 0 <= i < n + 1 && LastWithName(rows[..n + 1], i)
        ensures out[rows[i].metricName] == RowTarget(rows[i])
      {
        if i < n {
          LastInLongerPrefix(rows, n, i);
          assert before[rows[i].metricName] == RowTarget(rows[i]);
        }
      }
    }
    assert rows[..|rows|] == rows;
  }

  /** The metric names of the first `n` rows. */
  ghost function Names(rows: seq<TargetRow>, n: nat): set<string>
    requires n <= |rows|
  {
    set i | 0 <= i < n :: rows[i].metricName
  }

  /** A row that is last with its name among the first `n + 1` rows is last among the first `n`, and row `n` has another name. */
  lemma LastInLongerPrefix(rows: seq<TargetRow>, n: nat, i: nat)
    requires i < n < |rows|
    requires LastWithName(rows[..n + 1], i)
    ensures LastWithName(rows[..n], i)
    ensures rows[n].metricName != rows[i].metricName
  {
    assert rows[..n + 1][n] == rows[n] && rows[..n + 1][i] == rows[i];
    forall j | i < j < n ensures rows[..n][j].metricName != rows[..n][i].metricName {
      assert rows[..n + 1][j] == rows[..n][j];
    }
  }

  /** Every name of the result maps to the tuple of some row with that name that no later row overrides. */
  lemma TargetsLastRowWins(rows: seq<TargetRow>, name: string)
    requires name in Names(rows, |rows|)
    ensures exists i | 0 <= i < |rows| :: rows[i].metricName == name && LastWithName(rows, i)
  {
    var i :| 0 <= i < |rows| && rows[i].metricName == name;
    while !LastWithName(rows, i)
      invariant 0 <= i < |rows| && rows[i].metricName == name
      decreases |rows| - i
    {
      var j :| i < j < |rows| && rows[j].metricName == rows[i].metricName;
      i := j;
    }
  }

  // ---------------------------------------------------------------------------
  // fetch_client_bq_config: post-query checks
  // ---------------------------------------------------------------------------

  /** The `clients` row as the query returns it (project and dataset already coalesced with the environment). */
  datatype ClientRow = ClientRow(bqProject: Option<string>, bqDataset: Option<string>, tablePrefix: Option<string>)

  /** The returned dictionary: keys `bq_project`, `bq_dataset` and `table_prefix`, one field each. */
  datatype BqConfig = BqConfig(bqProject: Option<string>, bqDataset: Option<string>, tablePrefix: string)

  /**
   * `fetch_client_bq_config` after its query: fails when there is no row or its table prefix is null or
   * empty, otherwise returns the three values of the row.
   */
  function FetchClientBqConfig(clientId: string, row: Option<ClientRow>): (r: Result<BqConfig, ConfigError>)
    ensures r.Success? <==> row.Some? && row.value.tablePrefix.Some? && row.value.tablePrefix.value != ""
    ensures row.None? ==> r == Failure(ValueError("No client row found for client_id=" + clientId))
    ensures row.Some? && r.Failure? ==>
              r == Failure(ValueError("clients.dataslayer_config.table_prefix missing for client_id=" + clientId))
    ensures r.Success? ==>
              && r.value.bqProject == row.value.bqProject
              && r.value.bqDataset == row.value.bqDataset
              && Some(r.value.tablePrefix) == row.value.tablePrefix
              && |r.value.tablePrefix| > 0
  {
    if row.None? then
      Failure(ValueError("No client row found for client_id=" + clientId))
    else if row.value.tablePrefix.None? || row.value.tablePrefix.value == "" then
      Failure(ValueError("clients.dataslayer_config.table_prefix missing for client_id=" + clientId))
    else
      Success(BqConfig(row.value.bqProject, row.value.bqDataset, row.value.tablePrefix.value))
  }
}
