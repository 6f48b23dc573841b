/**
 * The data-shaping steps of the warehouse helper: the two table names built from the client configuration,
 * and the map from the query's totals to the requested metrics.
 */
module BigQuery {
  import opened Wrappers
  import Postgres

  /** `f"{v}"` for a configuration value that may be `None`. */
  function Show(v: Option<string>): (r: string)
    ensures v.Some? ==> r == v.value
    ensures v.None? ==> r == "None"
  {
    match v
    case Some(s) => s
    case None => "None"
  }

  /** `project.dataset.`, the part the two table names share. */
  function Qualifier(cfg: Postgres.BqConfig): (q: string)
    ensures var p := Show(cfg.bqProject);
      && |q| == |p| + |Show(cfg.bqDataset)| + 2
      && q[..|p|] == p
      && q[|p|] == '.'
      && q[|p| + 1..|q| - 1] == Show(cfg.bqDataset)
      && q[|q| - 1] == '.'
  {
    var p, d := Show(cfg.bqProject), Show(cfg.bqDataset);
    var q := p + "." + d + ".";
    assert q[..|p|] == p && q[|p| + 1..|q| - 1] == d;
    q
  }

  const ADS_SOURCE := "google_ads_"
  const SHOP_SOURCE := "shopify_"

  /** The table `project.dataset.<source><prefix>`; the ads and shop tables differ only in the source. */
  function Table(cfg: Postgres.BqConfig, source: string): (name: string)
    ensures |name| >= |Qualifier(cfg)|
    ensures name[..|Qualifier(cfg)|] == Qualifier(cfg)
    ensures name[|Qualifier(cfg)|..] == source + cfg.tablePrefix
  {
    var q := Qualifier(cfg);
    var name := q + source + cfg.tablePrefix;
    assert name[..|q|] == q && name[|q|..] == source + cfg.tablePrefix;
    name
  }

  /** The two tables are always distinct, and each ends with the client's table prefix. */
  lemma TableNamesDistinct(cfg: Postgres.BqConfig)
    ensures Table(cfg, ADS_SOURCE) != Table(cfg, SHOP_SOURCE)
    ensures var ads := Table(cfg, ADS_SOURCE); ads[|ads| - |cfg.tablePrefix|..] == cfg.tablePrefix
    ensures var shop := Table(cfg, SHOP_SOURCE); shop[|shop| - |cfg.tablePrefix|..] == cfg.tablePrefix
  {
    var q := Qualifier(cfg);
    assert Table(cfg, ADS_SOURCE)[|q|] == 'g';
    assert Table(cfg, SHOP_SOURCE)[|q|] == 's';
  }

  /** The single row of the totals query; either sum may be NULL. */
  datatype TotalsRow = TotalsRow(totalCost: Option<real>, totalRevenue: Option<real>)

  /** `(x or 0)` for a NULL-able number: NULL and zero both give zero. */
  function OrZero(v: Option<real>): (r: real)
    ensures v.None? ==> r == 0.0
    ensures v.Some? ==> r == v.value
  {
    if v.Some? && v.value != 0.0 then v.value else 0.0
  }

  /** `total_cost`: the first row's sum, or 0 when there is no row or the sum is NULL. */
  function TotalCost(rows: seq<TotalsRow>): (c: real)
    ensures rows == [] || rows[0].totalCost.None? ==> c == 0.0
    ensures rows != [] && rows[0].totalCost.Some? ==> c == rows[0].totalCost.value
  {
    OrZero(if rows != [] then rows[0].totalCost else Some(0.0))
  }

  /** `total_revenue`: the first row's sum, or 0 when there is no row or the sum is NULL. */
  function TotalRevenue(rows: seq<TotalsRow>): (v: real)
    ensures rows == [] || rows[0].totalRevenue.None? ==> v == 0.0
    ensures rows != [] && rows[0].totalRevenue.Some? ==> v == rows[0].totalRevenue.value
  {
    OrZero(if rows != [] then rows[0].totalRevenue else Some(0.0))
  }

  /** Return on ad spend: revenue per unit of cost when cost is positive, else 0. */
  function Roas(totalCost: real, totalRevenue: real): (r: real)
    ensures totalCost > 0.0 ==> r * totalCost == totalRevenue
    ensures totalCost <= 0.0 ==> r == 0.0
  {
    if totalCost > 0.0 then totalRevenue / totalCost else 0.0
  }

  /**
   * The end of `fetch_actuals`: `cost`, `revenue` and `roas` are present exactly when requested; every
   * other requested name is absent.
   */
  method ActualsFromTotals(rows: seq<TotalsRow>, metrics: seq<string>) returns (out: map<string, real>)
    ensures out.Keys <= {"cost", "revenue", "roas"}
    ensures "cost" in out <==> "cost" in metrics
    ensures "revenue" in out <==> "revenue" in metrics
    ensures "roas" in out <==> "roas" in metrics
    ensures "cost" in out ==> out["cost"] == TotalCost(rows)
    ensures "revenue" in out ==> out["revenue"] == TotalRevenue(rows)
    ensures "roas" in out ==> out["roas"] == Roas(TotalCost(rows), TotalRevenue(rows))
  {
    var totalCost := TotalCost(rows);
    var totalRevenue := TotalRevenue(rows);
    out := map[];
    if "cost" in metrics {
      out := out["cost" := totalCost];
    }
    if "revenue" in metrics {
      out := out["revenue" := totalRevenue];
    }
    if "roas" in metrics {
      out := out["roas" := Roas(totalCost, totalRevenue)];
    }
  }

  /** With no totals row every reported metric is 0. */
  lemma NoRowsAllZero()
    ensures TotalCost([]) == 0.0 && TotalRevenue([]) == 0.0 && Roas(TotalCost([]), TotalRevenue([])) == 0.0
  {
  }
}
