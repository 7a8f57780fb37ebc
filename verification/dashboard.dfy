/** The two callbacks: `update_dashboard`, which filters the cleaned table
    and derives every card, figure and the data table from the rows that
    survive, and `export_data`, which hands out those same rows. */
module Dashboard {
  import opened Wrappers
  import opened Grouping
  import opened Records
  import opened Filtering
  import opened Aggregates

  /** The callback's outputs, each figure as the data it plots. */
  datatype Outputs = Outputs(
    hasData: bool,                      // false: every figure shows the "No data" notice
    monthly: seq<(Month, int)>,         // revenue over time
    byCategory: seq<(string, int)>,     // category pie
    ratingCounts: seq<(int, int)>,      // rating histogram
    topProducts: seq<(string, int)>,    // top products bars
    totalSales: int,                    // cents; "$0.00" without data
    avgOrderValue: real,                // cents; "$0.00" without data
    avgRating: Option<real>,            // None prints "N/A"
    table: seq<Row>)

  /** What the empty branch returns. */
  const NoData: Outputs := Outputs(false, [], [], [], [], 0, 0.0, None, [])

  function Summarize(view: seq<Row>): Outputs
    requires |view| > 0
  {
    Outputs(
      true,
      MonthlyRevenue(view),
      CategoryRevenue(view),
      RatingCounts(view),
      TopProducts(view),
      Revenue(view),
      AvgOrderValue(view),
      AvgRating(view),
      view)
  }

  /** `update_dashboard`. The empty branch is taken exactly when no row
      passes the filter; otherwise the outputs agree with each other: the
      monthly and category figures add up to the total, the average order
      value spreads the total over the distinct orders, the histogram
      counts every counted rating, and the average rating is missing
      exactly when the histogram is empty. */
  function UpdateDashboard(f: Filter, df: seq<Row>): (out: Outputs)
    ensures out.table == ApplyFilter(f, df)
    ensures out.hasData <==> exists x :: x in df && Keeps(f, x)
    ensures !out.hasData ==> out == NoData
    ensures out.hasData ==>
      && out.totalSales == Revenue(out.table)
      && Sum(out.monthly) == out.totalSales
      && Sum(out.byCategory) == out.totalSales
      && IsMeanOf(out.avgOrderValue, out.totalSales, |KeySet(out.table, OrderIdOf)|)
      && Sum(out.ratingCounts) == |Where(out.table, IsRated)|
      && (out.avgRating.None? <==> |out.ratingCounts| == 0)
      && |out.topProducts| <= TopCount
  {
    var view := ApplyFilter(f, df);
    if |view| == 0 then
      NoData
    else
      var out := Summarize(view);
      assert view[0] in view;
      NoRatingNoBars(view);
      out
  }

  lemma NoRatingNoBars(view: seq<Row>)
    ensures AvgRating(view).None? <==> |RatingCounts(view)| == 0
  {
    var h := RatingCounts(view);
    if |h| > 0 {
      KeysIndex(h, h[0].0);
      assert h[0].0 in Keys(h);
    }
    if AvgRating(view).Some? {
      var i :| 0 <= i < |view| && IsRated(view[i]);
      assert view[i] in view;
      assert view[i].rating.value in Keys(h);
    }
  }

  /** `export_data`: nothing before the button has been clicked; after
      that, exactly the rows the dashboard's table shows for the same
      inputs. */
  function ExportData(clicks: Option<nat>, f: Filter, df: seq<Row>): (r: Option<seq<Row>>)
    ensures r.None? <==> clicks.None?
    ensures r.Some? ==> r.value == UpdateDashboard(f, df).table
  {
    if clicks.None? then None else Some(ApplyFilter(f, df))
  }

  /** Without filter inputs the table shows every row. */
  lemma UnfilteredShowsAll(df: seq<Row>)
    ensures UpdateDashboard(NoFilter, df).table == df
    ensures UpdateDashboard(NoFilter, df).hasData <==> |df| > 0
  {
    InactiveFilterKeepsAll(NoFilter, df);
  }
}
