/** One run of the dashboard script: filter the table by the selected region,
    compute the two metrics, collect the recommendations and prepare the
    download. Every interaction re-runs it from the start. */
module Dashboard {
  import opened Households
  import RegionFilter
  import Metrics
  import opened Recommendations
  import Download

  /** What one run computes, leaving out how it is drawn. */
  datatype View = View(
    rows: seq<Record>,
    total: int,
    mean: Option<real>,
    recommendations: seq<string>,
    download: Option<string>)

  method Refresh(table: seq<Record>, choice: string) returns (view: View)
    requires choice in RegionFilter.RegionOptions(table)
    ensures view.rows == RegionFilter.Filter(table, choice)
    ensures IsSubsequence(view.rows, table)
    ensures view.total == Metrics.Total(view.rows)
    ensures view.mean.Some? <==> table != []
    ensures view.mean == Metrics.Mean(view.rows)
    ensures view.recommendations == Messages(Advise(view.rows))
    ensures |view.recommendations| <= |view.rows| <= |table|
    ensures view.download == Download.Payload(view.recommendations)
    ensures view.download.Some? <==>
      exists i :: 0 <= i < |view.rows| && (view.rows[i].energy > HighUsageThreshold || view.rows[i].ev == 1)
    ensures view.download.Some? && (forall i :: 0 <= i < |view.rows| ==> Download.Newline !in view.rows[i].id) ==>
      Download.Split(view.download.value) == view.recommendations
  {
    var rows := RegionFilter.Filter(table, choice);
    var total := Metrics.Total(rows);
    var mean := Metrics.Mean(rows);
    var recommendations := BuildRecommendations(rows);
    var download := Download.Payload(recommendations);
    view := View(rows, total, mean, recommendations, download);

    SubsequenceLength(rows, table);
    if table != [] {
      RegionFilter.OptionSelectsSomething(table, choice);
    }
    assert download.Some? <==> Advise(rows) != [];
    AdviseEmptyIff(rows);
    assert Advise(rows) != [] <==>
      exists i :: 0 <= i < |rows| && (rows[i].energy > HighUsageThreshold || rows[i].ev == 1) by {
      forall i | 0 <= i < |rows|
        ensures Classify(rows[i]) != None <==> rows[i].energy > HighUsageThreshold || rows[i].ev == 1 {
      }
    }
    if download.Some? && forall i :: 0 <= i < |rows| ==> Download.Newline !in rows[i].id {
      Download.MessagesHoldNoNewline(rows);
      Download.PayloadRoundTrip(recommendations);
    }
  }

  /** Three households, one above the threshold, one charging an EV, one neither. */
  lemma ThreeHouseholds()
    ensures var rows := [Record("1", "North", 300, 0), Record("2", "North", 100, 1), Record("3", "North", 50, 0)];
      && Advise(rows) == [HighUsage("1"), EvMeter("2")]
      && Metrics.Total(rows) == 450
      && Metrics.Mean(rows) == Some(150.0)
  {
    var rows := [Record("1", "North", 300, 0), Record("2", "North", 100, 1), Record("3", "North", 50, 0)];
    assert rows[1..] == [Record("2", "North", 100, 1), Record("3", "North", 50, 0)];
    assert rows[1..][1..] == [Record("3", "North", 50, 0)];
  }
}
