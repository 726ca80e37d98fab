/**
  The derived view the dashboard recomputes whenever the user picks a time
  range or a metric: the rows to show, the summary statistics of the
  selected metric, and which points and rows are marked as anomalies.
*/
module DerivedView {
  import opened Records
  import opened Aggregates

  /** The summary cards: rounded mean, maximum, minimum and anomaly count. */
  datatype Stats = Stats(avg: int, max: int, min: int, anomalies: nat)

  /**
    `filteredData`: for the range "week" the last seven days (`slice(-7)`,
    which is the whole dataset when it holds fewer than seven days); for
    any other range the whole dataset.
  */
  function FilteredData(data: seq<DailyRecord>, timeRange: string): (rows: seq<DailyRecord>)
    ensures timeRange == "week" ==> |rows| == (if |data| < 7 then |data| else 7)
    ensures timeRange == "week" ==> data == data[..|data| - |rows|] + rows
    ensures timeRange != "week" ==> rows == data
  {
    if timeRange == "week" then
      var start := if |data| < 7 then 0 else |data| - 7;
      data[start..]
    else
      data
  }

  /** `filteredData.map(d => d[metric])` */
  function Values(rows: seq<DailyRecord>, metric: Metric): (values: seq<int>)
    ensures |values| == |rows|
    ensures forall k :: 0 <= k < |rows| ==> values[k] == MetricValue(rows[k], metric)
  {
    seq(|rows|, k requires 0 <= k < |rows| => MetricValue(rows[k], metric))
  }

  /**
    The row test of the anomaly filter: only for the heart-rate metric, a
    reading above the metric's anomaly threshold on a flagged day.
  */
  predicate CountsAsAnomaly(metric: Metric, d: DailyRecord)
    ensures CountsAsAnomaly(metric, d) <==> metric == HeartRate && IsElevated(d)
  {
    metric == HeartRate && MetricValue(d, metric) > HeartRateAnomalyThreshold && d.isAnomaly
  }

  /** `filteredData.filter(...).length` for the anomaly card. */
  function Anomalies(rows: seq<DailyRecord>, metric: Metric): (n: nat)
    ensures n <= |rows|
    ensures metric == Steps ==> n == 0
    ensures metric == HeartRate ==> n == |ElevatedRows(rows)|
  {
    var counted := Filter(rows, d => CountsAsAnomaly(metric, d));
    if metric == Steps then
      FilterNone(rows, d => CountsAsAnomaly(metric, d));
      |counted|
    else
      FilterAgree(rows, d => CountsAsAnomaly(metric, d), IsElevated);
      |counted|
  }

  /** The rows the table marks "Elevated". */
  function ElevatedRows(rows: seq<DailyRecord>): (elevated: seq<DailyRecord>)
    ensures forall d :: d in elevated <==> d in rows && d.isAnomaly && d.heartRate > 100
    ensures |elevated| == |set k | 0 <= k < |rows| && IsElevated(rows[k])|
  {
    FilterLength(rows, IsElevated, |rows|);
    assert rows[..|rows|] == rows;
    assert Hits(rows, IsElevated, |rows|) == set k | 0 <= k < |rows| && IsElevated(rows[k]);
    Filter(rows, IsElevated)
  }

  /**
    `stats`: the rounded mean, the maximum and the minimum of the selected
    metric over the shown rows, and the anomaly count.
  */
  function ComputeStats(rows: seq<DailyRecord>, metric: Metric): (st: Stats)
    requires rows != []
    ensures st.min in Values(rows, metric) && st.max in Values(rows, metric)
    ensures forall k :: 0 <= k < |rows| ==> st.min <= MetricValue(rows[k], metric) <= st.max
    ensures st.min <= st.avg <= st.max
    ensures var n, s := |rows|, Sum(Values(rows, metric));
            2 * n * st.avg <= 2 * s + n < 2 * n * st.avg + 2 * n
    ensures st.anomalies <= |rows|
    ensures metric == Steps ==> st.anomalies == 0
    ensures metric == HeartRate ==> st.anomalies == |ElevatedRows(rows)|
  {
    var values := Values(rows, metric);
    var max := MaxOf(values);
    var min := MinOf(values);
    RoundedMeanBounds(values, min, max);
    Stats(RoundedMean(values), max, min, Anomalies(rows, metric))
  }

  /**
    The chart's point for a day is drawn as a large red dot exactly when
    the heart-rate metric is selected and the table would call the day
    "Elevated"; for the steps metric no point is red.
  */
  predicate ShowsRedDot(metric: Metric, d: DailyRecord)
    ensures ShowsRedDot(metric, d) <==> metric == HeartRate && IsElevated(d)
  {
    metric == HeartRate && d.isAnomaly && d.heartRate > HeartRateAnomalyThreshold
  }
}
