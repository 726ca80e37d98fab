/**
  What the dashboard shows for any dataset the generator can produce:
  which days are elevated, what the week view contains, how many
  anomalies each view reports, and where the statistics lie.
*/
module Dashboard {
  import opened Records
  import opened Aggregates
  import opened Generator
  import opened DerivedView

  /**
    Random heart rates never exceed 94 bpm, so a generated day is
    "Elevated" exactly when it is one of the two forced days.
  */
  lemma OnlyForcedDaysElevated(data: seq<DailyRecord>, k: nat)
    requires IsGeneratedDataset(data) && k < |data|
    ensures IsElevated(data[k]) <==> IsForcedDay(k)
  {
  }

  /** The week view is the last seven generated days, in order, dated 7 to 13 days after the start. */
  lemma WeekIsLastSevenDays(data: seq<DailyRecord>)
    requires IsGeneratedDataset(data)
    ensures FilteredData(data, "week") == data[7..]
    ensures forall k :: 0 <= k < 7 ==> FilteredData(data, "week")[k].dayOffset == 7 + k
  {
  }

  /** Only day 10 is shown as an anomaly in the week view. */
  lemma {:induction false} WeekElevatedRows(data: seq<DailyRecord>)
    requires IsGeneratedDataset(data)
    ensures ElevatedRows(FilteredData(data, "week")) == [data[SecondForcedDay]]
  {
    var rows := FilteredData(data, "week");
    assert rows == data[7..];
    forall k | 0 <= k < |rows| ensures IsElevated(rows[k]) <==> k == 3 {
      OnlyForcedDaysElevated(data, 7 + k);
    }
    FilterSingleHit(rows, IsElevated, 3);
  }

  /** Days 5 and 10, and no others, are shown as anomalies over the whole range. */
  lemma {:induction false} FullRangeElevatedRows(data: seq<DailyRecord>, timeRange: string)
    requires IsGeneratedDataset(data) && timeRange != "week"
    ensures ElevatedRows(FilteredData(data, timeRange)) == [data[FirstForcedDay], data[SecondForcedDay]]
  {
    var front, back := data[..6], data[6..];
    assert data == front + back;
    forall k | 0 <= k < |front| ensures IsElevated(front[k]) <==> k == 5 {
      OnlyForcedDaysElevated(data, k);
    }
    forall k | 0 <= k < |back| ensures IsElevated(back[k]) <==> k == 4 {
      OnlyForcedDaysElevated(data, 6 + k);
    }
    FilterAppend(front, back, IsElevated);
    FilterSingleHit(front, IsElevated, 5);
    FilterSingleHit(back, IsElevated, 4);
  }

  /**
    With the heart-rate metric the anomaly card reads 1 for the week and
    2 for any other range, whatever the draws; with the steps metric it
    reads 0.
  */
  lemma GeneratedAnomalyCounts(data: seq<DailyRecord>, timeRange: string, metric: Metric)
    requires IsGeneratedDataset(data)
    ensures var st := ComputeStats(FilteredData(data, timeRange), metric);
            st.anomalies == (if metric == Steps then 0 else if timeRange == "week" then 1 else 2)
  {
    if timeRange == "week" {
      WeekElevatedRows(data);
    } else {
      FullRangeElevatedRows(data, timeRange);
    }
  }

  /**
    In either view the step statistics lie within [6000, 10999] and the
    heart-rate statistics within [65, 110].
  */
  lemma GeneratedStatsRanges(data: seq<DailyRecord>, timeRange: string, metric: Metric)
    requires IsGeneratedDataset(data)
    ensures var st := ComputeStats(FilteredData(data, timeRange), metric);
            match metric
            case Steps => 6000 <= st.min <= st.avg <= st.max <= 10999
            case HeartRate => 65 <= st.min <= st.avg <= st.max <= 110
  {
    var rows := FilteredData(data, timeRange);
    var offset := if timeRange == "week" then 7 else 0;
    if timeRange == "week" {
      WeekIsLastSevenDays(data);
    }
    assert rows == data[offset..];
    var lo, hi := if metric == Steps then 6000 else 65, if metric == Steps then 10999 else 110;
    forall k | 0 <= k < |rows| ensures lo <= MetricValue(rows[k], metric) <= hi {
      assert rows[k] == data[offset + k];
    }
    StatsWithin(rows, metric, lo, hi);
  }

  /** When every shown value lies within `[lo, hi]`, so do all three statistics. */
  lemma StatsWithin(rows: seq<DailyRecord>, metric: Metric, lo: int, hi: int)
    requires rows != []
    requires forall k :: 0 <= k < |rows| ==> lo <= MetricValue(rows[k], metric) <= hi
    ensures var st := ComputeStats(rows, metric);
            lo <= st.min <= st.avg <= st.max <= hi
  {
    var st := ComputeStats(rows, metric);
    var values := Values(rows, metric);
    assert st.min in values && st.max in values;
  }

  /** Four days of a worked example: heart rates 70, 105, 60 and 110, the middle two flagged. */
  function ExampleRows(): seq<DailyRecord>
  {
    [DailyRecord(0, 8000, 70, false), DailyRecord(1, 8000, 105, true),
     DailyRecord(2, 8000, 60, false), DailyRecord(3, 8000, 110, true)]
  }

  /**
    The example gives maximum 110, minimum 60, mean 345 / 4 rounded to 86,
    two anomalies, and rows 2 and 4 "Elevated".
  */
  lemma FourDayExample()
    ensures ComputeStats(ExampleRows(), HeartRate) == Stats(86, 110, 60, 2)
    ensures ElevatedRows(ExampleRows()) == [ExampleRows()[1], ExampleRows()[3]]
  {
    var values := Values(ExampleRows(), HeartRate);
    ExampleSum();
    assert RoundedMean(values) == 86;
    ExampleExtremes();
    ExampleElevatedRows();
    assert Anomalies(ExampleRows(), HeartRate) == 2;
  }

  lemma ExampleSum()
    ensures Sum(Values(ExampleRows(), HeartRate)) == 345
  {
    var values := Values(ExampleRows(), HeartRate);
    assert values == [70, 105, 60, 110];
    assert values[..3] == [70, 105, 60] && values[..3][..2] == [70, 105];
    assert [70, 105][..1] == [70] && [70][..0] == [];
    assert Sum([70]) == 70;
    assert Sum([70, 105]) == 175;
    assert Sum(values[..3]) == 235;
  }

  lemma ExampleExtremes()
    ensures MaxOf(Values(ExampleRows(), HeartRate)) == 110
    ensures MinOf(Values(ExampleRows(), HeartRate)) == 60
  {
    var values := Values(ExampleRows(), HeartRate);
    assert values == [70, 105, 60, 110];
    assert values[3] <= MaxOf(values);
    assert MinOf(values) <= values[2];
  }

  lemma ExampleElevatedRows()
    ensures ElevatedRows(ExampleRows()) == [ExampleRows()[1], ExampleRows()[3]]
  {
    var rows := ExampleRows();
    assert rows == rows[..2] + rows[2..];
    FilterAppend(rows[..2], rows[2..], IsElevated);
    FilterSingleHit(rows[..2], IsElevated, 1);
    FilterSingleHit(rows[2..], IsElevated, 1);
  }
}
