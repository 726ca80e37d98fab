/**
  The entities of the wearable dashboard: one record per day, the random
  draws the generator consumes, the two metrics a user can chart, and the
  "Elevated" classification the table shows for a day.
*/
module Records {

  /** Number of days the generator produces. */
  const DayCount: nat := 14

  /** Heart rate (bpm) above which a flagged day is shown as an anomaly. */
  const HeartRateAnomalyThreshold: int := 100

  /** The part of `Math.floor(Math.random() * 5000)` the generator can yield. */
  type StepDraw = x: int | 0 <= x < 5000

  /** The part of `Math.floor(Math.random() * 30)` the generator can yield. */
  type HeartRateDraw = x: int | 0 <= x < 30

  /**
    The three random values drawn for one day: the step draw, the heart-rate
    draw and the outcome of the `Math.random() > 0.85` anomaly coin.
  */
  datatype Draw = Draw(stepDraw: StepDraw, heartRateDraw: HeartRateDraw, anomaly: bool)

  /**
    One day of mock sensor data. `dayOffset` is the date, counted in days
    after the fixed start date 2024-11-15.
  */
  datatype DailyRecord = DailyRecord(dayOffset: int, steps: int, heartRate: int, isAnomaly: bool)

  /** The metric selected for the chart and the statistics. */
  datatype Metric = Steps | HeartRate

  /** `d[metric]`: the value of the selected metric for one day. */
  function MetricValue(d: DailyRecord, metric: Metric): (v: int)
    ensures metric == Steps ==> v == d.steps
    ensures metric == HeartRate ==> v == d.heartRate
  {
    match metric
    case Steps => d.steps
    case HeartRate => d.heartRate
  }

  /**
    The table's status column shows "Elevated" for a day exactly when this
    holds. The table writes the bound as the literal 100; it is the same
    bound as the heart-rate anomaly threshold the statistics and the chart use.
  */
  predicate IsElevated(d: DailyRecord)
    ensures IsElevated(d) <==> d.isAnomaly && d.heartRate > HeartRateAnomalyThreshold
  {
    d.isAnomaly && d.heartRate > 100
  }
}
