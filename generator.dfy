/**
  The mock-data generator: fourteen consecutive days of random steps, heart
  rate and anomaly flag, after which two days are forced to be elevated
  heart-rate anomalies for demonstration.
*/
module Generator {
  import opened Records

  /** The two demonstration days whose heart rate the generator overrides. */
  const FirstForcedDay: nat := 5
  const SecondForcedDay: nat := 10

  predicate IsForcedDay(k: int)
  {
    k == FirstForcedDay || k == SecondForcedDay
  }

  /**
    What every dataset the generator can return satisfies, whatever the
    draws: fourteen days dated 0, 1, ..., 13 days after the start date,
    steps within [6000, 10999], heart rate within [65, 94] except on the
    two forced days, which read 105 and 110 bpm and are flagged.
  */
  ghost predicate IsGeneratedDataset(data: seq<DailyRecord>)
  {
    && |data| == DayCount
    && (forall k :: 0 <= k < |data| ==> data[k].dayOffset == k)
    && (forall k :: 0 <= k < |data| ==> 6000 <= data[k].steps <= 10999)
    && (forall k :: 0 <= k < |data| && !IsForcedDay(k) ==> 65 <= data[k].heartRate <= 94)
    && data[FirstForcedDay].heartRate == 105 && data[FirstForcedDay].isAnomaly
    && data[SecondForcedDay].heartRate == 110 && data[SecondForcedDay].isAnomaly
  }

  /**
    `generateData`: one record per day built from that day's draws, then
    the overrides of days 5 and 10. The result keeps every drawn value
    except the heart rate and flag of the two forced days.
  */
  method GenerateData(draws: seq<Draw>) returns (data: seq<DailyRecord>)
    requires |draws| == DayCount
    ensures |data| == DayCount
    ensures forall k :: 0 <= k < |data| ==> data[k].dayOffset == k
    ensures forall k :: 0 <= k < |data| ==> data[k].steps == draws[k].stepDraw + 6000
    ensures forall k :: 0 <= k < |data| && !IsForcedDay(k) ==>
              data[k].heartRate == draws[k].heartRateDraw + 65 && data[k].isAnomaly == draws[k].anomaly
    ensures data[FirstForcedDay].heartRate == 105 && data[FirstForcedDay].isAnomaly
    ensures data[SecondForcedDay].heartRate == 110 && data[SecondForcedDay].isAnomaly
    ensures IsGeneratedDataset(data)
  {
    data := [];
    var i := 0;
    while i < DayCount
      invariant 0 <= i <= DayCount
      invariant |data| == i
      invariant forall k :: 0 <= k < i ==> data[k].dayOffset == k
      invariant forall k :: 0 <= k < i ==> data[k].steps == draws[k].stepDraw + 6000
      invariant forall k :: 0 <= k < i ==>
                  data[k].heartRate == draws[k].heartRateDraw + 65 && data[k].isAnomaly == draws[k].anomaly
    {
      var d := draws[i];
      data := data + [DailyRecord(i, d.stepDraw + 6000, d.heartRateDraw + 65, d.anomaly)];
      i := i + 1;
    }

    data := data[FirstForcedDay := data[FirstForcedDay].(heartRate := 105)];
    data := data[FirstForcedDay := data[FirstForcedDay].(isAnomaly := true)];
    data := data[SecondForcedDay := data[SecondForcedDay].(heartRate := 110)];
    data := data[SecondForcedDay := data[SecondForcedDay].(isAnomaly := true)];
  }
}
