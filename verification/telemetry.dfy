/** The one-second throttle on console reports. The clock is a parameter:
    each frame supplies the time it was processed. */
module Telemetry {

  const PrintInterval: real := 1.0

  /** Whether this frame reports, and the last-report time carried on. */
  datatype Tick = Tick(report: bool, last: real)

  /** A report is due once a full interval has passed since the last one;
      only a report moves the last-report time, and it moves it to now. */
  function Throttle(last: real, now: real): (t: Tick)
    ensures t.report ==> t.last == now && t.last >= last + PrintInterval
    ensures !t.report ==> t.last == last && now < last + PrintInterval
  {
    if now - last >= PrintInterval then Tick(true, now) else Tick(false, last)
  }

  /** The times, among the frames' timestamps, at which a report is printed. */
  function ReportTimes(last: real, times: seq<real>): (r: seq<real>)
    ensures |r| <= |times|
    decreases |times|
  {
    if |times| == 0 then []
    else
      var t := Throttle(last, times[0]);
      (if t.report then [times[0]] else []) + ReportTimes(t.last, times[1..])
  }

  /** The `j`-th report (from 0) comes at least `j + 1` intervals after the
      starting time, and any two reports are at least as many intervals apart
      as they are positions apart. This needs no assumption about the clock. */
  lemma {:induction false} ReportsSpaced(last: real, times: seq<real>)
    ensures forall j :: 0 <= j < |ReportTimes(last, times)| ==>
      ReportTimes(last, times)[j] >= last + (j + 1) as real * PrintInterval
    ensures forall i, j :: 0 <= i < j < |ReportTimes(last, times)| ==>
      ReportTimes(last, times)[i] + (j - i) as real * PrintInterval <= ReportTimes(last, times)[j]
    decreases |times|
  {
    if |times| > 0 {
      var t := Throttle(last, times[0]);
      ReportsSpaced(t.last, times[1..]);
    }
  }

  /** Each report is stamped with the time of a frame. */
  lemma {:induction false} ReportsAreFrameTimes(last: real, times: seq<real>)
    ensures forall x :: x in ReportTimes(last, times) ==> x in times
    decreases |times|
  {
    if |times| > 0 {
      var t := Throttle(last, times[0]);
      ReportsAreFrameTimes(t.last, times[1..]);
    }
  }

  /** However high the frame rate, frames seen no later than `end` produce
      at most `end - last` reports. */
  lemma ReportCountBound(last: real, times: seq<real>, end: real)
    requires last <= end
    requires forall i :: 0 <= i < |times| ==> times[i] <= end
    ensures |ReportTimes(last, times)| as real * PrintInterval <= end - last
  {
    var r := ReportTimes(last, times);
    if |r| > 0 {
      ReportsSpaced(last, times);
      ReportsAreFrameTimes(last, times);
      var x := r[|r| - 1];
      assert x in r;
      assert x in times;
      var i :| 0 <= i < |times| && times[i] == x;
    }
  }

  /** Nothing is reported exactly when no frame comes a full interval after
      the starting time. */
  lemma {:induction false} NoReportIffNoneDue(last: real, times: seq<real>)
    ensures |ReportTimes(last, times)| == 0 <==>
      forall i :: 0 <= i < |times| ==> times[i] - last < PrintInterval
    decreases |times|
  {
    if |times| > 0 {
      var t := Throttle(last, times[0]);
      NoReportIffNoneDue(t.last, times[1..]);
      if !t.report {
        assert forall i :: 1 <= i < |times| ==> times[i] == times[1..][i - 1];
      }
    }
  }
}
