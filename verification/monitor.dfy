/** One pass of the monitoring loop, after a frame has been acquired and
    turned into the HSV pixels that are analysed: classify, maybe report,
    then apply the key polled at the end of the pass. Acquisition, the zoom
    resize, colour conversion and display are outside the model, so the
    analysed pixels, the clock reading and the raw key are parameters. */
module Monitor {
  import opened Basics
  import opened Pixels
  import opened Controls
  import opened BandReports
  import opened Telemetry

  /** The state carried from one frame to the next. */
  datatype LoopState = LoopState(view: ViewState, lastPrint: real, frameIndex: nat)

  /** The state before the first frame: no zoom or pan, frame 0, and the
      report clock started at the start time. */
  function Start(now: real): (st: LoopState)
    ensures Valid(st.view) && st.frameIndex == 0
    ensures st.view == Initial && st.lastPrint == now
    ensures Iterate(st, [Pixel(0, 0, 0)], [], now, KeyNone).report.None?
  {
    LoopState(Initial, now, 0)
  }

  /** A printed report: the frame number and one block per band. */
  datatype Report = Report(frame: nat, bands: seq<BandReport>)

  /** What one pass yields: a report or none, and the next state or the end
      of the loop. */
  datatype Pass = Pass(report: Option<Report>, next: Option<LoopState>)

  function Iterate(st: LoopState, pixels: seq<Pixel>, bands: seq<Band>, now: real, key: int): (p: Pass)
    requires |pixels| > 0
    ensures p.report.Some? <==> now - st.lastPrint >= PrintInterval
    ensures p.report.Some? ==> p.report.value.frame == st.frameIndex && |p.report.value.bands| == |bands|
    ensures p.next.None? <==> KeyCode(key) == KeyQuit
    ensures p.next.Some? ==> p.next.value.frameIndex == st.frameIndex + 1
    ensures p.next.Some? ==> p.next.value.lastPrint == (if p.report.Some? then now else st.lastPrint)
    ensures p.next.Some? && Valid(st.view) ==> Valid(p.next.value.view)
    ensures p.next.Some? ==> OnKey(st.view, key) == Continue(p.next.value.view)
    ensures p.report.Some? ==> p.report.value.bands == DescribeFrame(pixels, bands)
  {
    var tick := Throttle(st.lastPrint, now);
    var report := if tick.report then Some(Report(st.frameIndex, DescribeFrame(pixels, bands))) else None;
    match OnKey(st.view, key)
    case Exit => Pass(report, None)
    case Continue(v) => Pass(report, Some(LoopState(v, tick.last, st.frameIndex + 1)))
  }
}
