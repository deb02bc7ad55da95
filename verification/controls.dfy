/** The key-event state machine of the interactive view: zoom in and out in
    0.2 steps within [1.0, 5.0], pan in steps of 20 within [-100, 100],
    reset, quit, and every other key ignored. */
module Controls {
  import opened Basics

  const ZoomStep: real := 0.2
  const MinZoom: real := 1.0
  const MaxZoom: real := 5.0
  const PanStep: int := 20
  const PanLimit: int := 100

  /** Key codes after masking with 0xFF. */
  const KeyQuit: int := 113       // 'q'
  const KeyPlus: int := 43        // '+'
  const KeyEquals: int := 61      // '='
  const KeyMinus: int := 45       // '-'
  const KeyUnderscore: int := 95  // '_'
  const KeyReset: int := 114      // 'r'
  const KeyLeft: int := 81
  const KeyUp: int := 82
  const KeyRight: int := 83
  const KeyDown: int := 84
  const KeyNone: int := 255       // what `-1 & 0xFF` gives when no key was pressed

  /** Zoom factor and pan offset; the only state the controller has. */
  datatype ViewState = ViewState(zoom: real, panX: int, panY: int)

  const Initial: ViewState := ViewState(1.0, 0, 0)

  /** The clamps the controller is meant to keep. */
  predicate Valid(s: ViewState)
  {
    && MinZoom <= s.zoom <= MaxZoom
    && -PanLimit <= s.panX <= PanLimit
    && -PanLimit <= s.panY <= PanLimit
  }

  datatype Command = Quit | ZoomIn | ZoomOut | Reset | PanUp | PanDown | PanLeft | PanRight | Ignore

  /** The key code read each frame, `cv2.waitKey(1) & 0xFF`. For a
      non-negative mask Python's `&` is the remainder modulo 256 rounded
      towards minus infinity, which is Dafny's `%` for a positive divisor. */
  function KeyCode(raw: int): (k: int)
    ensures 0 <= k < 256
    ensures 0 <= raw < 256 ==> k == raw
    ensures raw == -1 ==> k == KeyNone
    ensures (raw - k) % 256 == 0
  {
    raw % 256
  }

  /** Arrow keys delivered as the keysyms 0xFF51..0xFF54 reduce to the arrow
      codes 81..84 that the pan branches test. */
  lemma ArrowKeysymsMask()
    ensures KeyCode(0xFF51) == KeyLeft && KeyCode(0xFF52) == KeyUp
    ensures KeyCode(0xFF53) == KeyRight && KeyCode(0xFF54) == KeyDown
  {
  }

  function Decode(code: int): Command
  {
    if code == KeyQuit then Quit
    else if code == KeyPlus || code == KeyEquals then ZoomIn
    else if code == KeyMinus || code == KeyUnderscore then ZoomOut
    else if code == KeyReset then Reset
    else if code == KeyUp then PanUp
    else if code == KeyDown then PanDown
    else if code == KeyLeft then PanLeft
    else if code == KeyRight then PanRight
    else Ignore
  }

  /** A key either ends the loop or yields the next view state. */
  datatype Transition = Exit | Continue(view: ViewState)

  function Apply(s: ViewState, cmd: Command): Transition
  {
    match cmd
    case Quit => Exit
    case ZoomIn => Continue(s.(zoom := RealMin(s.zoom + ZoomStep, MaxZoom)))
    case ZoomOut =>
      var z := RealMax(s.zoom - ZoomStep, MinZoom);
      if z == 1.0 then Continue(ViewState(z, 0, 0)) else Continue(s.(zoom := z))
    case Reset => Continue(Initial)
    case PanUp => Continue(s.(panY := Max(s.panY - PanStep, -PanLimit)))
    case PanDown => Continue(s.(panY := Min(s.panY + PanStep, PanLimit)))
    case PanLeft => Continue(s.(panX := Max(s.panX - PanStep, -PanLimit)))
    case PanRight => Continue(s.(panX := Min(s.panX + PanStep, PanLimit)))
    case Ignore => Continue(s)
  }

  /** One polled key applied to the view: `q` is the only way out, and a
      state inside the clamps stays inside them. */
  function OnKey(s: ViewState, raw: int): (t: Transition)
    ensures t.Exit? <==> KeyCode(raw) == KeyQuit
    ensures Valid(s) && t.Continue? ==> Valid(t.view)
  {
    Apply(s, Decode(KeyCode(raw)))
  }

  predicate Recognised(code: int)
  {
    code in {KeyPlus, KeyEquals, KeyMinus, KeyUnderscore, KeyReset, KeyQuit, KeyLeft, KeyUp, KeyRight, KeyDown}
  }

  /** Every key outside the ten recognised codes, "no key" included, leaves
      the view exactly as it was. */
  lemma UnrecognisedKeyIsNoOp(s: ViewState, raw: int)
    requires !Recognised(KeyCode(raw))
    ensures OnKey(s, raw) == Continue(s)
  {
  }

  lemma NoKeyIsNoOp(s: ViewState)
    ensures OnKey(s, -1) == Continue(s)
  {
    UnrecognisedKeyIsNoOp(s, -1);
  }

  /** `r` yields exactly (1.0, 0, 0), whatever the state. */
  lemma ResetRestoresInitial(s: ViewState, raw: int)
    requires KeyCode(raw) == KeyReset
    ensures OnKey(s, raw) == Continue(ViewState(1.0, 0, 0))
  {
  }

  /** Zooming in moves the zoom by one step up to the 5.0 cap and leaves
      the pan alone. */
  lemma ZoomInKeepsPan(s: ViewState, raw: int)
    requires KeyCode(raw) in {KeyPlus, KeyEquals}
    ensures OnKey(s, raw).Continue?
    ensures OnKey(s, raw).view.panX == s.panX && OnKey(s, raw).view.panY == s.panY
    ensures s.zoom <= MaxZoom - ZoomStep ==> OnKey(s, raw).view.zoom == s.zoom + ZoomStep
    ensures s.zoom > MaxZoom - ZoomStep ==> OnKey(s, raw).view.zoom == MaxZoom
  {
  }

  /** Zooming out lands on 1.0 exactly when one step down would reach or
      pass 1.0, and then the pan is recentred too; otherwise the zoom drops
      by one step and the pan is kept. */
  lemma ZoomOutToOneResetsPan(s: ViewState, raw: int)
    requires KeyCode(raw) in {KeyMinus, KeyUnderscore}
    ensures s.zoom - ZoomStep <= MinZoom ==> OnKey(s, raw) == Continue(ViewState(1.0, 0, 0))
    ensures s.zoom - ZoomStep > MinZoom ==> OnKey(s, raw) == Continue(ViewState(s.zoom - ZoomStep, s.panX, s.panY))
  {
  }

  /** An arrow key changes only its own axis: by one step, or to the clamp
      when a full step would pass it. */
  lemma ArrowChangesOneAxis(s: ViewState, raw: int)
    requires KeyCode(raw) in {KeyLeft, KeyUp, KeyRight, KeyDown}
    ensures OnKey(s, raw).Continue?
    ensures OnKey(s, raw).view.zoom == s.zoom
    ensures KeyCode(raw) in {KeyUp, KeyDown} ==> OnKey(s, raw).view.panX == s.panX
    ensures KeyCode(raw) in {KeyLeft, KeyRight} ==> OnKey(s, raw).view.panY == s.panY
    ensures KeyCode(raw) == KeyUp && s.panY >= -PanLimit + PanStep ==> OnKey(s, raw).view.panY == s.panY - PanStep
    ensures KeyCode(raw) == KeyDown && s.panY <= PanLimit - PanStep ==> OnKey(s, raw).view.panY == s.panY + PanStep
    ensures KeyCode(raw) == KeyLeft && s.panX >= -PanLimit + PanStep ==> OnKey(s, raw).view.panX == s.panX - PanStep
    ensures KeyCode(raw) == KeyRight && s.panX <= PanLimit - PanStep ==> OnKey(s, raw).view.panX == s.panX + PanStep
    ensures KeyCode(raw) == KeyUp && s.panY < -PanLimit + PanStep ==> OnKey(s, raw).view.panY == -PanLimit
    ensures KeyCode(raw) == KeyDown && s.panY > PanLimit - PanStep ==> OnKey(s, raw).view.panY == PanLimit
    ensures KeyCode(raw) == KeyLeft && s.panX < -PanLimit + PanStep ==> OnKey(s, raw).view.panX == -PanLimit
    ensures KeyCode(raw) == KeyRight && s.panX > PanLimit - PanStep ==> OnKey(s, raw).view.panX == PanLimit
  {
  }

  /** Arrow keys are not guarded by the zoom level: at zoom 1.0 they still
      move the (then invisible) pan, which the next zoom-in applies. */
  lemma PanMovesWhileUnzoomed()
    ensures OnKey(Initial, KeyRight) == Continue(ViewState(1.0, 20, 0))
  {
  }

  /** The zoom factors reachable from 1.0: 1.0 + 0.2 * k for k in 0..20. */
  function ZoomLevel(k: int): real
  {
    MinZoom + ZoomStep * k as real
  }

  ghost predicate OnGrid(z: real)
  {
    exists k :: 0 <= k <= 20 && z == ZoomLevel(k)
  }

  /** Every key keeps the zoom on the 0.2 grid, so exact arithmetic is what
      lets zoom-out land on 1.0 and recentre the pan. */
  lemma ZoomStaysOnGrid(s: ViewState, raw: int)
    requires OnGrid(s.zoom)
    requires OnKey(s, raw).Continue?
    ensures OnGrid(OnKey(s, raw).view.zoom)
  {
    var k :| 0 <= k <= 20 && s.zoom == ZoomLevel(k);
    var z := OnKey(s, raw).view.zoom;
    match Decode(KeyCode(raw))
    case ZoomIn =>
      if k < 20 {
        assert z == ZoomLevel(k + 1);
      } else {
        assert z == ZoomLevel(20);
      }
    case ZoomOut =>
      if k > 0 {
        assert z == ZoomLevel(k - 1);
      } else {
        assert z == ZoomLevel(0);
      }
    case Reset =>
      assert z == ZoomLevel(0);
    case Quit =>
      assert false;
    case PanUp =>
      assert z == ZoomLevel(k);
    case PanDown =>
      assert z == ZoomLevel(k);
    case PanLeft =>
      assert z == ZoomLevel(k);
    case PanRight =>
      assert z == ZoomLevel(k);
    case Ignore =>
      assert z == ZoomLevel(k);
  }

  /** The keys of successive frames applied in order, stopping at the first `q`. */
  function Run(s: ViewState, keys: seq<int>): (r: Transition)
    ensures r.Continue? ==> forall i :: 0 <= i < |keys| ==> KeyCode(keys[i]) != KeyQuit
    decreases |keys|
  {
    if |keys| == 0 then Continue(s)
    else
      match OnKey(s, keys[0])
      case Exit => Exit
      case Continue(s') => Run(s', keys[1..])
  }

  /** For any finite sequence of key events the view stays inside its clamps. */
  lemma {:induction false} RunStaysValid(s: ViewState, keys: seq<int>)
    requires Valid(s)
    ensures Run(s, keys).Continue? ==> Valid(Run(s, keys).view)
    decreases |keys|
  {
    if |keys| > 0 {
      match OnKey(s, keys[0])
      case Exit =>
      case Continue(s') => RunStaysValid(s', keys[1..]);
    }
  }

  /** The loop ends exactly when some polled key is `q`. */
  lemma {:induction false} RunExitsIffQuit(s: ViewState, keys: seq<int>)
    ensures Run(s, keys).Exit? <==> exists i :: 0 <= i < |keys| && KeyCode(keys[i]) == KeyQuit
    decreases |keys|
  {
    if |keys| > 0 {
      match OnKey(s, keys[0])
      case Exit =>
      case Continue(s') =>
        RunExitsIffQuit(s', keys[1..]);
        if exists i :: 0 <= i < |keys| && KeyCode(keys[i]) == KeyQuit {
          var i :| 0 <= i < |keys| && KeyCode(keys[i]) == KeyQuit;
          assert i > 0 && keys[1..][i - 1] == keys[i];
        }
        if exists i :: 0 <= i < |keys[1..]| && KeyCode(keys[1..][i]) == KeyQuit {
          var i :| 0 <= i < |keys[1..]| && KeyCode(keys[1..][i]) == KeyQuit;
          assert keys[i + 1] == keys[1..][i];
        }
    }
  }
}
