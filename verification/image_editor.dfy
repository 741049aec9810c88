/** The control state of the image editor dialog: a zoom percentage, a
    rotation in degrees and a horizontal-flip flag, changed by the -/+ zoom
    buttons (steps of 10, clamped to [10, 200]), the rotate buttons (steps of
    15, wrapped into [-180, 180]), the two sliders, reset and flip. */
module ImageEditor {
  import opened Values

  datatype EditorState = EditorState(zoom: int, rotation: int, flipH: bool)

  const MinZoom: int := 10
  const MaxZoom: int := 200
  const ZoomStep: int := 10
  const RotationStep: int := 15

  /** The ranges the controls are meant to keep the state in. */
  predicate InRange(s: EditorState) {
    MinZoom <= s.zoom <= MaxZoom && -180 <= s.rotation <= 180
  }

  /** The state reset produces, and the one a freshly uploaded image carries. */
  const Neutral: EditorState := EditorState(100, 0, false)

  /** The effect that runs whenever the dialog is open and its initial
      values are (re)supplied: the controls take the initial values; while
      closed, nothing changes. */
  function Reinitialise(isOpen: bool, initialZoom: int, initialRotation: int, initialFlipH: bool,
                        s: EditorState): (r: EditorState)
    ensures isOpen ==> r.zoom == initialZoom && r.rotation == initialRotation && r.flipH == initialFlipH
    ensures !isOpen ==> r == s
  {
    if isOpen then EditorState(initialZoom, initialRotation, initialFlipH) else s
  }

  /** The dialog renders only while open and given a (non-empty) image URL. */
  predicate Visible(isOpen: bool, imageUrl: Option<string>) {
    isOpen && PresentText(imageUrl)
  }

  /** `Math.max(10, Math.min(200, prev + delta))`. */
  function ClampedZoom(prev: int, delta: int): (z: int)
    ensures MinZoom <= z <= MaxZoom
    ensures MinZoom <= prev + delta <= MaxZoom ==> z == prev + delta
    ensures prev + delta < MinZoom ==> z == MinZoom
    ensures prev + delta > MaxZoom ==> z == MaxZoom
  {
    if prev + delta > MaxZoom then MaxZoom
    else if prev + delta < MinZoom then MinZoom
    else prev + delta
  }

  /** The zoom buttons: only the zoom changes, and it always lands in [10, 200]. */
  function ZoomChange(s: EditorState, delta: int): (r: EditorState)
    ensures MinZoom <= r.zoom <= MaxZoom
    ensures r.rotation == s.rotation && r.flipH == s.flipH
    ensures r.zoom == ClampedZoom(s.zoom, delta)
  {
    s.(zoom := ClampedZoom(s.zoom, delta))
  }

  /** The rotation update: add delta, then fold one full turn back in when the
      sum leaves [-180, 180]. */
  function NextRotation(prev: int, delta: int): (r: int)
    ensures (prev + delta - r) % 360 == 0
    ensures -180 <= prev + delta <= 180 ==> r == prev + delta
    ensures -180 <= prev <= 180 && -360 <= delta <= 360 ==> -180 <= r <= 180
  {
    var newVal := prev + delta;
    if newVal > 180 then -180 + (newVal - 180)
    else if newVal < -180 then 180 + (newVal + 180)
    else newVal
  }

  /** The rotate buttons: only the rotation changes. */
  function RotationChange(s: EditorState, delta: int): (r: EditorState)
    ensures r.zoom == s.zoom && r.flipH == s.flipH
    ensures r.rotation == NextRotation(s.rotation, delta)
  {
    s.(rotation := NextRotation(s.rotation, delta))
  }

  function Reset(s: EditorState): (r: EditorState)
    ensures r.zoom == 100 && r.rotation == 0 && !r.flipH
  {
    Neutral
  }

  function Flip(s: EditorState): (r: EditorState)
    ensures r.flipH != s.flipH
    ensures r.zoom == s.zoom && r.rotation == s.rotation
  {
    s.(flipH := !s.flipH)
  }

  /** The user's controls. The range inputs deliver only values inside their
      min/max attributes (10..200 and -180..180). */
  datatype Control =
    | ZoomOut | ZoomIn | RotateLeft | RotateRight | ResetAll | FlipImage
    | ZoomSlider(zoomValue: int) | RotationSlider(rotationValue: int)

  predicate Deliverable(c: Control) {
    match c
    case ZoomSlider(v) => MinZoom <= v <= MaxZoom
    case RotationSlider(v) => -180 <= v <= 180
    case _ => true
  }

  function Step(s: EditorState, c: Control): EditorState {
    match c
    case ZoomOut => ZoomChange(s, -ZoomStep)
    case ZoomIn => ZoomChange(s, ZoomStep)
    case RotateLeft => RotationChange(s, -RotationStep)
    case RotateRight => RotationChange(s, RotationStep)
    case ResetAll => Reset(s)
    case FlipImage => Flip(s)
    case ZoomSlider(v) => s.(zoom := v)
    case RotationSlider(v) => s.(rotation := v)
  }

  function Run(s: EditorState, cs: seq<Control>): EditorState
    decreases |cs|
  {
    if cs == [] then s else Run(Step(s, cs[0]), cs[1..])
  }

  /** Every single control keeps an in-range state in range. */
  lemma StepInRange(s: EditorState, c: Control)
    requires InRange(s) && Deliverable(c)
    ensures InRange(Step(s, c))
  {
  }

  /** Any session of controls started from an in-range state stays in range. */
  lemma {:induction false} RunInRange(s: EditorState, cs: seq<Control>)
    requires InRange(s)
    requires forall i :: 0 <= i < |cs| ==> Deliverable(cs[i])
    ensures InRange(Run(s, cs))
    decreases |cs|
  {
    if cs != [] {
      StepInRange(s, cs[0]);
      assert forall i :: 0 <= i < |cs[1..]| ==> cs[1..][i] == cs[i + 1];
      RunInRange(Step(s, cs[0]), cs[1..]);
    }
  }

  /** The zoom buttons saturate at the bounds. */
  lemma ZoomSaturates(s: EditorState)
    ensures s.zoom == MaxZoom ==> ZoomChange(s, ZoomStep).zoom == MaxZoom
    ensures s.zoom == MinZoom ==> ZoomChange(s, -ZoomStep).zoom == MinZoom
  {
  }

  /** A right step undone by a left step returns the same angle, except that
      180 comes back as -180 (the same orientation). */
  lemma RotateRightThenLeft(r: int)
    requires -180 <= r <= 180
    ensures NextRotation(NextRotation(r, RotationStep), -RotationStep) == (if r == 180 then -180 else r)
  {
  }

  /** A left step undone by a right step returns the same angle, except that
      -180 comes back as 180. */
  lemma RotateLeftThenRight(r: int)
    requires -180 <= r <= 180
    ensures NextRotation(NextRotation(r, -RotationStep), RotationStep) == (if r == -180 then 180 else r)
  {
  }

  /** Flipping twice restores the state. */
  lemma FlipTwice(s: EditorState)
    ensures Flip(Flip(s)) == s
  {
  }

  /** Reset forgets everything: two states agree after it. */
  lemma ResetForgets(s: EditorState, t: EditorState)
    ensures Reset(s) == Reset(t) == Neutral
    ensures InRange(Reset(s))
  {
  }
}
