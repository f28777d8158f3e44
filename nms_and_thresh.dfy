/** Orientation-aware non-maximum suppression (`non_max_suppression`) and
    the threshold clamping of `hysteresis_and_binary`.

    The angle map holds, per pixel, either no angle (NaN in the source) or
    the step `(round(sin θ), round(cos θ))` to the neighbour along the
    angle, so no trigonometry is needed here.  The connectivity test of
    scikit-image's `apply_hysteresis_threshold` is a collaborator that says,
    for an image, a low and a high threshold and a pixel, whether the pixel
    is kept. */
module NmsAndThresh {

  import opened Util

  /** Row and column offset of the neighbour on the positive side. */
  datatype Step = Step(dy: int, dx: int)

  predicate InBounds(h: int, w: int, i: int, j: int) {
    0 <= i < h && 0 <= j < w
  }

  /** The neighbour's response, or `None` for the `-np.inf` of an
      out-of-bounds neighbour. */
  function Neighbour(resp: Grid<int>, i: int, j: int): (v: Option<int>)
    requires Rect(resp)
    ensures v.Some? <==> InBounds(|resp|, Width(resp), i, j)
    ensures v.Some? ==> v.value == resp[i][j]
  {
    if InBounds(|resp|, Width(resp), i, j) then Some(resp[i][j]) else None
  }

  /** `val >= v` where `None` stands for minus infinity. */
  predicate NotBelow(val: int, v: Option<int>) {
    v.None? || val >= v.value
  }

  /** Pixel (i, j) is a local maximum along step s: not below either
      in-bounds neighbour at (i, j) +- s. */
  predicate LocalMax(resp: Grid<int>, i: int, j: int, s: Step)
    requires Rect(resp) && InBounds(|resp|, Width(resp), i, j)
  {
    NotBelow(resp[i][j], Neighbour(resp, i + s.dy, j + s.dx)) &&
    NotBelow(resp[i][j], Neighbour(resp, i - s.dy, j - s.dx))
  }

  /** The suppressed value of one pixel: 0 without an angle, the response
      itself at a local maximum along the angle, 0 otherwise. */
  function NmsAt(resp: Grid<int>, am: Grid<Option<Step>>, i: int, j: int): (r: int)
    requires Rect(resp) && IsGrid(am, |resp|, Width(resp))
    requires InBounds(|resp|, Width(resp), i, j)
    ensures r == resp[i][j] || r == 0
    ensures am[i][j].None? ==> r == 0
    ensures am[i][j].Some? && LocalMax(resp, i, j, am[i][j].value) ==> r == resp[i][j]
    ensures am[i][j].Some? && !LocalMax(resp, i, j, am[i][j].value) ==> r == 0
  {
    match am[i][j]
    case None => 0
    case Some(s) => if LocalMax(resp, i, j, s) then resp[i][j] else 0
  }

  /** The whole suppressed map, of the input's shape. */
  function Nms(resp: Grid<int>, am: Grid<Option<Step>>): (out: Grid<int>)
    requires Rect(resp) && IsGrid(am, |resp|, Width(resp))
    ensures IsGrid(out, |resp|, Width(resp))
    ensures forall i, j :: InBounds(|resp|, Width(resp), i, j) ==> out[i][j] == NmsAt(resp, am, i, j)
  {
    seq(|resp|, i requires 0 <= i < |resp| =>
      seq(Width(resp), j requires 0 <= j < Width(resp) => NmsAt(resp, am, i, j)))
  }

  /** `non_max_suppression`: fills a zero array pixel by pixel. */
  method NonMaxSuppression(resp: Grid<int>, am: Grid<Option<Step>>) returns (out: Grid<int>)
    requires Rect(resp) && IsGrid(am, |resp|, Width(resp))
    ensures out == Nms(resp, am)
  {
    var h, w := |resp|, Width(resp);
    var a := new int[h, w]((_, _) => 0);
    for i := 0 to h
      invariant forall r, c :: 0 <= r < i && 0 <= c < w ==> a[r, c] == NmsAt(resp, am, r, c)
      invariant forall r, c :: i <= r < h && 0 <= c < w ==> a[r, c] == 0
    {
      for j := 0 to w
        invariant forall r, c :: 0 <= r < i && 0 <= c < w ==> a[r, c] == NmsAt(resp, am, r, c)
        invariant forall c :: 0 <= c < j ==> a[i, c] == NmsAt(resp, am, i, c)
        invariant forall r, c :: i <= r < h && 0 <= c < w && (r > i || c >= j) ==> a[r, c] == 0
      {
        match am[i][j] {
          case None =>
          case Some(s) =>
            var val := resp[i][j];
            var v1 := Neighbour(resp, i + s.dy, j + s.dx);
            var v2 := Neighbour(resp, i - s.dy, j - s.dx);
            if NotBelow(val, v1) && NotBelow(val, v2) {
              a[i, j] := val;
            }
        }
      }
    }
    out := Snapshot(a);
    forall r | 0 <= r < h
      ensures out[r] == Nms(resp, am)[r]
    {
    }
  }

  /** A pixel whose two neighbours along its step both lie outside the
      image keeps its value: an out-of-bounds neighbour never suppresses. */
  lemma OutOfBoundsNeverSuppresses(resp: Grid<int>, am: Grid<Option<Step>>, i: int, j: int)
    requires Rect(resp) && IsGrid(am, |resp|, Width(resp))
    requires InBounds(|resp|, Width(resp), i, j) && am[i][j].Some?
    requires !InBounds(|resp|, Width(resp), i + am[i][j].value.dy, j + am[i][j].value.dx)
    requires !InBounds(|resp|, Width(resp), i - am[i][j].value.dy, j - am[i][j].value.dx)
    ensures Nms(resp, am)[i][j] == resp[i][j]
  {
  }

  /** A pixel with an angle that is not below any response of the image
      keeps its value. */
  lemma GlobalMaximumKept(resp: Grid<int>, am: Grid<Option<Step>>, i: int, j: int)
    requires Rect(resp) && IsGrid(am, |resp|, Width(resp))
    requires InBounds(|resp|, Width(resp), i, j) && am[i][j].Some?
    requires forall r, c :: InBounds(|resp|, Width(resp), r, c) ==> resp[r][c] <= resp[i][j]
    ensures Nms(resp, am)[i][j] == resp[i][j]
  {
    var s := am[i][j].value;
    assert LocalMax(resp, i, j, s);
  }

  /** A pixel strictly below an in-bounds neighbour along its step is
      zeroed. */
  lemma DominatedSuppressed(resp: Grid<int>, am: Grid<Option<Step>>, i: int, j: int)
    requires Rect(resp) && IsGrid(am, |resp|, Width(resp))
    requires InBounds(|resp|, Width(resp), i, j) && am[i][j].Some?
    requires InBounds(|resp|, Width(resp), i + am[i][j].value.dy, j + am[i][j].value.dx)
    requires resp[i][j] < resp[i + am[i][j].value.dy][j + am[i][j].value.dx]
    ensures Nms(resp, am)[i][j] == 0
  {
  }

  /** For non-negative responses and a fixed angle map, suppressing an
      already suppressed map changes nothing. */
  lemma NmsIdempotent(resp: Grid<int>, am: Grid<Option<Step>>)
    requires Rect(resp) && IsGrid(am, |resp|, Width(resp))
    requires forall i, j :: InBounds(|resp|, Width(resp), i, j) ==> resp[i][j] >= 0
    ensures Nms(Nms(resp, am), am) == Nms(resp, am)
  {
    var h, w := |resp|, Width(resp);
    var once := Nms(resp, am);
    assert Width(once) == w by {
      if h > 0 { assert |once[0]| == w; }
    }
    forall i, j | InBounds(h, w, i, j)
      ensures NmsAt(once, am, i, j) == once[i][j]
    {
      if am[i][j].Some? && LocalMax(resp, i, j, am[i][j].value) {
        var s := am[i][j].value;
        var n1 := Neighbour(once, i + s.dy, j + s.dx);
        var n2 := Neighbour(once, i - s.dy, j - s.dx);
        assert n1.Some? ==> n1.value == NmsAt(resp, am, i + s.dy, j + s.dx);
        assert n2.Some? ==> n2.value == NmsAt(resp, am, i - s.dy, j - s.dx);
        assert LocalMax(once, i, j, s);
      }
    }
    forall i | 0 <= i < h
      ensures Nms(once, am)[i] == once[i]
    {
    }
  }

  /** The unit test's map: a single 10 at the centre of a 5 x 5 zero map,
      with angle 0 (step (0, 1)) at the centre only. */
  function IsolatedPeak(): Grid<int> {
    seq(5, i => seq(5, j => if i == 2 && j == 2 then 10 else 0))
  }

  function CentreAngleOnly(): Grid<Option<Step>> {
    seq(5, i => seq(5, j => if i == 2 && j == 2 then Some(Step(0, 1)) else None))
  }

  /** The isolated maximum keeps its value; every other pixel, having no
      angle, is 0. */
  lemma IsolatedPeakKept()
    ensures Nms(IsolatedPeak(), CentreAngleOnly())[2][2] == 10
    ensures forall i, j :: InBounds(5, 5, i, j) && (i, j) != (2, 2) ==>
              Nms(IsolatedPeak(), CentreAngleOnly())[i][j] == 0
  {
    GlobalMaximumKept(IsolatedPeak(), CentreAngleOnly(), 2, 2);
  }

  /** `hysteresis_and_binary`: both thresholds clamped to [0, 255], then
      the collaborator's keep/drop decision as a 0/1 map of the input's
      shape. */
  function HysteresisAndBinary(nms: Grid<int>, high: real, low: real,
                               hysteresis: (Grid<int>, real, real, int, int) -> bool): (bw: Grid<int>)
    requires Rect(nms)
    ensures IsGrid(bw, |nms|, Width(nms))
    ensures forall i, j :: InBounds(|nms|, Width(nms), i, j) ==> bw[i][j] == 0 || bw[i][j] == 1
  {
    var hi := ClipReal(high, 0.0, 255.0);
    var lo := ClipReal(low, 0.0, 255.0);
    seq(|nms|, i => seq(Width(nms), j => if hysteresis(nms, lo, hi, i, j) then 1 else 0))
  }

  /** Because of the clamping, thresholds outside [0, 255] act as the
      nearest bound. */
  lemma ThresholdsClamped(nms: Grid<int>, high: real, low: real,
                          hysteresis: (Grid<int>, real, real, int, int) -> bool)
    requires Rect(nms)
    ensures HysteresisAndBinary(nms, high, low, hysteresis) ==
            HysteresisAndBinary(nms, ClipReal(high, 0.0, 255.0), ClipReal(low, 0.0, 255.0), hysteresis)
  {
  }
}
