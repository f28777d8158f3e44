/** `process_image`: the per-pixel orientation search that builds the seven
    response maps and the shared angle map, min-max normalisation,
    suppression, the threshold sweep with its best score, and the
    mean/std summary per (test, mask size).

    Image loading, the Gaussian noise draws, `cos`/`sin`, hysteresis,
    thinning and the statistics' library routines are collaborators in a
    `Collaborators` value; progress printing, timing and file output are
    not modelled. */
module Processing {

  import opened Util
  import opened StatsTests
  import opened Masks
  import opened NmsAndThresh
  import opened Metrics

  /** The package constants `G_PCM`, `LOW_RATIO` and `N_CHI_BINS`. */
  const GPcm: int := 1
  const LowRatio: real := 0.4
  const NChiBins: nat := 16

  /** `HIGHS = np.linspace(240, 20, 12)`: 240, 220, ..., 20. */
  function Highs(): (hs: seq<real>)
    ensures |hs| == 12
    ensures forall k :: 0 <= k < 12 ==> hs[k] == 240.0 - 20.0 * k as real
  {
    seq(12, k => 240.0 - 20.0 * k as real)
  }

  /** The high thresholds strictly decrease and, like their low partners,
      lie in [0, 255], so the clamping in `hysteresis_and_binary` never
      changes them. */
  lemma HighsInRange()
    ensures forall k, l :: 0 <= k < l < 12 ==> Highs()[k] > Highs()[l]
    ensures forall k :: 0 <= k < 12 ==>
              ClipReal(Highs()[k], 0.0, 255.0) == Highs()[k] &&
              ClipReal(LowRatio * Highs()[k], 0.0, 255.0) == LowRatio * Highs()[k]
  {
  }

  /** Mask sizes the search can use: odd and positive (an even or
      non-positive size makes the patch and the mask disagree in shape). */
  predicate ValidMaskSizes(ms: seq<int>) {
    forall k :: 0 <= k < |ms| ==> ms[k] > 0 && ms[k] % 2 == 1
  }

  /** Everything the pipeline calls but that is not exact arithmetic:
      `normal(θ)` is `(cos θ, sin θ)` for θ in degrees; `noise(mc, i, j)`
      is the Gaussian draw added to pixel (i, j) in Monte Carlo iteration
      mc; `hysteresis` and `thin` decide, per pixel, whether it survives
      scikit-image's `apply_hysteresis_threshold` and `thin`. */
  datatype Collaborators = Collaborators(
    stats: StatsLib,
    normal: real -> (real, real),
    noise: (nat, int, int) -> real,
    hysteresis: (Grid<int>, real, real, int, int) -> bool,
    thin: (Grid<bool>, int, int) -> bool)
  {
    ghost predicate Valid() { stats.Valid() }
  }

  /** An 8-bit grayscale image. */
  predicate IsImage(im: Grid<int>) {
    Rect(im) && forall i, j :: 0 <= i < |im| && 0 <= j < Width(im) ==> 0 <= im[i][j] <= 255
  }

  /** What `process_image` needs of its inputs: an 8-bit image with at
      least one pixel, usable mask sizes, the collaborators' laws and a
      rectangular ground truth. */
  ghost predicate RunInputs(im: Grid<int>, ms: seq<int>, gt: Grid<int>, col: Collaborators) {
    IsImage(im) && NonEmptyGrid(im) && ValidMaskSizes(ms) && col.Valid() && Rect(gt)
  }

  // ---------------------------------------------------------------- ground truth, angles

  /** One horizontal line of edge pixels on the middle row `H // 2`. */
  function GroundTruth(h: nat, w: nat): (gt: Grid<int>)
    ensures IsGrid(gt, h, w)
    ensures forall i, j :: 0 <= i < h && 0 <= j < w ==> gt[i][j] == (if i == h / 2 then 1 else 0)
  {
    seq(h, i => seq(w, j => if i == h / 2 then 1 else 0))
  }

  /** The ground truth has exactly w set pixels, all on row h / 2, for h >= 1. */
  lemma GroundTruthPixels(h: nat, w: nat)
    requires h >= 1
    ensures |Nonzero(GroundTruth(h, w))| == w
    ensures forall k :: 0 <= k < w ==> Nonzero(GroundTruth(h, w))[k] == (h / 2, k)
  {
    var gt := GroundTruth(h, w);
    var cs := Nonzero(gt);
    forall c | 0 <= c < w ensures (h / 2, c) in cs {
      NonzeroComplete(gt, h / 2, c);
    }
    NonzeroRowMajorLine(cs, h / 2, w);
  }

  /** A strictly row-major list of pixels on row r, with columns in
      [0, w), that contains every such pixel is [(r, 0), ..., (r, w - 1)]. */
  lemma NonzeroRowMajorLine(cs: seq<Coord>, r: int, w: nat)
    requires StrictlyRowMajor(cs)
    requires forall k :: 0 <= k < |cs| ==> cs[k].0 == r && 0 <= cs[k].1 < w
    requires forall c :: 0 <= c < w ==> (r, c) in cs
    ensures |cs| == w && forall k :: 0 <= k < w ==> cs[k] == (r, k)
  {
    forall k | 0 <= k < w ensures k < |cs| && cs[k] == (r, k) {
      LinePrefix(cs, r, w, k);
    }
    if |cs| > w {
      ColumnsFromBelow(cs, r, |cs| - 1);
    }
    if w > 0 {
      LinePrefix(cs, r, w, w - 1);
    }
  }

  lemma {:induction false} LinePrefix(cs: seq<Coord>, r: int, w: nat, k: nat)
    requires StrictlyRowMajor(cs)
    requires forall q :: 0 <= q < |cs| ==> cs[q].0 == r && 0 <= cs[q].1 < w
    requires forall c :: 0 <= c < w ==> (r, c) in cs
    requires k < w
    ensures k < |cs| && cs[k] == (r, k)
    decreases k
  {
    assert (r, k) in cs;
    var q :| 0 <= q < |cs| && cs[q] == (r, k);
    ColumnsFromBelow(cs, r, q);
    if q < k {
      LinePrefix(cs, r, w, q);
    }
  }

  lemma {:induction false} ColumnsFromBelow(cs: seq<Coord>, r: int, k: nat)
    requires StrictlyRowMajor(cs) && k < |cs|
    requires forall q :: 0 <= q < |cs| ==> cs[q].0 == r && cs[q].1 >= 0
    ensures cs[k].1 >= k
  {
    if k > 0 {
      ColumnsFromBelow(cs, r, k - 1);
      assert Before(cs[k - 1], cs[k]);
    }
  }

  function AngleCount(msize: int): nat {
    if msize == 5 then 12 else 20
  }

  /** `np.linspace(0, 180, n, endpoint=False)` with n = 12 for mask size 5
      and n = 20 otherwise. */
  function Angles(msize: int): (angles: seq<real>)
    ensures |angles| == AngleCount(msize)
    ensures forall k :: 0 <= k < |angles| ==> angles[k] == 180.0 * k as real / AngleCount(msize) as real
  {
    var n := AngleCount(msize);
    seq(n, k => 180.0 * k as real / n as real)
  }

  /** Every angle lies in [0, 180) and the angles strictly increase. */
  lemma AnglesInHalfTurn(msize: int)
    ensures forall k :: 0 <= k < |Angles(msize)| ==> 0.0 <= Angles(msize)[k] < 180.0
    ensures forall k, l :: 0 <= k < l < |Angles(msize)| ==> Angles(msize)[k] < Angles(msize)[l]
  {
    var n := AngleCount(msize) as real;
    forall k | 0 <= k < |Angles(msize)|
      ensures 0.0 <= Angles(msize)[k] < 180.0
    {
      assert k as real < n;
      assert 180.0 * k as real < 180.0 * n;
    }
    forall k, l | 0 <= k < l < |Angles(msize)|
      ensures Angles(msize)[k] < Angles(msize)[l]
    {
      assert 180.0 * k as real < 180.0 * l as real;
    }
  }

  // ---------------------------------------------------------------- Monte Carlo image

  /** `np.clip(im + noise, 0, 255).astype(np.uint8)` when n_mc > 1, the
      image itself otherwise.  The cast truncates a non-negative value. */
  function PerturbedImage(im: Grid<int>, mc: nat, nMc: nat, col: Collaborators): (r: Grid<int>)
    requires IsImage(im)
    ensures IsImage(r) && IsGrid(r, |im|, Width(im))
    ensures NonEmptyGrid(im) ==> NonEmptyGrid(r)
    ensures nMc <= 1 ==> r == im
  {
    if nMc > 1 then
      var r := seq(|im|, i requires 0 <= i < |im| => seq(Width(im), j requires 0 <= j < Width(im) =>
        NoisyPixel(im[i][j], col.noise(mc, i, j))));
      assert |im| > 0 ==> Width(r) == Width(im);
      assert forall i, j :: 0 <= i < |r| && 0 <= j < Width(r) ==> r[i][j] == NoisyPixel(im[i][j], col.noise(mc, i, j));
      r
    else im
  }

  /** One pixel of the perturbed image: clipped to [0, 255], then truncated. */
  function NoisyPixel(v: int, noise: real): (p: int)
    ensures 0 <= p <= 255
    ensures 0.0 <= v as real + noise <= 255.0 ==> p == (v as real + noise).Floor
  {
    var c := ClipReal(v as real + noise, 0.0, 255.0);
    assert 0 <= c.Floor <= 255;
    c.Floor
  }

  // ---------------------------------------------------------------- one pixel, one angle

  /** `im[i - half:i + half + 1, j - half:j + half + 1]`. */
  function Patch(im: Grid<int>, i: int, j: int, half: nat): (p: Grid<int>)
    requires Rect(im) && half <= i < |im| - half && half <= j < Width(im) - half
    ensures IsGrid(p, 2 * half + 1, 2 * half + 1)
  {
    seq(2 * half + 1, r requires 0 <= r < 2 * half + 1 =>
      seq(2 * half + 1, c requires 0 <= c < 2 * half + 1 => im[i - half + r][j - half + c]))
  }

  function SelectRow(row: seq<int>, m: seq<bool>): seq<real>
    requires |row| == |m|
  {
    if |row| == 0 then []
    else SelectRow(row[..|row| - 1], m[..|m| - 1]) + (if m[|m| - 1] then [row[|row| - 1] as real] else [])
  }

  /** `patch[mask]`: the masked values in row-major order, as floats. */
  function Select(patch: Grid<int>, mask: Grid<bool>): seq<real>
    requires |patch| == |mask| && forall r :: 0 <= r < |patch| ==> |patch[r]| == |mask[r]|
  {
    if |patch| == 0 then []
    else Select(patch[..|patch| - 1], mask[..|mask| - 1]) + SelectRow(patch[|patch| - 1], mask[|mask| - 1])
  }

  predicate Interior(h: int, w: int, half: int, i: int, j: int) {
    half <= i < h - half && half <= j < w - half
  }

  /** The statistics of pixel (i, j) for one angle: the two regions of the
      mask, taken from the patch, compared by `compute_tests_region`. */
  function PixelStats(im: Grid<int>, msize: int, i: int, j: int, ang: real,
                      nBins: nat, col: Collaborators): Stats
    requires Rect(im) && msize > 0 && msize % 2 == 1 && nBins > 0 && col.Valid()
    requires Interior(|im|, Width(im), msize / 2, i, j)
  {
    var half := msize / 2;
    var (nx, ny) := col.normal(ang);
    var masks := MakeDualRegionMask(msize, nx, ny);
    var patch := Patch(im, i, j, half);
    ComputeTestsRegion(Select(patch, masks.a), Select(patch, masks.b), nBins, col.stats)
  }

  // ---------------------------------------------------------------- search over angles

  /** The running maximum `if v > best: best = v` over the first n values
      (n >= 1): the largest of them, attained by one of them. */
  function MaxPrefix(vs: seq<real>, n: nat): (m: real)
    requires 1 <= n <= |vs|
    ensures forall k :: 0 <= k < n ==> vs[k] <= m
    ensures exists k :: 0 <= k < n && vs[k] == m
  {
    if n == 1 then vs[0]
    else
      var prev := MaxPrefix(vs, n - 1);
      if vs[n - 1] > prev then vs[n - 1] else prev
  }

  /** The index kept by `if best is None or avg > best[0]` over the first n
      values: the first index whose value is strictly greater than every
      earlier one and not below any later one. */
  function FirstMaxIndex(vs: seq<real>, n: nat): (k: nat)
    requires 1 <= n <= |vs|
    ensures k < n
    ensures forall l :: 0 <= l < n ==> vs[l] <= vs[k]
    ensures forall l :: 0 <= l < k ==> vs[l] < vs[k]
  {
    if n == 1 then 0
    else
      var prev := FirstMaxIndex(vs, n - 1);
      if vs[n - 1] > vs[prev] then n - 1 else prev
  }

  /** The seven statistics at pixel (i, j) for every angle, in order. */
  function AngleSeries(im: Grid<int>, msize: int, i: int, j: int,
                       nBins: nat, col: Collaborators): (sts: seq<Stats>)
    requires Rect(im) && msize > 0 && msize % 2 == 1 && nBins > 0 && col.Valid()
    requires Interior(|im|, Width(im), msize / 2, i, j)
    ensures |sts| == |Angles(msize)|
    ensures forall k :: 0 <= k < |sts| ==> sts[k] == PixelStats(im, msize, i, j, Angles(msize)[k], nBins, col)
  {
    var angles := Angles(msize);
    seq(|angles|, k requires 0 <= k < |angles| => PixelStats(im, msize, i, j, angles[k], nBins, col))
  }

  /** Statistic t at pixel (i, j) for every angle. */
  function StatSeries(im: Grid<int>, msize: int, i: int, j: int, t: Test,
                      nBins: nat, col: Collaborators): (vs: seq<real>)
    requires Rect(im) && msize > 0 && msize % 2 == 1 && nBins > 0 && col.Valid()
    requires Interior(|im|, Width(im), msize / 2, i, j)
    ensures |vs| == |Angles(msize)|
    ensures forall k :: 0 <= k < |vs| ==> vs[k] == PixelStats(im, msize, i, j, Angles(msize)[k], nBins, col).Get(t)
  {
    Column(AngleSeries(im, msize, i, j, nBins, col), t)
  }

  /** The mean of the seven statistics at pixel (i, j) for every angle. */
  function AvgSeries(im: Grid<int>, msize: int, i: int, j: int,
                     nBins: nat, col: Collaborators): (vs: seq<real>)
    requires Rect(im) && msize > 0 && msize % 2 == 1 && nBins > 0 && col.Valid()
    requires Interior(|im|, Width(im), msize / 2, i, j)
    ensures |vs| == |Angles(msize)|
    ensures forall k :: 0 <= k < |vs| ==> vs[k] == Mean(PixelStats(im, msize, i, j, Angles(msize)[k], nBins, col).Values())
  {
    Means(AngleSeries(im, msize, i, j, nBins, col))
  }

  /** Entry (i, j) of the response map of statistic t: its maximum over all
      angles at an interior pixel, 0 on the border. */
  function RespValue(im: Grid<int>, msize: int, t: Test, i: int, j: int,
                     nBins: nat, col: Collaborators): (v: real)
    requires Rect(im) && msize > 0 && msize % 2 == 1 && nBins > 0 && col.Valid()
    ensures !Interior(|im|, Width(im), msize / 2, i, j) ==> v == 0.0
  {
    if Interior(|im|, Width(im), msize / 2, i, j) then
      MaxPrefix(StatSeries(im, msize, i, j, t, nBins, col), |Angles(msize)|)
    else 0.0
  }

  /** Entry (i, j) of the angle map: at an interior pixel the first angle
      of strictly greatest seven-statistic mean, undefined on the border.
      A defined entry is an angle in [0, 180). */
  function AngleValue(im: Grid<int>, msize: int, i: int, j: int,
                      nBins: nat, col: Collaborators): (a: Option<real>)
    requires Rect(im) && msize > 0 && msize % 2 == 1 && nBins > 0 && col.Valid()
    ensures a.Some? <==> Interior(|im|, Width(im), msize / 2, i, j)
    ensures a.Some? ==> 0.0 <= a.value < 180.0
  {
    AnglesInHalfTurn(msize);
    if Interior(|im|, Width(im), msize / 2, i, j) then
      Some(Angles(msize)[FirstMaxIndex(AvgSeries(im, msize, i, j, nBins, col), |Angles(msize)|)])
    else None
  }

  /** At an interior pixel the response of t is at least the value of t at
      every angle, and equals its value at one of them. */
  lemma ResponseIsMaxOverAngles(im: Grid<int>, msize: int, t: Test, i: int, j: int,
                                nBins: nat, col: Collaborators) returns (best: nat)
    requires Rect(im) && msize > 0 && msize % 2 == 1 && nBins > 0 && col.Valid()
    requires Interior(|im|, Width(im), msize / 2, i, j)
    ensures forall k :: 0 <= k < |Angles(msize)| ==>
              PixelStats(im, msize, i, j, Angles(msize)[k], nBins, col).Get(t) <= RespValue(im, msize, t, i, j, nBins, col)
    ensures best < |Angles(msize)| &&
            PixelStats(im, msize, i, j, Angles(msize)[best], nBins, col).Get(t) == RespValue(im, msize, t, i, j, nBins, col)
  {
    var vs := StatSeries(im, msize, i, j, t, nBins, col);
    assert RespValue(im, msize, t, i, j, nBins, col) == MaxPrefix(vs, |vs|);
    forall k | 0 <= k < |Angles(msize)|
      ensures PixelStats(im, msize, i, j, Angles(msize)[k], nBins, col).Get(t) <= MaxPrefix(vs, |vs|)
    {
      assert vs[k] <= MaxPrefix(vs, |vs|);
    }
    best :| 0 <= best < |vs| && vs[best] == MaxPrefix(vs, |vs|);
  }

  /** At an interior pixel the stored angle is the first one of greatest
      seven-statistic mean: no angle has a greater mean and every earlier
      angle a strictly smaller one. */
  lemma AngleIsFirstBestMean(im: Grid<int>, msize: int, i: int, j: int,
                             nBins: nat, col: Collaborators) returns (k: nat)
    requires Rect(im) && msize > 0 && msize % 2 == 1 && nBins > 0 && col.Valid()
    requires Interior(|im|, Width(im), msize / 2, i, j)
    ensures k < |Angles(msize)| && AngleValue(im, msize, i, j, nBins, col) == Some(Angles(msize)[k])
    ensures forall l :: 0 <= l < |Angles(msize)| ==>
              AvgSeries(im, msize, i, j, nBins, col)[l] <= AvgSeries(im, msize, i, j, nBins, col)[k]
    ensures forall l :: 0 <= l < k ==>
              AvgSeries(im, msize, i, j, nBins, col)[l] < AvgSeries(im, msize, i, j, nBins, col)[k]
  {
    k := FirstMaxIndex(AvgSeries(im, msize, i, j, nBins, col), |Angles(msize)|);
  }

  /** The response map of statistic t as a grid. */
  function RespGrid(im: Grid<int>, msize: int, t: Test, nBins: nat, col: Collaborators): (g: Grid<real>)
    requires Rect(im) && msize > 0 && msize % 2 == 1 && nBins > 0 && col.Valid()
    ensures IsGrid(g, |im|, Width(im))
  {
    seq(|im|, i => seq(Width(im), j => RespValue(im, msize, t, i, j, nBins, col)))
  }

  /** The shared angle map as a grid. */
  function AngleGrid(im: Grid<int>, msize: int, nBins: nat, col: Collaborators): (g: Grid<Option<real>>)
    requires Rect(im) && msize > 0 && msize % 2 == 1 && nBins > 0 && col.Valid()
    ensures IsGrid(g, |im|, Width(im))
  {
    seq(|im|, i => seq(Width(im), j => AngleValue(im, msize, i, j, nBins, col)))
  }

  // ---------------------------------------------------------------- angle map to steps

  /** Python's `round` on a float: the nearest integer, ties to the even
      one. */
  function RoundHalfEven(x: real): (n: int)
    ensures x - 0.5 <= n as real <= x + 0.5
    ensures (n as real == x - 0.5 || n as real == x + 0.5) ==> n % 2 == 0
  {
    var f := x.Floor;
    var d := x - f as real;
    if d < 0.5 then f
    else if d > 0.5 then f + 1
    else if f % 2 == 0 then f else f + 1
  }

  /** The two properties above single out one integer: any integer
      within 0.5 of x, even on a tie, is `RoundHalfEven(x)`. */
  lemma RoundHalfEvenUnique(x: real, n: int)
    requires x - 0.5 <= n as real <= x + 0.5
    requires (n as real == x - 0.5 || n as real == x + 0.5) ==> n % 2 == 0
    ensures n == RoundHalfEven(x)
  {
  }

  /** Ties go to the even neighbour: 0.5 and -0.5 to 0, 1.5 to 2. */
  lemma RoundHalfEvenTies()
    ensures RoundHalfEven(0.5) == 0 && RoundHalfEven(-0.5) == 0 && RoundHalfEven(1.5) == 2
  {
    assert (0.5).Floor == 0;
    assert (-0.5).Floor == -1;
    assert (1.5).Floor == 1;
  }

  /** A value in [-1, 1], such as a sine or a cosine, rounds to -1, 0 or 1. */
  lemma RoundUnitInterval(x: real)
    requires -1.0 <= x <= 1.0
    ensures -1 <= RoundHalfEven(x) <= 1
  {
  }

  /** `(int(round(sin θ)), int(round(cos θ)))`: the offset of the
      neighbour along angle θ. */
  function StepOf(ang: real, col: Collaborators): (s: Step)
    ensures var (nx, ny) := col.normal(ang);
            s.dy == RoundHalfEven(ny) && s.dx == RoundHalfEven(nx)
  {
    var (nx, ny) := col.normal(ang);
    Step(RoundHalfEven(ny), RoundHalfEven(nx))
  }

  /** For a normal whose components lie in [-1, 1], the neighbours are
      among the eight surrounding pixels (or the pixel itself). */
  lemma StepIsUnit(ang: real, col: Collaborators)
    requires -1.0 <= col.normal(ang).0 <= 1.0 && -1.0 <= col.normal(ang).1 <= 1.0
    ensures -1 <= StepOf(ang, col).dy <= 1 && -1 <= StepOf(ang, col).dx <= 1
  {
    RoundUnitInterval(col.normal(ang).0);
    RoundUnitInterval(col.normal(ang).1);
  }

  /** The angle map as read by `non_max_suppression`: NaN stays "no
      angle", an angle becomes its step. */
  function StepGrid(ag: Grid<Option<real>>, col: Collaborators): (sg: Grid<Option<Step>>)
    requires Rect(ag)
    ensures IsGrid(sg, |ag|, Width(ag))
    ensures forall i, j :: 0 <= i < |ag| && 0 <= j < Width(ag) ==>
              (sg[i][j].None? <==> ag[i][j].None?) &&
              (ag[i][j].Some? ==> sg[i][j] == Some(StepOf(ag[i][j].value, col)))
  {
    seq(|ag|, i requires 0 <= i < |ag| => seq(Width(ag), j requires 0 <= j < Width(ag) =>
      match ag[i][j]
      case None => None
      case Some(a) => Some(StepOf(a, col))))
  }

  // ---------------------------------------------------------------- min-max normalisation

  function RowArgMin(row: seq<real>, n: nat): (k: nat)
    requires 1 <= n <= |row|
    ensures k < n && forall l :: 0 <= l < n ==> row[k] <= row[l]
  {
    if n == 1 then 0
    else
      var prev := RowArgMin(row, n - 1);
      if row[n - 1] < row[prev] then n - 1 else prev
  }

  function RowArgMax(row: seq<real>, n: nat): (k: nat)
    requires 1 <= n <= |row|
    ensures k < n && forall l :: 0 <= l < n ==> row[l] <= row[k]
  {
    if n == 1 then 0
    else
      var prev := RowArgMax(row, n - 1);
      if row[n - 1] > row[prev] then n - 1 else prev
  }

  /** A position of a smallest entry among the first n rows. */
  function GridArgMin(g: Grid<real>, n: nat): (p: (nat, nat))
    requires Rect(g) && 1 <= n <= |g| && Width(g) >= 1
    ensures p.0 < n && p.1 < Width(g)
    ensures forall i, j :: 0 <= i < n && 0 <= j < Width(g) ==> g[p.0][p.1] <= g[i][j]
  {
    var k := RowArgMin(g[n - 1], Width(g));
    if n == 1 then (0, k)
    else
      var prev := GridArgMin(g, n - 1);
      if g[n - 1][k] < g[prev.0][prev.1] then (n - 1, k) else prev
  }

  /** A position of a largest entry among the first n rows. */
  function GridArgMax(g: Grid<real>, n: nat): (p: (nat, nat))
    requires Rect(g) && 1 <= n <= |g| && Width(g) >= 1
    ensures p.0 < n && p.1 < Width(g)
    ensures forall i, j :: 0 <= i < n && 0 <= j < Width(g) ==> g[i][j] <= g[p.0][p.1]
  {
    var k := RowArgMax(g[n - 1], Width(g));
    if n == 1 then (0, k)
    else
      var prev := GridArgMax(g, n - 1);
      if g[n - 1][k] > g[prev.0][prev.1] then (n - 1, k) else prev
  }

  /** A non-empty grid, as `np.nanmin` and `np.nanmax` demand. */
  predicate NonEmptyGrid<T>(g: Grid<T>) {
    Rect(g) && |g| >= 1 && Width(g) >= 1
  }

  /** `np.nanmin`: a lower bound that is one of the entries. */
  function GridMin(g: Grid<real>): (m: real)
    requires NonEmptyGrid(g)
    ensures forall i, j :: 0 <= i < |g| && 0 <= j < Width(g) ==> m <= g[i][j]
    ensures m == g[GridArgMin(g, |g|).0][GridArgMin(g, |g|).1]
  {
    var p := GridArgMin(g, |g|);
    g[p.0][p.1]
  }

  /** `np.nanmax`: an upper bound that is one of the entries. */
  function GridMax(g: Grid<real>): (m: real)
    requires NonEmptyGrid(g)
    ensures forall i, j :: 0 <= i < |g| && 0 <= j < Width(g) ==> g[i][j] <= m
    ensures m == g[GridArgMax(g, |g|).0][GridArgMax(g, |g|).1]
  {
    var p := GridArgMax(g, |g|);
    g[p.0][p.1]
  }

  /** `((v - mn) / (mx - mn) * 255.0).astype(np.uint8)` for mn <= v <= mx
      and a spread of at least 1e-9: the minimum maps to 0, exactly the
      maximum maps to 255. */
  function NormPixel(v: real, mn: real, mx: real): (p: int)
    requires mn <= v <= mx && mx - mn >= 1.0 / 1000000000.0
    ensures 0 <= p <= 255
    ensures v == mn ==> p == 0
    ensures p == 255 <==> v == mx
  {
    var d := mx - mn;
    var q := (v - mn) / d;
    assert q * d == v - mn;
    assert 0.0 <= q <= 1.0;
    assert q == 1.0 <==> v == mx by {
      if v == mx { assert q * d == d; }
    }
    var x := q * 255.0;
    assert 0 <= x.Floor <= 255;
    assert x.Floor == 255 ==> q == 1.0;
    x.Floor
  }

  /** Normalisation keeps the order of the entries. */
  lemma NormPixelMonotone(v: real, u: real, mn: real, mx: real)
    requires mn <= v <= u <= mx && mx - mn >= 1.0 / 1000000000.0
    ensures NormPixel(v, mn, mx) <= NormPixel(u, mn, mx)
  {
    var d := mx - mn;
    assert (v - mn) / d <= (u - mn) / d by {
      assert (v - mn) / d * d == v - mn;
      assert (u - mn) / d * d == u - mn;
    }
  }

  /** The flat-map test `mx - mn < 1e-9`. */
  predicate Flat(g: Grid<real>)
    requires NonEmptyGrid(g)
  {
    GridMax(g) - GridMin(g) < 1.0 / 1000000000.0
  }

  /** Min-max normalisation of a response map to 8 bits: all zeros for a
      flat map, otherwise each entry scaled by `NormPixel`. */
  function Normalize(g: Grid<real>): (r: Grid<int>)
    requires NonEmptyGrid(g)
    ensures IsGrid(r, |g|, Width(g))
    ensures forall i, j :: 0 <= i < |g| && 0 <= j < Width(g) ==> 0 <= r[i][j] <= 255
    ensures Flat(g) ==> forall i, j :: 0 <= i < |g| && 0 <= j < Width(g) ==> r[i][j] == 0
    ensures !Flat(g) ==> forall i, j :: 0 <= i < |g| && 0 <= j < Width(g) ==>
              r[i][j] == NormPixel(g[i][j], GridMin(g), GridMax(g))
  {
    var mn, mx := GridMin(g), GridMax(g);
    if mx - mn < 1.0 / 1000000000.0 then Filled(|g|, Width(g), 0)
    else
      seq(|g|, i requires 0 <= i < |g| => seq(Width(g), j requires 0 <= j < Width(g) =>
        NormPixel(g[i][j], mn, mx)))
  }

  /** A map that is not flat normalises to the full 8-bit range: its
      smallest entries become 0, exactly its largest ones become 255, and
      the order of entries is kept. */
  lemma NormalizeRange(g: Grid<real>, i: int, j: int, k: int, l: int)
    requires NonEmptyGrid(g) && !Flat(g)
    requires 0 <= i < |g| && 0 <= j < Width(g) && 0 <= k < |g| && 0 <= l < Width(g)
    ensures g[i][j] == GridMin(g) ==> Normalize(g)[i][j] == 0
    ensures Normalize(g)[i][j] == 255 <==> g[i][j] == GridMax(g)
    ensures g[i][j] <= g[k][l] ==> Normalize(g)[i][j] <= Normalize(g)[k][l]
  {
    if g[i][j] <= g[k][l] {
      NormPixelMonotone(g[i][j], g[k][l], GridMin(g), GridMax(g));
    }
  }

  // ---------------------------------------------------------------- threshold sweep

  /** `thin(bw > 0).astype(np.uint8)`, with the thinning decision given by
      the collaborator. */
  function ThinMap(bw: Grid<int>, col: Collaborators): (r: Grid<int>)
    requires Rect(bw)
    ensures IsGrid(r, |bw|, Width(bw))
    ensures forall i, j :: 0 <= i < |bw| && 0 <= j < Width(bw) ==> r[i][j] == 0 || r[i][j] == 1
  {
    var mask := seq(|bw|, i requires 0 <= i < |bw| => seq(Width(bw), j requires 0 <= j < Width(bw) => bw[i][j] > 0));
    seq(|bw|, i => seq(Width(bw), j => if col.thin(mask, i, j) then 1 else 0))
  }

  /** The thinned binary map for high threshold `high` and low threshold
      `LOW_RATIO * high`. */
  function ThinBinary(nms: Grid<int>, high: real, col: Collaborators): (r: Grid<int>)
    requires Rect(nms)
    ensures IsGrid(r, |nms|, Width(nms))
  {
    ThinMap(HysteresisAndBinary(nms, high, LowRatio * high, col.hysteresis), col)
  }

  /** The PCM of every threshold of `HIGHS`, in order. */
  function Sweep(nms: Grid<int>, gt: Grid<int>, col: Collaborators): (scores: seq<real>)
    requires Rect(nms) && Rect(gt)
    ensures |scores| == |Highs()|
    ensures forall k :: 0 <= k < |scores| ==>
              scores[k] == Pcm(ThinBinary(nms, Highs()[k], col), gt, GPcm) && 0.0 <= scores[k] <= 100.0
  {
    seq(|Highs()|, k requires 0 <= k < |Highs()| => Pcm(ThinBinary(nms, Highs()[k], col), gt, GPcm))
  }

  /** One threshold of the sweep: hysteresis, thinning and the PCM against
      the ground truth. */
  method ScoreThreshold(nms: Grid<int>, gt: Grid<int>, thH: real, col: Collaborators)
    returns (bwThin: Grid<int>, pcm: real)
    requires Rect(nms) && Rect(gt)
    ensures bwThin == ThinBinary(nms, thH, col)
    ensures pcm == Pcm(bwThin, gt, GPcm)
  {
    var thL := LowRatio * thH;
    var bw := HysteresisAndBinary(nms, thH, thL, col.hysteresis);
    bwThin := ThinMap(bw, col);
    pcm := ComputePcmBinary(bwThin, gt, GPcm);
  }

  /** The loop over `HIGHS`: one PCM per threshold, in order. */
  method ThresholdSweep(nms: Grid<int>, gt: Grid<int>, col: Collaborators) returns (scores: seq<real>)
    requires Rect(nms) && Rect(gt)
    ensures scores == Sweep(nms, gt, col)
  {
    scores := [];
    for k := 0 to |Highs()|
      invariant scores == Sweep(nms, gt, col)[..k]
    {
      var bwThin, pcm := ScoreThreshold(nms, gt, Highs()[k], col);
      PrefixSnoc(Sweep(nms, gt, col), k);
      scores := scores + [pcm];
    }
    assert Sweep(nms, gt, col)[..|Highs()|] == Sweep(nms, gt, col);
  }

  /** `float(np.max(pcm_scores))`, NaN (`None`) for an empty sweep. */
  function BestScore(scores: seq<real>): (b: Option<real>)
    ensures b.None? <==> |scores| == 0
    ensures b.Some? ==> forall k :: 0 <= k < |scores| ==> scores[k] <= b.value
  {
    if |scores| == 0 then None else Some(MaxPrefix(scores, |scores|))
  }

  /** `int(np.nanargmax(pcm_scores))`, 0 for an empty sweep: the first
      position of a greatest score. */
  function BestIndex(scores: seq<real>): (k: nat)
    ensures |scores| == 0 ==> k == 0
    ensures |scores| > 0 ==> k < |scores|
    ensures |scores| > 0 ==> forall l :: 0 <= l < |scores| ==> scores[l] <= scores[k]
    ensures |scores| > 0 ==> forall l :: 0 <= l < k ==> scores[l] < scores[k]
  {
    if |scores| == 0 then 0 else FirstMaxIndex(scores, |scores|)
  }

  /** The saved "best" map is the one that reached the reported score. */
  lemma BestIndexReachesBestScore(scores: seq<real>)
    requires |scores| > 0
    ensures scores[BestIndex(scores)] == BestScore(scores).value
  {
    var m := MaxPrefix(scores, |scores|);
    var w :| 0 <= w < |scores| && scores[w] == m;
    assert scores[w] <= scores[BestIndex(scores)];
  }

  // ---------------------------------------------------------------- one image, one mask size

  /** The post-processing of one response map: normalise it, suppress it
      along the steps of the angle map, sweep the thresholds and keep the
      greatest score. */
  function MapScore(rmap: Grid<real>, steps: Grid<Option<Step>>, gt: Grid<int>, col: Collaborators): (s: real)
    requires NonEmptyGrid(rmap) && IsGrid(steps, |rmap|, Width(rmap)) && Rect(gt)
    ensures 0.0 <= s <= 100.0
  {
    var scores := Sweep(Nms(Normalize(rmap), steps), gt, col);
    BestIndexReachesBestScore(scores);
    BestScore(scores).value
  }

  /** The best PCM of statistic t for the Monte Carlo image `imMc` and
      `msize`: the post-processing of t's response map along the shared
      angle map. */
  function TestScore(imMc: Grid<int>, msize: int, t: Test, gt: Grid<int>, col: Collaborators): (s: real)
    requires NonEmptyGrid(imMc) && msize > 0 && msize % 2 == 1 && col.Valid() && Rect(gt)
    ensures 0.0 <= s <= 100.0
  {
    MapScore(RespGrid(imMc, msize, t, NChiBins, col), StepGrid(AngleGrid(imMc, msize, NChiBins, col), col), gt, col)
  }

  /** The best PCM of each of the seven statistics, in `Tests` order. */
  function MaskScores(imMc: Grid<int>, msize: int, gt: Grid<int>, col: Collaborators): (ss: seq<real>)
    requires NonEmptyGrid(imMc) && msize > 0 && msize % 2 == 1 && col.Valid() && Rect(gt)
    ensures |ss| == |Tests|
    ensures forall k :: 0 <= k < |Tests| ==> ss[k] == TestScore(imMc, msize, Tests[k], gt, col)
  {
    seq(|Tests|, k requires 0 <= k < |Tests| => TestScore(imMc, msize, Tests[k], gt, col))
  }

  // ---------------------------------------------------------------- collected results

  /** `results[t][m]`: the list of best scores per (test, mask size). */
  type Results = map<(Test, int), seq<real>>

  function Get(res: Results, t: Test, m: int): seq<real> {
    if (t, m) in res then res[(t, m)] else []
  }

  /** `{t: {m: [] for m in mask_sizes} for t in tests}`. */
  function Initial(ms: seq<int>): (res: Results)
    ensures forall t, m :: Get(res, t, m) == []
  {
    map k | k in Keys(ms) :: []
  }

  /** Every (test, mask size) pair. */
  function Keys(ms: seq<int>): set<(Test, int)> {
    set t, m | t in Tests && m in ms :: (t, m)
  }

  /** `results[t][m].append(s)`. */
  function Append(res: Results, t: Test, m: int, s: real): (r: Results)
    ensures Get(r, t, m) == Get(res, t, m) + [s]
    ensures forall t', m' :: (t', m') != (t, m) ==> Get(r, t', m') == Get(res, t', m')
  {
    res[(t, m) := Get(res, t, m) + [s]]
  }

  /** The appends of the test loop for one mask size, for the first q tests. */
  function AppendTests(res: Results, m: int, ss: seq<real>, q: nat): Results
    requires q <= |ss| && q <= |Tests|
  {
    if q == 0 then res else Append(AppendTests(res, m, ss, q - 1), Tests[q - 1], m, ss[q - 1])
  }

  lemma AppendTestsStep(res: Results, m: int, ss: seq<real>, q: nat)
    requires q < |ss| && q < |Tests|
    ensures AppendTests(res, m, ss, q + 1) == Append(AppendTests(res, m, ss, q), Tests[q], m, ss[q])
  {
  }

  /** The seven best scores of every mask size, in order: row p belongs
      to `ms[p]`. */
  function MaskTable(imMc: Grid<int>, ms: seq<int>, gt: Grid<int>, col: Collaborators): (tab: seq<seq<real>>)
    requires NonEmptyGrid(imMc) && ValidMaskSizes(ms) && col.Valid() && Rect(gt)
    ensures IsTable(tab, |ms|)
  {
    seq(|ms|, p requires 0 <= p < |ms| => MaskScores(imMc, ms[p], gt, col))
  }

  predicate IsTable(tab: seq<seq<real>>, n: nat) {
    |tab| == n && forall p :: 0 <= p < n ==> |tab[p]| == |Tests|
  }

  /** One Monte Carlo iteration over the first p mask sizes, given the
      scores of each. */
  function AppendMasks(res: Results, ms: seq<int>, tab: seq<seq<real>>, p: nat): Results
    requires IsTable(tab, |ms|) && p <= |ms|
  {
    if p == 0 then res
    else AppendTests(AppendMasks(res, ms, tab, p - 1), ms[p - 1], tab[p - 1], |Tests|)
  }

  /** The score tables of every Monte Carlo iteration: table mc is
      computed on the image perturbed in iteration mc. */
  function McTables(im: Grid<int>, ms: seq<int>, nMc: nat, gt: Grid<int>, col: Collaborators)
    : (tabs: seq<seq<seq<real>>>)
    requires RunInputs(im, ms, gt, col)
    ensures |tabs| == nMc && AreTables(tabs, |ms|)
  {
    seq(nMc, mc requires 0 <= mc < nMc => MaskTable(PerturbedImage(im, mc, nMc, col), ms, gt, col))
  }

  predicate AreTables(tabs: seq<seq<seq<real>>>, n: nat) {
    forall mc :: 0 <= mc < |tabs| ==> IsTable(tabs[mc], n)
  }

  /** The results after the first n Monte Carlo iterations, given the
      scores of each. */
  function RunTables(res: Results, ms: seq<int>, tabs: seq<seq<seq<real>>>, n: nat): Results
    requires AreTables(tabs, |ms|) && n <= |tabs|
  {
    if n == 0 then res else AppendMasks(RunTables(res, ms, tabs, n - 1), ms, tabs[n - 1], |ms|)
  }

  /** `results` at the end of the Monte Carlo loop: with no iteration
      every list is empty, and the list of (t, m) for a mask size m gains
      one score per iteration for each occurrence of m. */
  function RunAll(im: Grid<int>, ms: seq<int>, nMc: nat, gt: Grid<int>, col: Collaborators): (res: Results)
    requires RunInputs(im, ms, gt, col)
    ensures nMc == 0 ==> forall t, m :: Get(res, t, m) == []
    ensures forall t, m :: m in ms ==> |Get(res, t, m)| == nMc * Count(ms, m)
  {
    RunAllLengths(im, ms, nMc, gt, col);
    RunTables(Initial(ms), ms, McTables(im, ms, nMc, gt, col), nMc)
  }

  /** The best score of t for m in every iteration, in order. */
  function IterScores(im: Grid<int>, ms: seq<int>, m: int, t: Test, nMc: nat, gt: Grid<int>, col: Collaborators)
    : (ss: seq<real>)
    requires RunInputs(im, ms, gt, col) && m in ms
    ensures |ss| == nMc
    ensures forall mc :: 0 <= mc < nMc ==> ss[mc] == TestScore(PerturbedImage(im, mc, nMc, col), m, t, gt, col)
  {
    seq(nMc, mc requires 0 <= mc < nMc => TestScore(PerturbedImage(im, mc, nMc, col), m, t, gt, col))
  }

  /** Every iteration's best score is a percentage. */
  lemma IterScoresInRange(im: Grid<int>, ms: seq<int>, m: int, t: Test, nMc: nat, gt: Grid<int>, col: Collaborators)
    requires RunInputs(im, ms, gt, col) && m in ms
    ensures forall mc :: 0 <= mc < nMc ==> 0.0 <= IterScores(im, ms, m, t, nMc, gt, col)[mc] <= 100.0
  {
  }

  function Count(s: seq<int>, x: int): nat {
    if |s| == 0 then 0 else Count(s[..|s| - 1], x) + (if s[|s| - 1] == x then 1 else 0)
  }

  function Repeat(x: real, n: nat): (r: seq<real>)
    ensures |r| == n && forall k :: 0 <= k < n ==> r[k] == x
  {
    seq(n, _ => x)
  }

  /** The first q appends leave every list other than those of
      (Tests[0], m) .. (Tests[q - 1], m) as it was. */
  lemma {:induction false} AppendTestsMiss(res: Results, m: int, ss: seq<real>, q: nat, t: Test, m': int)
    requires q <= |ss| && q <= |Tests|
    requires !(m' == m && TestIndex(t) < q)
    ensures Get(AppendTests(res, m, ss, q), t, m') == Get(res, t, m')
  {
    if q > 0 {
      TestIndexOf(q - 1);
      assert (t, m') != (Tests[q - 1], m);
      AppendTestsMiss(res, m, ss, q - 1, t, m');
    }
  }

  /** After the first q appends, the list of (t, m) for one of the first
      q tests has gained exactly t's score. */
  lemma {:induction false} AppendTestsHit(res: Results, m: int, ss: seq<real>, q: nat, t: Test)
    requires q <= |ss| && q <= |Tests|
    requires TestIndex(t) < q
    ensures Get(AppendTests(res, m, ss, q), t, m) == Get(res, t, m) + [ss[TestIndex(t)]]
  {
    TestIndexOf(q - 1);
    if TestIndex(t) == q - 1 {
      AppendTestsMiss(res, m, ss, q - 1, t, m);
    } else {
      assert (t, m) != (Tests[q - 1], m);
      AppendTestsHit(res, m, ss, q - 1, t);
    }
  }

  /** All seven appends of one mask size m: the list of (t, m) gains t's
      score, every other list is unchanged. */
  lemma AppendAllTestsGet(res: Results, m: int, ss: seq<real>, t: Test, m': int)
    requires |ss| == |Tests|
    ensures m' == m ==> Get(AppendTests(res, m, ss, |Tests|), t, m') == Get(res, t, m') + [ss[TestIndex(t)]]
    ensures m' != m ==> Get(AppendTests(res, m, ss, |Tests|), t, m') == Get(res, t, m')
  {
    if m' == m {
      AppendTestsHit(res, m, ss, |Tests|, t);
    } else {
      AppendTestsMiss(res, m, ss, |Tests|, t, m');
    }
  }

  /** One Monte Carlo iteration appends, to the list of (t, m), the score
      of t for m once per occurrence of m among the mask sizes. */
  lemma {:induction false} AppendMasksGet(res: Results, ms: seq<int>, tab: seq<seq<real>>, p: nat,
                                          t: Test, m: int, s: real)
    requires IsTable(tab, |ms|) && p <= |ms|
    requires forall q :: 0 <= q < p && ms[q] == m ==> tab[q][TestIndex(t)] == s
    ensures Get(AppendMasks(res, ms, tab, p), t, m) == Get(res, t, m) + Repeat(s, Count(ms[..p], m))
  {
    if p > 0 {
      var prev := AppendMasks(res, ms, tab, p - 1);
      var c := Count(ms[..p - 1], m);
      AppendMasksGet(res, ms, tab, p - 1, t, m, s);
      assert Get(prev, t, m) == Get(res, t, m) + Repeat(s, c);
      AppendAllTestsGet(prev, ms[p - 1], tab[p - 1], t, m);
      CountSnoc(ms, p, m);
      if ms[p - 1] == m {
        assert Get(AppendMasks(res, ms, tab, p), t, m) == Get(prev, t, m) + [s];
        RepeatSnoc(s, c);
        ConcatAssoc(Get(res, t, m), Repeat(s, c), [s]);
      } else {
        assert Get(AppendMasks(res, ms, tab, p), t, m) == Get(prev, t, m);
      }
    } else {
      assert Repeat(s, 0) == [];
    }
  }

  lemma ConcatAssoc(a: seq<real>, b: seq<real>, c: seq<real>)
    ensures (a + b) + c == a + (b + c)
  {
  }

  lemma CountSnoc(s: seq<int>, p: nat, x: int)
    requires 0 < p <= |s|
    ensures Count(s[..p], x) == Count(s[..p - 1], x) + (if s[p - 1] == x then 1 else 0)
  {
    assert s[..p][..p - 1] == s[..p - 1];
  }

  lemma RepeatSnoc(x: real, n: nat)
    ensures Repeat(x, n) + [x] == Repeat(x, n + 1)
  {
  }

  /** Each score of ss, c times in a row, in order. */
  function Repeated(ss: seq<real>, c: nat): seq<real> {
    if |ss| == 0 then [] else Repeated(ss[..|ss| - 1], c) + Repeat(ss[|ss| - 1], c)
  }

  lemma {:induction false} RepeatedLength(ss: seq<real>, c: nat)
    ensures |Repeated(ss, c)| == |ss| * c
  {
    if |ss| > 0 {
      RepeatedLength(ss[..|ss| - 1], c);
      assert |ss| * c == (|ss| - 1) * c + c;
    }
  }

  lemma {:induction false} RepeatedOnce(ss: seq<real>)
    ensures Repeated(ss, 1) == ss
  {
    if |ss| > 0 {
      var init, last := ss[..|ss| - 1], ss[|ss| - 1];
      RepeatedOnce(init);
      calc {
        Repeated(ss, 1);
        Repeated(init, 1) + Repeat(last, 1);
        init + Repeat(last, 1);
        { assert Repeat(last, 1) == [last]; }
        init + [last];
      }
      assert init + [last] == ss;
    }
  }

  lemma {:induction false} RepeatedBounds(ss: seq<real>, c: nat, lo: real, hi: real)
    requires forall k :: 0 <= k < |ss| ==> lo <= ss[k] <= hi
    ensures forall k :: 0 <= k < |Repeated(ss, c)| ==> lo <= Repeated(ss, c)[k] <= hi
  {
    if |ss| > 0 {
      RepeatedBounds(ss[..|ss| - 1], c, lo, hi);
    }
  }

  /** Where table mc has mask size m, its entry for t is ss[mc]. */
  predicate TablesAgree(tabs: seq<seq<seq<real>>>, ms: seq<int>, ss: seq<real>, t: Test, m: int) {
    AreTables(tabs, |ms|) && |ss| == |tabs| &&
    forall mc, q :: 0 <= mc < |tabs| && 0 <= q < |ms| && ms[q] == m ==> tabs[mc][q][TestIndex(t)] == ss[mc]
  }

  lemma RepeatedSnoc(ss: seq<real>, n: nat, c: nat)
    requires 0 < n <= |ss|
    ensures Repeated(ss[..n], c) == Repeated(ss[..n - 1], c) + Repeat(ss[n - 1], c)
  {
    assert ss[..n][..n - 1] == ss[..n - 1];
  }

  /** Whatever the tables, iteration mc contributes its score for (t, m)
      once per occurrence of m, after the earlier iterations'. */
  lemma {:induction false} RunTablesGet(res: Results, ms: seq<int>, tabs: seq<seq<seq<real>>>, n: nat,
                                        t: Test, m: int, ss: seq<real>)
    requires TablesAgree(tabs, ms, ss, t, m) && n <= |tabs|
    requires Get(res, t, m) == []
    ensures Get(RunTables(res, ms, tabs, n), t, m) == Repeated(ss[..n], Count(ms, m))
  {
    if n > 0 {
      RunTablesGet(res, ms, tabs, n - 1, t, m, ss);
      AppendMasksGet(RunTables(res, ms, tabs, n - 1), ms, tabs[n - 1], |ms|, t, m, ss[n - 1]);
      assert ms[..|ms|] == ms;
      RepeatedSnoc(ss, n, Count(ms, m));
    }
  }

  /** All iterations of the tables, from empty lists. */
  lemma RunAllTables(ms: seq<int>, tabs: seq<seq<seq<real>>>, t: Test, m: int, ss: seq<real>)
    requires TablesAgree(tabs, ms, ss, t, m)
    ensures Get(RunTables(Initial(ms), ms, tabs, |tabs|), t, m) == Repeated(ss, Count(ms, m))
  {
    RunTablesGet(Initial(ms), ms, tabs, |tabs|, t, m, ss);
    assert ss[..|tabs|] == ss;
  }

  /** The lengths the Monte Carlo loop leaves in the results. */
  lemma RunAllLengths(im: Grid<int>, ms: seq<int>, nMc: nat, gt: Grid<int>, col: Collaborators)
    requires RunInputs(im, ms, gt, col)
    ensures forall t, m :: m in ms ==>
              |Get(RunTables(Initial(ms), ms, McTables(im, ms, nMc, gt, col), nMc), t, m)| == nMc * Count(ms, m)
  {
    forall t, m | m in ms
      ensures |Get(RunTables(Initial(ms), ms, McTables(im, ms, nMc, gt, col), nMc), t, m)| == nMc * Count(ms, m)
    {
      TablesHoldIterScores(im, ms, nMc, gt, col, t, m);
      RunAllTables(ms, McTables(im, ms, nMc, gt, col), t, m, IterScores(im, ms, m, t, nMc, gt, col));
      RepeatedLength(IterScores(im, ms, m, t, nMc, gt, col), Count(ms, m));
    }
  }

  /** The list of (t, m) at the end holds every iteration's best score of
      t for m, in iteration order, once per occurrence of m among the mask
      sizes. */
  lemma RunAllGet(im: Grid<int>, ms: seq<int>, nMc: nat, gt: Grid<int>, col: Collaborators, t: Test, m: int)
    requires RunInputs(im, ms, gt, col) && m in ms
    ensures Get(RunAll(im, ms, nMc, gt, col), t, m) == Repeated(IterScores(im, ms, m, t, nMc, gt, col), Count(ms, m))
  {
    TablesHoldIterScores(im, ms, nMc, gt, col, t, m);
    RunAllTables(ms, McTables(im, ms, nMc, gt, col), t, m, IterScores(im, ms, m, t, nMc, gt, col));
  }

  /** Where table mc has mask size m, its entry for t is iteration mc's
      best score of t for m. */
  lemma TablesHoldIterScores(im: Grid<int>, ms: seq<int>, nMc: nat, gt: Grid<int>, col: Collaborators, t: Test, m: int)
    requires RunInputs(im, ms, gt, col) && m in ms
    ensures TablesAgree(McTables(im, ms, nMc, gt, col), ms, IterScores(im, ms, m, t, nMc, gt, col), t, m)
  {
    forall mc, q | 0 <= mc < nMc && 0 <= q < |ms| && ms[q] == m
      ensures McTables(im, ms, nMc, gt, col)[mc][q][TestIndex(t)] == IterScores(im, ms, m, t, nMc, gt, col)[mc]
    {
      McTablesEntry(im, ms, nMc, gt, col, mc, q);
    }
  }

  /** Row q of table mc holds the seven scores of mask size ms[q] on
      the image perturbed in iteration mc. */
  lemma McTablesEntry(im: Grid<int>, ms: seq<int>, nMc: nat, gt: Grid<int>, col: Collaborators, mc: nat, q: nat)
    requires RunInputs(im, ms, gt, col) && mc < nMc && q < |ms|
    ensures McTables(im, ms, nMc, gt, col)[mc][q] == MaskScores(PerturbedImage(im, mc, nMc, col), ms[q], gt, col)
  {
    McTablesRow(im, ms, nMc, gt, col, mc);
    MaskTableRow(PerturbedImage(im, mc, nMc, col), ms, gt, col, q);
  }

  /** With distinct mask sizes, entry mc of the list of (t, m) is the best
      score of iteration mc. */
  lemma DistinctMaskSizeResults(im: Grid<int>, ms: seq<int>, nMc: nat, gt: Grid<int>, col: Collaborators, t: Test, m: int)
    requires RunInputs(im, ms, gt, col)
    requires m in ms && Count(ms, m) == 1
    ensures Get(RunAll(im, ms, nMc, gt, col), t, m) == IterScores(im, ms, m, t, nMc, gt, col)
  {
    RunAllGet(im, ms, nMc, gt, col, t, m);
    RepeatedOnce(IterScores(im, ms, m, t, nMc, gt, col));
  }

  // ---------------------------------------------------------------- summary

  /** One row of the returned data frame; a NaN mean is `None`. */
  datatype SummaryRow = SummaryRow(test: Test, maskSize: int, pcmMean: Option<real>, pcmStd: real)

  /** `np.mean(arr)` (NaN when empty) and `np.std(arr, ddof=1)` (0.0 for
      fewer than two scores). */
  function SummaryOf(t: Test, m: int, arr: seq<real>, lib: StatsLib): (row: SummaryRow)
    requires lib.Valid()
    ensures row.test == t && row.maskSize == m
    ensures row.pcmMean.None? <==> |arr| == 0
    ensures row.pcmStd >= 0.0
    ensures |arr| <= 1 ==> row.pcmStd == 0.0
    ensures |arr| > 1 ==> row.pcmStd == lib.sqrt(SampleVariance(arr))
  {
    SummaryRow(t, m,
               if |arr| > 0 then Some(Mean(arr)) else None,
               if |arr| > 1 then lib.sqrt(SampleVariance(arr)) else 0.0)
  }

  /** The rows of test t, one per mask size in order. */
  function SummaryFor(res: Results, t: Test, ms: seq<int>, lib: StatsLib): (rows: seq<SummaryRow>)
    requires lib.Valid()
    ensures |rows| == |ms|
    ensures forall b :: 0 <= b < |ms| ==> rows[b] == SummaryOf(t, ms[b], Get(res, t, ms[b]), lib)
  {
    seq(|ms|, b requires 0 <= b < |ms| => SummaryOf(t, ms[b], Get(res, t, ms[b]), lib))
  }

  /** The rows of the first q tests. */
  function SummaryUpTo(res: Results, ms: seq<int>, lib: StatsLib, q: nat): seq<SummaryRow>
    requires lib.Valid() && q <= |Tests|
  {
    if q == 0 then [] else SummaryUpTo(res, ms, lib, q - 1) + SummaryFor(res, Tests[q - 1], ms, lib)
  }

  /** The data frame: tests in order, mask sizes in order within a test. */
  function Summary(res: Results, ms: seq<int>, lib: StatsLib): (rows: seq<SummaryRow>)
    requires lib.Valid()
    ensures |rows| == |Tests| * |ms|
  {
    SummaryUpToLength(res, ms, lib, |Tests|);
    SummaryUpTo(res, ms, lib, |Tests|)
  }

  /** The rows of the first q tests: q * |ms| of them. */
  lemma {:induction false} SummaryUpToLength(res: Results, ms: seq<int>, lib: StatsLib, q: nat)
    requires lib.Valid() && q <= |Tests|
    ensures |SummaryUpTo(res, ms, lib, q)| == q * |ms|
  {
    if q > 0 {
      SummaryUpToLength(res, ms, lib, q - 1);
      assert q * |ms| == (q - 1) * |ms| + |ms|;
    }
  }

  /** Each row of the first q tests is the summary of its own (test, mask
      size) pair, for one of those tests. */
  lemma {:induction false} SummaryUpToRows(res: Results, ms: seq<int>, lib: StatsLib, q: nat)
    requires lib.Valid() && q <= |Tests|
    ensures forall row :: row in SummaryUpTo(res, ms, lib, q) ==>
              row.maskSize in ms && TestIndex(row.test) < q &&
              row == SummaryOf(row.test, row.maskSize, Get(res, row.test, row.maskSize), lib)
  {
    if q > 0 {
      SummaryUpToRows(res, ms, lib, q - 1);
      var prev := SummaryUpTo(res, ms, lib, q - 1);
      var last := SummaryFor(res, Tests[q - 1], ms, lib);
      assert SummaryUpTo(res, ms, lib, q) == prev + last;
      forall row: SummaryRow | row in prev + last
        ensures row.maskSize in ms && TestIndex(row.test) < q &&
                row == SummaryOf(row.test, row.maskSize, Get(res, row.test, row.maskSize), lib)
      {
        if row !in prev {
          var b :| 0 <= b < |last| && last[b] == row;
          assert row == SummaryOf(Tests[q - 1], ms[b], Get(res, Tests[q - 1], ms[b]), lib);
          assert row.test == Tests[q - 1] && row.maskSize == ms[b];
          TestIndexOf(q - 1);
        }
      }
    }
  }

  /** Every (test, mask size) pair of the first q tests has its row. */
  lemma {:induction false} SummaryUpToCovers(res: Results, ms: seq<int>, lib: StatsLib, q: nat)
    requires lib.Valid() && q <= |Tests|
    ensures forall a, b :: 0 <= a < q && 0 <= b < |ms| ==>
              SummaryOf(Tests[a], ms[b], Get(res, Tests[a], ms[b]), lib) in SummaryUpTo(res, ms, lib, q)
  {
    if q > 0 {
      SummaryUpToCovers(res, ms, lib, q - 1);
      var prev := SummaryUpTo(res, ms, lib, q - 1);
      var last := SummaryFor(res, Tests[q - 1], ms, lib);
      assert SummaryUpTo(res, ms, lib, q) == prev + last;
      forall a, b | 0 <= a < q && 0 <= b < |ms|
        ensures SummaryOf(Tests[a], ms[b], Get(res, Tests[a], ms[b]), lib) in prev + last
      {
        if a == q - 1 {
          assert last[b] == SummaryOf(Tests[a], ms[b], Get(res, Tests[a], ms[b]), lib);
        }
      }
    }
  }

  /** The frame has one row per (test, mask size) pair: 7 * |ms| rows,
      each the summary of the scores collected for its pair. */
  lemma SummaryContents(res: Results, ms: seq<int>, lib: StatsLib)
    requires lib.Valid()
    ensures |Summary(res, ms, lib)| == |Tests| * |ms|
    ensures forall row :: row in Summary(res, ms, lib) ==>
              row.maskSize in ms && row == SummaryOf(row.test, row.maskSize, Get(res, row.test, row.maskSize), lib)
    ensures forall a, b :: 0 <= a < |Tests| && 0 <= b < |ms| ==>
              SummaryOf(Tests[a], ms[b], Get(res, Tests[a], ms[b]), lib) in Summary(res, ms, lib)
  {
    SummaryUpToLength(res, ms, lib, |Tests|);
    SummaryUpToRows(res, ms, lib, |Tests|);
    SummaryUpToCovers(res, ms, lib, |Tests|);
  }

  lemma ResultsInRange(im: Grid<int>, ms: seq<int>, nMc: nat, gt: Grid<int>, col: Collaborators, t: Test, m: int)
    requires RunInputs(im, ms, gt, col)
    requires m in ms
    ensures var r := Get(RunAll(im, ms, nMc, gt, col), t, m);
            ((|r| == 0) <==> nMc == 0) && forall k :: 0 <= k < |r| ==> 0.0 <= r[k] <= 100.0
  {
    RunAllGet(im, ms, nMc, gt, col, t, m);
    IterScoresInRange(im, ms, m, t, nMc, gt, col);
    CountPositive(ms, m);
    RepeatedScores(IterScores(im, ms, m, t, nMc, gt, col), Count(ms, m));
  }

  lemma RepeatedScores(ss: seq<real>, c: nat)
    requires c >= 1
    requires forall k :: 0 <= k < |ss| ==> 0.0 <= ss[k] <= 100.0
    ensures (|Repeated(ss, c)| == 0) <==> |ss| == 0
    ensures forall k :: 0 <= k < |Repeated(ss, c)| ==> 0.0 <= Repeated(ss, c)[k] <= 100.0
  {
    RepeatedBounds(ss, c, 0.0, 100.0);
    RepeatedLength(ss, c);
    assert |ss| * c >= |ss|;
  }

  /** A frame built from lists that are empty exactly when n = 0 and hold
      scores in [0, 100] has means in [0, 100] (NaN when n = 0). */
  lemma SummaryRowInRange(res: Results, ms: seq<int>, lib: StatsLib, n: nat, row: SummaryRow)
    requires lib.Valid() && row in Summary(res, ms, lib)
    requires forall t, m :: m in ms ==> ((|Get(res, t, m)| == 0) <==> n == 0)
    requires forall t, m, k :: m in ms && 0 <= k < |Get(res, t, m)| ==> 0.0 <= Get(res, t, m)[k] <= 100.0
    ensures n >= 1 ==> row.pcmMean.Some? && 0.0 <= row.pcmMean.value <= 100.0
    ensures n == 0 ==> row.pcmMean.None?
    ensures row.pcmStd >= 0.0
  {
    SummaryContents(res, ms, lib);
    var arr := Get(res, row.test, row.maskSize);
    if n >= 1 {
      MeanBounds(arr, 0.0, 100.0);
    }
  }

  /** For n_mc >= 1 every row of the frame has a mean PCM in [0, 100]
      and a non-negative deviation; for n_mc = 0 every mean is NaN. */
  lemma SummaryInRange(im: Grid<int>, ms: seq<int>, nMc: nat, gt: Grid<int>, col: Collaborators, row: SummaryRow)
    requires RunInputs(im, ms, gt, col)
    requires row in Summary(RunAll(im, ms, nMc, gt, col), ms, col.stats)
    ensures nMc >= 1 ==> row.pcmMean.Some? && 0.0 <= row.pcmMean.value <= 100.0
    ensures nMc == 0 ==> row.pcmMean.None?
    ensures row.pcmStd >= 0.0
  {
    var res := RunAll(im, ms, nMc, gt, col);
    forall t, m | m in ms
      ensures (|Get(res, t, m)| == 0) <==> nMc == 0
      ensures forall k :: 0 <= k < |Get(res, t, m)| ==> 0.0 <= Get(res, t, m)[k] <= 100.0
    {
      ResultsInRange(im, ms, nMc, gt, col, t, m);
    }
    SummaryRowInRange(res, ms, col.stats, nMc, row);
  }

  lemma {:induction false} CountPositive(s: seq<int>, x: int)
    requires x in s
    ensures Count(s, x) >= 1
  {
    if s[|s| - 1] != x {
      assert x in s[..|s| - 1] by {
        var b :| 0 <= b < |s| && s[b] == x;
        assert s[..|s| - 1][b] == x;
      }
      CountPositive(s[..|s| - 1], x);
    }
  }

  // ---------------------------------------------------------------- the loops of process_image

  /** `if v > best: best = v` with `None` for minus infinity. */
  function RunMax(best: Option<real>, v: real): (r: Option<real>)
    ensures r.Some?
  {
    if best.None? || v > best.value then Some(v) else best
  }

  /** Statistic t of every angle seen so far, in angle order. */
  function Column(sts: seq<Stats>, t: Test): (vs: seq<real>)
    ensures |vs| == |sts| && forall k :: 0 <= k < |sts| ==> vs[k] == sts[k].Get(t)
  {
    seq(|sts|, k requires 0 <= k < |sts| => sts[k].Get(t))
  }

  /** The seven-statistic mean of every angle seen so far. */
  function Means(sts: seq<Stats>): (vs: seq<real>)
    ensures |vs| == |sts| && forall k :: 0 <= k < |sts| ==> vs[k] == Mean(sts[k].Values())
  {
    seq(|sts|, k requires 0 <= k < |sts| => Mean(sts[k].Values()))
  }

  /** `best_vals[t]` after the angles whose statistics are `sts`. */
  function RunningBest(sts: seq<Stats>, t: Test): Option<real> {
    if |sts| == 0 then None else RunMax(RunningBest(sts[..|sts| - 1], t), sts[|sts| - 1].Get(t))
  }

  /** `best_angle` after the angles whose statistics are `sts`: the
      (mean, angle) pair kept by `if best_angle is None or avg > best_angle[0]`. */
  function RunningAngle(avgs: seq<real>, angles: seq<real>): Option<(real, real)>
    requires |avgs| <= |angles|
  {
    if |avgs| == 0 then None
    else
      var prev := RunningAngle(avgs[..|avgs| - 1], angles);
      var avg := avgs[|avgs| - 1];
      if prev.None? || avg > prev.value.0 then Some((avg, angles[|avgs| - 1])) else prev
  }

  /** The means of one more angle's statistics. */
  lemma MeansSnoc(sts: seq<Stats>, st: Stats)
    ensures Means(sts + [st]) == Means(sts) + [Mean(st.Values())]
  {
  }

  lemma {:induction false} MaxPrefixAgree(vs: seq<real>, ws: seq<real>, n: nat)
    requires 1 <= n <= |vs| && n <= |ws| && forall k :: 0 <= k < n ==> vs[k] == ws[k]
    ensures MaxPrefix(vs, n) == MaxPrefix(ws, n)
  {
    if n > 1 {
      MaxPrefixAgree(vs, ws, n - 1);
    }
  }

  lemma {:induction false} FirstMaxIndexAgree(vs: seq<real>, ws: seq<real>, n: nat)
    requires 1 <= n <= |vs| && n <= |ws| && forall k :: 0 <= k < n ==> vs[k] == ws[k]
    ensures FirstMaxIndex(vs, n) == FirstMaxIndex(ws, n)
  {
    if n > 1 {
      FirstMaxIndexAgree(vs, ws, n - 1);
    }
  }

  /** After at least one angle, the running maximum of t is the largest
      value of t over the angles seen. */
  lemma {:induction false} RunningBestIsMax(sts: seq<Stats>, t: Test)
    requires |sts| >= 1
    ensures RunningBest(sts, t) == Some(MaxPrefix(Column(sts, t), |sts|))
  {
    if |sts| > 1 {
      var init := sts[..|sts| - 1];
      RunningBestIsMax(init, t);
      MaxPrefixAgree(Column(init, t), Column(sts, t), |init|);
    }
  }

  /** After at least one angle, the kept pair is the mean and the angle of
      the first angle of greatest mean. */
  lemma {:induction false} RunningAngleIsFirstMax(avgs: seq<real>, angles: seq<real>)
    requires 1 <= |avgs| <= |angles|
    ensures RunningAngle(avgs, angles) ==
            Some((avgs[FirstMaxIndex(avgs, |avgs|)], angles[FirstMaxIndex(avgs, |avgs|)]))
  {
    var n := |avgs|;
    if n > 1 {
      var init := avgs[..n - 1];
      RunningAngleIsFirstMax(init, angles);
      FirstMaxIndexAgree(init, avgs, n - 1);
      FirstMaxIndexSnoc(avgs, n);
    }
  }

  /** One more value moves the first maximum to it exactly when it beats
      the maximum so far. */
  lemma FirstMaxIndexSnoc(vs: seq<real>, n: nat)
    requires 2 <= n <= |vs|
    ensures FirstMaxIndex(vs, n) ==
            if vs[n - 1] > vs[FirstMaxIndex(vs, n - 1)] then n - 1 else FirstMaxIndex(vs, n - 1)
  {
  }

  /** The test loop inside the angle loop: each running maximum takes the
      statistic of the current angle into account. */
  method UpdateBest(best: seq<Option<real>>, st: Stats) returns (next: seq<Option<real>>)
    requires |best| == |Tests|
    ensures |next| == |Tests|
    ensures forall q :: 0 <= q < |Tests| ==> next[q] == RunMax(best[q], st.Get(Tests[q]))
  {
    next := best;
    for q := 0 to |Tests|
      invariant |next| == |Tests|
      invariant forall r :: 0 <= r < q ==> next[r] == RunMax(best[r], st.Get(Tests[r]))
      invariant forall r :: q <= r < |Tests| ==> next[r] == best[r]
    {
      var v := st.Get(Tests[q]);
      if next[q].None? || v > next[q].value {
        next := next[q := Some(v)];
      }
    }
  }

  /** The statistics of pixel (i, j) for one angle: the two regions of
      the angle's mask taken from the patch. */
  method AngleStats(imMc: Grid<int>, msize: int, i: int, j: int, col: Collaborators, ang: real)
    returns (st: Stats)
    requires Rect(imMc) && msize > 0 && msize % 2 == 1 && col.Valid()
    requires Interior(|imMc|, Width(imMc), msize / 2, i, j)
    ensures st == PixelStats(imMc, msize, i, j, ang, NChiBins, col)
  {
    var patch := Patch(imMc, i, j, msize / 2);
    var (nx, ny) := col.normal(ang);
    var masks := MakeDualRegionMask(msize, nx, ny);
    st := ComputeTestsRegion(Select(patch, masks.a), Select(patch, masks.b), NChiBins, col.stats);
  }

  /** One angle of the search: the running maxima and the kept pair take
      the statistics `st` of angle `angles[k]` into account. */
  method AngleStep(best: seq<Option<real>>, bestPair: Option<(real, real)>, ghost sts: seq<Stats>,
                   st: Stats, angles: seq<real>, k: nat)
    returns (best': seq<Option<real>>, bestPair': Option<(real, real)>)
    requires |sts| == k < |angles| && |best| == |Tests|
    requires forall q :: 0 <= q < |Tests| ==> best[q] == RunningBest(sts, Tests[q])
    requires bestPair == RunningAngle(Means(sts), angles)
    ensures |best'| == |Tests|
    ensures forall q :: 0 <= q < |Tests| ==> best'[q] == RunningBest(sts + [st], Tests[q])
    ensures bestPair' == RunningAngle(Means(sts + [st]), angles)
  {
    assert (sts + [st])[..k] == sts;
    best' := UpdateBest(best, st);
    var avg := Mean(st.Values());
    MeansSnoc(sts, st);
    assert (Means(sts) + [avg])[..k] == Means(sts);
    bestPair' := bestPair;
    if bestPair.None? || avg > bestPair.value.0 {
      bestPair' := Some((avg, angles[k]));
    }
  }

  /** The angle loop at interior pixel (i, j): per statistic the running
      maximum from minus infinity, and the first angle whose
      seven-statistic mean beats every earlier one. */
  method PixelSearch(imMc: Grid<int>, msize: int, i: int, j: int, col: Collaborators)
    returns (bestVals: seq<real>, bestAngle: real)
    requires Rect(imMc) && msize > 0 && msize % 2 == 1 && col.Valid()
    requires Interior(|imMc|, Width(imMc), msize / 2, i, j)
    ensures |bestVals| == |Tests|
    ensures forall q :: 0 <= q < |Tests| ==> bestVals[q] == RespValue(imMc, msize, Tests[q], i, j, NChiBins, col)
    ensures AngleValue(imMc, msize, i, j, NChiBins, col) == Some(bestAngle)
  {
    var angles := Angles(msize);
    ghost var sts: seq<Stats> := [];
    var best: seq<Option<real>> := seq(|Tests|, _ => None);
    var bestPair: Option<(real, real)> := None;
    for k := 0 to |angles|
      invariant sts == AngleSeries(imMc, msize, i, j, NChiBins, col)[..k] && |best| == |Tests|
      invariant forall q :: 0 <= q < |Tests| ==> best[q] == RunningBest(sts, Tests[q])
      invariant bestPair == RunningAngle(Means(sts), angles)
    {
      var st := AngleStats(imMc, msize, i, j, col, angles[k]);
      PrefixSnoc(AngleSeries(imMc, msize, i, j, NChiBins, col), k);
      best, bestPair := AngleStep(best, bestPair, sts, st, angles, k);
      sts := sts + [st];
    }
    assert sts == AngleSeries(imMc, msize, i, j, NChiBins, col);
    bestVals, bestAngle := SearchResult(best, bestPair, sts, angles);
    SearchMeetsSpec(imMc, msize, i, j, col);
  }

  /** The values kept at the end of the search over the angles: the
      largest value of each statistic, and the angle kept with the first
      greatest mean. */
  method SearchResult(best: seq<Option<real>>, bestPair: Option<(real, real)>,
                      ghost sts: seq<Stats>, angles: seq<real>)
    returns (vals: seq<real>, ang: real)
    requires 1 <= |sts| == |angles| && |best| == |Tests|
    requires forall q :: 0 <= q < |Tests| ==> best[q] == RunningBest(sts, Tests[q])
    requires bestPair == RunningAngle(Means(sts), angles)
    ensures |vals| == |Tests|
    ensures forall q :: 0 <= q < |Tests| ==> vals[q] == MaxPrefix(Column(sts, Tests[q]), |sts|)
    ensures ang == angles[FirstMaxIndex(Means(sts), |sts|)]
  {
    vals := seq(|Tests|, q requires 0 <= q < |Tests| => if best[q].Some? then best[q].value else 0.0);
    ang := if bestPair.Some? then bestPair.value.1 else 0.0;
    forall q | 0 <= q < |Tests|
      ensures vals[q] == MaxPrefix(Column(sts, Tests[q]), |sts|)
    {
      RunningBestIsMax(sts, Tests[q]);
    }
    RunningAngleIsFirstMax(Means(sts), angles);
  }

  /** The statistics of every angle, in order, give the pixel's responses
      and its angle. */
  lemma SearchMeetsSpec(imMc: Grid<int>, msize: int, i: int, j: int, col: Collaborators)
    requires Rect(imMc) && msize > 0 && msize % 2 == 1 && col.Valid()
    requires Interior(|imMc|, Width(imMc), msize / 2, i, j)
    ensures var sts := AngleSeries(imMc, msize, i, j, NChiBins, col);
            forall q :: 0 <= q < |Tests| ==>
              MaxPrefix(Column(sts, Tests[q]), |sts|) == RespValue(imMc, msize, Tests[q], i, j, NChiBins, col)
    ensures var sts := AngleSeries(imMc, msize, i, j, NChiBins, col);
            AngleValue(imMc, msize, i, j, NChiBins, col) == Some(Angles(msize)[FirstMaxIndex(Means(sts), |sts|)])
  {
  }

  /** Pixel (r, c) comes before (i, j) in the row-major scan. */
  predicate Scanned(r: int, c: int, i: int, j: int) {
    r < i || (r == i && c < j)
  }

  /** The seven response maps the scan must produce, in `Tests` order. */
  ghost function RespTargets(im: Grid<int>, msize: int, col: Collaborators): (ts: seq<Grid<real>>)
    requires Rect(im) && msize > 0 && msize % 2 == 1 && col.Valid()
    ensures |ts| == |Tests|
    ensures forall q :: 0 <= q < |Tests| ==> IsGrid(ts[q], |im|, Width(im))
    ensures forall q :: 0 <= q < |Tests| ==> ts[q] == RespGrid(im, msize, Tests[q], NChiBins, col)
  {
    seq(|Tests|, q requires 0 <= q < |Tests| => RespGrid(im, msize, Tests[q], NChiBins, col))
  }

  /** The response maps hold their targets at every pixel scanned before
      (i, j) and zero elsewhere. */
  ghost predicate RespUpTo(a: array3<real>, ts: seq<Grid<real>>, i: int, j: int)
    reads a
  {
    |ts| == a.Length0 && (forall q :: 0 <= q < |ts| ==> IsGrid(ts[q], a.Length1, a.Length2)) &&
    forall q, r, c :: 0 <= q < a.Length0 && 0 <= r < a.Length1 && 0 <= c < a.Length2 ==>
      a[q, r, c] == (if Scanned(r, c, i, j) then ts[q][r][c] else 0.0)
  }

  /** The angle map holds its target at every pixel scanned before (i, j)
      and NaN elsewhere. */
  ghost predicate AngleUpTo(am: array2<Option<real>>, ta: Grid<Option<real>>, i: int, j: int)
    reads am
  {
    IsGrid(ta, am.Length0, am.Length1) &&
    forall r, c :: 0 <= r < am.Length0 && 0 <= c < am.Length1 ==>
      am[r, c] == (if Scanned(r, c, i, j) then ta[r][c] else None)
  }

  /** Off the interior the targets are the initial zero and NaN. */
  ghost predicate BorderBlank(ts: seq<Grid<real>>, ta: Grid<Option<real>>, h: int, w: int, half: int)
    requires forall q :: 0 <= q < |ts| ==> IsGrid(ts[q], h, w)
    requires IsGrid(ta, h, w)
  {
    (forall q :: 0 <= q < |ts| ==> BorderZero(ts[q], h, w, half)) &&
    forall r, c :: 0 <= r < h && 0 <= c < w && !Interior(h, w, half, r, c) ==> ta[r][c].None?
  }

  ghost predicate BorderZero(g: Grid<real>, h: int, w: int, half: int)
    requires IsGrid(g, h, w)
  {
    forall r, c :: 0 <= r < h && 0 <= c < w && !Interior(h, w, half, r, c) ==> g[r][c] == 0.0
  }

  lemma TargetsBorderBlank(im: Grid<int>, msize: int, col: Collaborators)
    requires Rect(im) && msize > 0 && msize % 2 == 1 && col.Valid()
    ensures BorderBlank(RespTargets(im, msize, col), AngleGrid(im, msize, NChiBins, col), |im|, Width(im), msize / 2)
  {
    var ts: seq<Grid<real>> := RespTargets(im, msize, col);
    var ta: Grid<Option<real>> := AngleGrid(im, msize, NChiBins, col);
    forall q | 0 <= q < |ts|
      ensures BorderZero(ts[q], |im|, Width(im), msize / 2)
    {
      forall r, c | 0 <= r < |im| && 0 <= c < Width(im) && !Interior(|im|, Width(im), msize / 2, r, c)
        ensures ts[q][r][c] == 0.0
      {
        assert ts[q][r][c] == RespValue(im, msize, Tests[q], r, c, NChiBins, col);
      }
    }
    forall r, c | 0 <= r < |im| && 0 <= c < Width(im) && !Interior(|im|, Width(im), msize / 2, r, c)
      ensures ta[r][c].None?
    {
      assert ta[r][c] == AngleValue(im, msize, r, c, NChiBins, col);
    }
  }

  /** Before the scan, the fresh maps are all zero and all NaN. */
  lemma NothingScanned(a: array3<real>, am: array2<Option<real>>, ts: seq<Grid<real>>, ta: Grid<Option<real>>)
    requires |ts| == a.Length0 && forall q :: 0 <= q < |ts| ==> IsGrid(ts[q], a.Length1, a.Length2)
    requires IsGrid(ta, am.Length0, am.Length1)
    requires forall q, r, c :: 0 <= q < a.Length0 && 0 <= r < a.Length1 && 0 <= c < a.Length2 ==> a[q, r, c] == 0.0
    requires forall r, c :: 0 <= r < am.Length0 && 0 <= c < am.Length1 ==> am[r, c] == None
    ensures RespUpTo(a, ts, 0, 0) && AngleUpTo(am, ta, 0, 0)
  {
  }

  /** Skipping border pixels changes nothing: the scan may move from
      (i, j) to (i', j') when only border pixels lie between them. */
  lemma SkipBorder(a: array3<real>, am: array2<Option<real>>, ts: seq<Grid<real>>, ta: Grid<Option<real>>,
                   half: int, i: int, j: int, i': int, j': int)
    requires RespUpTo(a, ts, i, j) && AngleUpTo(am, ta, i, j)
    requires am.Length0 == a.Length1 && am.Length1 == a.Length2
    requires BorderBlank(ts, ta, a.Length1, a.Length2, half)
    requires forall r, c :: 0 <= r < a.Length1 && 0 <= c < a.Length2 && Scanned(r, c, i', j') != Scanned(r, c, i, j) ==>
               !Interior(a.Length1, a.Length2, half, r, c)
    ensures RespUpTo(a, ts, i', j') && AngleUpTo(am, ta, i', j')
  {
  }

  /** `resp_maps[t][i, j] = best_vals[t]` for every test and
      `angle_map[i, j] = best_angle` at the next pixel of the scan. */
  method StorePixel(a: array3<real>, am: array2<Option<real>>, ghost ts: seq<Grid<real>>, ghost ta: Grid<Option<real>>,
                    i: int, j: int, vals: seq<real>, ang: real)
    requires RespUpTo(a, ts, i, j) && AngleUpTo(am, ta, i, j)
    requires am.Length0 == a.Length1 && am.Length1 == a.Length2
    requires 0 <= i < a.Length1 && 0 <= j < a.Length2 && |vals| == a.Length0
    requires forall q :: 0 <= q < |ts| ==> vals[q] == ts[q][i][j]
    requires ta[i][j] == Some(ang)
    modifies a, am
    ensures RespUpTo(a, ts, i, j + 1) && AngleUpTo(am, ta, i, j + 1)
  {
    for q := 0 to a.Length0
      invariant forall q', r, c :: 0 <= q' < a.Length0 && 0 <= r < a.Length1 && 0 <= c < a.Length2 ==>
                  a[q', r, c] == if r == i && c == j && q' < q then vals[q'] else old(a[q', r, c])
      invariant AngleUpTo(am, ta, i, j)
    {
      a[q, i, j] := vals[q];
    }
    am[i, j] := Some(ang);
  }

  /** One interior pixel of the scan: the angle search, then the stores. */
  method ScanPixel(imMc: Grid<int>, msize: int, col: Collaborators, i: int, j: int,
                   a: array3<real>, am: array2<Option<real>>, ghost ts: seq<Grid<real>>, ghost ta: Grid<Option<real>>)
    requires Rect(imMc) && msize > 0 && msize % 2 == 1 && col.Valid()
    requires ts == RespTargets(imMc, msize, col) && ta == AngleGrid(imMc, msize, NChiBins, col)
    requires a.Length1 == |imMc| && a.Length2 == Width(imMc)
    requires am.Length0 == |imMc| && am.Length1 == Width(imMc)
    requires Interior(|imMc|, Width(imMc), msize / 2, i, j)
    requires RespUpTo(a, ts, i, j) && AngleUpTo(am, ta, i, j)
    modifies a, am
    ensures RespUpTo(a, ts, i, j + 1) && AngleUpTo(am, ta, i, j + 1)
  {
    var vals, ang := PixelSearch(imMc, msize, i, j, col);
    TargetsAtPixel(imMc, msize, col, i, j);
    StorePixel(a, am, ts, ta, i, j, vals, ang);
  }

  /** Entry (i, j) of the target maps is the pixel's response and angle. */
  lemma TargetsAtPixel(imMc: Grid<int>, msize: int, col: Collaborators, i: int, j: int)
    requires Rect(imMc) && msize > 0 && msize % 2 == 1 && col.Valid()
    requires 0 <= i < |imMc| && 0 <= j < Width(imMc)
    ensures forall q :: 0 <= q < |Tests| ==>
              RespTargets(imMc, msize, col)[q][i][j] == RespValue(imMc, msize, Tests[q], i, j, NChiBins, col)
    ensures AngleGrid(imMc, msize, NChiBins, col)[i][j] == AngleValue(imMc, msize, i, j, NChiBins, col)
  {
  }

  /** The inner loop over the interior columns of row i. */
  method ScanRow(imMc: Grid<int>, msize: int, col: Collaborators, i: int,
                 a: array3<real>, am: array2<Option<real>>, ghost ts: seq<Grid<real>>, ghost ta: Grid<Option<real>>)
    requires Rect(imMc) && msize > 0 && msize % 2 == 1 && col.Valid()
    requires ts == RespTargets(imMc, msize, col) && ta == AngleGrid(imMc, msize, NChiBins, col)
    requires a.Length1 == |imMc| && a.Length2 == Width(imMc)
    requires am.Length0 == |imMc| && am.Length1 == Width(imMc)
    requires BorderBlank(ts, ta, |imMc|, Width(imMc), msize / 2)
    requires msize / 2 <= i < |imMc| - msize / 2
    requires RespUpTo(a, ts, i, msize / 2) && AngleUpTo(am, ta, i, msize / 2)
    modifies a, am
    ensures RespUpTo(a, ts, i + 1, 0) && AngleUpTo(am, ta, i + 1, 0)
  {
    var w, half := Width(imMc), msize / 2;
    var j := half;
    while j < w - half
      invariant half <= j
      invariant RespUpTo(a, ts, i, j) && AngleUpTo(am, ta, i, j)
    {
      ScanPixel(imMc, msize, col, i, j, a, am, ts, ta);
      j := j + 1;
    }
    SkipBorder(a, am, ts, ta, half, i, j, i + 1, 0);
  }

  /** The scan over interior pixels: `resp_maps` starts at zero and
      `angle_map` at NaN; the border is never written. */
  method BuildResponseMaps(imMc: Grid<int>, msize: int, col: Collaborators)
    returns (resp: seq<Grid<real>>, angleMap: Grid<Option<real>>)
    requires Rect(imMc) && msize > 0 && msize % 2 == 1 && col.Valid()
    ensures |resp| == |Tests|
    ensures forall q :: 0 <= q < |Tests| ==> resp[q] == RespGrid(imMc, msize, Tests[q], NChiBins, col)
    ensures angleMap == AngleGrid(imMc, msize, NChiBins, col)
  {
    var h, w, half := |imMc|, Width(imMc), msize / 2;
    ghost var ts, ta := RespTargets(imMc, msize, col), AngleGrid(imMc, msize, NChiBins, col);
    TargetsBorderBlank(imMc, msize, col);
    var a := new real[|Tests|, h, w]((_, _, _) => 0.0);
    var am := new Option<real>[h, w]((_, _) => None);
    var i := half;
    NothingScanned(a, am, ts, ta);
    SkipBorder(a, am, ts, ta, half, 0, 0, i, 0);
    while i < h - half
      invariant half <= i
      invariant RespUpTo(a, ts, i, 0) && AngleUpTo(am, ta, i, 0)
    {
      SkipBorder(a, am, ts, ta, half, i, 0, i, half);
      ScanRow(imMc, msize, col, i, a, am, ts, ta);
      i := i + 1;
    }
    SkipBorder(a, am, ts, ta, half, i, 0, h, 0);
    resp := Layers(a);
    angleMap := Snapshot(am);
    FullScanReadsTargets(a, am, ts, ta);
  }

  /** The layers of a three-dimensional array, as grids. */
  function Layers(a: array3<real>): (g: seq<Grid<real>>)
    reads a
    ensures |g| == a.Length0 && forall q :: 0 <= q < a.Length0 ==> |g[q]| == a.Length1
    ensures forall q, r :: 0 <= q < a.Length0 && 0 <= r < a.Length1 ==> |g[q][r]| == a.Length2
    ensures forall q, r, c :: 0 <= q < a.Length0 && 0 <= r < a.Length1 && 0 <= c < a.Length2 ==>
              g[q][r][c] == a[q, r, c]
  {
    seq(a.Length0, q requires 0 <= q < a.Length0 reads a =>
      seq(a.Length1, r requires 0 <= r < a.Length1 reads a =>
        seq(a.Length2, c requires 0 <= c < a.Length2 reads a => a[q, r, c])))
  }

  /** Once every row is scanned, the maps are their targets. */
  lemma FullScanReadsTargets(a: array3<real>, am: array2<Option<real>>, ts: seq<Grid<real>>, ta: Grid<Option<real>>)
    requires RespUpTo(a, ts, a.Length1, 0) && AngleUpTo(am, ta, am.Length0, 0)
    ensures Layers(a) == ts && Snapshot(am) == ta
  {
    var g := Layers(a);
    forall q | 0 <= q < |ts|
      ensures g[q] == ts[q]
    {
      assert forall r | 0 <= r < a.Length1 :: g[q][r] == ts[q][r];
    }
    assert forall r | 0 <= r < am.Length0 :: Snapshot(am)[r] == ta[r];
  }

  /** Post-processing of one test: normalise its response map, suppress
      it along the angle map, sweep the thresholds and keep the greatest
      PCM (`best_pcm`) and its first position (`best_idx`), whose map
      reached that PCM. */
  method ProcessTest(rmap: Grid<real>, steps: Grid<Option<Step>>, gt: Grid<int>, col: Collaborators)
    returns (bestPcm: real, bestIdx: nat)
    requires NonEmptyGrid(rmap) && IsGrid(steps, |rmap|, Width(rmap)) && Rect(gt)
    ensures bestPcm == MapScore(rmap, steps, gt, col)
    ensures bestIdx < |Highs()| && bestIdx == BestIndex(Sweep(Nms(Normalize(rmap), steps), gt, col))
    ensures Sweep(Nms(Normalize(rmap), steps), gt, col)[bestIdx] == bestPcm
  {
    var norm := Normalize(rmap);
    var nms := NonMaxSuppression(norm, steps);
    var scores := ThresholdSweep(nms, gt, col);
    bestIdx := BestIndex(scores);
    bestPcm := BestScore(scores).value;
    BestIndexReachesBestScore(scores);
  }

  /** The test loop after the scan: `results[t][msize].append(best_pcm)`
      for every test in order, where `ss` holds the score of each map. */
  method PostProcess(msize: int, resp: seq<Grid<real>>, steps: Grid<Option<Step>>,
                     gt: Grid<int>, col: Collaborators, res: Results, ghost ss: seq<real>)
    returns (res': Results)
    requires |resp| == |Tests| && |ss| == |Tests| && Rect(gt)
    requires forall q :: 0 <= q < |Tests| ==> NonEmptyGrid(resp[q]) && IsGrid(steps, |resp[q]|, Width(resp[q]))
    requires forall q {:trigger MapScore(resp[q], steps, gt, col)} :: 0 <= q < |Tests| ==>
               ss[q] == MapScore(resp[q], steps, gt, col)
    ensures res' == AppendTests(res, msize, ss, |Tests|)
  {
    res' := res;
    for q := 0 to |Tests|
      invariant res' == AppendTests(res, msize, ss, q)
    {
      var bestPcm, bestIdx := ProcessTest(resp[q], steps, gt, col);
      AppendTestsStep(res, msize, ss, q);
      res' := Append(res', Tests[q], msize, bestPcm);
    }
  }

  /** The scores of the seven maps are the mask size's best scores. */
  lemma MapsGiveMaskScores(imMc: Grid<int>, msize: int, resp: seq<Grid<real>>, steps: Grid<Option<Step>>,
                           gt: Grid<int>, col: Collaborators)
    requires NonEmptyGrid(imMc) && msize > 0 && msize % 2 == 1 && col.Valid() && Rect(gt)
    requires |resp| == |Tests|
    requires forall q :: 0 <= q < |Tests| ==> resp[q] == RespGrid(imMc, msize, Tests[q], NChiBins, col)
    requires steps == StepGrid(AngleGrid(imMc, msize, NChiBins, col), col)
    ensures forall q :: 0 <= q < |Tests| ==> NonEmptyGrid(resp[q]) && IsGrid(steps, |resp[q]|, Width(resp[q]))
    ensures forall q {:trigger MapScore(resp[q], steps, gt, col)} :: 0 <= q < |Tests| ==>
              MaskScores(imMc, msize, gt, col)[q] == MapScore(resp[q], steps, gt, col)
  {
  }

  /** One mask size on one Monte Carlo image: the scan, then the test
      loop. */
  method ProcessMask(imMc: Grid<int>, msize: int, gt: Grid<int>, col: Collaborators, res: Results)
    returns (res': Results)
    requires NonEmptyGrid(imMc) && msize > 0 && msize % 2 == 1 && col.Valid() && Rect(gt)
    ensures res' == AppendTests(res, msize, MaskScores(imMc, msize, gt, col), |Tests|)
  {
    var resp, angleMap := BuildResponseMaps(imMc, msize, col);
    var steps := StepGrid(angleMap, col);
    MapsGiveMaskScores(imMc, msize, resp, steps, gt, col);
    res' := PostProcess(msize, resp, steps, gt, col, res, MaskScores(imMc, msize, gt, col));
  }

  lemma MaskTableRow(imMc: Grid<int>, ms: seq<int>, gt: Grid<int>, col: Collaborators, p: nat)
    requires NonEmptyGrid(imMc) && ValidMaskSizes(ms) && col.Valid() && Rect(gt) && p < |ms|
    ensures MaskTable(imMc, ms, gt, col)[p] == MaskScores(imMc, ms[p], gt, col)
  {
  }

  /** One Monte Carlo iteration: every mask size in order on the same
      perturbed image. */
  method RunIteration(imMc: Grid<int>, ms: seq<int>, gt: Grid<int>, col: Collaborators, res: Results,
                      ghost tab: seq<seq<real>>)
    returns (res': Results)
    requires NonEmptyGrid(imMc) && ValidMaskSizes(ms) && col.Valid() && Rect(gt)
    requires tab == MaskTable(imMc, ms, gt, col)
    ensures res' == AppendMasks(res, ms, tab, |ms|)
  {
    res' := res;
    for p := 0 to |ms|
      invariant res' == AppendMasks(res, ms, tab, p)
    {
      MaskTableRow(imMc, ms, gt, col, p);
      res' := ProcessMask(imMc, ms[p], gt, col, res');
    }
  }

  /** The summary loops: for every test, for every mask size, the mean
      and sample standard deviation of the collected scores. */
  method Summarize(res: Results, ms: seq<int>, lib: StatsLib) returns (rows: seq<SummaryRow>)
    requires lib.Valid()
    ensures rows == Summary(res, ms, lib)
  {
    rows := [];
    for q := 0 to |Tests|
      invariant rows == SummaryUpTo(res, ms, lib, q)
    {
      ghost var prev := rows;
      for b := 0 to |ms|
        invariant rows == prev + SummaryFor(res, Tests[q], ms, lib)[..b]
      {
        var t, m := Tests[q], ms[b];
        var arr := Get(res, t, m);
        var mean := if |arr| > 0 then Some(Mean(arr)) else None;
        var std := if |arr| > 1 then lib.sqrt(SampleVariance(arr)) else 0.0;
        PrefixSnoc(SummaryFor(res, Tests[q], ms, lib), b);
        rows := rows + [SummaryRow(t, m, mean, std)];
      }
      assert SummaryFor(res, Tests[q], ms, lib)[..|ms|] == SummaryFor(res, Tests[q], ms, lib);
    }
  }

  lemma McTablesRow(im: Grid<int>, ms: seq<int>, nMc: nat, gt: Grid<int>, col: Collaborators, mc: nat)
    requires RunInputs(im, ms, gt, col) && mc < nMc
    ensures McTables(im, ms, nMc, gt, col)[mc] == MaskTable(PerturbedImage(im, mc, nMc, col), ms, gt, col)
  {
  }

  /** `tabs` holds the score table of every Monte Carlo iteration, table
      mc computed on the image perturbed in iteration mc. */
  ghost predicate TablesOf(tabs: seq<seq<seq<real>>>, im: Grid<int>, ms: seq<int>, nMc: nat,
                           gt: Grid<int>, col: Collaborators)
    requires RunInputs(im, ms, gt, col)
  {
    |tabs| == nMc && AreTables(tabs, |ms|) &&
    forall mc {:trigger PerturbedImage(im, mc, nMc, col)} :: 0 <= mc < nMc ==>
      tabs[mc] == MaskTable(PerturbedImage(im, mc, nMc, col), ms, gt, col)
  }

  lemma McTablesOf(im: Grid<int>, ms: seq<int>, nMc: nat, gt: Grid<int>, col: Collaborators)
    requires RunInputs(im, ms, gt, col)
    ensures TablesOf(McTables(im, ms, nMc, gt, col), im, ms, nMc, gt, col)
  {
    forall mc | 0 <= mc < nMc
      ensures McTables(im, ms, nMc, gt, col)[mc] == MaskTable(PerturbedImage(im, mc, nMc, col), ms, gt, col)
    {
      McTablesRow(im, ms, nMc, gt, col, mc);
    }
  }

  /** `process_image` on an already loaded image: the ground truth, the
      Monte Carlo loop over mask sizes and tests, and the summary frame. */
  method ProcessImage(im: Grid<int>, ms: seq<int>, nMc: nat, col: Collaborators)
    returns (rows: seq<SummaryRow>, gt: Grid<int>)
    requires IsImage(im) && NonEmptyGrid(im) && ValidMaskSizes(ms) && col.Valid()
    ensures gt == GroundTruth(|im|, Width(im))
    ensures rows == Summary(RunAll(im, ms, nMc, gt, col), ms, col.stats)
  {
    gt := GroundTruth(|im|, Width(im));
    assert RunInputs(im, ms, gt, col);
    ghost var tabs := McTables(im, ms, nMc, gt, col);
    McTablesOf(im, ms, nMc, gt, col);
    var res := MonteCarlo(im, ms, nMc, gt, col, tabs);
    rows := Summarize(res, ms, col.stats);
  }

  /** The Monte Carlo loop of `process_image`: iteration mc appends the
      scores of table mc to `results`. */
  method MonteCarlo(im: Grid<int>, ms: seq<int>, nMc: nat, gt: Grid<int>, col: Collaborators,
                    ghost tabs: seq<seq<seq<real>>>)
    returns (res: Results)
    requires RunInputs(im, ms, gt, col) && TablesOf(tabs, im, ms, nMc, gt, col)
    ensures res == RunTables(Initial(ms), ms, tabs, nMc)
  {
    res := Initial(ms);
    for mc := 0 to nMc
      invariant res == RunTables(Initial(ms), ms, tabs, mc)
    {
      res := MonteCarloStep(im, ms, nMc, gt, col, mc, res, tabs);
    }
  }

  /** One iteration of the Monte Carlo loop: the perturbed image, then
      every mask size on it. */
  method MonteCarloStep(im: Grid<int>, ms: seq<int>, nMc: nat, gt: Grid<int>, col: Collaborators,
                        mc: nat, res: Results, ghost tabs: seq<seq<seq<real>>>)
    returns (res': Results)
    requires RunInputs(im, ms, gt, col) && TablesOf(tabs, im, ms, nMc, gt, col) && mc < nMc
    ensures res' == AppendMasks(res, ms, tabs[mc], |ms|)
  {
    var imMc := PerturbedImage(im, mc, nMc, col);
    res' := RunIteration(imMc, ms, gt, col, res, tabs[mc]);
  }
}
