/** The seven divergence statistics of `compute_tests_region` between two
    one-dimensional samples A and B.  The parts that are exact arithmetic
    (the empty guard, DoB, the (n-1) variance, the branches of F and its
    non-finite fallback, the v2 histogram sum) are modelled exactly on
    reals; square root, logarithm and the two SciPy tests are collaborators
    passed in a `StatsLib` value. */
module StatsTests {

  import opened Util

  /** The `1e-12` guard added to denominators. */
  const Eps: real := 1e-12

  /** Library routines the statistics call: `np.sqrt`, `np.log`, and
      SciPy's `mannwhitneyu` and `ks_2samp` statistics, `None` when the
      library call raises. */
  datatype StatsLib = StatsLib(
    sqrt: real -> real,
    log: real -> real,
    mannWhitneyU: (seq<real>, seq<real>) -> Option<real>,
    ks2Samp: (seq<real>, seq<real>) -> Option<real>)
  {
    /** A square root is never negative, so the T denominator is positive. */
    ghost predicate Valid() {
      forall x: real :: sqrt(x) >= 0.0
    }
  }

  /** The statistic kinds, in the order of the source's `tests` list. */
  datatype Test = DoB | T | F | L | U | KS | V2

  const Tests: seq<Test> := [DoB, T, F, L, U, KS, V2]

  /** Position of a test in `Tests`. */
  function TestIndex(t: Test): (k: nat)
    ensures k < |Tests| && Tests[k] == t
  {
    match t
    case DoB => 0
    case T => 1
    case F => 2
    case L => 3
    case U => 4
    case KS => 5
    case V2 => 6
  }

  /** `Tests` lists each test once: the index of entry k is k. */
  lemma TestIndexOf(k: nat)
    requires k < |Tests|
    ensures TestIndex(Tests[k]) == k
  {
    if k == 0 {} else if k == 1 {} else if k == 2 {} else if k == 3 {} else if k == 4 {} else if k == 5 {} else {}
  }

  /** The dictionary returned by `compute_tests_region`, as a record. */
  datatype Stats = Stats(dob: real, t: real, f: real, l: real, u: real, ks: real, v2: real)
  {
    function Get(k: Test): real {
      match k
      case DoB => dob
      case T => t
      case F => f
      case L => l
      case U => u
      case KS => ks
      case V2 => v2
    }

    /** The dictionary's values in insertion order. */
    function Values(): (vs: seq<real>)
      ensures |vs| == |Tests|
      ensures forall k :: 0 <= k < |Tests| ==> vs[k] == Get(Tests[k])
    {
      [dob, t, f, l, u, ks, v2]
    }
  }

  /** The fixed record returned when either sample is empty. */
  const Degenerate: Stats := Stats(0.0, 0.0, 1.0, 0.0, 0.0, 0.0, 0.0)

  function Sum(xs: seq<real>): real {
    if |xs| == 0 then 0.0 else xs[0] + Sum(xs[1..])
  }

  /** `a.mean()` of a non-empty sample. */
  function Mean(xs: seq<real>): real
    requires |xs| > 0
  {
    Sum(xs) / |xs| as real
  }

  /** A sample whose values lie in [lo, hi] sums to between n * lo and n * hi. */
  lemma {:induction false} SumBounds(xs: seq<real>, lo: real, hi: real)
    requires forall k :: 0 <= k < |xs| ==> lo <= xs[k] <= hi
    ensures |xs| as real * lo <= Sum(xs) <= |xs| as real * hi
  {
    if |xs| > 0 {
      SumBounds(xs[1..], lo, hi);
    }
  }

  /** The mean of a non-empty sample lies between its bounds. */
  lemma MeanBounds(xs: seq<real>, lo: real, hi: real)
    requires |xs| > 0
    requires forall k :: 0 <= k < |xs| ==> lo <= xs[k] <= hi
    ensures lo <= Mean(xs) <= hi
  {
    SumBounds(xs, lo, hi);
    var n := |xs| as real;
    assert Mean(xs) * n == Sum(xs);
  }

  function SumSqDev(xs: seq<real>, m: real): (r: real)
    ensures r >= 0.0
  {
    if |xs| == 0 then 0.0
    else
      SquareNonNegative(xs[0] - m);
      (xs[0] - m) * (xs[0] - m) + SumSqDev(xs[1..], m)
  }

  lemma SquareNonNegative(d: real)
    ensures d * d >= 0.0
  {
    if d < 0.0 {
      assert d * d == (-d) * (-d);
    }
  }

  /** `a.var(ddof=1) if a.size > 1 else 0.0`: the sample variance with the
      (n - 1) denominator, 0 for one or no samples; never negative. */
  function SampleVariance(xs: seq<real>): (r: real)
    ensures r >= 0.0
    ensures |xs| <= 1 ==> r == 0.0
    ensures |xs| > 1 ==> r * (|xs| - 1) as real == SumSqDev(xs, Mean(xs))
  {
    if |xs| > 1 then SumSqDev(xs, Mean(xs)) / (|xs| - 1) as real else 0.0
  }

  lemma {:induction false} SumConstant(xs: seq<real>, c: real)
    requires forall k :: 0 <= k < |xs| ==> xs[k] == c
    ensures Sum(xs) == |xs| as real * c
  {
    if |xs| > 0 {
      SumConstant(xs[1..], c);
    }
  }

  lemma {:induction false} SumSqDevConstant(xs: seq<real>, c: real)
    requires forall k :: 0 <= k < |xs| ==> xs[k] == c
    ensures SumSqDev(xs, c) == 0.0
  {
    if |xs| > 0 {
      SumSqDevConstant(xs[1..], c);
    }
  }

  /** A constant sample has mean c and variance 0. */
  lemma ConstantSample(xs: seq<real>, c: real)
    requires |xs| > 0
    requires forall k :: 0 <= k < |xs| ==> xs[k] == c
    ensures Mean(xs) == c
    ensures SampleVariance(xs) == 0.0
  {
    SumConstant(xs, c);
    SumSqDevConstant(xs, c);
  }

  /** A value of the F branches: a finite real or the `np.inf` of the
      `sb == 0` branch. */
  datatype Extended = Finite(v: real) | Infinite

  /** The three branches of the Fisher F computation. */
  function FBranches(sa: real, sb: real): Extended
    requires sa >= 0.0 && sb >= 0.0
  {
    if sa <= 0.0 && sb <= 0.0 then Finite(1.0)
    else if sb == 0.0 then Infinite
    else Finite(MaxReal(sa / (sb + Eps), sb / (sa + Eps)))
  }

  /** F as stored: the branch value when finite, `max(sa, sb) * 1e3` in
      place of infinity. */
  function FStat(sa: real, sb: real): (r: real)
    requires sa >= 0.0 && sb >= 0.0
    ensures sa <= 0.0 && sb <= 0.0 ==> r == 1.0
    ensures sa > 0.0 && sb == 0.0 ==> r == sa * 1000.0
    ensures sb > 0.0 ==> r == MaxReal(sa / (sb + Eps), sb / (sa + Eps))
    ensures r > 0.0
  {
    match FBranches(sa, sb)
    case Finite(v) => v
    case Infinite => MaxReal(sa, sb) * 1000.0
  }

  /** F does not depend on which variance is called A when both are
      positive or both are zero. */
  lemma FSymmetric(sa: real, sb: real)
    requires sa >= 0.0 && sb >= 0.0
    requires (sa > 0.0 && sb > 0.0) || (sa == 0.0 && sb == 0.0)
    ensures FStat(sa, sb) == FStat(sb, sa)
  {
  }

  /** When exactly one variance is zero F is not symmetric: the `sb == 0`
      branch falls back to `max * 1e3`, the `sa == 0` branch divides by the
      epsilon. */
  lemma FAsymmetricWhenOneVarianceIsZero()
    ensures FStat(1.0, 0.0) == 1000.0
    ensures FStat(0.0, 1.0) == 1.0 / Eps
    ensures FStat(1.0, 0.0) != FStat(0.0, 1.0)
  {
    assert MaxReal(0.0 / (1.0 + Eps), 1.0 / (0.0 + Eps)) == 1.0 / Eps;
  }

  /** Welch's t magnitude with an abstract square root: never negative,
      and zero exactly when the two means agree (the epsilon keeps the
      denominator positive). */
  function TStat(a: seq<real>, b: seq<real>, sa: real, sb: real, lib: StatsLib): (r: real)
    requires |a| > 0 && |b| > 0 && lib.Valid()
    ensures r >= 0.0
    ensures r == 0.0 <==> Mean(a) == Mean(b)
  {
    var denom := lib.sqrt(sa / |a| as real + sb / |b| as real);
    assert denom + Eps > 0.0;
    AbsReal(Mean(a) - Mean(b)) / (denom + Eps)
  }

  /** T does not depend on which region is called A. */
  lemma TSymmetric(a: seq<real>, b: seq<real>, sa: real, sb: real, lib: StatsLib)
    requires |a| > 0 && |b| > 0 && lib.Valid()
    ensures TStat(a, b, sa, sb, lib) == TStat(b, a, sb, sa, lib)
  {
    assert sa / |a| as real + sb / |b| as real == sb / |b| as real + sa / |a| as real;
    assert AbsReal(Mean(a) - Mean(b)) == AbsReal(Mean(b) - Mean(a));
  }

  /** The likelihood-like statistic `-(na + nb) * log(4 * ratio + eps)`:
      zero for two empty samples, and for equal variances the ratio is 1,
      so only the sample count remains. */
  function LStat(na: nat, nb: nat, sa: real, sb: real, lib: StatsLib): (r: real)
    requires sa >= 0.0 && sb >= 0.0
    ensures na + nb == 0 ==> r == 0.0
    ensures sa == sb ==> r == -((na + nb) as real) * lib.log(4.0 + Eps)
  {
    var ratio := (sa + Eps) / (sb + Eps);
    DivSelf(sb + Eps);
    -((na + nb) as real) * lib.log(4.0 * ratio + Eps)
  }

  lemma DivSelf(d: real)
    requires d != 0.0
    ensures d / d == 1.0
  {
  }

  /** L depends on the two sample sizes only through their sum. */
  lemma LSizesSymmetric(na: nat, nb: nat, sa: real, sb: real, lib: StatsLib)
    requires sa >= 0.0 && sb >= 0.0
    ensures LStat(na, nb, sa, sb, lib) == LStat(nb, na, sa, sb, lib)
    ensures LStat(na, nb, sa, sb, lib) == LStat(na + nb, 0, sa, sb, lib)
  {
  }

  /** A library statistic, or 0.0 when the call raises. */
  function OrZero(r: Option<real>): (v: real)
    ensures r.None? ==> v == 0.0
    ensures r.Some? ==> v == r.value
  {
    match r
    case None => 0.0
    case Some(x) => x
  }

  /** `np.histogram(range=(0, 255))` bin of a value inside the range:
      bin k holds [255k/n, 255(k+1)/n), the last bin is closed. */
  function Bin(v: real, n: nat): (k: nat)
    requires n > 0 && 0.0 <= v <= 255.0
    ensures k < n
    ensures v == 255.0 ==> k == n - 1
    ensures v < 255.0 ==> k as real * 255.0 <= v * n as real < (k as real + 1.0) * 255.0
  {
    if v == 255.0 then n - 1
    else
      BinPositionBounds(v, n);
      var k := BinPosition(v, n).Floor;
      assert k as real <= BinPosition(v, n) < k as real + 1.0;
      k
  }

  /** Where v falls in units of the bin width 255 / n. */
  function BinPosition(v: real, n: nat): real
    requires n > 0
  {
    v * n as real / 255.0
  }

  lemma BinPositionBounds(v: real, n: nat)
    requires n > 0 && 0.0 <= v < 255.0
    ensures 0.0 <= BinPosition(v, n) < n as real
  {
    var x := BinPosition(v, n);
    assert v * n as real < 255.0 * n as real;
    assert x < n as real;
  }

  predicate InRange(v: real) { 0.0 <= v <= 255.0 }

  /** Histogram counts over n equal-width bins; values outside [0, 255]
      are not counted. */
  function Histogram(xs: seq<real>, n: nat): (h: seq<nat>)
    requires n > 0
    ensures |h| == n
  {
    if |xs| == 0 then seq(n, _ => 0)
    else
      var h := Histogram(xs[..|xs| - 1], n);
      var v := xs[|xs| - 1];
      if InRange(v) then h[Bin(v, n) := h[Bin(v, n)] + 1] else h
  }

  function SumNat(h: seq<nat>): nat {
    if |h| == 0 then 0 else h[0] + SumNat(h[1..])
  }

  function CountInRange(xs: seq<real>): nat {
    if |xs| == 0 then 0 else CountInRange(xs[..|xs| - 1]) + (if InRange(xs[|xs| - 1]) then 1 else 0)
  }

  lemma {:induction false} SumNatIncrement(h: seq<nat>, k: nat)
    requires k < |h|
    ensures SumNat(h[k := h[k] + 1]) == SumNat(h) + 1
  {
    if k > 0 {
      assert h[k := h[k] + 1][1..] == h[1..][k - 1 := h[1..][k - 1] + 1];
      SumNatIncrement(h[1..], k - 1);
    }
  }

  lemma {:induction false} SumNatZeros(n: nat)
    ensures SumNat(seq(n, _ => 0)) == 0
  {
    if n > 0 {
      assert seq(n, _ => 0)[1..] == seq(n - 1, _ => 0);
      SumNatZeros(n - 1);
    }
  }

  /** Every in-range sample is counted in exactly one bin. */
  lemma {:induction false} HistogramTotal(xs: seq<real>, n: nat)
    requires n > 0
    ensures SumNat(Histogram(xs, n)) == CountInRange(xs)
  {
    if |xs| == 0 {
      SumNatZeros(n);
    } else {
      HistogramTotal(xs[..|xs| - 1], n);
      var v := xs[|xs| - 1];
      if InRange(v) {
        SumNatIncrement(Histogram(xs[..|xs| - 1], n), Bin(v, n));
      }
    }
  }

  /** A sample of one in-range value c fills the single bin of c. */
  lemma {:induction false} HistogramConstant(xs: seq<real>, c: real, n: nat)
    requires n > 0 && InRange(c)
    requires forall k :: 0 <= k < |xs| ==> xs[k] == c
    ensures Histogram(xs, n) == seq(n, _ => 0)[Bin(c, n) := |xs|]
  {
    if |xs| > 0 {
      HistogramConstant(xs[..|xs| - 1], c, n);
    }
  }

  /** One term `(R - S)^2 / (R + S)` of the v2 sum, 0 for an empty bin. */
  function ChiTerm(r: nat, s: nat): (t: real)
    ensures t >= 0.0
  {
    var d := r as int - s as int;
    if r + s > 0 then (d * d) as real / (r + s) as real else 0.0
  }

  /** The v2 sum over bins with `R + S > 0`; never negative. */
  function ChiSquare(rs: seq<nat>, ss: seq<nat>): (v: real)
    requires |rs| == |ss|
    ensures v >= 0.0
  {
    if |rs| == 0 then 0.0 else ChiTerm(rs[0], ss[0]) + ChiSquare(rs[1..], ss[1..])
  }

  lemma {:induction false} ChiSquareSymmetric(rs: seq<nat>, ss: seq<nat>)
    requires |rs| == |ss|
    ensures ChiSquare(rs, ss) == ChiSquare(ss, rs)
  {
    if |rs| > 0 {
      var d := rs[0] as int - ss[0] as int;
      assert d * d == (-d) * (-d);
      ChiSquareSymmetric(rs[1..], ss[1..]);
    }
  }

  lemma {:induction false} ChiSquareEqualIsZero(rs: seq<nat>)
    ensures ChiSquare(rs, rs) == 0.0
  {
    if |rs| > 0 {
      ChiSquareEqualIsZero(rs[1..]);
    }
  }

  /** The v2 statistic over `nBins` histogram bins of the two samples. */
  function V2Stat(a: seq<real>, b: seq<real>, nBins: nat): (v: real)
    requires nBins > 0
    ensures v >= 0.0
  {
    ChiSquare(Histogram(a, nBins), Histogram(b, nBins))
  }

  /** `compute_tests_region(values_A, values_B)`. */
  function ComputeTestsRegion(a: seq<real>, b: seq<real>, nBins: nat, lib: StatsLib): (r: Stats)
    requires nBins > 0 && lib.Valid()
    ensures |a| == 0 || |b| == 0 ==> r == Degenerate
    ensures |a| > 0 && |b| > 0 ==>
              && r.dob == AbsReal(Mean(a) - Mean(b))
              && r.f == FStat(SampleVariance(a), SampleVariance(b))
              && r.u == OrZero(lib.mannWhitneyU(a, b))
              && r.ks == OrZero(lib.ks2Samp(a, b))
              && r.v2 == V2Stat(a, b, nBins)
              && r.t == TStat(a, b, SampleVariance(a), SampleVariance(b), lib)
              && r.l == LStat(|a|, |b|, SampleVariance(a), SampleVariance(b), lib)
    ensures r.dob >= 0.0 && r.t >= 0.0 && r.f > 0.0 && r.v2 >= 0.0
  {
    if |a| == 0 || |b| == 0 then Degenerate
    else
      var sa := SampleVariance(a);
      var sb := SampleVariance(b);
      Stats(AbsReal(Mean(a) - Mean(b)),
            TStat(a, b, sa, sb, lib),
            FStat(sa, sb),
            LStat(|a|, |b|, sa, sb, lib),
            OrZero(lib.mannWhitneyU(a, b)),
            OrZero(lib.ks2Samp(a, b)),
            V2Stat(a, b, nBins))
  }

  /** v2 does not depend on which sample is called A. */
  lemma V2Symmetric(a: seq<real>, b: seq<real>, nBins: nat)
    requires nBins > 0
    ensures V2Stat(a, b, nBins) == V2Stat(b, a, nBins)
  {
    ChiSquareSymmetric(Histogram(a, nBins), Histogram(b, nBins));
  }

  /** Two samples with the same histogram have v2 = 0. */
  lemma V2SameHistogram(a: seq<real>, b: seq<real>, nBins: nat)
    requires nBins > 0 && Histogram(a, nBins) == Histogram(b, nBins)
    ensures V2Stat(a, b, nBins) == 0.0
  {
    ChiSquareEqualIsZero(Histogram(a, nBins));
  }

  /** The constant samples [10, 10, 10, 10] and [20, 20, 20, 20]: DoB is
      exactly 10, F is 1 (both variances vanish) and v2 is 8 (each sample
      fills one bin of 4, so the two bins contribute 4 each). */
  lemma ConstantSamplesExample(lib: StatsLib)
    requires lib.Valid()
    ensures ComputeTestsRegion([10.0, 10.0, 10.0, 10.0], [20.0, 20.0, 20.0, 20.0], 16, lib).dob == 10.0
    ensures ComputeTestsRegion([10.0, 10.0, 10.0, 10.0], [20.0, 20.0, 20.0, 20.0], 16, lib).f == 1.0
    ensures ComputeTestsRegion([10.0, 10.0, 10.0, 10.0], [20.0, 20.0, 20.0, 20.0], 16, lib).v2 == 8.0
  {
    var a, b := [10.0, 10.0, 10.0, 10.0], [20.0, 20.0, 20.0, 20.0];
    ConstantSample(a, 10.0);
    ConstantSample(b, 20.0);
    var zeros: seq<nat> := seq(16, _ => 0);
    assert Bin(10.0, 16) == 0;
    assert Bin(20.0, 16) == 1;
    HistogramConstant(a, 10.0, 16);
    HistogramConstant(b, 20.0, 16);
    var ha := zeros[0 := 4];
    var hb := zeros[1 := 4];
    assert ChiSquare(ha[2..], hb[2..]) == 0.0 by {
      assert ha[2..] == hb[2..];
      ChiSquareEqualIsZero(ha[2..]);
    }
    assert ChiSquare(ha, hb) == ChiTerm(4, 0) + (ChiTerm(0, 4) + ChiSquare(ha[2..], hb[2..]));
  }
}
