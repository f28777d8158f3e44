/** The localization metric `compute_pcm_binary`: detected pixels, taken in
    row-major order, greedily claim the nearest still unmatched
    ground-truth pixel within radius g; the score is the percentage of
    matches over the larger of the two pixel counts.

    Distances are compared squared and as integers: `sqrt(d) <= g` holds
    exactly when `g >= 0 && d <= g * g`, and the square root does not change
    which candidate is nearest. */
module Metrics {

  import opened Util

  type Coord = (int, int)

  /** Row-major order of coordinates (`np.nonzero` order). */
  predicate Before(p: Coord, q: Coord) {
    p.0 < q.0 || (p.0 == q.0 && p.1 < q.1)
  }

  predicate StrictlyRowMajor(cs: seq<Coord>) {
    forall a, b :: 0 <= a < b < |cs| ==> Before(cs[a], cs[b])
  }

  /** Set pixels of a row r, left to right, among its first n columns. */
  function RowNonzero(row: seq<int>, r: int, n: nat): (cs: seq<Coord>)
    requires n <= |row|
    ensures forall k :: 0 <= k < |cs| ==> cs[k].0 == r && 0 <= cs[k].1 < n && row[cs[k].1] != 0
    ensures StrictlyRowMajor(cs)
  {
    if n == 0 then []
    else RowNonzero(row, r, n - 1) + (if row[n - 1] != 0 then [(r, n - 1)] else [])
  }

  /** `np.column_stack(np.nonzero(m))` over the first n rows: set pixels
      only, in row-major order, so each at most once. */
  function NonzeroRows(m: Grid<int>, n: nat): (cs: seq<Coord>)
    requires Rect(m) && n <= |m|
    ensures forall k :: 0 <= k < |cs| ==>
              0 <= cs[k].0 < n && 0 <= cs[k].1 < Width(m) && m[cs[k].0][cs[k].1] != 0
    ensures StrictlyRowMajor(cs)
  {
    if n == 0 then []
    else NonzeroRows(m, n - 1) + RowNonzero(m[n - 1], n - 1, Width(m))
  }

  function Nonzero(m: Grid<int>): (cs: seq<Coord>)
    requires Rect(m)
    ensures forall k :: 0 <= k < |cs| ==>
              0 <= cs[k].0 < |m| && 0 <= cs[k].1 < Width(m) && m[cs[k].0][cs[k].1] != 0
    ensures StrictlyRowMajor(cs)
  {
    NonzeroRows(m, |m|)
  }

  lemma {:induction false} RowNonzeroComplete(row: seq<int>, r: int, n: nat, c: int)
    requires n <= |row| && 0 <= c < n && row[c] != 0
    ensures (r, c) in RowNonzero(row, r, n)
  {
    if c < n - 1 {
      RowNonzeroComplete(row, r, n - 1, c);
    }
  }

  lemma {:induction false} NonzeroRowsComplete(m: Grid<int>, n: nat, r: int, c: int)
    requires Rect(m) && n <= |m| && 0 <= r < n && 0 <= c < Width(m) && m[r][c] != 0
    ensures (r, c) in NonzeroRows(m, n)
  {
    if r < n - 1 {
      NonzeroRowsComplete(m, n - 1, r, c);
    } else {
      RowNonzeroComplete(m[n - 1], n - 1, Width(m), c);
    }
  }

  /** Every set pixel is enumerated. */
  lemma NonzeroComplete(m: Grid<int>, r: int, c: int)
    requires Rect(m) && 0 <= r < |m| && 0 <= c < Width(m) && m[r][c] != 0
    ensures (r, c) in Nonzero(m)
  {
    NonzeroRowsComplete(m, |m|, r, c);
  }

  function Dist2(p: Coord, q: Coord): nat {
    (p.0 - q.0) * (p.0 - q.0) + (p.1 - q.1) * (p.1 - q.1)
  }

  /** `dists <= g` for the Euclidean distance, on squared integers. */
  predicate Within(d2: nat, g: int) {
    g >= 0 && d2 <= g * g
  }

  /** Ground-truth index k is a candidate for detected pixel p. */
  predicate Candidate(gt: seq<Coord>, matched: seq<bool>, p: Coord, g: int, k: int)
    requires |matched| == |gt|
  {
    0 <= k < |gt| && Within(Dist2(gt[k], p), g) && !matched[k]
  }

  /** `valid_idxs[np.argmin(dists[valid_idxs])]` among the first n indices:
      the lowest-index candidate at minimal distance, or None when there
      is no candidate. */
  function Choose(gt: seq<Coord>, matched: seq<bool>, p: Coord, g: int, n: nat): (r: Option<nat>)
    requires |matched| == |gt| && n <= |gt|
    ensures r.None? <==> forall k :: 0 <= k < n ==> !Candidate(gt, matched, p, g, k)
    ensures r.Some? ==> r.value < n && Candidate(gt, matched, p, g, r.value)
    ensures r.Some? ==> forall k :: 0 <= k < n && Candidate(gt, matched, p, g, k) ==>
                          Dist2(gt[r.value], p) <= Dist2(gt[k], p)
    ensures r.Some? ==> forall k :: 0 <= k < r.value && Candidate(gt, matched, p, g, k) ==>
                          Dist2(gt[r.value], p) < Dist2(gt[k], p)
  {
    if n == 0 then None
    else
      var prev := Choose(gt, matched, p, g, n - 1);
      if Candidate(gt, matched, p, g, n - 1) &&
         (prev.None? || Dist2(gt[n - 1], p) < Dist2(gt[prev.value], p))
      then Some(n - 1)
      else prev
  }

  function CountTrue(bs: seq<bool>): (c: nat)
    ensures c <= |bs|
  {
    if |bs| == 0 then 0 else CountTrue(bs[..|bs| - 1]) + (if bs[|bs| - 1] then 1 else 0)
  }

  lemma {:induction false} CountTrueSet(bs: seq<bool>, k: nat)
    requires k < |bs| && !bs[k]
    ensures CountTrue(bs[k := true]) == CountTrue(bs) + 1
  {
    if k < |bs| - 1 {
      assert bs[k := true][..|bs| - 1] == bs[..|bs| - 1][k := true];
      CountTrueSet(bs[..|bs| - 1], k);
    } else {
      assert bs[k := true][..|bs| - 1] == bs[..|bs| - 1];
    }
  }

  lemma {:induction false} CountTrueNone(n: nat)
    ensures CountTrue(seq(n, _ => false)) == 0
  {
    if n > 0 {
      assert seq(n, _ => false)[..n - 1] == seq(n - 1, _ => false);
      CountTrueNone(n - 1);
    }
  }

  datatype Matching = Matching(matched: seq<bool>, matches: nat)

  /** The greedy loop over the detected pixels: which ground-truth pixels
      are claimed and how many matches were made (at most one per detected
      pixel). */
  function Greedy(det: seq<Coord>, gt: seq<Coord>, g: int): (m: Matching)
    ensures |m.matched| == |gt|
    ensures m.matches <= |det|
  {
    if |det| == 0 then
      Matching(seq(|gt|, _ => false), 0)
    else
      var prev := Greedy(det[..|det| - 1], gt, g);
      match Choose(gt, prev.matched, det[|det| - 1], g, |gt|)
      case None => prev
      case Some(k) => Matching(prev.matched[k := true], prev.matches + 1)
  }

  /** Each ground-truth pixel is claimed at most once: the match count is
      the number of claimed pixels, so at most the number of ground-truth
      pixels. */
  lemma {:induction false} GreedyCountsClaimed(det: seq<Coord>, gt: seq<Coord>, g: int)
    ensures Greedy(det, gt, g).matches == CountTrue(Greedy(det, gt, g).matched)
    ensures Greedy(det, gt, g).matches <= |gt|
  {
    if |det| == 0 {
      CountTrueNone(|gt|);
    } else {
      GreedyCountsClaimed(det[..|det| - 1], gt, g);
      var prev := Greedy(det[..|det| - 1], gt, g);
      match Choose(gt, prev.matched, det[|det| - 1], g, |gt|)
      case None =>
      case Some(k) => CountTrueSet(prev.matched, k);
    }
  }

  /** The percentage: 100 for two empty maps, 0 when exactly one is empty,
      otherwise 100 * matches / max(|det|, |gt|). */
  function Pcm(det: Grid<int>, gt: Grid<int>, g: int): (pcm: real)
    requires Rect(det) && Rect(gt)
    ensures 0.0 <= pcm <= 100.0
    ensures |Nonzero(det)| == 0 && |Nonzero(gt)| == 0 ==> pcm == 100.0
    ensures (|Nonzero(det)| == 0) != (|Nonzero(gt)| == 0) ==> pcm == 0.0
  {
    var dc, gc := Nonzero(det), Nonzero(gt);
    if |dc| == 0 && |gc| == 0 then 100.0
    else if |dc| == 0 || |gc| == 0 then 0.0
    else
      Percentage(Greedy(dc, gc, g).matches, MaxInt(|dc|, |gc|))
  }

  /** `100.0 * (matches / float(denom))` for matches <= denom. */
  function Percentage(matches: nat, denom: nat): (p: real)
    requires 0 < denom && matches <= denom
    ensures 0.0 <= p <= 100.0
    ensures p == 100.0 <==> matches == denom
  {
    var q := matches as real / denom as real;
    assert q * denom as real == matches as real;
    assert q <= 1.0;
    assert q == 1.0 ==> matches == denom by {
      if q == 1.0 { assert q * denom as real == denom as real; }
    }
    100.0 * q
  }

  /** `compute_pcm_binary`: the early returns for empty maps, then the
      greedy loop and the percentage. */
  method ComputePcmBinary(det: Grid<int>, gt: Grid<int>, g: int) returns (pcm: real)
    requires Rect(det) && Rect(gt)
    ensures pcm == Pcm(det, gt, g)
  {
    var detCoords := Nonzero(det);
    var gtCoords := Nonzero(gt);
    var na, nb := |detCoords|, |gtCoords|;
    if na == 0 && nb == 0 {
      return 100.0;
    }
    if na == 0 || nb == 0 {
      return 0.0;
    }
    var matches := MatchGreedily(detCoords, gtCoords, g);
    pcm := Percentage(matches, MaxInt(na, nb));
  }

  /** The loop of `compute_pcm_binary`: claimed ground-truth pixels are
      marked in a boolean array and the matches counted. */
  method MatchGreedily(detCoords: seq<Coord>, gtCoords: seq<Coord>, g: int) returns (matches: nat)
    ensures matches == Greedy(detCoords, gtCoords, g).matches
  {
    var na, nb := |detCoords|, |gtCoords|;
    var matchedGt := new bool[nb](_ => false);
    matches := 0;
    for k := 0 to na
      invariant matchedGt[..] == Greedy(detCoords[..k], gtCoords, g).matched
      invariant matches == Greedy(detCoords[..k], gtCoords, g).matches
    {
      assert detCoords[..k + 1][..k] == detCoords[..k];
      ghost var before := matchedGt[..];
      var chosen := Choose(gtCoords, matchedGt[..], detCoords[k], g, nb);
      if chosen.Some? {
        matchedGt[chosen.value] := true;
        matches := matches + 1;
        assert matchedGt[..] == before[chosen.value := true];
      }
    }
    assert detCoords[..na] == detCoords;
  }

  /** Greedy matching of a list of distinct pixels against itself: the
      k-th pixel claims itself, so after k pixels exactly the first k are
      claimed. */
  lemma {:induction false} GreedySelf(cs: seq<Coord>, g: int, k: nat)
    requires StrictlyRowMajor(cs) && g >= 0 && k <= |cs|
    ensures Greedy(cs[..k], cs, g).matches == k
    ensures forall i :: 0 <= i < |cs| ==> Greedy(cs[..k], cs, g).matched[i] == (i < k)
  {
    if k > 0 {
      GreedySelf(cs, g, k - 1);
      var prev := Greedy(cs[..k - 1], cs, g);
      assert cs[..k][..k - 1] == cs[..k - 1];
      assert cs[..k][k - 1] == cs[k - 1];
      ChooseSelf(cs, prev.matched, g, k - 1);
      var now := Greedy(cs[..k], cs, g);
      assert now == Matching(prev.matched[k - 1 := true], prev.matches + 1);
      forall i | 0 <= i < |cs|
        ensures now.matched[i] == (i < k)
      {
        if i != k - 1 {
          assert now.matched[i] == prev.matched[i];
        }
      }
    }
  }

  /** Pixel k, still unclaimed, claims itself. */
  lemma ChooseSelf(cs: seq<Coord>, matched: seq<bool>, g: int, k: nat)
    requires StrictlyRowMajor(cs) && g >= 0 && k < |cs| && |matched| == |cs| && !matched[k]
    ensures Choose(cs, matched, cs[k], g, |cs|) == Some(k)
  {
    var p := cs[k];
    assert Dist2(cs[k], p) == 0;
    assert Candidate(cs, matched, p, g, k);
    var ch := Choose(cs, matched, p, g, |cs|);
    Dist2Zero(cs[ch.value], p);
    DistinctPixels(cs, ch.value, k);
  }

  /** Only a pixel is at distance 0 from itself. */
  lemma Dist2Zero(p: Coord, q: Coord)
    ensures p != q ==> Dist2(p, q) > 0
  {
    var a, b := p.0 - q.0, p.1 - q.1;
    assert a * a >= 0 && b * b >= 0;
    if a != 0 {
      assert a * a > 0;
    }
    if b != 0 {
      assert b * b > 0;
    }
  }

  /** Strictly row-major pixels are pairwise distinct. */
  lemma DistinctPixels(cs: seq<Coord>, a: nat, b: nat)
    requires StrictlyRowMajor(cs) && a < |cs| && b < |cs|
    ensures a != b ==> cs[a] != cs[b]
  {
    if a < b {
      assert Before(cs[a], cs[b]);
    } else if b < a {
      assert Before(cs[b], cs[a]);
    }
  }

  /** A perfect detection scores 100 for every radius g >= 0. */
  lemma IdenticalMapsScoreFull(m: Grid<int>, g: int)
    requires Rect(m) && g >= 0
    ensures Pcm(m, m, g) == 100.0
  {
    var cs := Nonzero(m);
    if |cs| > 0 {
      GreedySelf(cs, g, |cs|);
      assert cs[..|cs|] == cs;
    }
  }

  /** The unit test: two identical single-pixel maps with g = 1. */
  lemma SinglePixelExample()
    ensures Pcm(seq(5, i => seq(5, j => if i == 2 && j == 2 then 1 else 0)),
                seq(5, i => seq(5, j => if i == 2 && j == 2 then 1 else 0)), 1) == 100.0
  {
    IdenticalMapsScoreFull(seq(5, i => seq(5, j => if i == 2 && j == 2 then 1 else 0)), 1);
  }
}
