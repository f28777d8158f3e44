/** The dual-region neighbourhood mask of `make_dual_region_mask`:
    an S x S window is split into two pixel sets by the sign of the dot
    product of each pixel's offset from the window centre with the normal
    (nx, ny) of the splitting line.  The normal, `(cos θ, sin θ)` in the
    source, is taken here as two real parameters. */
module Masks {

  import opened Util

  datatype MaskPair = MaskPair(a: Grid<bool>, b: Grid<bool>)

  /** Centre coordinate `(s - 1) / 2.0` of an s x s window. */
  function Centre(s: nat): real { (s as real - 1.0) / 2.0 }

  /** Dot product of the offset of pixel (y, x) with the normal. */
  function Dot(s: nat, nx: real, ny: real, y: int, x: int): real {
    (x as real - Centre(s)) * nx + (y as real - Centre(s)) * ny
  }

  /** The centre test `|x - cx| < 0.5 && |y - cy| < 0.5`. */
  predicate IsCentre(s: nat, y: int, x: int) {
    AbsReal(x as real - Centre(s)) < 0.5 && AbsReal(y as real - Centre(s)) < 0.5
  }

  predicate InA(s: nat, nx: real, ny: real, y: int, x: int) {
    Dot(s, nx, ny, y, x) > 0.0 && !IsCentre(s, y, x)
  }

  predicate InB(s: nat, nx: real, ny: real, y: int, x: int) {
    Dot(s, nx, ny, y, x) < 0.0 && !IsCentre(s, y, x)
  }

  /** Both masks are s x s; no pixel is in both; for odd s the centre is
      in neither; a pixel on the splitting line is in neither. */
  function MakeDualRegionMask(s: nat, nx: real, ny: real): (r: MaskPair)
    ensures IsGrid(r.a, s, s) && IsGrid(r.b, s, s)
    ensures forall y, x :: 0 <= y < s && 0 <= x < s ==> !(r.a[y][x] && r.b[y][x])
    ensures s % 2 == 1 ==> !r.a[s / 2][s / 2] && !r.b[s / 2][s / 2]
    ensures forall y, x :: 0 <= y < s && 0 <= x < s && Dot(s, nx, ny, y, x) == 0.0 ==>
              !r.a[y][x] && !r.b[y][x]
  {
    MaskPair(seq(s, y => seq(s, x => InA(s, nx, ny, y, x))),
             seq(s, y => seq(s, x => InB(s, nx, ny, y, x))))
  }

  /** Point reflection through the centre negates the dot product. */
  lemma DotReflects(s: nat, nx: real, ny: real, y: int, x: int)
    ensures Dot(s, nx, ny, s - 1 - y, s - 1 - x) == -Dot(s, nx, ny, y, x)
  {
    var u, v := x as real - Centre(s), y as real - Centre(s);
    assert (s - 1 - x) as real - Centre(s) == -u;
    assert (s - 1 - y) as real - Centre(s) == -v;
    assert (-u) * nx + (-v) * ny == -(u * nx + v * ny);
  }

  /** For every normal, pixel (y, x) is in A exactly when its reflection
      (s-1-y, s-1-x) is in B, and the other way round. */
  lemma MaskReflection(s: nat, nx: real, ny: real, y: int, x: int)
    requires 0 <= y < s && 0 <= x < s
    ensures MakeDualRegionMask(s, nx, ny).a[y][x] <==> MakeDualRegionMask(s, nx, ny).b[s - 1 - y][s - 1 - x]
    ensures MakeDualRegionMask(s, nx, ny).b[y][x] <==> MakeDualRegionMask(s, nx, ny).a[s - 1 - y][s - 1 - x]
  {
    DotReflects(s, nx, ny, y, x);
    assert IsCentre(s, y, x) <==> IsCentre(s, s - 1 - y, s - 1 - x);
  }

  /** With the normal (1, 0) of angle 0, A is the columns right of the
      centre and B the columns left of it. */
  lemma AngleZeroSplit(s: nat, y: int, x: int)
    requires s % 2 == 1 && 0 <= y < s && 0 <= x < s
    ensures MakeDualRegionMask(s, 1.0, 0.0).a[y][x] <==> x > s / 2
    ensures MakeDualRegionMask(s, 1.0, 0.0).b[y][x] <==> x < s / 2
  {
    assert Centre(s) == (s / 2) as real;
    assert Dot(s, 1.0, 0.0, y, x) == x as real - Centre(s);
  }

  /** For s = 5 and angle 0 both regions are non-empty. */
  lemma AngleZeroBothNonEmpty()
    ensures MakeDualRegionMask(5, 1.0, 0.0).a[2][4] && MakeDualRegionMask(5, 1.0, 0.0).b[2][0]
  {
    AngleZeroSplit(5, 2, 4);
    AngleZeroSplit(5, 2, 0);
  }
}
