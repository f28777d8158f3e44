/** Small shared vocabulary: optional values (Python's None / NumPy's NaN),
    number helpers and rectangular grids (NumPy 2-D arrays as values). */
module Util {

  datatype Option<T> = None | Some(value: T)

  function MaxInt(a: int, b: int): int { if a >= b then a else b }
  function MinInt(a: int, b: int): int { if a <= b then a else b }
  function MaxReal(a: real, b: real): real { if a >= b then a else b }
  function AbsReal(x: real): real { if x < 0.0 then -x else x }

  /** `np.clip(x, lo, hi)` for `lo <= hi`. */
  function ClipReal(x: real, lo: real, hi: real): (r: real)
    requires lo <= hi
    ensures lo <= r <= hi
    ensures lo <= x <= hi ==> r == x
  {
    if x < lo then lo else if x > hi then hi else x
  }

  /** A NumPy 2-D array as a value: `|g|` rows of `w` entries each. */
  type Grid<T> = seq<seq<T>>

  predicate IsGrid<T>(g: Grid<T>, h: int, w: int) {
    |g| == h && forall i :: 0 <= i < |g| ==> |g[i]| == w
  }

  /** Width of a grid (0 for a grid with no rows). */
  function Width<T>(g: Grid<T>): nat {
    if |g| == 0 then 0 else |g[0]|
  }

  predicate Rect<T>(g: Grid<T>) {
    IsGrid(g, |g|, Width(g))
  }

  /** The current contents of a 2-D array as a grid value. */
  function Snapshot<T>(a: array2<T>): (g: Grid<T>)
    reads a
    ensures IsGrid(g, a.Length0, a.Length1)
    ensures forall i, j :: 0 <= i < a.Length0 && 0 <= j < a.Length1 ==> g[i][j] == a[i, j]
  {
    seq(a.Length0, i requires 0 <= i < a.Length0 reads a =>
      seq(a.Length1, j requires 0 <= j < a.Length1 reads a => a[i, j]))
  }

  /** A grid of `h` rows of `w` copies of `v` (`np.zeros`, `np.full`). */
  function Filled<T>(h: nat, w: nat, v: T): (g: Grid<T>)
    ensures IsGrid(g, h, w)
    ensures forall i, j :: 0 <= i < h && 0 <= j < w ==> g[i][j] == v
  {
    seq(h, _ => seq(w, _ => v))
  }

  /** Growing a prefix by one element. */
  lemma PrefixSnoc<T>(xs: seq<T>, k: nat)
    requires k < |xs|
    ensures xs[..k + 1] == xs[..k] + [xs[k]]
  {
  }
}
