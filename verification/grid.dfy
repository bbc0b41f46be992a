/** The density map: one list of reals per image row, as produced by the
    model's `tolist()`. Rows are read by `grid[row][col]`. */
module DensityGrid {

  type Grid = seq<seq<real>>

  /** Every row has `width` entries (what a NumPy array always satisfies). */
  predicate Rectangular(g: Grid, width: nat) {
    forall i :: 0 <= i < |g| ==> |g[i]| == width
  }

  /** Same number of rows, and row for row the same length. */
  predicate SameShape(a: Grid, b: Grid) {
    |a| == |b| && forall i :: 0 <= i < |a| ==> |a[i]| == |b[i]|
  }
}
