/** Grids of real values on a uniform 2-D mesh.

    A `Field` is the value of a grid: `f[x][y]` is the cell at index `x` along
    the first axis and `y` along the second, as in a NumPy array of shape
    (n_x, n_y). Grids the level-set code only reads are passed around as
    values; the buffers it fills cell by cell are `array2<real>`, and `Cells`
    gives the value such a buffer holds.
 */
module Fields {

  type Field = seq<seq<real>>

  /** Number of cells along the second axis (0 for a grid without rows). */
  function Width(f: Field): nat {
    if |f| == 0 then 0 else |f[0]|
  }

  /** Every row has the same length, as every NumPy 2-D array does. */
  predicate Rectangular(f: Field) {
    forall x :: 0 <= x < |f| ==> |f[x]| == Width(f)
  }

  /** (x, y) names a cell of the grid. */
  predicate InGrid(f: Field, x: int, y: int) {
    0 <= x < |f| && 0 <= y < Width(f)
  }

  /** The grid value held by a 2-D buffer. */
  ghost function Cells(a: array2<real>): (f: Field)
    reads a
    ensures |f| == a.Length0 && Rectangular(f)
    ensures a.Length0 > 0 ==> Width(f) == a.Length1
    ensures forall x, y :: 0 <= x < a.Length0 && 0 <= y < a.Length1 ==> f[x][y] == a[x, y]
  {
    seq(a.Length0, x requires 0 <= x < a.Length0 reads a =>
      seq(a.Length1, y requires 0 <= y < a.Length1 reads a => a[x, y]))
  }
}
