/** Central-difference gradient of a grid, with neighbour indices clamped to
    the grid (SimFab1/SimFab_Ex_1_Task3.py, `numerical_derivative`).

    At a boundary cell the missing neighbour is replaced by the cell itself,
    so the stencil there spans one cell instead of two while the divisor stays
    `2 * spacing`.
 */
module Derivatives {
  import opened Fields

  /** Partial derivatives along the first (x) and second (y) axis. */
  datatype Gradient = Gradient(dx: real, dy: real)

  /** Forward neighbour `min(i + 1, n - 1)`: the next cell, or the cell
      itself at the last index. */
  function Next(i: int, n: int): (j: int)
    requires 0 <= i < n
    ensures 0 <= j < n
    ensures i < n - 1 ==> j == i + 1
    ensures i == n - 1 ==> j == i
  {
    if i + 1 <= n - 1 then i + 1 else n - 1
  }

  /** Backward neighbour `max(i - 1, 0)`: the previous cell, or the cell
      itself at index 0. */
  function Prev(i: int): (j: int)
    requires 0 <= i
    ensures 0 <= j <= i
    ensures 0 < i ==> j == i - 1
    ensures i == 0 ==> j == 0
  {
    if i - 1 >= 0 then i - 1 else 0
  }

  /** The gradient `numerical_derivative` returns for cell (x, y). */
  function Derivative(f: Field, x: int, y: int, spacing: real): Gradient
    requires Rectangular(f) && InGrid(f, x, y) && spacing != 0.0
  {
    var nx, ny := |f|, Width(f);
    Gradient((f[Next(x, nx)][y] - f[Prev(x)][y]) / (2.0 * spacing),
             (f[x][Next(y, ny)] - f[x][Prev(y)]) / (2.0 * spacing))
  }

  /** `numerical_derivative` on a buffer: reads the four clamped neighbours
      of (x, y) and nothing else. */
  method NumericalDerivative(grid: array2<real>, x: int, y: int, spacing: real) returns (g: Gradient)
    requires 0 <= x < grid.Length0 && 0 <= y < grid.Length1 && spacing != 0.0
    ensures g == Derivative(Cells(grid), x, y, spacing)
  {
    var nx, ny := grid.Length0, grid.Length1;
    var dx := (grid[Next(x, nx), y] - grid[Prev(x), y]) / (2.0 * spacing);
    var dy := (grid[x, Next(y, ny)] - grid[x, Prev(y)]) / (2.0 * spacing);
    g := Gradient(dx, dy);
  }

  /** Along x: the full central difference inside, a one-sided difference
      over half the stencil at either end, and 0 on a grid of one row. */
  lemma DxStencil(f: Field, x: int, y: int, spacing: real)
    requires Rectangular(f) && InGrid(f, x, y) && spacing != 0.0
    ensures 0 < x < |f| - 1 ==>
      Derivative(f, x, y, spacing).dx == (f[x + 1][y] - f[x - 1][y]) / (2.0 * spacing)
    ensures x == 0 < |f| - 1 ==>
      Derivative(f, x, y, spacing).dx == (f[1][y] - f[0][y]) / (2.0 * spacing)
    ensures 0 < x == |f| - 1 ==>
      Derivative(f, x, y, spacing).dx == (f[x][y] - f[x - 1][y]) / (2.0 * spacing)
    ensures |f| == 1 ==> Derivative(f, x, y, spacing).dx == 0.0
  {
  }

  /** Along y: the same clamping as along x. */
  lemma DyStencil(f: Field, x: int, y: int, spacing: real)
    requires Rectangular(f) && InGrid(f, x, y) && spacing != 0.0
    ensures 0 < y < Width(f) - 1 ==>
      Derivative(f, x, y, spacing).dy == (f[x][y + 1] - f[x][y - 1]) / (2.0 * spacing)
    ensures y == 0 < Width(f) - 1 ==>
      Derivative(f, x, y, spacing).dy == (f[x][1] - f[x][0]) / (2.0 * spacing)
    ensures 0 < y == Width(f) - 1 ==>
      Derivative(f, x, y, spacing).dy == (f[x][y] - f[x][y - 1]) / (2.0 * spacing)
    ensures Width(f) == 1 ==> Derivative(f, x, y, spacing).dy == 0.0
  {
  }

  /** A constant grid has zero gradient at every cell, boundary cells included. */
  lemma ConstantFieldHasZeroGradient(f: Field, c: real, x: int, y: int, spacing: real)
    requires Rectangular(f) && InGrid(f, x, y) && spacing != 0.0
    requires forall i, j :: 0 <= i < |f| && 0 <= j < |f[i]| ==> f[i][j] == c
    ensures Derivative(f, x, y, spacing) == Gradient(0.0, 0.0)
  {
  }

  /** On the ramp `f[i][j] == i` with unit spacing the x-derivative is 1 inside
      and 0.5 in the first and last rows; the y-derivative is 0. */
  lemma RampGradient(f: Field, x: int, y: int)
    requires Rectangular(f) && InGrid(f, x, y) && |f| >= 2
    requires forall i, j :: 0 <= i < |f| && 0 <= j < |f[i]| ==> f[i][j] == i as real
    ensures Derivative(f, x, y, 1.0) == Gradient(if 0 < x < |f| - 1 then 1.0 else 0.5, 0.0)
  {
    DxStencil(f, x, y, 1.0);
  }

  /** The grid with its rows in reverse order. */
  function Mirror(f: Field): (m: Field)
    requires Rectangular(f)
    ensures |m| == |f| && Width(m) == Width(f) && Rectangular(m)
    ensures forall x :: 0 <= x < |f| ==> m[x] == f[|f| - 1 - x]
  {
    seq(|f|, x requires 0 <= x < |f| => f[|f| - 1 - x])
  }

  /** Reflecting the grid along x negates the x-derivative at the reflected
      cell and keeps the y-derivative: the clamped stencil is symmetric. */
  lemma MirrorNegatesDx(f: Field, x: int, y: int, spacing: real)
    requires Rectangular(f) && InGrid(f, x, y) && spacing != 0.0
    ensures InGrid(Mirror(f), |f| - 1 - x, y)
    ensures Derivative(Mirror(f), |f| - 1 - x, y, spacing).dx == -Derivative(f, x, y, spacing).dx
    ensures Derivative(Mirror(f), |f| - 1 - x, y, spacing).dy == Derivative(f, x, y, spacing).dy
  {
    var n, m, x' := |f|, Mirror(f), |f| - 1 - x;
    assert Next(x', n) == n - 1 - Prev(x);
    assert Prev(x') == n - 1 - Next(x, n);
  }
}
