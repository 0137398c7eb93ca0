/** Per-cell velocity fields derived from the geometry of the surface
    (SimFab1/SimFab_Ex_1_Task3.py, `velocity_field` and
    `curvature_as_velocity`).

    Both functions hand the grid to an `SDFGrid` and ask it, cell by cell,
    for the unit normal or the curvature there. That class is not part of
    this model: its two queries are parameters, functions of the cell
    indices. Each function fills a fresh zero buffer of the grid's shape.
 */
module Velocity {
  import opened Fields
  import opened Derivatives
  import opened Advance

  /** A vector of the plane, as the NumPy arrays `V_vector` and `normal(x, y)`. */
  datatype Vector2 = Vector2(x: real, y: real)

  /** `np.dot` on two 2-vectors. */
  function Dot(a: Vector2, b: Vector2): real {
    a.x * b.x + a.y * b.y
  }

  function SquaredLength(a: Vector2): real {
    a.x * a.x + a.y * a.y
  }

  /** `velocity_field(grid, V_vector)`: a new buffer of the grid's shape whose
      cell (x, y) is the projection of `V_vector` on the normal at (x, y). */
  method VelocityField(grid: array2<real>, direction: Vector2, normal: (int, int) -> Vector2)
    returns (velocity: array2<real>)
    ensures fresh(velocity)
    ensures velocity.Length0 == grid.Length0 && velocity.Length1 == grid.Length1
    ensures forall x, y :: 0 <= x < grid.Length0 && 0 <= y < grid.Length1 ==>
      velocity[x, y] == Dot(direction, normal(x, y))
  {
    var nx, ny := grid.Length0, grid.Length1;
    // np.zeros_like(grid)
    velocity := new real[nx, ny]((x, y) => 0.0);
    for x := 0 to nx
      invariant forall i, j :: 0 <= i < x && 0 <= j < ny ==>
        velocity[i, j] == Dot(direction, normal(i, j))
    {
      for y := 0 to ny
        invariant forall i, j :: 0 <= i < x && 0 <= j < ny ==>
          velocity[i, j] == Dot(direction, normal(i, j))
        invariant forall j :: 0 <= j < y ==> velocity[x, j] == Dot(direction, normal(x, j))
      {
        var n := normal(x, y);
        velocity[x, y] := Dot(direction, n);
      }
    }
  }

  /** `curvature_as_velocity(grid)`: a new buffer of the grid's shape whose
      cell (x, y) is the negated curvature at (x, y). */
  method CurvatureAsVelocity(grid: array2<real>, curvature: (int, int) -> real)
    returns (velocity: array2<real>)
    ensures fresh(velocity)
    ensures velocity.Length0 == grid.Length0 && velocity.Length1 == grid.Length1
    ensures forall x, y :: 0 <= x < grid.Length0 && 0 <= y < grid.Length1 ==>
      velocity[x, y] == -curvature(x, y)
  {
    var nx, ny := grid.Length0, grid.Length1;
    // np.zeros_like(grid)
    velocity := new real[nx, ny]((x, y) => 0.0);
    for x := 0 to nx
      invariant forall i, j :: 0 <= i < x && 0 <= j < ny ==> velocity[i, j] == -curvature(i, j)
    {
      for y := 0 to ny
        invariant forall i, j :: 0 <= i < x && 0 <= j < ny ==> velocity[i, j] == -curvature(i, j)
        invariant forall j :: 0 <= j < y ==> velocity[x, j] == -curvature(x, j)
      {
        var k := curvature(x, y);
        velocity[x, y] := -k;
      }
    }
  }

  /** Lagrange's identity in the plane: the squared projection plus the
      squared cross product is the product of the squared lengths. */
  lemma Lagrange(a: Vector2, n: Vector2)
    ensures Dot(a, n) * Dot(a, n) + (a.x * n.y - a.y * n.x) * (a.x * n.y - a.y * n.x)
         == SquaredLength(a) * SquaredLength(n)
  {
  }

  /** Cauchy-Schwarz: the projected speed is at most the product of the
      lengths. */
  lemma ProjectionBound(a: Vector2, n: Vector2)
    ensures Dot(a, n) * Dot(a, n) <= SquaredLength(a) * SquaredLength(n)
  {
    Lagrange(a, n);
    var cross := a.x * n.y - a.y * n.x;
    assert 0.0 <= cross * cross;
  }

  /** With a unit normal, no cell of `velocity_field` is faster than the
      driving vector is long. */
  lemma UnitNormalProjectionBound(a: Vector2, n: Vector2)
    requires SquaredLength(n) == 1.0
    ensures Dot(a, n) * Dot(a, n) <= SquaredLength(a)
  {
    ProjectionBound(a, n);
  }

  /** Curvature as velocity: with a positive step and a non-zero gradient, a
      cell of positive curvature rises (its part of the front retreats) and a
      cell of negative curvature falls. */
  lemma CurvatureFlowSign(f: Field, k: real, x: int, y: int, spacing: real, dt: real,
                          sqrt: real -> real)
    requires Rectangular(f) && InGrid(f, x, y) && spacing != 0.0 && IsSquareRoot(sqrt)
    requires 0.0 < dt && Derivative(f, x, y, spacing) != Gradient(0.0, 0.0)
    ensures EngquistOsherCell(f, -k, x, y, spacing, dt, sqrt) > f[x][y] <==> 0.0 < k
    ensures EngquistOsherCell(f, -k, x, y, spacing, dt, sqrt) < f[x][y] <==> k < 0.0
  {
    EngquistOsherSign(f, -k, x, y, spacing, dt, sqrt);
  }

  /** A step of `main` (SimFab1/SimFab_Ex_1_Task3.py, lines 123-125):
      `engquist_osher` driven by the field `velocity_field` builds. Every cell
      is advanced with the projection of `V_vector` on its normal, and a cell
      whose normal is perpendicular to `V_vector` keeps its value. */
  method VectorVelocityStep(grid: array2<real>, direction: Vector2, normal: (int, int) -> Vector2,
                            spacing: real, dt: real, sqrt: real -> real)
    returns (newGrid: array2<real>)
    requires spacing != 0.0
    ensures fresh(newGrid)
    ensures newGrid.Length0 == grid.Length0 && newGrid.Length1 == grid.Length1
    ensures forall x, y :: 0 <= x < grid.Length0 && 0 <= y < grid.Length1 ==>
      newGrid[x, y] == EngquistOsherCell(Cells(grid), Dot(direction, normal(x, y)), x, y, spacing, dt, sqrt)
    ensures forall x, y :: (0 <= x < grid.Length0 && 0 <= y < grid.Length1 &&
      Dot(direction, normal(x, y)) == 0.0) ==> newGrid[x, y] == grid[x, y]
  {
    var velocity := VelocityField(grid, direction, normal);
    newGrid := EngquistOsher(grid, velocity, spacing, dt, sqrt);
    forall x, y | 0 <= x < grid.Length0 && 0 <= y < grid.Length1 && Dot(direction, normal(x, y)) == 0.0
      ensures newGrid[x, y] == grid[x, y]
    {
      ZeroVelocityKeepsCell(Cells(grid), x, y, spacing, dt, sqrt);
    }
  }

  /** A step of `main` (SimFab1/SimFab_Ex_1_Task3.py, lines 130-131):
      `engquist_osher` driven by `curvature_as_velocity`. Every cell is
      advanced with its negated curvature; a flat cell (curvature 0) keeps its
      value, and with a positive step a cell of non-zero gradient rises
      exactly when its curvature is positive. */
  method CurvatureVelocityStep(grid: array2<real>, curvature: (int, int) -> real,
                               spacing: real, dt: real, sqrt: real -> real)
    returns (newGrid: array2<real>)
    requires spacing != 0.0
    ensures fresh(newGrid)
    ensures newGrid.Length0 == grid.Length0 && newGrid.Length1 == grid.Length1
    ensures forall x, y :: 0 <= x < grid.Length0 && 0 <= y < grid.Length1 ==>
      newGrid[x, y] == EngquistOsherCell(Cells(grid), -curvature(x, y), x, y, spacing, dt, sqrt)
    ensures forall x, y :: (0 <= x < grid.Length0 && 0 <= y < grid.Length1 &&
      curvature(x, y) == 0.0) ==> newGrid[x, y] == grid[x, y]
    ensures IsSquareRoot(sqrt) && 0.0 < dt ==>
      forall x, y :: (0 <= x < grid.Length0 && 0 <= y < grid.Length1 &&
        Derivative(Cells(grid), x, y, spacing) != Gradient(0.0, 0.0)) ==>
        (newGrid[x, y] > grid[x, y] <==> 0.0 < curvature(x, y))
  {
    var velocity := CurvatureAsVelocity(grid, curvature);
    newGrid := EngquistOsher(grid, velocity, spacing, dt, sqrt);
    CurvatureStepKeepsFlatCells(grid, newGrid, curvature, spacing, dt, sqrt);
    if IsSquareRoot(sqrt) && 0.0 < dt {
      CurvatureStepSign(grid, newGrid, curvature, spacing, dt, sqrt);
    }
  }

  /** Flat cells of a grid advanced with the negated curvature keep their value. */
  lemma CurvatureStepKeepsFlatCells(grid: array2<real>, newGrid: array2<real>,
                                    curvature: (int, int) -> real, spacing: real, dt: real,
                                    sqrt: real -> real)
    requires spacing != 0.0
    requires newGrid.Length0 == grid.Length0 && newGrid.Length1 == grid.Length1
    requires forall x, y :: 0 <= x < grid.Length0 && 0 <= y < grid.Length1 ==>
      newGrid[x, y] == EngquistOsherCell(Cells(grid), -curvature(x, y), x, y, spacing, dt, sqrt)
    ensures forall x, y :: (0 <= x < grid.Length0 && 0 <= y < grid.Length1 &&
      curvature(x, y) == 0.0) ==> newGrid[x, y] == grid[x, y]
  {
    forall x, y | 0 <= x < grid.Length0 && 0 <= y < grid.Length1 && curvature(x, y) == 0.0
      ensures newGrid[x, y] == grid[x, y]
    {
      ZeroVelocityKeepsCell(Cells(grid), x, y, spacing, dt, sqrt);
    }
  }

  /** In a grid advanced with the negated curvature by a positive step, a cell
      of non-zero gradient rises exactly when its curvature is positive. */
  lemma CurvatureStepSign(grid: array2<real>, newGrid: array2<real>,
                          curvature: (int, int) -> real, spacing: real, dt: real,
                          sqrt: real -> real)
    requires spacing != 0.0 && IsSquareRoot(sqrt) && 0.0 < dt
    requires newGrid.Length0 == grid.Length0 && newGrid.Length1 == grid.Length1
    requires forall x, y :: 0 <= x < grid.Length0 && 0 <= y < grid.Length1 ==>
      newGrid[x, y] == EngquistOsherCell(Cells(grid), -curvature(x, y), x, y, spacing, dt, sqrt)
    ensures forall x, y :: (0 <= x < grid.Length0 && 0 <= y < grid.Length1 &&
      Derivative(Cells(grid), x, y, spacing) != Gradient(0.0, 0.0)) ==>
      (newGrid[x, y] > grid[x, y] <==> 0.0 < curvature(x, y))
  {
    var f := Cells(grid);
    forall x, y | 0 <= x < grid.Length0 && 0 <= y < grid.Length1 &&
      Derivative(f, x, y, spacing) != Gradient(0.0, 0.0)
      ensures newGrid[x, y] > grid[x, y] <==> 0.0 < curvature(x, y)
    {
      CurvatureFlowSign(f, curvature(x, y), x, y, spacing, dt, sqrt);
    }
  }
}
