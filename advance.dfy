/** Advancing a signed-distance grid by one time step
    (SimFab1/SimFab_Ex_1_Task3.py, `simple_advance` and `engquist_osher`).

    The level-set equation is d(phi)/dt + V |grad phi| = 0. The simple scheme
    drops the gradient factor; the Engquist-Osher scheme estimates |grad phi|
    from the clamped central differences of `Derivatives`, choosing the
    squared terms by the sign of V, and writes every cell into a copy so
    that each cell reads the grid as it was before the step.

    NumPy's `sqrt` is a parameter: the facts used about it are the ones
    `IsSquareRoot` names.
 */
module Advance {
  import opened Fields
  import opened Derivatives

  /** `simple_advance(grid, V, del_t)`: `grid - V * del_t`, elementwise. */
  function SimpleAdvance(f: Field, v: real, dt: real): (g: Field)
    ensures |g| == |f| && forall x :: 0 <= x < |f| ==> |g[x]| == |f[x]|
    ensures forall x, y :: 0 <= x < |f| && 0 <= y < |f[x]| ==> f[x][y] - g[x][y] == v * dt
  {
    seq(|f|, x requires 0 <= x < |f| =>
      seq(|f[x]|, y requires 0 <= y < |f[x]| => f[x][y] - v * dt))
  }

  /** With zero velocity the simple step returns the grid unchanged, for any step. */
  lemma SimpleAdvanceZeroVelocity(f: Field, dt: real)
    ensures SimpleAdvance(f, 0.0, dt) == f
  {
    var g := SimpleAdvance(f, 0.0, dt);
    forall x | 0 <= x < |f| ensures g[x] == f[x] {
      assert |g[x]| == |f[x]|;
    }
  }

  /** Two simple steps of `t1` and `t2` make one step of `t1 + t2`. */
  lemma SimpleAdvanceComposes(f: Field, v: real, t1: real, t2: real)
    ensures SimpleAdvance(SimpleAdvance(f, v, t1), v, t2) == SimpleAdvance(f, v, t1 + t2)
  {
    var g, h := SimpleAdvance(SimpleAdvance(f, v, t1), v, t2), SimpleAdvance(f, v, t1 + t2);
    forall x | 0 <= x < |f| ensures g[x] == h[x] {
      assert |g[x]| == |h[x]|;
      forall y | 0 <= y < |f[x]| ensures g[x][y] == h[x][y] {
        assert v * (t1 + t2) == v * t1 + v * t2;
      }
    }
  }

  /** A 21 x 21 grid of 5.0 advanced with V = 2 for one time unit holds 3.0
      everywhere. */
  lemma SimpleAdvanceConstantGrid(f: Field)
    requires |f| == 21 && Rectangular(f) && Width(f) == 21
    requires forall x, y :: 0 <= x < 21 && 0 <= y < 21 ==> f[x][y] == 5.0
    ensures Rectangular(SimpleAdvance(f, 2.0, 1.0)) && Width(SimpleAdvance(f, 2.0, 1.0)) == 21
    ensures forall x, y :: 0 <= x < 21 && 0 <= y < 21 ==> SimpleAdvance(f, 2.0, 1.0)[x][y] == 3.0
  {
  }

  /** Python's `max(a, b)` and `min(a, b)` on numbers. */
  function Max(a: real, b: real): real {
    if b > a then b else a
  }

  function Min(a: real, b: real): real {
    if b < a then b else a
  }

  function Abs(a: real): real {
    if a < 0.0 then -a else a
  }

  /** `max(a, 0)**2 + min(a, 0)**2`, the term one axis contributes to the
      squared gradient. */
  function UpwindSquare(a: real): real {
    var p, m := Max(a, 0.0), Min(a, 0.0);
    p * p + m * m
  }

  /** `gradSDF_magnitude`: for V < 0 the squared terms are taken of the negated
      derivatives, otherwise of the derivatives themselves. */
  function UpwindMagnitude(d: Gradient, v: real, sqrt: real -> real): real {
    if v < 0.0 then
      var dxNeg, dyNeg := UpwindSquare(-d.dx), UpwindSquare(-d.dy);
      sqrt(dxNeg + dyNeg)
    else
      var dxPos, dyPos := UpwindSquare(d.dx), UpwindSquare(d.dy);
      sqrt(dxPos + dyPos)
  }

  /** Whatever the sign of `a`, one of `max(a, 0)` and `min(a, 0)` is 0 and the
      other is `a`, so the upwind term is `a**2`. */
  lemma UpwindSquareIsSquare(a: real)
    ensures UpwindSquare(a) == a * a
    ensures UpwindSquare(-a) == a * a
  {
    if a < 0.0 {
      assert UpwindSquare(a) == 0.0 * 0.0 + a * a;
      assert UpwindSquare(-a) == (-a) * (-a) + 0.0 * 0.0;
    } else {
      assert UpwindSquare(a) == a * a + 0.0 * 0.0;
      assert UpwindSquare(-a) == 0.0 * 0.0 + (-a) * (-a);
    }
  }

  /** Both branches of `gradSDF_magnitude` take the square root of the squared
      Euclidean norm `dx**2 + dy**2`: the choice by the sign of V does not
      change the magnitude. */
  lemma UpwindMagnitudeIsNorm(d: Gradient, v: real, sqrt: real -> real)
    ensures UpwindMagnitude(d, v, sqrt) == sqrt(d.dx * d.dx + d.dy * d.dy)
  {
    UpwindSquareIsSquare(d.dx);
    UpwindSquareIsSquare(d.dy);
    var norm2 := d.dx * d.dx + d.dy * d.dy;
    if v < 0.0 {
      var s := UpwindSquare(-d.dx) + UpwindSquare(-d.dy);
      assert s == norm2;
      assert UpwindMagnitude(d, v, sqrt) == sqrt(s);
    } else {
      var s := UpwindSquare(d.dx) + UpwindSquare(d.dy);
      assert s == norm2;
      assert UpwindMagnitude(d, v, sqrt) == sqrt(s);
    }
  }

  /** `a**2`, named so that the quantifier of `IsSquareRoot` has a function
      application to trigger on (a bare `a * a` cannot serve as a trigger).
      Everywhere else the products are written out: the solver proves the
      facts about squares more reliably on bare products than through this
      function's definition. */
  function Square(a: real): real {
    a * a
  }

  /** `sqrt` is the non-negative square root: it maps `a**2` to `|a|` for every
      real `a` (which fixes it on every non-negative real) and is positive on
      positive reals. */
  ghost predicate IsSquareRoot(sqrt: real -> real) {
    && (forall a :: sqrt(Square(a)) == Abs(a))
    && (forall a :: 0.0 < a ==> 0.0 < sqrt(a))
  }

  /** A sum of two squares whose first term is non-zero is positive. */
  lemma PositiveSumOfSquares(a: real, b: real)
    requires a != 0.0
    ensures 0.0 < a * a + b * b
  {
    assert 0.0 < a * a;
    assert 0.0 <= b * b;
  }

  /** The square root of `dx**2 + dy**2` is non-negative, zero exactly at the
      zero gradient, and `|dx|` or `|dy|` when the other component vanishes. */
  lemma NormOfGradient(d: Gradient, sqrt: real -> real)
    requires IsSquareRoot(sqrt)
    ensures 0.0 <= sqrt(d.dx * d.dx + d.dy * d.dy)
    ensures sqrt(d.dx * d.dx + d.dy * d.dy) == 0.0 <==> d == Gradient(0.0, 0.0)
    ensures d.dy == 0.0 ==> sqrt(d.dx * d.dx + d.dy * d.dy) == Abs(d.dx)
    ensures d.dx == 0.0 ==> sqrt(d.dx * d.dx + d.dy * d.dy) == Abs(d.dy)
  {
    if d.dy == 0.0 {
      assert d.dx * d.dx + d.dy * d.dy == Square(d.dx);
    } else if d.dx == 0.0 {
      assert d.dx * d.dx + d.dy * d.dy == Square(d.dy);
    }
    if d.dx != 0.0 {
      PositiveSumOfSquares(d.dx, d.dy);
    } else if d.dy != 0.0 {
      PositiveSumOfSquares(d.dy, d.dx);
    }
  }

  /** The upwind magnitude is the Euclidean norm of the gradient, in either
      branch of the sign of V: non-negative and zero exactly at the zero
      gradient. */
  lemma MagnitudeIsNorm(d: Gradient, v: real, sqrt: real -> real)
    requires IsSquareRoot(sqrt)
    ensures 0.0 <= UpwindMagnitude(d, v, sqrt)
    ensures UpwindMagnitude(d, v, sqrt) == 0.0 <==> d == Gradient(0.0, 0.0)
  {
    UpwindMagnitudeIsNorm(d, v, sqrt);
    NormOfGradient(d, sqrt);
  }

  /** Along the x axis the upwind magnitude is `|dx|`. */
  lemma AxisMagnitude(d: Gradient, v: real, sqrt: real -> real)
    requires IsSquareRoot(sqrt) && d.dy == 0.0
    ensures UpwindMagnitude(d, v, sqrt) == Abs(d.dx)
  {
    UpwindMagnitudeIsNorm(d, v, sqrt);
    NormOfGradient(d, sqrt);
  }

  /** The value `engquist_osher` writes into cell (x, y):
      `grid[x, y] - V * gradSDF_magnitude * del_t`, with the derivative taken
      from the grid before the step. */
  function EngquistOsherCell(f: Field, v: real, x: int, y: int, spacing: real, dt: real,
                             sqrt: real -> real): real
    requires Rectangular(f) && InGrid(f, x, y) && spacing != 0.0
  {
    f[x][y] - v * UpwindMagnitude(Derivative(f, x, y, spacing), v, sqrt) * dt
  }

  /** One pass of the inner loop of `engquist_osher`: the derivative at (x, y),
      the upwind magnitude for the cell's velocity, and the amount
      `V * gradSDF_magnitude * del_t` taken off the cell. */
  method CellStep(grid: array2<real>, v: real, x: int, y: int, spacing: real, dt: real,
                  sqrt: real -> real) returns (step: real)
    requires 0 <= x < grid.Length0 && 0 <= y < grid.Length1 && spacing != 0.0
    ensures grid[x, y] - step == EngquistOsherCell(Cells(grid), v, x, y, spacing, dt, sqrt)
  {
    var d := NumericalDerivative(grid, x, y, spacing);
    var magnitude := UpwindMagnitude(d, v, sqrt);
    step := v * magnitude * dt;
  }

  /** `engquist_osher(grid, velocity_field, spacing, del_t)`: a new grid of the
      same shape whose every cell is the Engquist-Osher update of the input
      cell; the input grid is only read. */
  method EngquistOsher(grid: array2<real>, velocity: array2<real>, spacing: real, dt: real,
                       sqrt: real -> real) returns (newGrid: array2<real>)
    requires velocity.Length0 == grid.Length0 && velocity.Length1 == grid.Length1
    requires spacing != 0.0
    ensures fresh(newGrid)
    ensures newGrid.Length0 == grid.Length0 && newGrid.Length1 == grid.Length1
    ensures forall x, y :: 0 <= x < grid.Length0 && 0 <= y < grid.Length1 ==>
      newGrid[x, y] == EngquistOsherCell(Cells(grid), velocity[x, y], x, y, spacing, dt, sqrt)
  {
    var nx, ny := grid.Length0, grid.Length1;
    ghost var f := Cells(grid);
    // np.copy(grid)
    newGrid := new real[nx, ny]((x, y) requires 0 <= x < nx && 0 <= y < ny reads grid => grid[x, y]);
    for x := 0 to nx
      invariant forall i, j {:trigger newGrid[i, j]} :: 0 <= i < x && 0 <= j < ny ==>
        newGrid[i, j] == EngquistOsherCell(f, velocity[i, j], i, j, spacing, dt, sqrt)
      invariant forall i, j {:trigger newGrid[i, j]} :: x <= i < nx && 0 <= j < ny ==>
        newGrid[i, j] == grid[i, j]
    {
      for y := 0 to ny
        invariant forall i, j {:trigger newGrid[i, j]} :: 0 <= i < x && 0 <= j < ny ==>
          newGrid[i, j] == EngquistOsherCell(f, velocity[i, j], i, j, spacing, dt, sqrt)
        invariant forall j {:trigger newGrid[x, j]} :: 0 <= j < y ==>
          newGrid[x, j] == EngquistOsherCell(f, velocity[x, j], x, j, spacing, dt, sqrt)
        invariant forall j {:trigger newGrid[x, j]} :: y <= j < ny ==> newGrid[x, j] == grid[x, j]
        invariant forall i, j {:trigger newGrid[i, j]} :: x < i < nx && 0 <= j < ny ==>
          newGrid[i, j] == grid[i, j]
      {
        var step := CellStep(grid, velocity[x, y], x, y, spacing, dt, sqrt);
        newGrid[x, y] := newGrid[x, y] - step;
      }
    }
  }

  /** A cell whose velocity is 0 keeps its value. */
  lemma ZeroVelocityKeepsCell(f: Field, x: int, y: int, spacing: real, dt: real, sqrt: real -> real)
    requires Rectangular(f) && InGrid(f, x, y) && spacing != 0.0
    ensures EngquistOsherCell(f, 0.0, x, y, spacing, dt, sqrt) == f[x][y]
  {
  }

  /** A cell with zero gradient keeps its value, whatever its velocity. */
  lemma ZeroGradientKeepsCell(f: Field, v: real, x: int, y: int, spacing: real, dt: real,
                              sqrt: real -> real)
    requires Rectangular(f) && InGrid(f, x, y) && spacing != 0.0 && IsSquareRoot(sqrt)
    requires Derivative(f, x, y, spacing) == Gradient(0.0, 0.0)
    ensures EngquistOsherCell(f, v, x, y, spacing, dt, sqrt) == f[x][y]
  {
    MagnitudeIsNorm(Derivative(f, x, y, spacing), v, sqrt);
  }

  /** A constant grid is a fixed point of the Engquist-Osher step. */
  lemma ConstantFieldIsFixed(f: Field, c: real, v: real, x: int, y: int, spacing: real, dt: real,
                             sqrt: real -> real)
    requires Rectangular(f) && InGrid(f, x, y) && spacing != 0.0 && IsSquareRoot(sqrt)
    requires forall i, j :: 0 <= i < |f| && 0 <= j < |f[i]| ==> f[i][j] == c
    ensures EngquistOsherCell(f, v, x, y, spacing, dt, sqrt) == c
  {
    ConstantFieldHasZeroGradient(f, c, x, y, spacing);
    ZeroGradientKeepsCell(f, v, x, y, spacing, dt, sqrt);
  }

  /** With a positive step and a non-zero gradient, the cell falls exactly
      when V > 0 and rises exactly when V < 0. */
  lemma EngquistOsherSign(f: Field, v: real, x: int, y: int, spacing: real, dt: real,
                          sqrt: real -> real)
    requires Rectangular(f) && InGrid(f, x, y) && spacing != 0.0 && IsSquareRoot(sqrt)
    requires 0.0 < dt && Derivative(f, x, y, spacing) != Gradient(0.0, 0.0)
    ensures EngquistOsherCell(f, v, x, y, spacing, dt, sqrt) < f[x][y] <==> 0.0 < v
    ensures EngquistOsherCell(f, v, x, y, spacing, dt, sqrt) > f[x][y] <==> v < 0.0
  {
    var m := UpwindMagnitude(Derivative(f, x, y, spacing), v, sqrt);
    MagnitudeIsNorm(Derivative(f, x, y, spacing), v, sqrt);
    assert 0.0 < m * dt;
    assert EngquistOsherCell(f, v, x, y, spacing, dt, sqrt) == f[x][y] - v * (m * dt);
  }

  /** Where the grid varies along x only, the cell moves by exactly
      `V * |D_x| * del_t`, in either branch. */
  lemma AxisAlignedStep(f: Field, v: real, x: int, y: int, spacing: real, dt: real,
                        sqrt: real -> real)
    requires Rectangular(f) && InGrid(f, x, y) && spacing != 0.0 && IsSquareRoot(sqrt)
    requires Derivative(f, x, y, spacing).dy == 0.0
    ensures EngquistOsherCell(f, v, x, y, spacing, dt, sqrt)
         == f[x][y] - v * Abs(Derivative(f, x, y, spacing).dx) * dt
  {
    AxisMagnitude(Derivative(f, x, y, spacing), v, sqrt);
  }

  /** The ramp `f[i][j] == i` advanced with V = 1, unit spacing and a unit
      step: inner rows fall by 1, the first and last rows by 0.5. */
  lemma RampStep(f: Field, x: int, y: int, sqrt: real -> real)
    requires Rectangular(f) && InGrid(f, x, y) && |f| >= 2 && IsSquareRoot(sqrt)
    requires forall i, j :: 0 <= i < |f| && 0 <= j < |f[i]| ==> f[i][j] == i as real
    ensures EngquistOsherCell(f, 1.0, x, y, 1.0, 1.0, sqrt)
         == f[x][y] - (if 0 < x < |f| - 1 then 1.0 else 0.5)
  {
    RampGradient(f, x, y);
    AxisAlignedStep(f, 1.0, x, y, 1.0, 1.0, sqrt);
  }

  /** A cell where the grid rises along x (D_x > 0, D_y = 0) and V < 0: the
      update adds `|V| * D_x * del_t`, so the cell rises. */
  lemma NegativeVelocityOnRisingSlope(f: Field, v: real, x: int, y: int, spacing: real, dt: real,
                                      sqrt: real -> real)
    requires Rectangular(f) && InGrid(f, x, y) && spacing != 0.0 && IsSquareRoot(sqrt)
    requires v < 0.0 && 0.0 < dt
    requires 0.0 < Derivative(f, x, y, spacing).dx && Derivative(f, x, y, spacing).dy == 0.0
    ensures EngquistOsherCell(f, v, x, y, spacing, dt, sqrt)
         == f[x][y] + Abs(v) * Derivative(f, x, y, spacing).dx * dt
    ensures EngquistOsherCell(f, v, x, y, spacing, dt, sqrt) > f[x][y]
  {
    AxisAlignedStep(f, v, x, y, spacing, dt, sqrt);
    EngquistOsherSign(f, v, x, y, spacing, dt, sqrt);
  }

  /** Where the gradient has unit length, as it does for an exact signed
      distance function, the Engquist-Osher step and the simple step agree. */
  lemma UnitGradientMatchesSimpleAdvance(f: Field, v: real, x: int, y: int, spacing: real,
                                         dt: real, sqrt: real -> real)
    requires Rectangular(f) && InGrid(f, x, y) && spacing != 0.0 && IsSquareRoot(sqrt)
    requires Derivative(f, x, y, spacing).dx * Derivative(f, x, y, spacing).dx
           + Derivative(f, x, y, spacing).dy * Derivative(f, x, y, spacing).dy == 1.0
    ensures EngquistOsherCell(f, v, x, y, spacing, dt, sqrt) == SimpleAdvance(f, v, dt)[x][y]
  {
    var d := Derivative(f, x, y, spacing);
    calc {
      UpwindMagnitude(d, v, sqrt);
    == { UpwindMagnitudeIsNorm(d, v, sqrt); }
      sqrt(d.dx * d.dx + d.dy * d.dy);
    == { assert d.dx * d.dx + d.dy * d.dy == Square(1.0); }
      sqrt(Square(1.0));
    ==
      1.0;
    }
  }
}
