# Level-set front propagation on a 2-D grid

A Dafny model of the level-set core of SimFab (`SimFab1/SimFab_Ex_1_Task3.py`).
A signed-distance grid φ describes a surface implicitly: the surface is the
zero level. The core advances that surface in time under a normal speed V,
following the level-set equation ∂φ/∂t + V |∇φ| = 0. It offers two schemes:

- `simple_advance` subtracts `V * del_t` from every cell and ignores the gradient;
- `engquist_osher` estimates `|∇φ|` per cell from clamped central differences
  (`numerical_derivative`) and subtracts `V * |∇φ| * del_t`. It writes into a
  copy, so every cell reads the grid as it was before the step.

The speed field comes from the surface's geometry. `velocity_field` projects a
constant direction onto the local unit normal, and `curvature_as_velocity`
uses the negated local curvature.

Files and modules:

- `fields.dfy`, module `Fields`: grids as values (`Field = seq<seq<real>>`),
  and `Cells`, the value held by an `array2<real>` buffer.
- `derivative.dfy`, module `Derivatives`: the clamped neighbour indices, the
  central-difference gradient as a function on values (`Derivative`), and
  `numerical_derivative` as a method on a buffer, proved equal to it.
- `advance.dfy`, module `Advance`: `simple_advance` as a function on values,
  and the per-cell Engquist–Osher value `EngquistOsherCell`. `engquist_osher`
  is a method with the source's copy and its nested loops, proved to give
  every cell that value.
- `velocity.dfy`, module `Velocity`: `velocity_field` and
  `curvature_as_velocity` as methods that fill a zero buffer in nested loops,
  plus the properties of the fields they build.

Three things the core calls are parameters of the model:

- NumPy's `sqrt` is a parameter `sqrt: real -> real`. Lemmas that need its
  meaning require `IsSquareRoot(sqrt)`: `sqrt(a*a) == |a|` for every real
  `a`, and `sqrt` is positive on positive reals. The grid methods need
  nothing of it.
- `SDFGrid.normal(x, y)` and `SDFGrid.curvature(x, y)` are parameters too,
  functions of the cell indices. `SimFab_Ex_1_Task2.py`, which defines
  `SDFGrid`, is not part of this model.

Two observations about the code, both proved:

- The sign test in `engquist_osher` (lines 18-25) does not change the result.
  `max(a, 0)**2 + min(a, 0)**2` is `a**2` for either sign of `a`, and both
  branches square the same central differences. So both give
  `sqrt(D_x**2 + D_y**2)` (`Advance.UpwindMagnitudeIsNorm`). The scheme is
  not upwind in its differences: only the sign of V decides the direction of
  the update.
- With V < 0 on a slope that rises along x (D_x > 0, D_y = 0), the update
  `new_grid[x, y] -= V * gradSDF_magnitude * del_t` (line 26) raises the cell
  by `|V| * D_x * del_t`; it does not lower it. The model follows the code
  (`Advance.NegativeVelocityOnRisingSlope`).

## Model

| member | source | states |
|---|---|---|
| Derivatives.Next | SimFab1/SimFab_Ex_1_Task3.py:32-33 | `min(i + 1, n - 1)` stays in `[0, n)`: it is `i + 1` inside and `i` at the last index |
| Derivatives.Prev | SimFab1/SimFab_Ex_1_Task3.py:32-33 | `max(i - 1, 0)` stays in `[0, i]`: it is `i - 1` for `i > 0` and 0 at index 0 |
| Derivatives.Derivative | SimFab1/SimFab_Ex_1_Task3.py:30-34 | defines `numerical_derivative` on grid values: `D_x = (grid[min(x+1, n_x-1), y] - grid[max(x-1, 0), y]) / (2 * spacing)` and `D_y` the same along the second axis |
| Derivatives.NumericalDerivative | SimFab1/SimFab_Ex_1_Task3.py:30-34 | reading the four clamped neighbours of the buffer gives the gradient `Derivative` of the grid the buffer holds |
| Derivatives.DxStencil | SimFab1/SimFab_Ex_1_Task3.py:32 | D_x is the full central difference inside, `(grid[1] - grid[0]) / 2h` at x = 0, `(grid[x] - grid[x-1]) / 2h` at the last row, and 0 on a one-row grid |
| Derivatives.DyStencil | SimFab1/SimFab_Ex_1_Task3.py:33 | the same four cases for D_y along the second axis |
| Derivatives.ConstantFieldHasZeroGradient | SimFab1/SimFab_Ex_1_Task3.py:30-34 | on a constant grid both partial derivatives are 0 at every cell, boundary cells included |
| Derivatives.RampGradient | SimFab1/SimFab_Ex_1_Task3.py:32-33 | on `grid[x, y] = x` with spacing 1, D_x is 1 inside and 0.5 in the first and last rows, and D_y is 0 |
| Derivatives.MirrorNegatesDx | SimFab1/SimFab_Ex_1_Task3.py:32-33 | reversing the rows negates D_x at the mirrored cell and keeps D_y: the clamped stencil is symmetric |
| Advance.SimpleAdvance | SimFab1/SimFab_Ex_1_Task3.py:7-8 | the result has the grid's shape and every cell is lower by exactly `V * del_t` |
| Advance.SimpleAdvanceZeroVelocity | SimFab1/SimFab_Ex_1_Task3.py:7-8 | with V = 0 the grid comes back unchanged, for any step |
| Advance.SimpleAdvanceComposes | SimFab1/SimFab_Ex_1_Task3.py:7-8 | a step of t1 followed by a step of t2 equals one step of t1 + t2 |
| Advance.SimpleAdvanceConstantGrid | SimFab1/SimFab_Ex_1_Task3.py:7-8 | a 21 x 21 grid of 5.0 advanced with V = 2 for one time unit holds 3.0 in every cell |
| Advance.UpwindSquare | SimFab1/SimFab_Ex_1_Task3.py:19-24 | defines one squared term of `gradSDF_magnitude`: `max(a, 0)**2 + min(a, 0)**2` |
| Advance.UpwindMagnitude | SimFab1/SimFab_Ex_1_Task3.py:18-25 | defines `gradSDF_magnitude`: `sqrt` of the upwind squares of the negated derivatives when V < 0, of the derivatives themselves otherwise |
| Advance.UpwindSquareIsSquare | SimFab1/SimFab_Ex_1_Task3.py:19-24 | `max(a, 0)**2 + min(a, 0)**2` and `max(-a, 0)**2 + min(-a, 0)**2` both equal `a**2` |
| Advance.UpwindMagnitudeIsNorm | SimFab1/SimFab_Ex_1_Task3.py:18-25 | both branches of `gradSDF_magnitude` give `sqrt(D_x**2 + D_y**2)`, whatever the sign of V |
| Advance.MagnitudeIsNorm | SimFab1/SimFab_Ex_1_Task3.py:18-25 | `gradSDF_magnitude` is non-negative, and it is 0 exactly when both derivatives are 0 |
| Advance.AxisMagnitude | SimFab1/SimFab_Ex_1_Task3.py:18-25 | with D_y = 0, `gradSDF_magnitude` is `abs(D_x)` |
| Advance.EngquistOsherCell | SimFab1/SimFab_Ex_1_Task3.py:16-26 | defines the value line 26 leaves in cell (x, y): `grid[x, y] - V * gradSDF_magnitude * del_t`, with the derivative taken from the grid before the step |
| Advance.CellStep | SimFab1/SimFab_Ex_1_Task3.py:16-26 | the amount taken off cell (x, y) leaves the Engquist–Osher value of that cell, computed from the unmodified grid |
| Advance.EngquistOsher | SimFab1/SimFab_Ex_1_Task3.py:11-27 | returns a fresh grid of the input's shape in which every cell is `grid[x, y] - V[x, y] * gradSDF_magnitude * del_t`, with the derivative taken from the input grid; the input grid is not modified |
| Advance.ZeroVelocityKeepsCell | SimFab1/SimFab_Ex_1_Task3.py:26 | a cell with V = 0 keeps its value |
| Advance.ZeroGradientKeepsCell | SimFab1/SimFab_Ex_1_Task3.py:16-26 | a cell with zero gradient keeps its value, whatever V is |
| Advance.ConstantFieldIsFixed | SimFab1/SimFab_Ex_1_Task3.py:16-26 | every cell of a constant grid keeps its value, boundary cells included |
| Advance.EngquistOsherSign | SimFab1/SimFab_Ex_1_Task3.py:26 | with `del_t > 0` and a non-zero gradient, the cell falls if and only if V > 0, and rises if and only if V < 0 |
| Advance.AxisAlignedStep | SimFab1/SimFab_Ex_1_Task3.py:18-26 | where D_y = 0 the cell moves by exactly `V * abs(D_x) * del_t`, in either branch |
| Advance.RampStep | SimFab1/SimFab_Ex_1_Task3.py:16-26 | the ramp `grid[x, y] = x` advanced with V = 1, unit spacing and a unit step falls by 1 inside and by 0.5 in the first and last rows |
| Advance.NegativeVelocityOnRisingSlope | SimFab1/SimFab_Ex_1_Task3.py:18-26 | with V < 0, D_x > 0 and D_y = 0 the cell rises by exactly `abs(V) * D_x * del_t` |
| Advance.UnitGradientMatchesSimpleAdvance | SimFab1/SimFab_Ex_1_Task3.py:7-26 | where the gradient has unit length, as for an exact signed distance, the Engquist–Osher cell equals the `simple_advance` cell |
| Velocity.VelocityField | SimFab1/SimFab_Ex_1_Task3.py:37-47 | returns a fresh buffer of the grid's shape whose every cell is `dot(V_vector, normal(x, y))` |
| Velocity.CurvatureAsVelocity | SimFab1/SimFab_Ex_1_Task3.py:50-59 | returns a fresh buffer of the grid's shape whose every cell is `-curvature(x, y)` |
| Velocity.ProjectionBound | SimFab1/SimFab_Ex_1_Task3.py:45 | the square of `dot(V_vector, n)` is at most the product of the squared lengths (Cauchy–Schwarz) |
| Velocity.UnitNormalProjectionBound | SimFab1/SimFab_Ex_1_Task3.py:44-46 | with a unit normal, the squared cell velocity is at most the squared length of `V_vector` |
| Velocity.CurvatureFlowSign | SimFab1/SimFab_Ex_1_Task3.py:57-58 | with `del_t > 0` and a non-zero gradient, a cell of positive curvature rises and one of negative curvature falls, each if and only if |
| Velocity.VectorVelocityStep | SimFab1/SimFab_Ex_1_Task3.py:123-125 | `engquist_osher` driven by `velocity_field` returns a fresh grid of the input's shape; every cell is advanced with `dot(V_vector, normal(x, y))`, and a cell whose normal is perpendicular to `V_vector` keeps its value |
| Velocity.CurvatureVelocityStep | SimFab1/SimFab_Ex_1_Task3.py:130-131 | `engquist_osher` driven by `curvature_as_velocity` returns a fresh grid of the input's shape; every cell is advanced with `-curvature(x, y)`, flat cells keep their value, and with `del_t > 0` a cell of non-zero gradient rises exactly when its curvature is positive |
| Velocity.CurvatureStepKeepsFlatCells | SimFab1/SimFab_Ex_1_Task3.py:130-131 | in a grid advanced with the negated curvature, every cell of zero curvature keeps its value |
| Velocity.CurvatureStepSign | SimFab1/SimFab_Ex_1_Task3.py:130-131 | in a grid advanced with the negated curvature by `del_t > 0`, a cell of non-zero gradient rises if and only if its curvature is positive |

## Left out

- `compare_advancements`, `plot_grid` and `main` (lines 62-137): CSV files, matplotlib, `sys.argv` and file names are I/O. Of `main`, only the two velocity-driven steps (lines 123-125 and 130-131) are modelled, as `Velocity.VectorVelocityStep` and `Velocity.CurvatureVelocityStep`. On its Engquist–Osher path, `compare_advancements` builds a uniform speed buffer with `np.full_like(grid, V)` (line 70). That is `Advance.EngquistOsher` with a constant velocity buffer.
- `SDFGrid` (imported at line 4) is not part of this model. Its `normal` and `curvature` are parameters of `Velocity.VelocityField` and `Velocity.CurvatureAsVelocity`. Both source functions build that object with spacing 1.0, whatever spacing the caller later passes to `engquist_osher` (lines 40 and 53). The model's parameters stand for whatever that object returns.
- Floating point: values are real numbers. There is no rounding, overflow, NaN or infinity, and no claim of bit-level agreement with NumPy.
- NumPy's `sqrt` is a parameter. Its meaning enters only through `IsSquareRoot`.
- Derivatives.NumericalDerivative: requires `spacing != 0`. The source divides by `2 * spacing`, and with 0 NumPy would give infinities or NaN.
- Advance.EngquistOsher: requires `spacing != 0`, as above. It also requires a velocity buffer of exactly the grid's shape. NumPy would also accept a larger one, reading only its leading cells.
- Advance.SimpleAdvance: V is a scalar. `simple_advance` would also broadcast an array V, but its only caller passes a number.
- Velocity.VelocityField: vectors are 2-D, as `V_vector = np.array([1, 0])` at line 120. `np.dot` on other lengths is not modelled.
- The ViennaLS scripts (`SimFab2/Task2.2.py`, `SimFab2/Task1/Task1.2.py`, `SimFab2/Task1/Task1.3.py`, `Task1.1.py`) are calls into a foreign library.
- `SimFab3/Task1.1.py` is random sampling and plotting.
