# Grid-search parameter optimizer

This project models `GridSearchOptimizer` of the map-analyzer package in
Dafny and proves what its two searches return. The optimizer discretises the
parameter bounds into a grid, with one evenly spaced axis per parameter (as
`np.arange` builds it), laid out as the cartesian product that
`np.meshgrid(...).T.reshape(-1, n)` lists. It then offers two searches:

* **Focus loss.** A scalar loss is scanned over every grid point. The search
  keeps a running best and replaces it only on a strict improvement. The
  running best starts at `+inf` with a zero vector.
* **All loss.** A vector loss is evaluated once per grid point into an
  insertion-ordered dict. Then Python's `min` picks, for every objective
  index `k < all_loss_size`, the first point whose component `k` is smallest.

The modules follow this structure:

* `OptimizationFramework` holds the shared types: bounds, loss values with
  float comparison, and the two result records. The framework module that
  defines these types is not part of this model, so they are given minimal
  definitions here.
* `ParameterGrid` holds `_create_parameter_grid`.
* `FirstMin` holds "first minimum" selection, shared by the strict-`<` scan
  and by `min`.
* `OrderedDict` is the dict the all-loss search fills.
* `GridSearch` holds the optimizer class: a constructor, an imperative method
  per search proved against a specification predicate, and lemmas about those
  predicates.

Parameters and steps are exact reals. Loss values are
`NegInfinity | Finite(r) | PosInfinity`. The loss functions are function
values passed in by the caller.

In three places the intended behaviour and what the code does differ; the
model follows the code:

* **Grid order with three or more parameters.** The intended order is
  row-major, first parameter slowest. The code gives that order for one
  and two parameters. The code's `meshgrid` (default `'xy'` indexing) followed by
  `.T` puts the last parameter slowest. Within each of its values comes the
  grid of the remaining parameters, in the same order recursively. With
  three parameters the order is therefore third, then first, then second
  fastest. `Mesh` builds exactly this order, and `MeshThreeOrder` and
  `LastDimensionSlowest` state it.
* **Empty grid in the focus search.** The intended behaviour is a distinct
  failure. The code returns the zero vector with loss `+inf`, and so does the model.
  The same result appears when every loss on the grid is `+inf`.
* **Non-positive `all_loss_size`.** The intended behaviour is a failure. The
  code iterates over an empty range and returns `[]`, and so does the model.

## Model

| member | source | states |
|---|---|---|
| OptimizationFramework.BelowIsStrictTotalOrder | src/map_analyzer/optimizers/grid_search.py:40 | the float `<` on non-NaN losses is irreflexive, transitive and total, so "first minimum" is well defined |
| FirstMin.FirstMinIndex | src/map_analyzer/optimizers/grid_search.py:61-65 | `min` over a non-empty sequence picks a position whose key is at most every key and strictly below every earlier key |
| FirstMin.FirstMinUnique | src/map_analyzer/optimizers/grid_search.py:40-42 | a sequence has exactly one first minimum, so strict-`<` replacement fixes the tie-break completely |
| ParameterGrid.Ceiling | src/map_analyzer/optimizers/grid_search.py:83 | the length rule of `np.arange`, `ceil`: the least integer not below its argument |
| ParameterGrid.Arange | src/map_analyzer/optimizers/grid_search.py:83 | value `i` is `start + i*step` and lies below `stop`, and the next value would reach `stop`: the range stops at the first value that is not below `stop` |
| ParameterGrid.Axis | src/map_analyzer/optimizers/grid_search.py:83 | the axis of one parameter: value `i` is `low + i*interval` and stays below `high + interval`, and one more step would reach `high + interval` |
| ParameterGrid.Axes | src/map_analyzer/optimizers/grid_search.py:82-84 | one axis per `(low, high)` pair, in the order of the bounds |
| ParameterGrid.AxisIncludesHigh | src/map_analyzer/optimizers/grid_search.py:83 | when `high - low` is `k` whole steps, the axis has `k + 1` values and its last value is exactly `high` |
| ParameterGrid.AxisLastValue | src/map_analyzer/optimizers/grid_search.py:83 | the last value of a non-empty axis is at least `high` and overshoots it by less than one step |
| ParameterGrid.AxisEmptyIff | src/map_analyzer/optimizers/grid_search.py:83 | an axis is empty exactly when `high + interval <= low` |
| ParameterGrid.AxisIncreasing | src/map_analyzer/optimizers/grid_search.py:83 | axis values strictly increase, so no axis repeats a value |
| ParameterGrid.PrependEach | src/map_analyzer/optimizers/grid_search.py:87-89 | pairing every value with every row gives `|xs| * |ps|` rows |
| ParameterGrid.AppendEach | src/map_analyzer/optimizers/grid_search.py:87-89 | appending every value to every row gives `|zs| * |ps|` rows |
| ParameterGrid.Mesh | src/map_analyzer/optimizers/grid_search.py:87-89 | the mesh has as many rows as the product of the axis lengths |
| ParameterGrid.CreateParameterGrid | src/map_analyzer/optimizers/grid_search.py:78-91 | the grid has exactly the product of the axis lengths as its number of rows |
| ParameterGrid.MeshMembers | src/map_analyzer/optimizers/grid_search.py:87-89 | a vector is a row of the mesh exactly when it has one entry per axis, each drawn from its axis |
| ParameterGrid.MeshDistinct | src/map_analyzer/optimizers/grid_search.py:87-89 | axes without repeats give a mesh without repeated rows |
| ParameterGrid.GridMembers | src/map_analyzer/optimizers/grid_search.py:82-89 | a vector is a grid row exactly when it has one entry per parameter and entry `d` is a value of axis `d`: every combination appears |
| ParameterGrid.GridDistinct | src/map_analyzer/optimizers/grid_search.py:82-89 | no combination appears twice |
| ParameterGrid.OneDimensionOrder | src/map_analyzer/optimizers/grid_search.py:87-89 | with one parameter, row `i` is `[axis[i]]` and the grid is as long as the axis |
| ParameterGrid.MeshSizeTwo | src/map_analyzer/optimizers/grid_search.py:87-89 | a two-axis mesh has `|a0| * |a1|` rows |
| ParameterGrid.TwoDimensionOrder | src/map_analyzer/optimizers/grid_search.py:87-89 | with two parameters, row `i*|a1| + j` is `[a0[i], a1[j]]`: first parameter slowest |
| ParameterGrid.MeshThreeOrder | src/map_analyzer/optimizers/grid_search.py:87-89 | with three axes, row `k*|a0|*|a1| + i*|a1| + j` is `[a0[i], a1[j], a2[k]]`: third slowest, then first, second fastest |
| ParameterGrid.LastDimensionSlowest | src/map_analyzer/optimizers/grid_search.py:87-89 | with three or more parameters, row `k*|rest| + r` is row `r` of the grid of all but the last parameter followed by the last axis's value `k` |
| ParameterGrid.ExampleOneDimension | src/map_analyzer/optimizers/grid_search.py:82-91 | bounds `[(0, 1)]` at step 0.5 give the rows `[0], [0.5], [1]` |
| ParameterGrid.ExampleTwoDimensions | src/map_analyzer/optimizers/grid_search.py:82-91 | bounds `[(0, 1), (0, 1)]` at step 1 give the four corners, first coordinate slowest |
| OrderedDict.Empty | src/map_analyzer/optimizers/grid_search.py:55 | a new dict is well formed and has no items |
| OrderedDict.Dict.Items | src/map_analyzer/optimizers/grid_search.py:63 | `items()` lists one pair per key, in insertion order, each key with its current value |
| OrderedDict.Dict.Insert | src/map_analyzer/optimizers/grid_search.py:59 | assigning a new key appends its pair to the items; assigning an existing key keeps the order and replaces only that key's value; the dict stays well formed |
| OrderedDict.Dict.ItemsHoldKeys | src/map_analyzer/optimizers/grid_search.py:59 | a key has a value exactly when it occurs among the items |
| GridSearch.Zeros | src/map_analyzer/optimizers/grid_search.py:32 | the initial best parameters: `n` entries, all `0.0` |
| GridSearch.NextPointIsNew | src/map_analyzer/optimizers/grid_search.py:55-59 | while the dict holds the first `index` grid points, the next grid point is not yet a key, so every assignment adds an item |
| GridSearch.GetMinFocusLoss | src/map_analyzer/optimizers/grid_search.py:61-65 | `min` fails exactly on no items (ValueError) or on a loss vector without component `k` (IndexError); otherwise it returns the item at the first position whose component `k` is minimal |
| GridSearch.SelectPerObjective | src/map_analyzer/optimizers/grid_search.py:67-76 | the comprehension succeeds exactly when `all_loss_size <= 0` or there are items and every vector has at least `all_loss_size` components; on success entry `k` has focus index `k`, the first minimiser of component `k` and that point's own loss vector; a failure on no items is the ValueError |
| GridSearch.FocusResultUnique | src/map_analyzer/optimizers/grid_search.py:21-46 | the focus promise admits only one result, so the `seed` argument cannot change it and ties always resolve the same way |
| GridSearch.AllResultUnique | src/map_analyzer/optimizers/grid_search.py:48-76 | the all-loss promise admits only one result (or one error), whatever the seed |
| GridSearch.FocusAgreesWithSingleObjective | src/map_analyzer/optimizers/grid_search.py:36-65 | whenever the focus loss is not `+inf`, the strict-`<` scan and `min` agree: with a one-component vector loss equal to the scalar loss, objective 0 of the all-loss search is the focus search's point and loss. On a grid whose losses are all `+inf` they differ: the focus search keeps the zero vector while `min` returns the first point |
| GridSearch.ExampleFocusLoss | src/map_analyzer/optimizers/grid_search.py:21-46 | on bounds `[(0, 1)]` at step 0.1 under the loss `|x - 0.3|` the search returns `[0.3]` with loss 0 |
| GridSearch.MinimumAtPointThree | src/map_analyzer/optimizers/grid_search.py:36-46 | on any one-parameter grid holding the point `[0.3]`, wherever it sits, the focus search under `|x - 0.3|` returns `[0.3]` with loss 0 |
| GridSearch.ExampleGridHoldsPointThree | src/map_analyzer/optimizers/grid_search.py:82-91 | the grid for `[(0, 1)]` at step 0.1 has 11 rows and row 3 is `[0.3]` |
| GridSearch.GridSearchOptimizer.constructor | src/map_analyzer/optimizers/grid_search.py:18-19 | the optimizer stores the given interval |
| GridSearch.GridSearchOptimizer.FindBestParametersForFocusLoss | src/map_analyzer/optimizers/grid_search.py:21-46 | the returned loss is at most the loss at every grid point; a loss other than `+inf` belongs to the first grid point reaching the minimum, and those are the returned parameters; a `+inf` loss comes with the zero vector of length `len(parameter_bounds)`, including on an empty grid |
| GridSearch.GridSearchOptimizer.FindBestParametersForAllLoss | src/map_analyzer/optimizers/grid_search.py:48-76 | after filling the dict with one loss vector per grid point, the result satisfies the all-loss promise of `SelectPerObjective` |

## Left out

- Floating point: axes are built with exact reals. The rounding by which
  `np.arange` can gain or lose the endpoint is not modelled.
  `ParameterGrid.Arange` therefore states the exact-arithmetic length.
- NaN losses are not modelled. On NaN, Python's `<` and `min` depend on
  position.
- `seed`: it is accepted as an optional integer and ignored, as in the code.
  The numpy `Generator` alternative is not modelled.
- The debug `print` calls in both loops are left out because they are output only.
- GridSearch.GridSearchOptimizer.FindBestParametersForFocusLoss requires
  `parameterInterval > 0` and at least one parameter. With a zero interval
  `np.arange` raises; with a negative one the ranges run differently. With
  no parameters numpy's `reshape(-1, 0)` of an empty product fails.
- GridSearch.GridSearchOptimizer.FindBestParametersForAllLoss has the same
  two preconditions, for the same reasons.
- GridSearch.GridSearchOptimizer.FindBestParametersForAllLoss: "each loss
  vector is computed exactly once, before any selection" is visible in the
  method's loop. It is not stated as a contract, because Dafny function
  values have no observable call count.
- Loss functions receive the parameter vector as one sequence. The code
  passes them as separate arguments (`f(*parameters)`).
- The dict keys are tuples of numpy floats in the code and parameter
  sequences in the model.
- The abstract base class, which is not part of this model, is reduced to
  the result records and type aliases in `OptimizationFramework`.
- The benchmark driver `src/run_benchmarks_rhea.py` is not modelled. It does
  rendering, pickle I/O, global random seeding and calls into an
  orchestrator that is not part of this model.
- The map loader `src/map_analyzer/maps/load_maps.py` is not modelled. It
  does network downloads, file caching and graph deserialisation.
