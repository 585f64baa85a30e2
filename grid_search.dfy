/** `GridSearchOptimizer`: exhaustive search of the parameter grid, either
    for the point with the least scalar loss, or, for each component of a
    vector loss, for the point with the least value of that component. */
module GridSearch {
  import opened Wrappers
  import opened OptimizationFramework
  import opened FirstMin
  import opened ParameterGrid
  import opened OrderedDict

  /** The exceptions the all-loss search lets escape: `min` over no items
      (ValueError) and a loss vector without the requested component (IndexError). */
  datatype SearchError = EmptySequence | IndexOutOfRange

  /** A grid point with its loss vector, as `parameter_all_loss.items()` yields it. */
  type Item = (seq<real>, seq<Loss>)

  /** `[0.0] * n` */
  function Zeros(n: nat): (z: seq<real>)
    ensures |z| == n && forall i :: 0 <= i < n ==> z[i] == 0.0
  {
    seq(n, _ => 0.0)
  }

  /** The loss at every grid point, in grid order. */
  function Evaluate<T>(grid: seq<seq<real>>, f: seq<real> -> T): seq<T> {
    seq(|grid|, j requires 0 <= j < |grid| => f(grid[j]))
  }

  /** Every grid point paired with its loss vector, in grid order. */
  function Tabulate(grid: seq<seq<real>>, f: AllLossFunction): seq<Item> {
    seq(|grid|, j requires 0 <= j < |grid| => (grid[j], f(grid[j])))
  }

  function Keys(items: seq<Item>): seq<seq<real>> {
    seq(|items|, j requires 0 <= j < |items| => items[j].0)
  }

  function Values(items: seq<Item>): seq<seq<Loss>> {
    seq(|items|, j requires 0 <= j < |items| => items[j].1)
  }

  /** Tabulating one more grid point appends its pair. */
  lemma TabulateExtend(grid: seq<seq<real>>, index: int, f: AllLossFunction)
    requires 0 <= index < |grid|
    ensures Tabulate(grid[..index + 1], f) == Tabulate(grid[..index], f) + [(grid[index], f(grid[index]))]
  {
  }

  /** The keys of the tabulation are the grid, its values the evaluated losses. */
  lemma TabulateSplits(grid: seq<seq<real>>, f: AllLossFunction)
    ensures Keys(Tabulate(grid, f)) == grid
    ensures Values(Tabulate(grid, f)) == Evaluate(grid, f)
  {
  }

  /** A dict holding the first `index` points of a grid without repeats does
      not yet hold the next point. */
  lemma NextPointIsNew(grid: seq<seq<real>>, index: int, f: AllLossFunction, d: Dict<seq<real>, seq<Loss>>)
    requires Distinct(grid)
    requires 0 <= index < |grid|
    requires d.Valid() && d.Items() == Tabulate(grid[..index], f)
    ensures grid[index] !in d.entries
  {
    d.ItemsHoldKeys(grid[index]);
    assert forall j :: 0 <= j < index ==> d.Items()[j].0 == grid[j] != grid[index];
  }

  /** What the focus search promises on `grid`: its loss is at most the loss
      at every grid point; a finite (or minus infinite) loss is that of the
      first grid point reaching the minimum, and those are its parameters;
      an infinite loss comes with the placeholder zero vector. */
  ghost predicate IsFocusResult(grid: seq<seq<real>>, focusLoss: FocusLossFunction, n: nat, r: FocusOptimizationResult) {
    && (forall j :: 0 <= j < |grid| ==> r.focusLoss.AtMost(focusLoss(grid[j])))
    && (r.focusLoss.PosInfinity? ==> r.parameters == Zeros(n))
    && (!r.focusLoss.PosInfinity? ==>
          exists i :: IsFirstMin(Evaluate(grid, focusLoss), i) && r.parameters == grid[i] && r.focusLoss == focusLoss(grid[i]))
  }

  /** Entry `e` answers objective `k`: it is the first point whose component
      `k` is minimal, with the loss vector stored for that point. */
  ghost predicate IsObjectiveWinner(points: seq<seq<real>>, losses: seq<seq<Loss>>, k: int, e: AllOptimizationResult)
    requires |points| == |losses|
  {
    && e.focusIndex == k
    && exists i :: 0 <= i < |points| && e.parameters == points[i] && e.allLoss == losses[i] && IsFirstMinAt(losses, k, i)
  }

  /** What the all-loss search promises for the points and their loss
      vectors: it fails exactly when some objective index has no answer
      (no points at all, or a vector too short), and otherwise lists one
      winner per objective index `0 .. allLossSize - 1`. */
  ghost predicate IsAllResult(points: seq<seq<real>>, losses: seq<seq<Loss>>, allLossSize: int,
                              r: Result<seq<AllOptimizationResult>, SearchError>)
    requires |points| == |losses|
  {
    && (r.Success? <==>
          allLossSize <= 0 || (|points| > 0 && forall j :: 0 <= j < |losses| ==> allLossSize <= |losses[j]|))
    && (r.Failure? ==> (r.error == EmptySequence <==> |points| == 0))
    && (r.Success? ==>
          && |r.value| == (if allLossSize <= 0 then 0 else allLossSize)
          && forall k :: 0 <= k < |r.value| ==> IsObjectiveWinner(points, losses, k, r.value[k]))
  }

  /** The inner `get_min_focus_loss`: `min` over the items keyed by component
      `focusLossIndex` of the loss vector. */
  function GetMinFocusLoss(items: seq<Item>, focusLossIndex: nat): (r: Result<Item, SearchError>)
    ensures r.Failure? <==> |items| == 0 || exists j :: 0 <= j < |items| && |items[j].1| <= focusLossIndex
    ensures r.Failure? ==> (r.error == EmptySequence <==> |items| == 0)
    ensures r.Success? ==>
      exists i :: 0 <= i < |items| && r.value == items[i] && IsFirstMinAt(Values(items), focusLossIndex, i)
  {
    if |items| == 0 then Failure(EmptySequence)
    else if exists j :: 0 <= j < |items| && |items[j].1| <= focusLossIndex then Failure(IndexOutOfRange)
    else Success(items[FirstMinIndex(Column(Values(items), focusLossIndex))])
  }

  /** The list comprehension over `enumerate(map(get_min_focus_loss, range(all_loss_size)))`:
      objective indices in ascending order, stopping at the first that fails. */
  function SelectPerObjective(items: seq<Item>, allLossSize: int): (r: Result<seq<AllOptimizationResult>, SearchError>)
    ensures IsAllResult(Keys(items), Values(items), allLossSize, r)
    decreases allLossSize
  {
    if allLossSize <= 0 then Success([])
    else
      assert forall j :: 0 <= j < |items| ==> Values(items)[j] == items[j].1;
      match SelectPerObjective(items, allLossSize - 1)
      case Failure(e) => Failure(e)
      case Success(prefix) =>
        match GetMinFocusLoss(items, allLossSize - 1)
        case Failure(e) => Failure(e)
        case Success(item) => Success(prefix + [AllOptimizationResult(item.0, item.1, allLossSize - 1)])
  }

  /** The focus search's promise leaves exactly one possible result, so the
      result depends only on the grid and the loss, never on the seed; ties
      are broken the same way on every run. */
  lemma FocusResultUnique(grid: seq<seq<real>>, focusLoss: FocusLossFunction, n: nat,
                          r: FocusOptimizationResult, r': FocusOptimizationResult)
    requires IsFocusResult(grid, focusLoss, n, r) && IsFocusResult(grid, focusLoss, n, r')
    ensures r == r'
  {
    var keys := Evaluate(grid, focusLoss);
    FiniteLossIsShared(grid, focusLoss, n, r, r');
    FiniteLossIsShared(grid, focusLoss, n, r', r);
    if !r.focusLoss.PosInfinity? {
      var i :| IsFirstMin(keys, i) && r.parameters == grid[i] && r.focusLoss == focusLoss(grid[i]);
      var i' :| IsFirstMin(keys, i') && r'.parameters == grid[i'] && r'.focusLoss == focusLoss(grid[i']);
      FirstMinUnique(keys, i, i');
    }
  }

  /** If one focus result has a loss below infinity, so has every other. */
  lemma FiniteLossIsShared(grid: seq<seq<real>>, focusLoss: FocusLossFunction, n: nat,
                           r: FocusOptimizationResult, r': FocusOptimizationResult)
    requires IsFocusResult(grid, focusLoss, n, r) && IsFocusResult(grid, focusLoss, n, r')
    ensures !r.focusLoss.PosInfinity? ==> !r'.focusLoss.PosInfinity?
  {
    if !r.focusLoss.PosInfinity? {
      var i :| IsFirstMin(Evaluate(grid, focusLoss), i) && r.parameters == grid[i] && r.focusLoss == focusLoss(grid[i]);
      assert r'.focusLoss.AtMost(focusLoss(grid[i]));
    }
  }

  /** Likewise the all-loss search's promise leaves one possible result. */
  lemma AllResultUnique(points: seq<seq<real>>, losses: seq<seq<Loss>>, allLossSize: int,
                        r: Result<seq<AllOptimizationResult>, SearchError>,
                        r': Result<seq<AllOptimizationResult>, SearchError>)
    requires |points| == |losses|
    requires IsAllResult(points, losses, allLossSize, r) && IsAllResult(points, losses, allLossSize, r')
    ensures r == r'
  {
    if r.Success? {
      assert r'.Success? && |r.value| == |r'.value|;
      forall k | 0 <= k < |r.value|
        ensures r.value[k] == r'.value[k]
      {
        var e, e' := r.value[k], r'.value[k];
        var i :| 0 <= i < |points| && e.parameters == points[i] && e.allLoss == losses[i] && IsFirstMinAt(losses, k, i);
        var i' :| 0 <= i' < |points| && e'.parameters == points[i'] && e'.allLoss == losses[i'] && IsFirstMinAt(losses, k, i');
        FirstMinUnique(Column(losses, k), i, i');
      }
      assert r.value == r'.value;
    }
  }

  /** With a one-component vector loss equal to the scalar loss on every grid
      point, the all-loss search answers objective 0 with the point and loss
      the focus search returns, whenever the latter is not the infinite
      placeholder. */
  lemma FocusAgreesWithSingleObjective(grid: seq<seq<real>>, focusLoss: FocusLossFunction, allLossFunction: AllLossFunction,
                                       n: nat, r: FocusOptimizationResult,
                                       all: Result<seq<AllOptimizationResult>, SearchError>)
    requires forall j :: 0 <= j < |grid| ==> allLossFunction(grid[j]) == [focusLoss(grid[j])]
    requires IsFocusResult(grid, focusLoss, n, r)
    requires IsAllResult(grid, Evaluate(grid, allLossFunction), 1, all)
    requires !r.focusLoss.PosInfinity?
    ensures all == Success([AllOptimizationResult(r.parameters, [r.focusLoss], 0)])
  {
    var keys := Evaluate(grid, focusLoss);
    var losses := Evaluate(grid, allLossFunction);
    var i :| IsFirstMin(keys, i) && r.parameters == grid[i] && r.focusLoss == focusLoss(grid[i]);
    assert |losses[i]| == 1;
    assert all.Success?;
    var e := all.value[0];
    var i' :| 0 <= i' < |grid| && e.parameters == grid[i'] && e.allLoss == losses[i'] && IsFirstMinAt(losses, 0, i');
    assert Column(losses, 0) == keys;
    FirstMinUnique(keys, i, i');
    assert all.value == [e];
  }

  /** The loss `|x - 0.3|` of a one-parameter vector; a vector of any other
      length is infinitely bad. */
  function DistanceToPointThree(parameters: seq<real>): Loss {
    if |parameters| == 1 then
      Finite(if parameters[0] >= 0.3 then parameters[0] - 0.3 else 0.3 - parameters[0])
    else PosInfinity
  }

  /** Bounds [(0, 1)] at step 0.1 under the loss `|x - 0.3|`: the search
      lands exactly on 0.3 with loss 0 (with exact arithmetic). */
  lemma ExampleFocusLoss(r: FocusOptimizationResult)
    requires IsFocusResult(CreateParameterGrid([(0.0, 1.0)], 0.1), DistanceToPointThree, 1, r)
    ensures r == FocusOptimizationResult([0.3], Finite(0.0))
  {
    var bounds := [(0.0, 1.0)];
    var grid := CreateParameterGrid(bounds, 0.1);
    ExampleGridHoldsPointThree();
    forall j | 0 <= j < |grid|
      ensures |grid[j]| == 1
    {
      GridMembers(bounds, 0.1, grid[j]);
    }
    assert grid[3] in grid;
    MinimumAtPointThree(grid, r);
  }

  /** On any grid of one-parameter points that holds 0.3, the loss `|x - 0.3|`
      is minimised exactly there. */
  lemma MinimumAtPointThree(grid: seq<seq<real>>, r: FocusOptimizationResult)
    requires [0.3] in grid
    requires forall j :: 0 <= j < |grid| ==> |grid[j]| == 1
    requires IsFocusResult(grid, DistanceToPointThree, 1, r)
    ensures r == FocusOptimizationResult([0.3], Finite(0.0))
  {
    var m :| 0 <= m < |grid| && grid[m] == [0.3];
    assert DistanceToPointThree(grid[m]) == Finite(0.0);
    assert r.focusLoss.AtMost(Finite(0.0));
    var i :| IsFirstMin(Evaluate(grid, DistanceToPointThree), i) && r.parameters == grid[i]
             && r.focusLoss == DistanceToPointThree(grid[i]);
    assert grid[i] == [grid[i][0]];
  }

  /** 0.3 is the fourth point of the grid for [(0, 1)] at step 0.1. */
  lemma ExampleGridHoldsPointThree()
    ensures |CreateParameterGrid([(0.0, 1.0)], 0.1)| == 11
    ensures CreateParameterGrid([(0.0, 1.0)], 0.1)[3] == [0.3]
  {
    var bounds := [(0.0, 1.0)];
    AxisIncludesHigh(0.0, 1.0, 0.1, 10);
    OneDimensionOrder(bounds, 0.1, 3);
    assert Axes(bounds, 0.1)[0][3] == 0.3;
  }

  class GridSearchOptimizer {
    var parameterInterval: real

    constructor (parameterInterval: real)
      ensures this.parameterInterval == parameterInterval
    {
      this.parameterInterval := parameterInterval;
    }

    /** Scan the grid, keeping the first point whose loss is strictly below
        the best so far; the best starts as the zero vector with infinite loss. */
    method FindBestParametersForFocusLoss(parameterBounds: ParameterBounds, focusLoss: FocusLossFunction, seed: Option<int>)
      returns (result: FocusOptimizationResult)
      requires parameterInterval > 0.0
      requires |parameterBounds| >= 1
      ensures IsFocusResult(CreateParameterGrid(parameterBounds, parameterInterval), focusLoss, |parameterBounds|, result)
    {
      var parameterGrid := CreateParameterGrid(parameterBounds, parameterInterval);
      var bestParameters := Zeros(|parameterBounds|);
      var bestFocusLoss := PosInfinity;
      ghost var bestIndex := 0;
      for index := 0 to |parameterGrid|
        invariant forall j :: 0 <= j < index ==> bestFocusLoss.AtMost(focusLoss(parameterGrid[j]))
        invariant bestFocusLoss.PosInfinity? ==> bestParameters == Zeros(|parameterBounds|)
        invariant !bestFocusLoss.PosInfinity? ==>
          && 0 <= bestIndex < index
          && bestParameters == parameterGrid[bestIndex]
          && bestFocusLoss == focusLoss(parameterGrid[bestIndex])
          && forall j :: 0 <= j < bestIndex ==> bestFocusLoss.Below(focusLoss(parameterGrid[j]))
      {
        var parameters := parameterGrid[index];
        var focusLossValue := focusLoss(parameters);
        if focusLossValue.Below(bestFocusLoss) {
          bestParameters := parameters;
          bestFocusLoss := focusLossValue;
          bestIndex := index;
        }
      }
      result := FocusOptimizationResult(bestParameters, bestFocusLoss);
      if !bestFocusLoss.PosInfinity? {
        assert IsFirstMin(Evaluate(parameterGrid, focusLoss), bestIndex);
      }
    }

    /** Evaluate the vector loss once per grid point into an insertion-ordered
        dict, then pick the best point for each objective index. */
    method FindBestParametersForAllLoss(parameterBounds: ParameterBounds, allLossFunction: AllLossFunction,
                                        allLossSize: int, seed: Option<int>)
      returns (result: Result<seq<AllOptimizationResult>, SearchError>)
      requires parameterInterval > 0.0
      requires |parameterBounds| >= 1
      ensures var grid := CreateParameterGrid(parameterBounds, parameterInterval);
        IsAllResult(grid, Evaluate(grid, allLossFunction), allLossSize, result)
    {
      var parameterGrid := CreateParameterGrid(parameterBounds, parameterInterval);
      GridDistinct(parameterBounds, parameterInterval);
      var parameterAllLoss: Dict<seq<real>, seq<Loss>> := Empty();
      for index := 0 to |parameterGrid|
        invariant parameterAllLoss.Valid()
        invariant parameterAllLoss.Items() == Tabulate(parameterGrid[..index], allLossFunction)
      {
        var parameters := parameterGrid[index];
        var allLossValue := allLossFunction(parameters);
        NextPointIsNew(parameterGrid, index, allLossFunction, parameterAllLoss);
        parameterAllLoss := parameterAllLoss.Insert(parameters, allLossValue);
        TabulateExtend(parameterGrid, index, allLossFunction);
      }
      assert parameterGrid[..|parameterGrid|] == parameterGrid;
      var items := parameterAllLoss.Items();
      TabulateSplits(parameterGrid, allLossFunction);
      result := SelectPerObjective(items, allLossSize);
    }
  }
}
