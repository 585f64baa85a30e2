/** The discretised parameter domain: one evenly spaced axis per parameter
    (`np.arange`) and the cartesian product of the axes in the order that
    `np.array(np.meshgrid(*axes)).T.reshape(-1, n)` lists it. */
module ParameterGrid {
  import opened OptimizationFramework

  /** The least integer that is not below `x`. */
  function Ceiling(x: real): (c: int)
    ensures c as real - 1.0 < x <= c as real
  {
    -((-x).Floor)
  }

  /** `np.arange(start, stop, step)` over exact reals: the values
      `start + i * step` for `i = 0, 1, ...` as long as they stay below `stop`. */
  function Arange(start: real, stop: real, step: real): (r: seq<real>)
    requires step > 0.0
    ensures forall i :: 0 <= i < |r| ==> r[i] == start + i as real * step && r[i] < stop
    ensures start + |r| as real * step >= stop
  {
    var t := (stop - start) / step;
    var n := if stop <= start then 0 else Ceiling(t);
    assert stop > start ==> n as real * step >= t * step == stop - start;
    StepsBelow(start, step, t, n);
    seq(n, i => Step(start, step, i))
  }

  /** The `i`-th value of a range. */
  function Step(start: real, step: real, i: int): real {
    start + i as real * step
  }

  /** The first `n` steps stay below `start + t * step` when `n - 1 < t`. */
  lemma StepsBelow(start: real, step: real, t: real, n: int)
    requires step > 0.0
    requires n <= 0 || (n - 1) as real < t
    ensures forall i :: 0 <= i < n ==> Step(start, step, i) < start + t * step
  {
    forall i | 0 <= i < n
      ensures Step(start, step, i) < start + t * step
    {
      ScaleMonotone(i as real, t, step);
    }
  }

  /** Multiplying by a positive number keeps the order. */
  lemma ScaleMonotone(x: real, y: real, s: real)
    requires s > 0.0
    ensures x < y <==> x * s < y * s
    ensures x <= y <==> x * s <= y * s
  {
  }

  /** The values tried for one parameter: `np.arange(low, high + interval, interval)`. */
  function Axis(low: real, high: real, interval: real): (a: seq<real>)
    requires interval > 0.0
    ensures forall i :: 0 <= i < |a| ==> a[i] == low + i as real * interval && a[i] < high + interval
    ensures low + |a| as real * interval >= high + interval
  {
    Arange(low, high + interval, interval)
  }

  /** One axis per (low, high) pair. */
  function Axes(bounds: ParameterBounds, interval: real): (axes: seq<seq<real>>)
    requires interval > 0.0
    ensures |axes| == |bounds|
    ensures forall d :: 0 <= d < |bounds| ==> axes[d] == Axis(bounds[d].0, bounds[d].1, interval)
  {
    seq(|bounds|, d requires 0 <= d < |bounds| => Axis(bounds[d].0, bounds[d].1, interval))
  }

  /** When `high - low` is a whole number `k` of steps, the axis has `k + 1`
      values and ends exactly at `high`. */
  lemma AxisIncludesHigh(low: real, high: real, interval: real, k: nat)
    requires interval > 0.0
    requires high == low + k as real * interval
    ensures |Axis(low, high, interval)| == k + 1
    ensures Axis(low, high, interval)[k] == high
  {
    var a := Axis(low, high, interval);
    var n := |a|;
    NextStep(low, interval, k);
    assert n > 0 by {
      ScaleMonotone(0.0, (k + 1) as real, interval);
    }
    assert Step(low, interval, n - 1) == a[n - 1] < Step(low, interval, k + 1);
    WholeStepCount(low, interval, n, k + 1);
  }

  /** One more step adds the step width. */
  lemma NextStep(start: real, step: real, i: int)
    ensures Step(start, step, i + 1) == Step(start, step, i) + step
  {
  }

  /** Whole step counts with `step(n - 1) < step(m) <= step(n)` agree. */
  lemma WholeStepCount(start: real, s: real, n: int, m: int)
    requires s > 0.0
    requires Step(start, s, m) <= Step(start, s, n)
    requires Step(start, s, n - 1) < Step(start, s, m)
    ensures n == m
  {
    StepStrictlyMonotone(start, s, n, m);
    StepStrictlyMonotone(start, s, n - 1, m);
  }

  /** With a positive step, later steps are exactly the larger ones. */
  lemma StepStrictlyMonotone(start: real, s: real, i: int, j: int)
    requires s > 0.0
    ensures i < j <==> Step(start, s, i) < Step(start, s, j)
  {
    ScaleMonotone(i as real, j as real, s);
  }

  /** A non-empty axis ends at `high` or past it, by less than one step. */
  lemma AxisLastValue(low: real, high: real, interval: real)
    requires interval > 0.0
    requires |Axis(low, high, interval)| > 0
    ensures var a := Axis(low, high, interval);
      high <= a[|a| - 1] < high + interval
  {
    var a := Axis(low, high, interval);
    var n := |a|;
    assert a[n - 1] == low + (n - 1) as real * interval;
    assert (n - 1) as real * interval == n as real * interval - interval;
  }

  /** The axis is empty exactly when `low` is at least one step above `high`. */
  lemma AxisEmptyIff(low: real, high: real, interval: real)
    requires interval > 0.0
    ensures |Axis(low, high, interval)| == 0 <==> high + interval <= low
  {
    var a := Axis(low, high, interval);
    if |a| > 0 {
      assert a[0] == low;
    }
  }

  /** Axis values strictly increase. */
  lemma AxisIncreasing(low: real, high: real, interval: real, i: int, j: int)
    requires interval > 0.0
    requires 0 <= i < j < |Axis(low, high, interval)|
    ensures Axis(low, high, interval)[i] < Axis(low, high, interval)[j]
  {
    var a := Axis(low, high, interval);
    assert a[j] - a[i] == (j - i) as real * interval;
  }

  /** Each value of `xs` followed by each vector of `ps`: `xs` varies slowest. */
  function PrependEach(xs: seq<real>, ps: seq<seq<real>>): (r: seq<seq<real>>)
    ensures |r| == |xs| * |ps|
  {
    if xs == [] then []
    else seq(|ps|, j requires 0 <= j < |ps| => [xs[0]] + ps[j]) + PrependEach(xs[1..], ps)
  }

  /** Each vector of `ps` followed by each value of `zs`: `zs` varies slowest. */
  function AppendEach(zs: seq<real>, ps: seq<seq<real>>): (r: seq<seq<real>>)
    ensures |r| == |zs| * |ps|
  {
    if zs == [] then []
    else seq(|ps|, j requires 0 <= j < |ps| => ps[j] + [zs[0]]) + AppendEach(zs[1..], ps)
  }

  /** Each value as a one-element vector. */
  function Singletons(xs: seq<real>): seq<seq<real>> {
    seq(|xs|, i requires 0 <= i < |xs| => [xs[i]])
  }

  /** The product of the axis lengths. */
  function CountProduct(axes: seq<seq<real>>): nat {
    if axes == [] then 1 else CountProduct(axes[..|axes| - 1]) * |axes[|axes| - 1]|
  }

  /** `np.array(np.meshgrid(*axes)).T.reshape(-1, len(axes))`. With the default
      'xy' indexing, meshgrid's arrays are indexed by dimensions 1, 0, 2, ..., n-1;
      the transpose reverses that, so rows run with dimension n-1 slowest, then
      n-2, ..., 2, then 0, and dimension 1 fastest. For one or two dimensions this
      is the nested-loop order with the first dimension slowest. */
  function Mesh(axes: seq<seq<real>>): (grid: seq<seq<real>>)
    requires |axes| >= 1
    ensures |grid| == CountProduct(axes)
    decreases |axes|
  {
    if |axes| == 1 then Singletons(axes[0])
    else if |axes| == 2 then
      assert axes[..1][..0] == [] && axes[..1][0] == axes[0];
      assert CountProduct(axes[..1]) == |axes[0]|;
      assert CountProduct(axes) == |axes[0]| * |axes[1]|;
      assert |Singletons(axes[1])| == |axes[1]|;
      PrependEach(axes[0], Singletons(axes[1]))
    else AppendEach(axes[|axes| - 1], Mesh(axes[..|axes| - 1]))
  }

  /** `_create_parameter_grid`: every combination of axis values, one per row. */
  function CreateParameterGrid(bounds: ParameterBounds, interval: real): (grid: seq<seq<real>>)
    requires interval > 0.0
    requires |bounds| >= 1
    ensures |grid| == CountProduct(Axes(bounds, interval))
  {
    Mesh(Axes(bounds, interval))
  }

  /** No element occurs twice. */
  ghost predicate Distinct<T>(s: seq<T>) {
    forall i, j :: 0 <= i < j < |s| ==> s[i] != s[j]
  }

  lemma DistinctConcat<T>(a: seq<T>, b: seq<T>)
    requires Distinct(a) && Distinct(b)
    requires forall x :: x in a ==> x !in b
    ensures Distinct(a + b)
  {
    forall i, j | 0 <= i < j < |a + b|
      ensures (a + b)[i] != (a + b)[j]
    {
      if i < |a| <= j {
        assert (a + b)[i] in a && (a + b)[j] == b[j - |a|];
      }
    }
  }

  lemma SingletonsMembers(xs: seq<real>, q: seq<real>)
    ensures q in Singletons(xs) <==> |q| == 1 && q[0] in xs
  {
    if |q| == 1 && q[0] in xs {
      var i :| 0 <= i < |xs| && xs[i] == q[0];
      assert Singletons(xs)[i] == q;
    }
  }

  lemma {:induction false} PrependEachMembers(xs: seq<real>, ps: seq<seq<real>>, q: seq<real>)
    ensures q in PrependEach(xs, ps) <==> |q| >= 1 && q[0] in xs && q[1..] in ps
  {
    if xs != [] {
      var block := seq(|ps|, j requires 0 <= j < |ps| => [xs[0]] + ps[j]);
      assert PrependEach(xs, ps) == block + PrependEach(xs[1..], ps);
      PrependEachMembers(xs[1..], ps, q);
      if q in block {
        var j :| 0 <= j < |ps| && block[j] == q;
        assert q[1..] == ps[j];
      }
      if |q| >= 1 && q[0] == xs[0] && q[1..] in ps {
        var j :| 0 <= j < |ps| && ps[j] == q[1..];
        assert block[j] == q;
      }
      assert |q| >= 1 ==> (q[0] in xs <==> q[0] == xs[0] || q[0] in xs[1..]);
    }
  }

  lemma {:induction false} AppendEachMembers(zs: seq<real>, ps: seq<seq<real>>, q: seq<real>)
    ensures q in AppendEach(zs, ps) <==> |q| >= 1 && q[|q| - 1] in zs && q[..|q| - 1] in ps
  {
    if zs != [] {
      var block := seq(|ps|, j requires 0 <= j < |ps| => ps[j] + [zs[0]]);
      assert AppendEach(zs, ps) == block + AppendEach(zs[1..], ps);
      AppendEachMembers(zs[1..], ps, q);
      if q in block {
        var j :| 0 <= j < |ps| && block[j] == q;
        assert q[..|q| - 1] == ps[j];
      }
      if |q| >= 1 && q[|q| - 1] == zs[0] && q[..|q| - 1] in ps {
        var j :| 0 <= j < |ps| && ps[j] == q[..|q| - 1];
        assert block[j] == q;
      }
      assert |q| >= 1 ==> (q[|q| - 1] in zs <==> q[|q| - 1] == zs[0] || q[|q| - 1] in zs[1..]);
    }
  }

  /** A vector is a row of the mesh exactly when it takes one value from each axis. */
  lemma {:induction false} MeshMembers(axes: seq<seq<real>>, q: seq<real>)
    requires |axes| >= 1
    ensures q in Mesh(axes) <==> |q| == |axes| && forall d :: 0 <= d < |axes| ==> q[d] in axes[d]
    decreases |axes|
  {
    if |axes| == 1 {
      SingletonsMembers(axes[0], q);
    } else if |axes| == 2 {
      PairMembers(axes, q);
    } else {
      var prefix := axes[..|axes| - 1];
      var init := if |q| >= 1 then q[..|q| - 1] else [];
      MeshMembers(prefix, init);
      LastAxisMembers(axes, prefix, q, init);
    }
  }

  lemma PairMembers(axes: seq<seq<real>>, q: seq<real>)
    requires |axes| == 2
    ensures q in Mesh(axes) <==> |q| == 2 && q[0] in axes[0] && q[1] in axes[1]
  {
    assert Mesh(axes) == PrependEach(axes[0], Singletons(axes[1]));
    PrependEachMembers(axes[0], Singletons(axes[1]), q);
    if |q| >= 1 {
      SingletonsMembers(axes[1], q[1..]);
      assert |q| == 2 ==> q[1..][0] == q[1];
    }
  }

  lemma LastAxisMembers(axes: seq<seq<real>>, prefix: seq<seq<real>>, q: seq<real>, init: seq<real>)
    requires |axes| >= 3 && prefix == axes[..|axes| - 1]
    requires |q| >= 1 ==> init == q[..|q| - 1]
    requires init in Mesh(prefix) <==> |init| == |prefix| && forall d :: 0 <= d < |prefix| ==> init[d] in prefix[d]
    ensures q in Mesh(axes) <==> |q| == |axes| && forall d :: 0 <= d < |axes| ==> q[d] in axes[d]
  {
    var n := |axes|;
    assert Mesh(axes) == AppendEach(axes[n - 1], Mesh(prefix));
    AppendEachMembers(axes[n - 1], Mesh(prefix), q);
    if q in Mesh(axes) {
      assert |q| == n;
      forall d | 0 <= d < n
        ensures q[d] in axes[d]
      {
        if d < n - 1 {
          assert init[d] == q[d] && prefix[d] == axes[d];
        }
      }
    }
    if |q| == n && forall d :: 0 <= d < n ==> q[d] in axes[d] {
      forall d | 0 <= d < n - 1
        ensures init[d] in prefix[d]
      {
        assert init[d] == q[d] && prefix[d] == axes[d];
      }
    }
  }

  lemma SingletonsDistinct(xs: seq<real>)
    requires Distinct(xs)
    ensures Distinct(Singletons(xs))
  {
    forall i, j | 0 <= i < j < |xs|
      ensures Singletons(xs)[i] != Singletons(xs)[j]
    {
      assert Singletons(xs)[i][0] == xs[i];
    }
  }

  lemma {:induction false} PrependEachDistinct(xs: seq<real>, ps: seq<seq<real>>)
    requires Distinct(xs) && Distinct(ps)
    ensures Distinct(PrependEach(xs, ps))
  {
    if xs != [] {
      var block := seq(|ps|, j requires 0 <= j < |ps| => [xs[0]] + ps[j]);
      var rest := PrependEach(xs[1..], ps);
      assert PrependEach(xs, ps) == block + rest;
      forall i, j | 0 <= i < j < |block|
        ensures block[i] != block[j]
      {
        assert block[i][1..] == ps[i] && block[j][1..] == ps[j];
      }
      PrependEachDistinct(xs[1..], ps);
      forall x | x in block
        ensures x !in rest
      {
        PrependEachMembers(xs[1..], ps, x);
      }
      DistinctConcat(block, rest);
    }
  }

  lemma {:induction false} AppendEachDistinct(zs: seq<real>, ps: seq<seq<real>>)
    requires Distinct(zs) && Distinct(ps)
    ensures Distinct(AppendEach(zs, ps))
  {
    if zs != [] {
      var block := seq(|ps|, j requires 0 <= j < |ps| => ps[j] + [zs[0]]);
      var rest := AppendEach(zs[1..], ps);
      assert AppendEach(zs, ps) == block + rest;
      forall i, j | 0 <= i < j < |block|
        ensures block[i] != block[j]
      {
        assert block[i][..|block[i]| - 1] == ps[i] && block[j][..|block[j]| - 1] == ps[j];
      }
      AppendEachDistinct(zs[1..], ps);
      forall x | x in block
        ensures x !in rest
      {
        AppendEachMembers(zs[1..], ps, x);
      }
      DistinctConcat(block, rest);
    }
  }

  /** Distinct axis values give distinct rows. */
  lemma {:induction false} MeshDistinct(axes: seq<seq<real>>)
    requires |axes| >= 1
    requires forall d :: 0 <= d < |axes| ==> Distinct(axes[d])
    ensures Distinct(Mesh(axes))
    decreases |axes|
  {
    if |axes| == 1 {
      SingletonsDistinct(axes[0]);
    } else if |axes| == 2 {
      SingletonsDistinct(axes[1]);
      PrependEachDistinct(axes[0], Singletons(axes[1]));
    } else {
      MeshDistinct(axes[..|axes| - 1]);
      AppendEachDistinct(axes[|axes| - 1], Mesh(axes[..|axes| - 1]));
    }
  }

  lemma {:induction false} PrependEachAt(xs: seq<real>, ps: seq<seq<real>>, i: int, j: int)
    requires 0 <= i < |xs| && 0 <= j < |ps|
    ensures i * |ps| + j < |PrependEach(xs, ps)|
    ensures PrependEach(xs, ps)[i * |ps| + j] == [xs[i]] + ps[j]
  {
    var block := seq(|ps|, k requires 0 <= k < |ps| => [xs[0]] + ps[k]);
    assert PrependEach(xs, ps) == block + PrependEach(xs[1..], ps);
    if i > 0 {
      PrependEachAt(xs[1..], ps, i - 1, j);
      assert i * |ps| + j == |ps| + ((i - 1) * |ps| + j);
    }
  }

  lemma {:induction false} AppendEachAt(zs: seq<real>, ps: seq<seq<real>>, k: int, j: int)
    requires 0 <= k < |zs| && 0 <= j < |ps|
    ensures k * |ps| + j < |AppendEach(zs, ps)|
    ensures AppendEach(zs, ps)[k * |ps| + j] == ps[j] + [zs[k]]
  {
    var block := seq(|ps|, m requires 0 <= m < |ps| => ps[m] + [zs[0]]);
    assert AppendEach(zs, ps) == block + AppendEach(zs[1..], ps);
    if k > 0 {
      AppendEachAt(zs[1..], ps, k - 1, j);
      assert k * |ps| + j == |ps| + ((k - 1) * |ps| + j);
    }
  }

  /** Every row of the grid has one entry per parameter, and the rows are
      exactly the combinations of axis values. */
  lemma GridMembers(bounds: ParameterBounds, interval: real, q: seq<real>)
    requires interval > 0.0
    requires |bounds| >= 1
    ensures q in CreateParameterGrid(bounds, interval) <==>
      |q| == |bounds| && forall d :: 0 <= d < |bounds| ==> q[d] in Axis(bounds[d].0, bounds[d].1, interval)
  {
    MeshMembers(Axes(bounds, interval), q);
  }

  /** Every combination of axis values appears in the grid only once. */
  lemma GridDistinct(bounds: ParameterBounds, interval: real)
    requires interval > 0.0
    requires |bounds| >= 1
    ensures Distinct(CreateParameterGrid(bounds, interval))
  {
    var axes := Axes(bounds, interval);
    forall d | 0 <= d < |axes|
      ensures Distinct(axes[d])
    {
      forall i, j | 0 <= i < j < |axes[d]|
        ensures axes[d][i] != axes[d][j]
      {
        AxisIncreasing(bounds[d].0, bounds[d].1, interval, i, j);
      }
    }
    MeshDistinct(axes);
  }

  /** With one parameter the grid is the axis, in ascending order. */
  lemma OneDimensionOrder(bounds: ParameterBounds, interval: real, i: int)
    requires interval > 0.0
    requires |bounds| == 1
    requires 0 <= i < |Axes(bounds, interval)[0]|
    ensures |CreateParameterGrid(bounds, interval)| == |Axes(bounds, interval)[0]|
    ensures CreateParameterGrid(bounds, interval)[i] == [Axes(bounds, interval)[0][i]]
  {
  }

  /** The number of rows of a two-axis mesh. */
  lemma MeshSizeTwo(axes: seq<seq<real>>)
    requires |axes| == 2
    ensures |Mesh(axes)| == |axes[0]| * |axes[1]|
  {
    assert axes[..1][..0] == [] && axes[..1][0] == axes[0];
    assert CountProduct(axes[..1]) == |axes[0]|;
  }

  lemma MeshTwoOrder(axes: seq<seq<real>>, i: int, j: int)
    requires |axes| == 2
    requires 0 <= i < |axes[0]| && 0 <= j < |axes[1]|
    ensures i * |axes[1]| + j < |Mesh(axes)|
    ensures Mesh(axes)[i * |axes[1]| + j] == [axes[0][i], axes[1][j]]
  {
    PrependEachAt(axes[0], Singletons(axes[1]), i, j);
  }

  lemma MeshLastSlowest(axes: seq<seq<real>>, k: int, r: int)
    requires |axes| >= 3
    requires 0 <= k < |axes[|axes| - 1]|
    requires 0 <= r < |Mesh(axes[..|axes| - 1])|
    ensures k * |Mesh(axes[..|axes| - 1])| + r < |Mesh(axes)|
    ensures Mesh(axes)[k * |Mesh(axes[..|axes| - 1])| + r] == Mesh(axes[..|axes| - 1])[r] + [axes[|axes| - 1][k]]
  {
    AppendEachAt(axes[|axes| - 1], Mesh(axes[..|axes| - 1]), k, r);
  }

  /** The row of a three-axis mesh that holds the combination (i, j, k). */
  function ThreeDimensionRow(axes: seq<seq<real>>, i: int, j: int, k: int): int
    requires |axes| == 3
  {
    k * (|axes[0]| * |axes[1]|) + i * |axes[1]| + j
  }

  /** With three parameters the rows run with the third slowest, then the
      first, and the second fastest. */
  lemma MeshThreeOrder(axes: seq<seq<real>>, i: int, j: int, k: int)
    requires |axes| == 3
    requires 0 <= i < |axes[0]| && 0 <= j < |axes[1]| && 0 <= k < |axes[2]|
    ensures ThreeDimensionRow(axes, i, j, k) < |Mesh(axes)|
    ensures Mesh(axes)[ThreeDimensionRow(axes, i, j, k)] == [axes[0][i], axes[1][j], axes[2][k]]
  {
    var front := axes[..2];
    MeshTwoOrder(front, i, j);
    MeshSizeTwo(front);
    MeshLastSlowest(axes, k, i * |axes[1]| + j);
  }

  /** With two parameters the first varies slowest and the second fastest. */
  lemma TwoDimensionOrder(bounds: ParameterBounds, interval: real, i: int, j: int)
    requires interval > 0.0
    requires |bounds| == 2
    requires 0 <= i < |Axes(bounds, interval)[0]| && 0 <= j < |Axes(bounds, interval)[1]|
    ensures var axes := Axes(bounds, interval);
      && i * |axes[1]| + j < |CreateParameterGrid(bounds, interval)|
      && CreateParameterGrid(bounds, interval)[i * |axes[1]| + j] == [axes[0][i], axes[1][j]]
  {
    MeshTwoOrder(Axes(bounds, interval), i, j);
  }

  /** With three or more parameters the last one varies slowest; within each
      of its values the rows of the grid of the other parameters follow in
      their own order. */
  lemma LastDimensionSlowest(bounds: ParameterBounds, interval: real, k: int, r: int)
    requires interval > 0.0
    requires |bounds| >= 3
    requires 0 <= k < |Axes(bounds, interval)[|bounds| - 1]|
    requires 0 <= r < |CreateParameterGrid(bounds[..|bounds| - 1], interval)|
    ensures var rest := CreateParameterGrid(bounds[..|bounds| - 1], interval);
      && k * |rest| + r < |CreateParameterGrid(bounds, interval)|
      && CreateParameterGrid(bounds, interval)[k * |rest| + r] ==
         rest[r] + [Axes(bounds, interval)[|bounds| - 1][k]]
  {
    var n := |bounds|;
    assert Axes(bounds[..n - 1], interval) == Axes(bounds, interval)[..n - 1];
    MeshLastSlowest(Axes(bounds, interval), k, r);
  }

  /** Bounds [(0, 1)] at step 0.5 give the three points 0, 0.5 and 1. */
  lemma ExampleOneDimension()
    ensures CreateParameterGrid([(0.0, 1.0)], 0.5) == [[0.0], [0.5], [1.0]]
  {
    AxisIncludesHigh(0.0, 1.0, 0.5, 2);
    var a := Axis(0.0, 1.0, 0.5);
    assert a == [0.0, 0.5, 1.0];
    assert Axes([(0.0, 1.0)], 0.5) == [a];
  }

  /** Bounds [(0, 1), (0, 1)] at step 1 give the four corners, first coordinate slowest. */
  lemma ExampleTwoDimensions()
    ensures CreateParameterGrid([(0.0, 1.0), (0.0, 1.0)], 1.0) ==
      [[0.0, 0.0], [0.0, 1.0], [1.0, 0.0], [1.0, 1.0]]
  {
    AxisIncludesHigh(0.0, 1.0, 1.0, 1);
    var a := Axis(0.0, 1.0, 1.0);
    assert a == [0.0, 1.0];
    var bounds := [(0.0, 1.0), (0.0, 1.0)];
    assert Axes(bounds, 1.0) == [a, a];
    MeshSizeTwo([a, a]);
    TwoDimensionOrder(bounds, 1.0, 0, 0);
    TwoDimensionOrder(bounds, 1.0, 0, 1);
    TwoDimensionOrder(bounds, 1.0, 1, 0);
    TwoDimensionOrder(bounds, 1.0, 1, 1);
  }
}
