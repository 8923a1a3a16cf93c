/** The bookkeeping `bootstrap_fits` does before its first iteration: group and
    replicate counts, the resampling mode, the evaluation points, the predicted
    values and the residuals. */
module BootstrapSetup {
  import opened Wrappers
  import opened NdArrays

  /** The smallest of the values, numpy's `x.min()`. */
  function Min(x: seq<real>): (r: real)
    requires |x| > 0
    ensures r in x && forall i :: 0 <= i < |x| ==> r <= x[i]
  {
    if |x| == 1 then x[0]
    else
      var m := Min(x[1..]);
      assert forall i :: 1 <= i < |x| ==> x[i] == x[1..][i - 1];
      if x[0] <= m then x[0] else m
  }

  /** The largest of the values, numpy's `x.max()`. */
  function Max(x: seq<real>): (r: real)
    requires |x| > 0
    ensures r in x && forall i :: 0 <= i < |x| ==> x[i] <= r
  {
    if |x| == 1 then x[0]
    else
      var m := Max(x[1..]);
      assert forall i :: 1 <= i < |x| ==> x[i] == x[1..][i - 1];
      if x[0] >= m then x[0] else m
  }

  /** The spacing `(b - a) / (num - 1)` of a grid of `num` points. */
  function LinspaceStep(a: real, b: real, num: nat): real
    requires num >= 2
  {
    (b - a) / (num - 1) as real
  }

  /** numpy's `np.linspace(a, b, num)`: `num` evenly spaced points, the first
      `a` and the last exactly `b`; a single point is `a`. */
  function Linspace(a: real, b: real, num: nat): (r: seq<real>)
    ensures |r| == num
    ensures num >= 1 ==> r[0] == a
    ensures num >= 2 ==> r[num - 1] == b
  {
    if num <= 1 then seq(num, _ => a)
    else
      var step := LinspaceStep(a, b, num);
      seq(num, k requires 0 <= k < num => if k == num - 1 then b else a + k as real * step)
  }

  lemma ScaleMonotone(k: real, l: real, step: real)
    requires k <= l && 0.0 <= step
    ensures k * step <= l * step
  {
  }

  lemma ScaleAntitone(k: real, l: real, step: real)
    requires k <= l && step <= 0.0
    ensures l * step <= k * step
  {
    ScaleMonotone(k, l, -step);
  }

  /** Points `k` and `l` steps of `step` from `a` are in the order of `k` and
      `l` when the step is non-negative, and in the reverse order otherwise. */
  lemma GridOrder(a: real, step: real, k: real, l: real, rk: real, rl: real)
    requires k <= l && rk == a + k * step && rl == a + l * step
    ensures 0.0 <= step ==> rk <= rl
    ensures step <= 0.0 ==> rl <= rk
  {
    if 0.0 <= step {
      ScaleMonotone(k, l, step);
    }
    if step <= 0.0 {
      ScaleAntitone(k, l, step);
    }
  }

  /** `num - 1` steps lead from `a` to `b`, so the step has the sign of `b - a`. */
  lemma StepSign(a: real, b: real, num: nat)
    requires num >= 2
    ensures (num - 1) as real * LinspaceStep(a, b, num) == b - a
    ensures a <= b ==> 0.0 <= LinspaceStep(a, b, num)
    ensures b <= a ==> LinspaceStep(a, b, num) <= 0.0
  {
  }

  /** `k` of `d` steps of `step` from `a`, where `d` steps lead to `b`, stay
      between `a` and `b`, whichever of the two is larger. */
  lemma StepWithin(a: real, b: real, d: real, step: real, k: real)
    requires 0.0 < d && 0.0 <= k <= d && d * step == b - a
    requires a <= b ==> 0.0 <= step
    requires b <= a ==> step <= 0.0
    ensures a <= b ==> a <= a + k * step <= b
    ensures b <= a ==> b <= a + k * step <= a
  {
    if a <= b {
      ScaleMonotone(0.0, k, step);
      ScaleMonotone(k, d, step);
    } else {
      ScaleAntitone(0.0, k, step);
      ScaleAntitone(k, d, step);
    }
  }

  /** An interior grid point is `a` plus `k` steps of `(b - a) / (num - 1)`,
      and lies between the two ends. */
  lemma LinspacePoint(a: real, b: real, num: nat, k: nat)
    requires 2 <= num && k < num - 1
    ensures Linspace(a, b, num)[k] == a + k as real * LinspaceStep(a, b, num)
    ensures a <= b ==> a <= Linspace(a, b, num)[k] <= b
    ensures b <= a ==> b <= Linspace(a, b, num)[k] <= a
  {
    StepSign(a, b, num);
    StepWithin(a, b, (num - 1) as real, LinspaceStep(a, b, num), k as real);
  }

  /** Two grid points are in the order of their positions when the grid
      ascends, and in the reverse order when it descends. */
  lemma LinspaceOrder(a: real, b: real, num: nat, k: nat, l: nat)
    requires k <= l < num
    ensures a <= b ==> Linspace(a, b, num)[k] <= Linspace(a, b, num)[l]
    ensures b <= a ==> Linspace(a, b, num)[l] <= Linspace(a, b, num)[k]
  {
    if k < l {
      LinspacePoint(a, b, num, k);
      if l < num - 1 {
        LinspacePoint(a, b, num, l);
        StepSign(a, b, num);
        GridOrder(a, LinspaceStep(a, b, num), k as real, l as real,
                  Linspace(a, b, num)[k], Linspace(a, b, num)[l]);
      }
    }
  }

  /** A grid from `a` up to `b` is ascending and stays within [a, b]. */
  lemma LinspaceAscending(a: real, b: real, num: nat)
    requires a <= b
    ensures forall k :: 0 <= k < num ==> a <= Linspace(a, b, num)[k] <= b
    ensures forall k, l :: 0 <= k <= l < num ==> Linspace(a, b, num)[k] <= Linspace(a, b, num)[l]
  {
    forall k | 0 <= k < num
      ensures a <= Linspace(a, b, num)[k] <= b
    {
      if 2 <= num && k < num - 1 {
        LinspacePoint(a, b, num, k);
      }
    }
    forall k, l | 0 <= k <= l < num
      ensures Linspace(a, b, num)[k] <= Linspace(a, b, num)[l]
    {
      LinspaceOrder(a, b, num, k, l);
    }
  }

  /** A grid from `a` down to a smaller `b` (a two-element `xpts` given in
      decreasing order) is descending and stays within [b, a]. */
  lemma LinspaceDescending(a: real, b: real, num: nat)
    requires b <= a
    ensures forall k :: 0 <= k < num ==> b <= Linspace(a, b, num)[k] <= a
    ensures forall k, l :: 0 <= k <= l < num ==> Linspace(a, b, num)[l] <= Linspace(a, b, num)[k]
  {
    forall k | 0 <= k < num
      ensures b <= Linspace(a, b, num)[k] <= a
    {
      if 2 <= num && k < num - 1 {
        LinspacePoint(a, b, num, k);
      }
    }
    forall k, l | 0 <= k <= l < num
      ensures Linspace(a, b, num)[l] <= Linspace(a, b, num)[k]
    {
      LinspaceOrder(a, b, num, k, l);
    }
  }

  /** Python's `a // n` on non-negative integers is the floor of `a / n`. */
  lemma FloorDivision(a: nat, n: nat)
    requires n > 0
    ensures n * (a / n) <= a < n * (a / n + 1)
  {
    assert a == n * (a / n) + a % n;
  }

  lemma MulDivCancel(n: nat, c: nat)
    requires n > 0
    ensures (n * c) / n == c
  {
    FloorDivision(n * c, n);
  }

  /** The configuration `bootstrap_fits` settles on before iterating. */
  datatype Config = Config(
    groups: nat,        // n: number of distinct x values
    replicates: nat,    // m: replicates per group, y.size // n
    piecewise: bool,
    conservative: bool,
    xpts: seq<real>,    // evaluation points of the bootstrapped curves
    straps: nat,        // n_straps
    params: nat)        // p_opt.size

  datatype SetupError = NoDistinctValues   // `y.size // n` with n == 0 raises

  /** The evaluation points: the default grid of `res` points over the range of
      `x`, a grid over a two-element `xpts` read as endpoints, or `xpts` as given. */
  function EvaluationPoints(x: seq<real>, xpts: Option<seq<real>>, res: nat): (r: seq<real>)
    requires |x| > 0
    ensures xpts.None? ==> |r| == res
    ensures xpts.None? && res >= 1 ==> r[0] == Min(x)
    ensures xpts.None? && res >= 2 ==> r[res - 1] == Max(x)
    ensures xpts.None? ==> forall k :: 0 <= k < res ==> Min(x) <= r[k] <= Max(x)
    ensures xpts.Some? && |xpts.value| == 2 ==> |r| == res
    ensures xpts.Some? && |xpts.value| == 2 && res >= 1 ==> r[0] == xpts.value[0]
    ensures xpts.Some? && |xpts.value| == 2 && res >= 2 ==> r[res - 1] == xpts.value[1]
    ensures xpts.Some? && |xpts.value| != 2 ==> r == xpts.value
  {
    match xpts
    case None =>
      LinspaceAscending(Min(x), Max(x), res);
      Linspace(Min(x), Max(x), res)
    case Some(pts) =>
      if |pts| == 2 then Linspace(pts[0], pts[1], res) else pts
  }

  /** The configuration set up by `bootstrap_fits(func, x, y, p_opt, n_straps,
      res, xpts, ..., conservative, piecewise)` before its loop. */
  function Setup(x: seq<real>, y: NdArray, params: nat, straps: nat, res: nat,
                 xpts: Option<seq<real>>, conservative: bool, piecewise: bool): (r: Result<Config, SetupError>)
    ensures r.Failure? <==> |x| == 0
    ensures r.Success? ==> r.value.groups == |Distinct(x)| >= 1
    ensures r.Success? ==> r.value.groups * r.value.replicates <= Size(y)
    ensures r.Success? ==> Size(y) < r.value.groups * (r.value.replicates + 1)
    ensures r.Success? ==> (r.value.piecewise <==> piecewise && y.Matrix?)
    ensures r.Success? ==> r.value.conservative == conservative
    ensures r.Success? ==> r.value.straps == straps && r.value.params == params
    ensures r.Success? ==> r.value.xpts == EvaluationPoints(x, xpts, res)
  {
    DistinctBounds(x);
    var n := |Distinct(x)|;
    if n == 0 then
      Failure(NoDistinctValues)
    else
      var m := Size(y) / n;
      FloorDivision(Size(y), n);
      Success(Config(n, m, piecewise && !y.Vector?, conservative,
                     EvaluationPoints(x, xpts, res), straps, params))
  }

  /** `x` and `y` agree as the header comment of `bootstrap_fits` asks: a
      vector `y` has one value per `x`, a matrix `y` one row per `x`. */
  predicate Consistent(x: seq<real>, y: NdArray)
  {
    WellFormed(y) && (match y
      case Vector(v) => |v| == |x|
      case Matrix(_, rows) => |rows| == |x|)
  }

  /** The predicted values `func(x, *p_opt)` tiled to the shape of `y`, and
      the residuals `y - y_fit`. */
  datatype Prepared = Prepared(fitted: NdArray, resid: NdArray)

  function Prepare(x: seq<real>, y: NdArray, model: (real, seq<real>) -> real, pOpt: seq<real>): (r: Prepared)
    requires Consistent(x, y) && |x| > 0
    ensures WellFormed(r.fitted) && WellFormed(r.resid)
    ensures ShapeOf(r.fitted) == ShapeOf(y) && ShapeOf(r.resid) == ShapeOf(y)
    ensures r.fitted.Vector? ==> forall i :: 0 <= i < |x| ==> r.fitted.v[i] == model(x[i], pOpt)
    ensures r.fitted.Matrix? ==> forall i, j :: 0 <= i < |x| && 0 <= j < y.cols ==>
      r.fitted.rows[i][j] == model(x[i], pOpt)
    ensures Plus(r.fitted, r.resid) == y
  {
    var predicted := seq(|x|, i requires 0 <= i < |x| => model(x[i], pOpt));
    MulDivCancel(|x|, if y.Matrix? then y.cols else 0);
    var fitted := if y.Vector? then Vector(predicted) else TileColumns(predicted, Size(y) / |x|);
    PlusMinusCancel(fitted, y);
    Prepared(fitted, Minus(y, fitted))
  }

  /** When the `x` values are distinct and `y` is a matrix, the groups are its
      rows and the replicates its columns: a piecewise resample of `groups`
      rows of `replicates` values has the shape of the residuals. */
  lemma PiecewiseShape(x: seq<real>, y: NdArray, params: nat, straps: nat, res: nat,
                       xpts: Option<seq<real>>, conservative: bool, piecewise: bool)
    requires Consistent(x, y) && y.Matrix? && |x| > 0 && |Distinct(x)| == |x|
    ensures var cfg := Setup(x, y, params, straps, res, xpts, conservative, piecewise).value;
      Shape2(cfg.groups, cfg.replicates) == ShapeOf(y)
  {
    MulDivCancel(|x|, y.cols);
  }
}
