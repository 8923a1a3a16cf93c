/** The main loop of `bootstrap_fits`: one resample and one refit per
    iteration, the refit stored as a row of the parameter ensemble, and the refit curve evaluated at every
    evaluation point, stored as a row of the curve ensemble. */
module BootstrapDriver {
  import opened Wrappers
  import opened NdArrays
  import opened BootstrapSetup
  import opened Resampling

  /** `p_strapped` (one row of parameters per iteration) and `curve_strapped`
      (one row of curve values per iteration). */
  datatype Ensemble = Ensemble(params: seq<seq<real>>, curves: seq<seq<real>>)

  datatype RunError =
    | NoValidResample(iteration: nat)          // the retry loop found no varying draw
    | ShapeMismatch(iteration: nat)            // `y_fit + resid_resamples` could not broadcast
    | ConvergenceFailure(iteration: nat)       // curve_fit raised
    | ParameterCountMismatch(iteration: nat)   // the row assignment could not broadcast

  /** numpy's row assignment `p_strapped[i] = p` into a row of `width`
      entries: a vector of the row's length is copied, a one-element vector is
      broadcast along the row, any other length raises. */
  function StoreRow(p: seq<real>, width: nat): (r: Option<seq<real>>)
    ensures r.Some? <==> |p| == width || |p| == 1
    ensures r.Some? ==> |r.value| == width
    ensures r.Some? ==> forall k :: 0 <= k < width ==> r.value[k] in p
  {
    if |p| == width then Some(p)
    else if |p| == 1 then Some(seq(width, _ => p[0]))
    else None
  }

  /** A refit of the row's length is stored unchanged. */
  lemma StoreRowKeepsMatchingFit(p: seq<real>)
    ensures StoreRow(p, |p|) == Some(p)
  {
  }

  /** `func(xpts, *p)` for a model evaluated point by point. */
  function Curve(model: (real, seq<real>) -> real, xpts: seq<real>, p: seq<real>): (c: seq<real>)
    ensures |c| == |xpts|
    ensures forall k :: 0 <= k < |xpts| ==> c[k] == model(xpts[k], p)
  {
    seq(|xpts|, k requires 0 <= k < |xpts| => model(xpts[k], p))
  }

  /** The refit half of iteration `i` (lines 97-115): the synthetic data
      `y_fit + resample` is refitted (by `refit`, which stands for `curve_fit` with the guess
      generator, the weighting and the keyword arguments bound, and returns
      `None` when the solver fails) and the result stored as a row. */
  function Step(cfg: Config, fitted: NdArray, resample: NdArray,
                refit: NdArray -> Option<seq<real>>, i: nat): (r: Result<seq<real>, RunError>)
    requires WellFormed(fitted) && WellFormed(resample) && ShapeOf(resample) == ShapeOf(fitted)
    ensures r.Success? <==> (refit(Plus(fitted, resample)).Some?
      && StoreRow(refit(Plus(fitted, resample)).value, cfg.params).Some?)
    ensures r.Success? ==> |r.value| == cfg.params
    ensures r.Success? ==> StoreRow(refit(Plus(fitted, resample)).value, cfg.params) == Some(r.value)
    ensures r.Failure? ==> r.error.iteration == i
    ensures r.Failure? ==> (r.error.ConvergenceFailure? <==> refit(Plus(fitted, resample)).None?)
    ensures r.Failure? ==> r.error.ConvergenceFailure? || r.error.ParameterCountMismatch?
  {
    match refit(Plus(fitted, resample))
    case None => Failure(ConvergenceFailure(i))
    case Some(p) =>
      match StoreRow(p, cfg.params)
      case None => Failure(ParameterCountMismatch(i))
      case Some(row) => Success(row)
  }

  /** Predicted values and residuals of one shape, as `Prepare` makes them. */
  predicate Aligned(p: Prepared)
  {
    WellFormed(p.fitted) && WellFormed(p.resid) && ShapeOf(p.resid) == ShapeOf(p.fitted)
  }

  /** Iteration `i` of the loop: the resample of the configured branch
      (lines 80-94), the synthetic data `y_fit + resid_resamples` (line 97),
      which numpy refuses unless the shapes agree, and the refit (lines
      107-115). `sigma` is `resid.std()`. */
  function Iterate(cfg: Config, prepared: Prepared, sigma: real, refit: NdArray -> Option<seq<real>>,
                   d: Draw, i: nat): (r: Result<seq<real>, RunError>)
    requires Aligned(prepared)
    requires DrawFits(PolicyOf(cfg.piecewise, cfg.conservative), prepared.resid, cfg.groups, cfg.replicates, d)
    ensures var rs := Resample(PolicyOf(cfg.piecewise, cfg.conservative), prepared.resid,
                               cfg.groups, cfg.replicates, sigma, d);
      && (r.Failure? ==> r.error.iteration == i)
      && (r.Failure? && r.error.NoValidResample? <==> rs.Failure?)
      && (r.Failure? && r.error.ShapeMismatch? <==> rs.Success? && ShapeOf(rs.value) != ShapeOf(prepared.fitted))
      && (rs.Success? && ShapeOf(rs.value) == ShapeOf(prepared.fitted) ==>
            r == Step(cfg, prepared.fitted, rs.value, refit, i))
  {
    var rs := Resample(PolicyOf(cfg.piecewise, cfg.conservative), prepared.resid,
                       cfg.groups, cfg.replicates, sigma, d);
    if rs.Failure? then Failure(NoValidResample(i))
    else if ShapeOf(rs.value) != ShapeOf(prepared.fitted) then Failure(ShapeMismatch(i))
    else Step(cfg, prepared.fitted, rs.value, refit, i)
  }

  /** With fewer groups than rows of `y` (some `x` repeated), a piecewise
      resample of `n` rows cannot be added to `y_fit`: the iteration fails
      before any refit. */
  lemma PiecewiseNeedsOneGroupPerRow(cfg: Config, prepared: Prepared, sigma: real,
                                     refit: NdArray -> Option<seq<real>>, d: Draw, i: nat)
    requires Aligned(prepared) && cfg.piecewise
    requires DrawFits(PolicyOf(cfg.piecewise, cfg.conservative), prepared.resid, cfg.groups, cfg.replicates, d)
    requires prepared.fitted.Matrix? && cfg.groups != |prepared.fitted.rows|
    ensures Iterate(cfg, prepared, sigma, refit, d, i).Failure?
    ensures Iterate(cfg, prepared, sigma, refit, d, i).error.NoValidResample?
      || Iterate(cfg, prepared, sigma, refit, d, i).error.ShapeMismatch?
  {
    var rs := Resample(PolicyOf(cfg.piecewise, cfg.conservative), prepared.resid,
                       cfg.groups, cfg.replicates, sigma, d);
    if rs.Success? {
      assert ShapeOf(rs.value) == Shape2(cfg.groups, cfg.replicates);
    }
  }

  /** When the groups and replicates fill the shape of `y` (as they do for
      distinct `x` values, by `PiecewiseShape`), every resample has the shape
      of `y`, so no iteration fails on the addition `y_fit + resid_resamples`. */
  lemma GroupsFillRowsAlwaysAlign(cfg: Config, prepared: Prepared, sigma: real,
                                  refit: NdArray -> Option<seq<real>>, d: Draw, i: nat)
    requires Aligned(prepared)
    requires DrawFits(PolicyOf(cfg.piecewise, cfg.conservative), prepared.resid, cfg.groups, cfg.replicates, d)
    requires cfg.piecewise ==> ShapeOf(prepared.fitted) == Shape2(cfg.groups, cfg.replicates)
    ensures Iterate(cfg, prepared, sigma, refit, d, i).Failure? ==>
      !Iterate(cfg, prepared, sigma, refit, d, i).error.ShapeMismatch?
  {
  }

  /** The loop `for i in range(n_straps)`, with the random draws of every
      iteration given: it builds an `n_straps` by `p_opt.size` parameter
      ensemble and an `n_straps` by `xpts.size` curve ensemble, or stops at the
      first iteration that fails. */
  method Bootstrap(cfg: Config, prepared: Prepared, sigma: real, draws: seq<Draw>,
                   refit: NdArray -> Option<seq<real>>, model: (real, seq<real>) -> real)
    returns (r: Result<Ensemble, RunError>)
    requires Aligned(prepared)
    requires |draws| == cfg.straps
    requires forall i :: 0 <= i < |draws| ==>
      DrawFits(PolicyOf(cfg.piecewise, cfg.conservative), prepared.resid, cfg.groups, cfg.replicates, draws[i])
    ensures r.Success? ==> |r.value.params| == cfg.straps && |r.value.curves| == cfg.straps
    ensures r.Success? ==> forall i :: 0 <= i < cfg.straps ==>
      |r.value.params[i]| == cfg.params && |r.value.curves[i]| == |cfg.xpts|
    ensures r.Success? ==> forall i :: 0 <= i < cfg.straps ==>
      Iterate(cfg, prepared, sigma, refit, draws[i], i) == Success(r.value.params[i])
    ensures r.Success? ==> forall i, k :: 0 <= i < cfg.straps && 0 <= k < |cfg.xpts| ==>
      r.value.curves[i][k] == model(cfg.xpts[k], r.value.params[i])
    ensures r.Failure? ==> r.error.iteration < cfg.straps
    ensures r.Failure? ==>
      Iterate(cfg, prepared, sigma, refit, draws[r.error.iteration], r.error.iteration) == Failure(r.error)
    ensures r.Failure? ==> forall i :: 0 <= i < r.error.iteration ==>
      Iterate(cfg, prepared, sigma, refit, draws[i], i).Success?
  {
    var params: seq<seq<real>> := [];
    var curves: seq<seq<real>> := [];
    var i := 0;
    while i < cfg.straps
      invariant 0 <= i <= cfg.straps
      invariant |params| == i && |curves| == i
      invariant forall j :: 0 <= j < i ==> Iterate(cfg, prepared, sigma, refit, draws[j], j) == Success(params[j])
      invariant forall j :: 0 <= j < i ==> curves[j] == Curve(model, cfg.xpts, params[j])
    {
      var step := Iterate(cfg, prepared, sigma, refit, draws[i], i);
      if step.Failure? {
        return Failure(step.error);
      }
      params := params + [step.value];
      curves := curves + [Curve(model, cfg.xpts, step.value)];
      i := i + 1;
    }
    return Success(Ensemble(params, curves));
  }

  datatype FitsError = SetupFailed(setup: SetupError) | RunFailed(run: RunError)

  /** `bootstrap_fits` end to end: set-up, predicted values and residuals,
      then the loop, each iteration drawing its resample from the residuals
      by the branch the flags select. `sigma` stands for `resid.std()`. */
  method BootstrapFits(x: seq<real>, y: NdArray, pOpt: seq<real>, model: (real, seq<real>) -> real,
                       straps: nat, res: nat, xpts: Option<seq<real>>, conservative: bool, piecewise: bool,
                       sigma: real, draws: seq<Draw>, refit: NdArray -> Option<seq<real>>)
    returns (r: Result<Ensemble, FitsError>)
    requires Consistent(x, y)
    requires |draws| == straps
    requires |x| > 0 ==> forall i :: 0 <= i < |draws| ==>
      var cfg := Setup(x, y, |pOpt|, straps, res, xpts, conservative, piecewise).value;
      DrawFits(PolicyOf(cfg.piecewise, cfg.conservative), Prepare(x, y, model, pOpt).resid,
               cfg.groups, cfg.replicates, draws[i])
    ensures |x| == 0 ==> r == Failure(SetupFailed(NoDistinctValues))
    ensures r.Success? ==> |x| > 0
    ensures r.Success? ==> |r.value.params| == straps && |r.value.curves| == straps
    ensures r.Success? ==> forall i :: 0 <= i < straps ==> |r.value.params[i]| == |pOpt|
    ensures r.Success? && xpts.None? ==> forall i :: 0 <= i < straps ==> |r.value.curves[i]| == res
    ensures r.Success? && xpts.Some? && |xpts.value| == 2 ==> forall i :: 0 <= i < straps ==> |r.value.curves[i]| == res
    ensures r.Success? && xpts.Some? && |xpts.value| != 2 ==> forall i :: 0 <= i < straps ==> |r.value.curves[i]| == |xpts.value|
    ensures r.Success? ==> forall i :: 0 <= i < straps ==>
      Iterate(Setup(x, y, |pOpt|, straps, res, xpts, conservative, piecewise).value, Prepare(x, y, model, pOpt),
              sigma, refit, draws[i], i) == Success(r.value.params[i])
    ensures r.Success? ==> forall i, k :: 0 <= i < straps && 0 <= k < |r.value.curves[i]| ==>
      r.value.curves[i][k] == model(EvaluationPoints(x, xpts, res)[k], r.value.params[i])
    ensures r.Failure? && |x| > 0 ==> r.error.RunFailed? && r.error.run.iteration < straps
    ensures r.Failure? && |x| > 0 ==> var it := r.error.run.iteration;
      Iterate(Setup(x, y, |pOpt|, straps, res, xpts, conservative, piecewise).value, Prepare(x, y, model, pOpt),
              sigma, refit, draws[it], it) == Failure(r.error.run)
    ensures r.Failure? && |x| > 0 ==> forall i :: 0 <= i < r.error.run.iteration ==>
      Iterate(Setup(x, y, |pOpt|, straps, res, xpts, conservative, piecewise).value, Prepare(x, y, model, pOpt),
              sigma, refit, draws[i], i).Success?
  {
    var setup := Setup(x, y, |pOpt|, straps, res, xpts, conservative, piecewise);
    if setup.Failure? {
      return Failure(SetupFailed(setup.error));
    }
    var cfg := setup.value;
    var prepared := Prepare(x, y, model, pOpt);
    var run := Bootstrap(cfg, prepared, sigma, draws, refit, model);
    if run.Failure? {
      return Failure(RunFailed(run.error));
    }
    return Success(run.value);
  }
}
