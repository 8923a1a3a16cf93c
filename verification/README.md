# Residual bootstrap for curve fits: the discrete core

`BenchtopUtils.py` estimates the uncertainty of nonlinear curve-fit parameters
by residual resampling. `bootstrap_fits` resamples the residuals of a fit, refits
each synthetic data set and collects an ensemble of parameter vectors and fitted
curves. `bootstrap_summary` and `bootstrap_plot` read percentile intervals off
that ensemble. `bootstrap_bca` corrects them for bias and acceleration: it uses
jackknife refits and a stability gate on the ensemble positions it selects.

This Dafny project models the deterministic bookkeeping and decision rules of
those routines. It does so once the randomness and the nonlinear solver are
supplied as inputs:

- `NdArrays` (`ndarrays.dfy`): numpy `float` arrays of one or two dimensions.
  It covers shape, size, the row-major flat view, reshape, element-wise
  `+`/`-`, the `np.tile(...).T` used to widen predictions, and Python's
  `set(x)`.
- `BootstrapSetup` (`setup.dfy`): what `bootstrap_fits` settles before it
  iterates. This is the number of groups `n` (distinct `x` values), the
  replicates `m = y.size // n`, and piecewise mode forced off for a 1-D `y`.
  It also covers the evaluation points (numpy `linspace` over the range of
  `x`, or over two given endpoints), the predicted values and the residuals.
- `Resampling` (`resampling.dfy`): the four resampling branches and the choice
  between them from the two flags:
  - the piecewise-conservative retry loop, over a finite sequence of candidate
    draws;
  - the piecewise-parametric draw of `n` rows of `m` standard-normal samples;
  - the pooled-parametric draw, scaled by the residuals' standard deviation;
  - the pooled-conservative draw from the flattened residuals.
- `BootstrapDriver` (`driver.dfy`): the loop over `n_straps` iterations. Each
  iteration draws a resample from the residuals by the selected branch, adds
  it to the predicted values and refits. The loop builds the
  `n_straps × p_opt.size` parameter ensemble and the `n_straps × xpts.size`
  curve ensemble, and stops at the first failing iteration. It also models
  numpy's broadcasting when a row is stored.
- `Jackknife` (`jackknife.dfy`): the leave-one-out index sets, the samples
  they select and the leave-one-out refits.
- `Percentiles` (`percentiles.dfy`): `np.percentile` with numpy's default
  'linear' method (sort, then interpolate at the virtual index
  `(N - 1) * q / 100`). It also covers the triple of ranks `(100 - CI) / 2`,
  `50` and `(100 + CI) / 2`, and the per-column bands.
- `Bca` (`bca.dfy`): the ordered stability gate of `bootstrap_bca`. Its
  outcomes are NaN abort, extremal abort, near-extremal warning and silent
  pass. It also covers the bounds read at the adjusted ranks when the gate
  lets them through.

The fit solver (`scipy.optimize.curve_fit`) is a function parameter. It returns
`None` where the solver raises. The model function `func` is a parameter
evaluated point by point. The random draws of each iteration are parameters:
- the positions `np.random.choice` picks;
- the standard-normal samples behind `np.random.normal`.

The pooled residuals' standard deviation `resid.std()` is a parameter too. The
retry loop of piecewise-conservative resampling has no cap in the source. Here
it runs over a finite sequence of candidate draws and reports `Degenerate`
when they run out.

Behaviour of the code that the model keeps:

- An `xpts` argument of exactly two elements is read as the endpoints of a
  grid of `res` points, ascending or descending as the two endpoints are
  given (lines 62-63). Any other `xpts` is used as given.
- With a repeated `x` value and a 2-D `y`, the piecewise branches build `n`
  rows for the `len(x)` rows of `y` (lines 53, 83, 88). The addition at line
  97 then fails (`PiecewiseNeedsOneGroupPerRow`).
- `jackknife` yields `n` index sets for `n` points, each of `n - 1` indices
  (lines 180-181).
- The extremal test of the BCa gate is equality with `0` or `straps - 1`
  (line 219). A position outside `[0, straps - 1]` does not abort.
- A negative confidence level between -100 and 0 is accepted by
  `np.percentile`. The "lower limit" then lies at or above the median
  (`NegativeLevelReversesBounds`).
- With positions in `[0, straps - 1]`, the BCa gate passes silently only when
  there are at least 21 bootstrap samples (`StableNeedsTwentyOneSamples`).

## Model

| member | source | states |
|---|---|---|
| NdArrays.DistinctBounds | BenchtopUtils.py:52-53 | `len(set(x))` is at most `len(x)`, and at least 1 when `x` is non-empty |
| NdArrays.Flat | BenchtopUtils.py:94 | the flat view has `size` entries, and entry `(i, j)` of a matrix with `c` columns is flat entry `i * c + j` (row-major order) |
| NdArrays.Plus | BenchtopUtils.py:97 | `a + b` keeps the shape, and every flat entry is the sum of the two flat entries at that position |
| NdArrays.Minus | BenchtopUtils.py:72 | `a - b` keeps the shape, and every flat entry is the difference of the two flat entries at that position |
| NdArrays.PlusMinusCancel | BenchtopUtils.py:72 | adding the residuals `y - y_fit` back onto `y_fit` gives back `y` exactly |
| NdArrays.Reshape | BenchtopUtils.py:94 | reshaping a flat sequence into a shape yields an array of that shape whose flat view is the sequence (reshape/flatten round trip) |
| NdArrays.ConcatMembership | BenchtopUtils.py:94 | a value is in the flat view of a matrix if and only if it is in one of its rows |
| BootstrapSetup.Min | BenchtopUtils.py:62 | `x.min()` is an element of `x` and no element is smaller |
| BootstrapSetup.Max | BenchtopUtils.py:62 | `x.max()` is an element of `x` and no element is larger |
| BootstrapSetup.Linspace | BenchtopUtils.py:62-63 | `linspace(a, b, num)` has `num` points, starts at `a` and ends exactly at `b` |
| BootstrapSetup.LinspacePoint | BenchtopUtils.py:62-63 | an interior grid point is `a` plus `k` equal steps of `(b - a) / (num - 1)`, and lies between `a` and `b` whichever is larger |
| BootstrapSetup.LinspaceAscending | BenchtopUtils.py:62 | for `a <= b` the grid is ascending and every point lies in `[a, b]` |
| BootstrapSetup.LinspaceDescending | BenchtopUtils.py:63 | for `b <= a` (a two-element `xpts` in decreasing order) the grid is descending and every point lies in `[b, a]` |
| BootstrapSetup.FloorDivision | BenchtopUtils.py:56 | `y.size // n` is the largest `m` with `n * m <= y.size` |
| BootstrapSetup.EvaluationPoints | BenchtopUtils.py:61-63 | default: `res` points from `min(x)` to `max(x)` inside that range; two-element `xpts`: `res` points between its two entries; otherwise `xpts` unchanged |
| BootstrapSetup.Setup | BenchtopUtils.py:52-63 | fails exactly when `x` is empty (the `// 0`); otherwise `n` is the distinct-value count, `m` is `y.size // n`, piecewise mode holds only for a 2-D `y` with the flag set, and the evaluation points are as above |
| BootstrapSetup.Prepare | BenchtopUtils.py:65-72 | predicted values and residuals both have the shape of `y`; every entry of row `i` of the prediction is `func(x[i], p_opt)`; prediction plus residuals is `y` |
| BootstrapSetup.PiecewiseShape | BenchtopUtils.py:53-56 | with distinct `x` values and a matrix `y`, `n × m` is exactly the shape of `y` (and so of the residuals) |
| Resampling.PolicyOf | BenchtopUtils.py:80-94 | the four branches are in one-to-one correspondence with the two flags: piecewise exactly when `piecewise`, conservative exactly when `conservative` |
| Resampling.VariesIffTwoDiffer | BenchtopUtils.py:84 | `len(set(s)) > 1` holds if and only if two entries of `s` differ |
| Resampling.DrawPiecewise | BenchtopUtils.py:80-84 | an accepted resample is an `n × m` matrix, each row's values come from that row's residuals, every row varies, and it is the first acceptable candidate; `Degenerate` is returned if and only if no candidate is acceptable |
| Resampling.ConstantGroupIsDegenerate | BenchtopUtils.py:81-84 | if some group's residuals take fewer than two distinct values, no draw is ever accepted (the source would loop forever) |
| Resampling.SingleReplicateIsDegenerate | BenchtopUtils.py:83-84 | with fewer than two replicates per group, no draw is ever accepted |
| Resampling.DrawPooled | BenchtopUtils.py:93-94 | the pooled draw has exactly the shape of the residuals; its flat entry `i` is the residual at the `i`-th chosen position; every value in it is a residual |
| Resampling.PooledEntriesAreResiduals | BenchtopUtils.py:94 | every entry of a matrix-shaped pooled draw, row by row, is one of the flattened residuals |
| Resampling.DrawPooledNormal | BenchtopUtils.py:89-91 | the pooled normal draw has the shape of the residuals, and flat entry `i` is `sigma` times standard-normal sample `i` |
| Resampling.Resample | BenchtopUtils.py:80-94 | the resample of the selected branch: it fails if and only if the branch is piecewise-conservative and no candidate varies in every group; piecewise resamples are `n × m`, pooled ones have the residuals' shape; a piecewise-conservative resample varies in every group and takes each row from that group's residuals; a pooled-conservative one holds only residual values |
| Resampling.GroupNormalsIgnoreResiduals | BenchtopUtils.py:87-88 | the piecewise-parametric resample is the same whatever the residuals are: the group deviations computed at line 87 are unused at line 88 |
| BootstrapDriver.StoreRow | BenchtopUtils.py:107-115 | storing a refit into a row of width `p` succeeds exactly when the refit has `p` entries or one entry (broadcast); the stored row has `p` entries, all taken from the refit |
| BootstrapDriver.StoreRowKeepsMatchingFit | BenchtopUtils.py:107-115 | a refit of the row's own length is stored unchanged |
| BootstrapDriver.Step | BenchtopUtils.py:96-115 | an iteration's refit is stored if and only if the solver converges on `y_fit + resample` and its result broadcasts into a row of `p_opt.size`; the row is that stored refit; a failure names its iteration and is a convergence failure exactly when the solver failed |
| BootstrapDriver.Iterate | BenchtopUtils.py:80-115 | iteration `i` fails for want of a resample exactly when the branch's resample fails, fails on the addition `y_fit + resample` exactly when the resample's shape differs from `y`'s, and otherwise is the refit step on that resample |
| BootstrapDriver.PiecewiseNeedsOneGroupPerRow | BenchtopUtils.py:80-97 | in piecewise mode with fewer groups than rows of `y`, every iteration fails before its refit |
| BootstrapDriver.GroupsFillRowsAlwaysAlign | BenchtopUtils.py:80-97 | when `n × m` is the shape of `y` (which `PiecewiseShape` gives for distinct `x` values), no iteration fails on the addition `y_fit + resample`, whatever the branch |
| BootstrapDriver.Bootstrap | BenchtopUtils.py:74-119 | on success the ensembles are `n_straps × p` and `n_straps × xpts.size`; row `i` is the result of iteration `i`, and curve entry `(i, k)` is the model at `xpts[k]` with row `i`; on failure, every earlier iteration succeeded and the named iteration failed |
| BootstrapDriver.BootstrapFits | BenchtopUtils.py:47-119 | empty `x` fails in set-up; otherwise, with the set-up configuration and residuals, success holds if and only if every iteration succeeds; there are then `n_straps` rows of `p_opt.size` parameters, row `i` being iteration `i`'s result, and the curves are the model at the evaluation points (`res` of them for the default or two-element `xpts`); a failure names the first failing iteration |
| Jackknife.IndexSets | BenchtopUtils.py:173-181 | data of length `n` yields exactly `n` index sets of `n - 1` indices each; entry `k` of set `i` is `k` below `i` and `k + 1` from `i` on |
| Jackknife.IndexSetMembers | BenchtopUtils.py:175-181 | set `i` contains `j` if and only if `0 <= j < n` and `j != i` |
| Jackknife.IndexSetAscending | BenchtopUtils.py:180-181 | every index set is strictly ascending |
| Jackknife.IndexSetsDistinct | BenchtopUtils.py:180-181 | different deleted positions give different index sets, one per position |
| Jackknife.SampleIsDeletion | BenchtopUtils.py:177-178 | the `i`-th jackknife sample of the data is the data with its `i`-th point deleted |
| Jackknife.Refits | BenchtopUtils.py:197-198 | on success there is one refit per data point, refit `i` being the fit to the data without point `i`; on failure, the named deletion failed and all earlier ones succeeded |
| Jackknife.RefitSampleSize | BenchtopUtils.py:197-198 | every leave-one-out refit sees `len(y) - 1` points |
| Percentiles.Sort | BenchtopUtils.py:134 | the sorted column is ascending and a permutation of the column |
| Percentiles.Interpolate | BenchtopUtils.py:134 | the floor of the virtual index `(N - 1) * q / 100` is a valid position, and at an integral virtual index the result is exactly the order statistic there |
| Percentiles.Percentile | BenchtopUtils.py:134 | `np.percentile(column, 0)` is the smallest value of the column and `np.percentile(column, 100)` the largest |
| Percentiles.InterpolateBracket | BenchtopUtils.py:134 | the linear percentile lies between the order statistics at the floor of the virtual index and the one after it |
| Percentiles.InterpolateMonotone | BenchtopUtils.py:134-136 | on sorted values the linear percentile never decreases as the rank grows |
| Percentiles.PercentileMonotone | BenchtopUtils.py:134-136 | `np.percentile(column, q)` is monotone in `q` over `[0, 100]` |
| Percentiles.PercentileWithinRange | BenchtopUtils.py:134 | every percentile is bounded below and above by values of the column |
| Percentiles.SortedUnique | BenchtopUtils.py:134 | two ascending sequences holding the same multiset of values are equal |
| Percentiles.PercentileOrderIndependent | BenchtopUtils.py:134-136 | the percentile depends only on the multiset of ensemble values, not on the order of the iterations |
| Percentiles.LowerRank | BenchtopUtils.py:134 | for `CI` in `[-100, 100]` the rank `(100 - CI) / 2` is in `[0, 100]`, and for `CI >= 0` it is at most 50 |
| Percentiles.UpperRank | BenchtopUtils.py:136 | for `CI` in `[-100, 100]` the rank `(100 + CI) / 2` is in `[0, 100]`, and for `CI >= 0` it is at least 50 |
| Percentiles.Triple | BenchtopUtils.py:134-136 | the triple exists exactly when `CI` is in `[-100, 100]` (numpy raises otherwise); lower, median and upper are the percentiles at `(100 - CI) / 2`, 50 and `(100 + CI) / 2`; for `CI >= 0`, lower <= median <= upper |
| Percentiles.TripleWidens | BenchtopUtils.py:134-136 | a larger confidence level never narrows the interval: lower bound not higher, upper bound not lower |
| Percentiles.NegativeLevelReversesBounds | BenchtopUtils.py:134-136 | for `CI` in `[-100, 0)`, upper <= median <= lower |
| Percentiles.Bands | BenchtopUtils.py:123-125 | per column, the triple of that column at level `CI`; exists exactly when `CI` is in `[-100, 100]`; ordered lower <= median <= upper for `CI >= 0` |
| Percentiles.BandsNest | BenchtopUtils.py:123-125 | for `0 <= CI1 <= CI2 <= 100`, every column's `CI2` band contains its `CI1` band |
| Bca.Gate | BenchtopUtils.py:214-227 | NaN aborts if and only if some adjusted percentile is NaN; otherwise an extremal abort if and only if some position is `0` or `straps - 1`; otherwise a warning if and only if some position is below 10 or at least `straps - 10`; a silent pass if and only if no NaN and every position is in `[10, straps - 10)` |
| Bca.ExtremalOutranksWarning | BenchtopUtils.py:219-227 | a position at either end also meets the warning test, yet the gate aborts: the extremal check comes first |
| Bca.StableNeedsTwentyOneSamples | BenchtopUtils.py:219-227 | with positions in `[0, straps - 1]`, a silent pass needs `straps >= 21` |
| Bca.BcaBounds | BenchtopUtils.py:214-236 | bounds are returned if and only if the gate neither aborts for NaN nor for an extremal sample; then, per parameter, lower/median/upper are the percentiles of its column at the adjusted lower rank, 50 and the adjusted upper rank, ordered when the ranks straddle 50 |
| Bca.NominalRanksGivePercentileBounds | BenchtopUtils.py:206-236 | when the adjusted ranks are the nominal `(100 ∓ CI) / 2` (no bias, no acceleration) and the gate passes, the BCa bounds equal the percentile-method bounds |

## Left out

- `scipy.optimize.curve_fit` is a function parameter that returns `None` where the solver raises. The guess generator and default guesses (lines 99-104) are folded into that parameter. So are the per-group mean/std weighting of 2-D data (lines 111-115) and the keyword arguments. These are a foreign nonlinear solver and its floating-point statistics.
- `np.random.choice` and `np.random.normal` (lines 83, 88, 91, 94) are not modelled. Their outcomes are inputs: chosen positions, and standard-normal samples. The pooled scale `resid.std()` (line 90) is an input as well.
- The per-group deviations of line 87 are floating-point statistics that the code never uses. They are not modelled.
- The unbounded retry loop (lines 81-84) runs over a finite sequence of candidate draws. Exhausting them yields `Degenerate` where the source would keep drawing.
- BootstrapDriver.Iterate: a resample whose shape differs from `y`'s is a `ShapeMismatch`. numpy would still broadcast one such case: a single group (every `x` equal) with a one-column `y`, adding `(len(x), 1)` to `(1, len(x))`. The model does not follow that square result.
- `norm_cdf`, `norm_ppf`, the bias `z0`, the acceleration `a`, `avals` and the rounding to `nvals` (lines 167-171, 195-212) are transcendental floating-point numerics. The gate takes `nvals` and a NaN flag as inputs. `BcaBounds` takes the adjusted ranks `100 * avals` as inputs. The point-estimate refit of line 193 is left out with them.
- Bca.Gate: the positions of all parameters and both tails are one flattened sequence. Which parameter and tail triggered a warning is not reported, as in the source.
- `bootstrap_bca` also returns `avals`; that output is not modelled.
- The classical intervals (lines 7-33) are closed-form floating-point statistics and are left out.
- Plotting (lines 128-130, 144-160, including the undefined `axs_` at line 155) is left out, and so are pandas `DataFrame` formatting, `tqdm` progress and the wording of `warnings`. They are presentation only.
- Floating point is modelled by `real`. NaN, rounding and overflow do not arise in the model.
- `x` is a 1-D sequence. `Prepare` requires the `x`/`y` agreement that the header comment of `bootstrap_fits` states (lines 49-50). numpy broadcasting of other shape combinations is not modelled.
- `func` is evaluated point by point. A model that is not element-wise over `x` is outside the model.
- `n_straps` and `res` are natural numbers. numpy raises for negative values, and that error path is not modelled.
- The percentile functions require a non-empty ensemble (`n_straps >= 1`). numpy's behaviour on an empty ensemble is not modelled.
- Jackknife.Refits requires `len(y) <= len(x)`: indexing `x[idx]` raises otherwise, and that error path is not modelled.
