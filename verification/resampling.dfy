/** The residual resamples `bootstrap_fits` draws in each iteration. The
    random draws are inputs: the positions `np.random.choice` picks, the
    standard-normal samples behind `np.random.normal`. */
module Resampling {
  import opened Wrappers
  import opened NdArrays

  /** The four branches selected by the `piecewise` and `conservative` flags. */
  datatype Policy = PiecewiseConservative | PiecewiseParametric | PooledParametric | PooledConservative

  /** The branch taken for the two flags, tested in the order of the source. */
  function PolicyOf(piecewise: bool, conservative: bool): (p: Policy)
    ensures (p.PiecewiseConservative? || p.PiecewiseParametric?) <==> piecewise
    ensures (p.PiecewiseConservative? || p.PooledConservative?) <==> conservative
  {
    if piecewise && conservative then PiecewiseConservative
    else if piecewise && !conservative then PiecewiseParametric
    else if !piecewise && !conservative then PooledParametric
    else PooledConservative
  }

  // ---------------------------------------------------------------------------
  // Piecewise, conservative: each group resampled from its own residuals,
  // retried until every group shows variation.

  /** One draw of `[np.random.choice(resid[row], size = m) for row in
      range(n)]`, given as the positions chosen within each row. */
  predicate ValidDraw(resid: seq<seq<real>>, n: nat, m: nat, draw: seq<seq<nat>>)
  {
    && n <= |resid|
    && |draw| == n
    && (forall row :: 0 <= row < n ==> |draw[row]| == m)
    && (forall row, j :: 0 <= row < n && 0 <= j < |draw[row]| ==> draw[row][j] < |resid[row]|)
  }

  /** The residual values a draw picks. */
  function Materialize(resid: seq<seq<real>>, n: nat, m: nat, draw: seq<seq<nat>>): (rows: seq<seq<real>>)
    requires ValidDraw(resid, n, m, draw)
    ensures |rows| == n && Rectangular(rows, m)
    ensures forall row, j :: 0 <= row < n && 0 <= j < m ==> rows[row][j] == resid[row][draw[row][j]]
  {
    seq(n, row requires 0 <= row < n =>
      seq(m, j requires 0 <= j < m => resid[row][draw[row][j]]))
  }

  /** `len(set(s)) > 1`: the group shows at least two distinct values. */
  predicate Varies(s: seq<real>)
  {
    |Distinct(s)| > 1
  }

  /** A group varies exactly when two of its entries differ. */
  lemma VariesIffTwoDiffer(s: seq<real>)
    ensures Varies(s) <==> exists i, j :: 0 <= i < |s| && 0 <= j < |s| && s[i] != s[j]
  {
    if Varies(s) && !exists i, j :: 0 <= i < |s| && 0 <= j < |s| && s[i] != s[j] {
      if |s| > 0 {
        assert Distinct(s) <= {s[0]};
        SubsetCardinality(Distinct(s), {s[0]});
      }
    }
    if exists i, j :: 0 <= i < |s| && 0 <= j < |s| && s[i] != s[j] {
      var i, j :| 0 <= i < |s| && 0 <= j < |s| && s[i] != s[j];
      assert {s[i], s[j]} <= Distinct(s);
      assert |{s[i], s[j]}| == 2;
      SubsetCardinality({s[i], s[j]}, Distinct(s));
    }
  }

  lemma SubsetCardinality(a: set<real>, b: set<real>)
    requires a <= b
    ensures |a| <= |b|
  {
    assert b == a + (b - a);
  }

  /** The acceptance test of the retry loop: every group varies. */
  predicate Acceptable(rows: seq<seq<real>>)
  {
    forall row :: 0 <= row < |rows| ==> Varies(rows[row])
  }

  datatype ResampleError = Degenerate   // no candidate draw passed the test

  /** The retry loop `while invalid_sample: ...`, run over a finite sequence of
      candidate draws in place of the unbounded random stream: it returns the
      first acceptable draw, as an `n` by `m` matrix, or `Degenerate` when the
      candidates run out. */
  function DrawPiecewise(resid: seq<seq<real>>, n: nat, m: nat, candidates: seq<seq<seq<nat>>>)
    : (r: Result<NdArray, ResampleError>)
    requires n <= |resid|
    requires forall k :: 0 <= k < |candidates| ==> ValidDraw(resid, n, m, candidates[k])
    ensures r.Success? ==> r.value.Matrix? && WellFormed(r.value) && ShapeOf(r.value) == Shape2(n, m)
    ensures r.Success? ==> forall row, j :: 0 <= row < n && 0 <= j < m ==> r.value.rows[row][j] in resid[row]
    ensures r.Success? ==> Acceptable(r.value.rows)
    ensures r.Success? ==> exists k :: (0 <= k < |candidates|
      && r.value.rows == Materialize(resid, n, m, candidates[k])
      && forall k' :: 0 <= k' < k ==> !Acceptable(Materialize(resid, n, m, candidates[k'])))
    ensures r.Failure? <==> forall k :: 0 <= k < |candidates| ==> !Acceptable(Materialize(resid, n, m, candidates[k]))
    decreases |candidates|
  {
    if |candidates| == 0 then Failure(Degenerate)
    else
      var rows := Materialize(resid, n, m, candidates[0]);
      if Acceptable(rows) then Success(Matrix(m, rows))
      else
        var rest := DrawPiecewise(resid, n, m, candidates[1..]);
        assert rest.Success? ==> exists k :: (0 <= k < |candidates|
          && rest.value.rows == Materialize(resid, n, m, candidates[k])
          && forall k' :: 0 <= k' < k ==> !Acceptable(Materialize(resid, n, m, candidates[k']))) by {
          if rest.Success? {
            var k :| 0 <= k < |candidates[1..]|
              && rest.value.rows == Materialize(resid, n, m, candidates[1..][k])
              && forall k' :: 0 <= k' < k ==> !Acceptable(Materialize(resid, n, m, candidates[1..][k']));
            FirstAcceptableShift(resid, n, m, candidates, k);
          }
        }
        NoneAcceptableShift(resid, n, m, candidates);
        rest
  }

  /** The first acceptable candidate after a rejected one is the first
      acceptable candidate overall, one position further on. */
  lemma FirstAcceptableShift(resid: seq<seq<real>>, n: nat, m: nat, candidates: seq<seq<seq<nat>>>, k: nat)
    requires n <= |resid|
    requires forall k :: 0 <= k < |candidates| ==> ValidDraw(resid, n, m, candidates[k])
    requires 0 < |candidates| && !Acceptable(Materialize(resid, n, m, candidates[0]))
    requires k < |candidates| - 1
    requires forall k' :: 0 <= k' < k ==> !Acceptable(Materialize(resid, n, m, candidates[1..][k']))
    ensures candidates[1..][k] == candidates[k + 1]
    ensures forall k' :: 0 <= k' < k + 1 ==> !Acceptable(Materialize(resid, n, m, candidates[k']))
  {
    forall k' | 0 <= k' < k + 1
      ensures !Acceptable(Materialize(resid, n, m, candidates[k']))
    {
      if k' > 0 {
        assert candidates[k'] == candidates[1..][k' - 1];
      }
    }
  }

  /** After a rejected first candidate, none is acceptable exactly when none
      of the rest is. */
  lemma NoneAcceptableShift(resid: seq<seq<real>>, n: nat, m: nat, candidates: seq<seq<seq<nat>>>)
    requires n <= |resid|
    requires forall k :: 0 <= k < |candidates| ==> ValidDraw(resid, n, m, candidates[k])
    requires 0 < |candidates| && !Acceptable(Materialize(resid, n, m, candidates[0]))
    ensures (forall k :: 0 <= k < |candidates[1..]| ==> !Acceptable(Materialize(resid, n, m, candidates[1..][k])))
      <==> (forall k :: 0 <= k < |candidates| ==> !Acceptable(Materialize(resid, n, m, candidates[k])))
  {
    assert forall k :: 1 <= k < |candidates| ==> candidates[k] == candidates[1..][k - 1];
  }

  /** A group whose residuals take fewer than two distinct values can never
      vary, so no draw is ever accepted and the retry loop reports `Degenerate`
      (the source loops forever). */
  lemma ConstantGroupIsDegenerate(resid: seq<seq<real>>, n: nat, m: nat, draw: seq<seq<nat>>, row: nat)
    requires ValidDraw(resid, n, m, draw)
    requires row < n && |Distinct(resid[row])| <= 1
    ensures !Acceptable(Materialize(resid, n, m, draw))
  {
    var rows := Materialize(resid, n, m, draw);
    assert Distinct(rows[row]) <= Distinct(resid[row]);
    SubsetCardinality(Distinct(rows[row]), Distinct(resid[row]));
  }

  /** With fewer than two replicates per group no draw can vary either. */
  lemma SingleReplicateIsDegenerate(resid: seq<seq<real>>, n: nat, m: nat, draw: seq<seq<nat>>)
    requires ValidDraw(resid, n, m, draw)
    requires 0 < n && m < 2
    ensures !Acceptable(Materialize(resid, n, m, draw))
  {
    DistinctBounds(Materialize(resid, n, m, draw)[0]);
  }

  // ---------------------------------------------------------------------------
  // Pooled draws.

  /** `np.random.choice(resid.flat, size = resid.shape)`, given the flat
      positions chosen: a resample of the residuals' shape made only of
      residual values. */
  function DrawPooled(resid: NdArray, picks: seq<nat>): (r: NdArray)
    requires WellFormed(resid)
    requires |picks| == Size(resid)
    requires forall i :: 0 <= i < |picks| ==> picks[i] < Size(resid)
    ensures WellFormed(r) && ShapeOf(r) == ShapeOf(resid)
    ensures forall i :: 0 <= i < Size(r) ==> Flat(r)[i] == Flat(resid)[picks[i]]
    ensures forall v :: v in Flat(r) ==> v in Flat(resid)
  {
    var flat := Flat(resid);
    Reshape(seq(|picks|, i requires 0 <= i < |picks| => flat[picks[i]]), ShapeOf(resid))
  }

  /** Every entry of a pooled resample, row by row, is one of the residuals. */
  lemma PooledEntriesAreResiduals(resid: NdArray, picks: seq<nat>)
    requires WellFormed(resid)
    requires |picks| == Size(resid)
    requires forall i :: 0 <= i < |picks| ==> picks[i] < Size(resid)
    ensures var r := DrawPooled(resid, picks);
      r.Matrix? ==> forall i, j :: 0 <= i < |r.rows| && 0 <= j < |r.rows[i]| ==> r.rows[i][j] in Flat(resid)
  {
    var r := DrawPooled(resid, picks);
    if r.Matrix? {
      forall i, j | 0 <= i < |r.rows| && 0 <= j < |r.rows[i]|
        ensures r.rows[i][j] in Flat(resid)
      {
        ConcatMembership(r.rows, r.rows[i][j]);
      }
    }
  }

  /** `np.random.normal(0, sigma, size = resid.shape)`, given standard-normal
      samples `z`: each entry is `sigma` times its sample, in the residuals'
      shape. `sigma` is `resid.std()`, a floating-point statistic taken as input. */
  function DrawPooledNormal(resid: NdArray, sigma: real, z: seq<real>): (r: NdArray)
    requires WellFormed(resid) && |z| == Size(resid)
    ensures WellFormed(r) && ShapeOf(r) == ShapeOf(resid)
    ensures forall i :: 0 <= i < Size(r) ==> Flat(r)[i] == sigma * z[i]
  {
    Reshape(seq(|z|, i requires 0 <= i < |z| => sigma * z[i]), ShapeOf(resid))
  }

  // ---------------------------------------------------------------------------
  // One iteration's resample, whatever the branch.

  /** The random input of one iteration, by branch: the candidate draws of the
      retry loop, the `n` rows of `m` standard-normal samples of the
      piecewise-parametric branch, the standard-normal samples of the pooled
      parametric branch, or the flat positions of the pooled conservative one. */
  datatype Draw =
    | Candidates(candidates: seq<seq<seq<nat>>>)
    | GroupNormals(samples: seq<seq<real>>)
    | PooledNormals(z: seq<real>)
    | Picks(picks: seq<nat>)

  /** The draw is of the kind and size the branch asks the random generator
      for, and every position it names lies within the residuals. */
  predicate DrawFits(policy: Policy, resid: NdArray, n: nat, m: nat, d: Draw)
    requires WellFormed(resid)
  {
    match policy
    case PiecewiseConservative =>
      && d.Candidates? && resid.Matrix? && n <= |resid.rows|
      && forall k :: 0 <= k < |d.candidates| ==> ValidDraw(resid.rows, n, m, d.candidates[k])
    case PiecewiseParametric =>
      d.GroupNormals? && |d.samples| == n && Rectangular(d.samples, m)
    case PooledParametric =>
      d.PooledNormals? && |d.z| == Size(resid)
    case PooledConservative =>
      && d.Picks? && |d.picks| == Size(resid)
      && forall i :: 0 <= i < |d.picks| ==> d.picks[i] < Size(resid)
  }

  /** The resample of lines 80-94 for the branch `policy`. The
      piecewise-parametric branch returns its standard-normal samples as they
      are: the group deviations it computes play no part. `sigma` is
      `resid.std()`. */
  function Resample(policy: Policy, resid: NdArray, n: nat, m: nat, sigma: real, d: Draw)
    : (r: Result<NdArray, ResampleError>)
    requires WellFormed(resid) && DrawFits(policy, resid, n, m, d)
    ensures r.Failure? <==> (policy.PiecewiseConservative? &&
      forall k :: 0 <= k < |d.candidates| ==> !Acceptable(Materialize(resid.rows, n, m, d.candidates[k])))
    ensures r.Success? ==> WellFormed(r.value)
    ensures r.Success? && (policy.PiecewiseConservative? || policy.PiecewiseParametric?) ==>
      ShapeOf(r.value) == Shape2(n, m)
    ensures r.Success? && (policy.PooledConservative? || policy.PooledParametric?) ==>
      ShapeOf(r.value) == ShapeOf(resid)
    ensures r.Success? && policy.PiecewiseConservative? ==>
      Acceptable(r.value.rows) && forall row, j :: 0 <= row < n && 0 <= j < m ==> r.value.rows[row][j] in resid.rows[row]
    ensures r.Success? && policy.PooledConservative? ==> forall v :: v in Flat(r.value) ==> v in Flat(resid)
  {
    match policy
    case PiecewiseConservative => DrawPiecewise(resid.rows, n, m, d.candidates)
    case PiecewiseParametric => Success(Matrix(m, d.samples))
    case PooledParametric => Success(DrawPooledNormal(resid, sigma, d.z))
    case PooledConservative => Success(DrawPooled(resid, d.picks))
  }

  /** As the code stands, the piecewise-parametric resample does not depend on
      the residuals at all. */
  lemma GroupNormalsIgnoreResiduals(resid: NdArray, resid': NdArray, n: nat, m: nat, sigma: real, d: Draw)
    requires WellFormed(resid) && WellFormed(resid')
    requires DrawFits(PiecewiseParametric, resid, n, m, d)
    ensures DrawFits(PiecewiseParametric, resid', n, m, d)
    ensures Resample(PiecewiseParametric, resid, n, m, sigma, d) == Resample(PiecewiseParametric, resid', n, m, sigma, d)
  {
  }
}
