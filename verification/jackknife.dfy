/** The jackknife of `bootstrap_bca`: the leave-one-out index sets of the
    flattened data and the refits made on them. */
module Jackknife {
  import opened Wrappers

  /** numpy's `np.arange(0, n)`. */
  function Range(n: nat): (r: seq<nat>)
    ensures |r| == n && forall k :: 0 <= k < n ==> r[k] == k
  {
    seq(n, k => k)
  }

  /** numpy's `np.delete(s, i)`: `s` without its element at position `i`. */
  function Delete<T>(s: seq<T>, i: nat): seq<T>
    requires i < |s|
  {
    s[..i] + s[i + 1..]
  }

  /** The index sets yielded by `jackknife(data)` for data of length `n`:
      set `i` is `0 .. n-1` with `i` deleted. */
  function IndexSets(n: nat): (sets: seq<seq<nat>>)
    ensures |sets| == n
    ensures forall i :: 0 <= i < n ==> |sets[i]| == n - 1
    ensures forall i, k :: 0 <= i < n && 0 <= k < n - 1 ==>
      sets[i][k] == if k < i then k else k + 1
  {
    var base := Range(n);
    seq(n, i requires 0 <= i < n => Delete(base, i))
  }

  /** Set `i` holds exactly the positions other than `i`. */
  lemma IndexSetMembers(n: nat, i: nat, j: int)
    requires i < n
    ensures j in IndexSets(n)[i] <==> 0 <= j < n && j != i
  {
    var s := IndexSets(n)[i];
    if 0 <= j < n && j != i {
      var k := if j < i then j else j - 1;
      assert s[k] == j;
    }
  }

  /** Every index set is strictly ascending, so it holds no position twice. */
  lemma IndexSetAscending(n: nat, i: nat)
    requires i < n
    ensures forall k, l :: 0 <= k < l < n - 1 ==> IndexSets(n)[i][k] < IndexSets(n)[i][l]
  {
  }

  /** Deleting distinct positions gives distinct index sets: one set per
      deleted position. */
  lemma IndexSetsDistinct(n: nat, i: nat, i': nat)
    requires i < n && i' < n && i != i'
    ensures IndexSets(n)[i] != IndexSets(n)[i']
  {
    IndexSetMembers(n, i, i');
    IndexSetMembers(n, i', i');
  }

  /** numpy's fancy indexing `data[idx]`. */
  function Select<T>(data: seq<T>, idx: seq<nat>): (r: seq<T>)
    requires forall k :: 0 <= k < |idx| ==> idx[k] < |data|
    ensures |r| == |idx| && forall k :: 0 <= k < |idx| ==> r[k] == data[idx[k]]
  {
    seq(|idx|, k requires 0 <= k < |idx| => data[idx[k]])
  }

  /** The `i`-th jackknife sample of `data` is `data` with its `i`-th point
      deleted. */
  lemma SampleIsDeletion<T>(data: seq<T>, i: nat)
    requires i < |data|
    ensures Select(data, IndexSets(|data|)[i]) == Delete(data, i)
  {
    var lhs := Select(data, IndexSets(|data|)[i]);
    var rhs := Delete(data, i);
    assert |lhs| == |rhs|;
    forall k | 0 <= k < |lhs|
      ensures lhs[k] == rhs[k]
    {
      if k < i {
        assert rhs[k] == data[k];
      } else {
        assert rhs[k] == data[k + 1];
      }
    }
  }

  datatype FitError = ConvergenceFailure(deleted: nat)

  /** The leave-one-out refits `[curve_fit(func, x[idx], y[idx]) for idx in
      jackknife(y)]`, where `fit` stands for `curve_fit` with the model, the
      guesses and the keyword arguments bound, and returns `None` when the
      solver fails; the first failure aborts the whole computation. */
  method Refits(x: seq<real>, y: seq<real>, fit: (seq<real>, seq<real>) -> Option<seq<real>>)
    returns (r: Result<seq<seq<real>>, FitError>)
    requires |y| <= |x|
    ensures r.Success? ==> |r.value| == |y|
    ensures r.Success? ==> forall i :: 0 <= i < |y| ==>
      fit(Delete(x[..|y|], i), Delete(y, i)) == Some(r.value[i])
    ensures r.Failure? ==> r.error.deleted < |y|
    ensures r.Failure? ==> fit(Delete(x[..|y|], r.error.deleted), Delete(y, r.error.deleted)).None?
    ensures r.Failure? ==> forall i :: 0 <= i < r.error.deleted ==> fit(Delete(x[..|y|], i), Delete(y, i)).Some?
  {
    var sets := IndexSets(|y|);
    var fits: seq<seq<real>> := [];
    var i := 0;
    while i < |y|
      invariant 0 <= i <= |y| && |fits| == i
      invariant forall k :: 0 <= k < i ==> fit(Delete(x[..|y|], k), Delete(y, k)) == Some(fits[k])
    {
      var xs := Select(x, sets[i]);
      var ys := Select(y, sets[i]);
      SampleIsDeletion(x[..|y|], i);
      SampleIsDeletion(y, i);
      assert xs == Select(x[..|y|], sets[i]);
      match fit(xs, ys)
      case None =>
        return Failure(ConvergenceFailure(i));
      case Some(p) =>
        fits := fits + [p];
      i := i + 1;
    }
    return Success(fits);
  }

  /** Every refit sees one point fewer than the data holds. */
  lemma RefitSampleSize(x: seq<real>, y: seq<real>, i: nat)
    requires i < |y| <= |x|
    ensures |Delete(x[..|y|], i)| == |Delete(y, i)| == |y| - 1
  {
  }
}
