/** numpy's `np.percentile` with its default 'linear' method, and the
    percentile-interval triple that `bootstrap_summary` and `bootstrap_plot`
    read off a bootstrap ensemble. */
module Percentiles {
  import opened Wrappers

  predicate Sorted(s: seq<real>)
  {
    forall i, j :: 0 <= i <= j < |s| ==> s[i] <= s[j]
  }

  /** Inserts `x` into the sorted sequence `s`. */
  function Insert(x: real, s: seq<real>): (r: seq<real>)
    requires Sorted(s)
    ensures Sorted(r)
    ensures multiset(r) == multiset(s) + multiset{x}
    ensures |r| > 0 && (r[0] == x || (|s| > 0 && r[0] == s[0]))
  {
    if |s| == 0 then [x]
    else if x <= s[0] then [x] + s
    else
      var t := Insert(x, s[1..]);
      assert s == [s[0]] + s[1..];
      [s[0]] + t
  }

  /** The ascending rearrangement of `s`, as numpy sorts before interpolating. */
  function Sort(s: seq<real>): (r: seq<real>)
    ensures Sorted(r)
    ensures multiset(r) == multiset(s)
  {
    if |s| == 0 then []
    else
      assert s == [s[0]] + s[1..];
      Insert(s[0], Sort(s[1..]))
  }

  /** The virtual index `(N - 1) * q / 100` of rank `q` in `N` values. */
  function VirtualIndex(n: nat, q: real): real
  {
    (n - 1) as real * q / 100.0
  }

  lemma VirtualIndexRange(n: nat, q: real)
    requires n > 0 && 0.0 <= q <= 100.0
    ensures 0.0 <= VirtualIndex(n, q) <= (n - 1) as real
  {
    var k := (n - 1) as real;
    assert k * q <= k * 100.0;
  }

  lemma VirtualIndexMonotone(n: nat, q1: real, q2: real)
    requires n > 0 && q1 <= q2
    ensures VirtualIndex(n, q1) <= VirtualIndex(n, q2)
  {
    var k := (n - 1) as real;
    assert k * q1 <= k * q2;
  }

  /** Rank 0 falls on the first order statistic and rank 100 on the last. */
  lemma VirtualIndexEnds(n: nat)
    requires n > 0
    ensures VirtualIndex(n, 0.0) == 0.0 && VirtualIndex(n, 0.0).Floor == 0
    ensures VirtualIndex(n, 100.0) == (n - 1) as real && VirtualIndex(n, 100.0).Floor == n - 1
  {
  }

  /** Linear interpolation between the two order statistics around the
      virtual index of rank `q` in the sorted values `s`; at an integral
      virtual index it is exactly the order statistic there. */
  function Interpolate(s: seq<real>, q: real): (r: real)
    requires |s| > 0 && 0.0 <= q <= 100.0
    ensures 0 <= VirtualIndex(|s|, q).Floor < |s|
    ensures VirtualIndex(|s|, q).Floor as real == VirtualIndex(|s|, q) ==> r == s[VirtualIndex(|s|, q).Floor]
  {
    VirtualIndexRange(|s|, q);
    var h := VirtualIndex(|s|, q);
    var lo := h.Floor;
    if lo + 1 < |s| then s[lo] + (h - lo as real) * (s[lo + 1] - s[lo]) else s[lo]
  }

  /** The first and the last of the sorted values are the smallest and the
      largest of the data. */
  lemma SortedEnds(data: seq<real>)
    requires |data| > 0
    ensures |Sort(data)| == |data|
    ensures Sort(data)[0] in data && Sort(data)[|data| - 1] in data
    ensures forall i :: 0 <= i < |data| ==> Sort(data)[0] <= data[i] <= Sort(data)[|data| - 1]
  {
    var s := Sort(data);
    assert |s| == |multiset(s)| == |multiset(data)| == |data|;
    assert s[0] in multiset(data) && s[|s| - 1] in multiset(data);
    forall i | 0 <= i < |data|
      ensures s[0] <= data[i] <= s[|s| - 1]
    {
      assert data[i] in multiset(s);
      var j :| 0 <= j < |s| && s[j] == data[i];
    }
  }

  /** The `q`-th percentile of `data`; numpy raises for a rank outside
      [0, 100]. The 0th percentile is the smallest value and the 100th the
      largest. */
  function Percentile(data: seq<real>, q: real): (r: real)
    requires |data| > 0 && 0.0 <= q <= 100.0
    ensures q == 0.0 ==> r in data && forall i :: 0 <= i < |data| ==> r <= data[i]
    ensures q == 100.0 ==> r in data && forall i :: 0 <= i < |data| ==> data[i] <= r
  {
    SortedEnds(data);
    VirtualIndexEnds(|data|);
    Interpolate(Sort(data), q)
  }

  /** With weight `t` in [0, 1], `lo + t * (hi - lo)` stays between `lo` and `hi`. */
  lemma Between(lo: real, hi: real, t: real)
    requires lo <= hi && 0.0 <= t <= 1.0
    ensures lo <= lo + t * (hi - lo) <= hi
  {
    assert t * (hi - lo) <= 1.0 * (hi - lo);
  }

  /** The interpolated value lies between the order statistics at the floor of
      the virtual index and the one after it. */
  lemma InterpolateBracket(s: seq<real>, q: real)
    requires |s| > 0 && 0.0 <= q <= 100.0 && Sorted(s)
    ensures VirtualIndex(|s|, q).Floor < |s|
    ensures var lo := VirtualIndex(|s|, q).Floor;
      0 <= lo && s[lo] <= Interpolate(s, q) <= s[if lo + 1 < |s| then lo + 1 else lo]
  {
    VirtualIndexRange(|s|, q);
    var h := VirtualIndex(|s|, q);
    var lo := h.Floor;
    if lo + 1 < |s| {
      Between(s[lo], s[lo + 1], h - lo as real);
    }
  }

  /** On sorted values the interpolated percentile never decreases with its rank. */
  lemma InterpolateMonotone(s: seq<real>, q1: real, q2: real)
    requires |s| > 0 && 0.0 <= q1 <= q2 <= 100.0 && Sorted(s)
    ensures Interpolate(s, q1) <= Interpolate(s, q2)
  {
    VirtualIndexRange(|s|, q1);
    VirtualIndexRange(|s|, q2);
    VirtualIndexMonotone(|s|, q1, q2);
    var h1, h2 := VirtualIndex(|s|, q1), VirtualIndex(|s|, q2);
    var lo1, lo2 := h1.Floor, h2.Floor;
    InterpolateBracket(s, q1);
    InterpolateBracket(s, q2);
    if lo1 == lo2 {
      if lo1 + 1 < |s| {
        var d := s[lo1 + 1] - s[lo1];
        assert (h1 - lo1 as real) * d <= (h2 - lo1 as real) * d;
      }
    } else {
      assert lo1 < lo2;
      assert s[lo1 + 1] <= s[lo2];
    }
  }

  /** Rank-monotonicity of the percentile. */
  lemma PercentileMonotone(data: seq<real>, q1: real, q2: real)
    requires |data| > 0 && 0.0 <= q1 <= q2 <= 100.0
    ensures Percentile(data, q1) <= Percentile(data, q2)
  {
    assert |Sort(data)| == |multiset(Sort(data))| == |multiset(data)| == |data|;
    InterpolateMonotone(Sort(data), q1, q2);
  }

  /** Every percentile is one of the values or lies between two of them:
      it is bounded by the smallest and the largest value. */
  lemma {:induction false} PercentileWithinRange(data: seq<real>, q: real)
    requires |data| > 0 && 0.0 <= q <= 100.0
    ensures exists i :: 0 <= i < |data| && data[i] <= Percentile(data, q)
    ensures exists j :: 0 <= j < |data| && Percentile(data, q) <= data[j]
  {
    var s := Sort(data);
    assert |s| == |multiset(s)| == |multiset(data)| == |data|;
    InterpolateBracket(s, q);
    var lo := VirtualIndex(|s|, q).Floor;
    var hi := if lo + 1 < |s| then lo + 1 else lo;
    assert s[lo] in multiset(data);
    assert s[hi] in multiset(data);
    var i :| 0 <= i < |data| && data[i] == s[lo];
    var j :| 0 <= j < |data| && data[j] == s[hi];
  }

  /** Two sorted sequences holding the same values start with the same value. */
  lemma SortedSameHead(a: seq<real>, b: seq<real>)
    requires Sorted(a) && Sorted(b) && multiset(a) == multiset(b) && |a| > 0
    ensures |b| > 0 && a[0] == b[0]
  {
    assert a[0] in multiset(b);
    assert b[0] in multiset(a);
    var j :| 0 <= j < |b| && b[j] == a[0];
    var i :| 0 <= i < |a| && a[i] == b[0];
    assert b[0] <= b[j];
    assert a[0] <= a[i];
  }

  /** Removing the first value removes it from the multiset. */
  lemma TailMultiset(a: seq<real>)
    requires |a| > 0
    ensures multiset(a[1..]) == multiset(a) - multiset{a[0]}
  {
    assert a == [a[0]] + a[1..];
  }

  /** Two sorted sequences holding the same values are the same sequence. */
  lemma {:induction false} SortedUnique(a: seq<real>, b: seq<real>)
    requires Sorted(a) && Sorted(b) && multiset(a) == multiset(b)
    ensures a == b
  {
    assert |a| == |multiset(a)| == |multiset(b)| == |b|;
    if |a| > 0 {
      SortedSameHead(a, b);
      TailMultiset(a);
      TailMultiset(b);
      SortedUnique(a[1..], b[1..]);
      assert a == [a[0]] + a[1..] && b == [b[0]] + b[1..];
    }
  }

  /** The percentile depends only on which values the ensemble holds, not on
      the order in which the bootstrap iterations produced them. */
  lemma PercentileOrderIndependent(a: seq<real>, b: seq<real>, q: real)
    requires |a| > 0 && multiset(a) == multiset(b) && 0.0 <= q <= 100.0
    ensures |b| > 0
    ensures Percentile(a, q) == Percentile(b, q)
  {
    assert |b| == |multiset(b)| == |multiset(a)| == |a|;
    SortedUnique(Sort(a), Sort(b));
  }

  /** The lower bound, the median and the upper bound at one confidence level. */
  datatype Interval = Interval(lower: real, median: real, upper: real)

  datatype PercentileError = RankOutOfRange

  /** The ranks `(100 - CI) / 2` and `(100 + CI) / 2` requested for a
      confidence level `CI`. */
  function LowerRank(ci: real): (q: real)
    ensures -100.0 <= ci <= 100.0 ==> 0.0 <= q <= 100.0
    ensures 0.0 <= ci ==> q <= 50.0
  {
    (100.0 - ci) / 2.0
  }

  function UpperRank(ci: real): (q: real)
    ensures -100.0 <= ci <= 100.0 ==> 0.0 <= q <= 100.0
    ensures 0.0 <= ci ==> 50.0 <= q
  {
    (100.0 + ci) / 2.0
  }

  /** The percentile triple of one column of an ensemble at confidence level
      `ci`; numpy raises when a requested rank leaves [0, 100], which happens
      exactly when `ci` leaves [-100, 100]. */
  function Triple(column: seq<real>, ci: real): (r: Result<Interval, PercentileError>)
    requires |column| > 0
    ensures r.Success? <==> -100.0 <= ci <= 100.0
    ensures r.Success? ==> r.value.median == Percentile(column, 50.0)
    ensures r.Success? ==> r.value.lower == Percentile(column, LowerRank(ci))
    ensures r.Success? ==> r.value.upper == Percentile(column, UpperRank(ci))
    ensures r.Success? && 0.0 <= ci ==> r.value.lower <= r.value.median <= r.value.upper
  {
    if -100.0 <= ci <= 100.0 then
      var lo, hi := LowerRank(ci), UpperRank(ci);
      var iv := Interval(Percentile(column, lo), Percentile(column, 50.0), Percentile(column, hi));
      assert 0.0 <= ci ==> iv.lower <= iv.median <= iv.upper by {
        if 0.0 <= ci {
          PercentileMonotone(column, lo, 50.0);
          PercentileMonotone(column, 50.0, hi);
        }
      }
      Success(iv)
    else
      Failure(RankOutOfRange)
  }

  /** A larger confidence level never narrows the interval. */
  lemma TripleWidens(column: seq<real>, ci1: real, ci2: real)
    requires |column| > 0 && -100.0 <= ci1 <= ci2 <= 100.0
    ensures Triple(column, ci2).value.lower <= Triple(column, ci1).value.lower
    ensures Triple(column, ci1).value.upper <= Triple(column, ci2).value.upper
  {
    PercentileMonotone(column, LowerRank(ci2), LowerRank(ci1));
    PercentileMonotone(column, UpperRank(ci1), UpperRank(ci2));
  }

  /** At a negative confidence level numpy still answers, but the bounds are
      reversed: the "lower limit" is at or above the median. */
  lemma NegativeLevelReversesBounds(column: seq<real>, ci: real)
    requires |column| > 0 && -100.0 <= ci < 0.0
    ensures Triple(column, ci).value.upper <= Triple(column, ci).value.median
    ensures Triple(column, ci).value.median <= Triple(column, ci).value.lower
  {
    PercentileMonotone(column, UpperRank(ci), 50.0);
    PercentileMonotone(column, 50.0, LowerRank(ci));
  }

  /** Column `j` of a rectangular ensemble: numpy's `axis = 0` view. */
  function Column(rows: seq<seq<real>>, j: nat): (col: seq<real>)
    requires forall i :: 0 <= i < |rows| ==> j < |rows[i]|
    ensures |col| == |rows| && forall i :: 0 <= i < |rows| ==> col[i] == rows[i][j]
  {
    seq(|rows|, i requires 0 <= i < |rows| => rows[i][j])
  }

  /** `np.percentile(ensemble, rank, axis = 0)` for the three ranks, per column:
      the per-parameter (or per-evaluation-point) percentile intervals. */
  function Bands(ensemble: seq<seq<real>>, width: nat, ci: real): (r: Result<seq<Interval>, PercentileError>)
    requires |ensemble| > 0
    requires forall i :: 0 <= i < |ensemble| ==> |ensemble[i]| == width
    ensures r.Success? <==> -100.0 <= ci <= 100.0
    ensures r.Success? ==> |r.value| == width
    ensures r.Success? ==> forall j :: 0 <= j < width ==>
      Triple(Column(ensemble, j), ci) == Success(r.value[j])
    ensures r.Success? && 0.0 <= ci ==> forall j :: 0 <= j < width ==>
      r.value[j].lower <= r.value[j].median <= r.value[j].upper
  {
    if -100.0 <= ci <= 100.0 then
      Success(seq(width, j requires 0 <= j < width => Triple(Column(ensemble, j), ci).value))
    else
      Failure(RankOutOfRange)
  }

  /** A larger confidence level contains the smaller one in every column. */
  lemma BandsNest(ensemble: seq<seq<real>>, width: nat, ci1: real, ci2: real)
    requires |ensemble| > 0
    requires forall i :: 0 <= i < |ensemble| ==> |ensemble[i]| == width
    requires 0.0 <= ci1 <= ci2 <= 100.0
    ensures forall j :: 0 <= j < width ==>
      Bands(ensemble, width, ci2).value[j].lower <= Bands(ensemble, width, ci1).value[j].lower
      && Bands(ensemble, width, ci1).value[j].upper <= Bands(ensemble, width, ci2).value[j].upper
  {
    forall j | 0 <= j < width
      ensures Bands(ensemble, width, ci2).value[j].lower <= Bands(ensemble, width, ci1).value[j].lower
      ensures Bands(ensemble, width, ci1).value[j].upper <= Bands(ensemble, width, ci2).value[j].upper
    {
      TripleWidens(Column(ensemble, j), ci1, ci2);
    }
  }
}
