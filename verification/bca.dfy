/** The decision rules of `bootstrap_bca` around its adjusted percentiles: the
    stability gate on the positions they select in the ensemble, and the
    bounds read off the ensemble when the gate lets them through. */
module Bca {
  import opened Wrappers
  import opened Percentiles

  /** The outcome of the stability gate. */
  datatype Verdict =
    | UndefinedPercentile   // some adjusted percentile is NaN: warn, return nothing
    | ExtremalSample        // some position is the first or last sample: warn, return nothing
    | NearExtremal          // some position is among the 10 lowest or highest: warn, return bounds
    | Stable                // return bounds silently

  predicate Extremal(nvals: seq<int>, straps: int)
  {
    exists i :: 0 <= i < |nvals| && (nvals[i] == 0 || nvals[i] == straps - 1)
  }

  predicate NearEnds(nvals: seq<int>, straps: int)
  {
    exists i :: 0 <= i < |nvals| && (nvals[i] < 10 || nvals[i] >= straps - 10)
  }

  /** The gate on `nvals`, the (rounded) positions `(straps - 1) * avals` of
      both adjusted percentiles of every parameter, and on whether any of
      `avals` is NaN; the checks run in this order. */
  function Gate(anyNaN: bool, nvals: seq<int>, straps: int): (v: Verdict)
    ensures v == UndefinedPercentile <==> anyNaN
    ensures v == ExtremalSample <==> !anyNaN && Extremal(nvals, straps)
    ensures v == NearExtremal <==> !anyNaN && !Extremal(nvals, straps) && NearEnds(nvals, straps)
    ensures v == Stable <==> !anyNaN && forall i :: 0 <= i < |nvals| ==> 10 <= nvals[i] < straps - 10
  {
    if anyNaN then UndefinedPercentile
    else if Extremal(nvals, straps) then ExtremalSample
    else if NearEnds(nvals, straps) then NearExtremal
    else Stable
  }

  /** Bounds are returned exactly when no position is NaN or extremal. */
  predicate ReturnsBounds(v: Verdict)
  {
    v.NearExtremal? || v.Stable?
  }

  /** The order of the checks matters: a position at either end is also among
      the 10 nearest the ends, yet it aborts instead of only warning. */
  lemma ExtremalOutranksWarning(nvals: seq<int>, straps: int, i: nat)
    requires i < |nvals| && (nvals[i] == 0 || nvals[i] == straps - 1)
    ensures NearEnds(nvals, straps)
    ensures Gate(false, nvals, straps) == ExtremalSample
  {
  }

  /** With positions in [0, straps - 1], a silent pass needs at least 21
      bootstrap samples: below that every position is within 10 of an end. */
  lemma StableNeedsTwentyOneSamples(nvals: seq<int>, straps: int)
    requires |nvals| > 0
    requires forall i :: 0 <= i < |nvals| ==> 0 <= nvals[i] <= straps - 1
    requires Gate(false, nvals, straps) == Stable
    ensures straps >= 21
  {
    assert 10 <= nvals[0] < straps - 10;
  }

  /** The BCa summary: when the gate passes, per parameter `p` the
      percentiles of column `p` of the ensemble at the adjusted ranks
      `lowerRanks[p]` and `upperRanks[p]` (that is, `100 * avals`), with the
      median in between; nothing when the gate aborts. */
  function BcaBounds(ensemble: seq<seq<real>>, width: nat, lowerRanks: seq<real>, upperRanks: seq<real>,
                     anyNaN: bool, nvals: seq<int>): (r: Option<seq<Interval>>)
    requires |ensemble| > 0
    requires forall i :: 0 <= i < |ensemble| ==> |ensemble[i]| == width
    requires |lowerRanks| == width && |upperRanks| == width
    requires !anyNaN ==> forall p :: 0 <= p < width ==>
      0.0 <= lowerRanks[p] <= 100.0 && 0.0 <= upperRanks[p] <= 100.0
    ensures r.Some? <==> ReturnsBounds(Gate(anyNaN, nvals, |ensemble|))
    ensures r.Some? ==> |r.value| == width
    ensures r.Some? ==> forall p :: 0 <= p < width ==>
      r.value[p].median == Percentile(Column(ensemble, p), 50.0)
      && r.value[p].lower == Percentile(Column(ensemble, p), lowerRanks[p])
      && r.value[p].upper == Percentile(Column(ensemble, p), upperRanks[p])
    ensures r.Some? ==> forall p :: 0 <= p < width && lowerRanks[p] <= 50.0 <= upperRanks[p] ==>
      r.value[p].lower <= r.value[p].median <= r.value[p].upper
  {
    if !ReturnsBounds(Gate(anyNaN, nvals, |ensemble|)) then None
    else
      var bounds := seq(width, p requires 0 <= p < width =>
        Interval(Percentile(Column(ensemble, p), lowerRanks[p]),
                 Percentile(Column(ensemble, p), 50.0),
                 Percentile(Column(ensemble, p), upperRanks[p])));
      assert forall p :: 0 <= p < width && lowerRanks[p] <= 50.0 <= upperRanks[p] ==>
        bounds[p].lower <= bounds[p].median <= bounds[p].upper by {
        forall p | 0 <= p < width && lowerRanks[p] <= 50.0 <= upperRanks[p]
          ensures bounds[p].lower <= bounds[p].median <= bounds[p].upper
        {
          PercentileMonotone(Column(ensemble, p), lowerRanks[p], 50.0);
          PercentileMonotone(Column(ensemble, p), 50.0, upperRanks[p]);
        }
      }
      Some(bounds)
  }

  /** The same rank for every parameter. */
  function Repeat(q: real, width: nat): (s: seq<real>)
    ensures |s| == width && forall p :: 0 <= p < width ==> s[p] == q
  {
    seq(width, _ => q)
  }

  /** With no bias and no acceleration the adjusted ranks are the nominal
      ones, and the BCa bounds, when the gate passes, are exactly the
      percentile-method bounds. */
  lemma NominalRanksGivePercentileBounds(ensemble: seq<seq<real>>, width: nat, ci: real, nvals: seq<int>)
    requires |ensemble| > 0
    requires forall i :: 0 <= i < |ensemble| ==> |ensemble[i]| == width
    requires -100.0 <= ci <= 100.0
    requires ReturnsBounds(Gate(false, nvals, |ensemble|))
    ensures BcaBounds(ensemble, width, Repeat(LowerRank(ci), width), Repeat(UpperRank(ci), width), false, nvals)
      == Some(Bands(ensemble, width, ci).value)
  {
    var bca := BcaBounds(ensemble, width, Repeat(LowerRank(ci), width), Repeat(UpperRank(ci), width), false, nvals).value;
    var pct := Bands(ensemble, width, ci).value;
    forall p | 0 <= p < width
      ensures bca[p] == pct[p]
    {
      assert Triple(Column(ensemble, p), ci) == Success(pct[p]);
    }
    assert bca == pct;
  }
}
