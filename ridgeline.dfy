// Ridgeline: a chain of (scale, index, correlation) points linked across
// decreasing wavelet scales, with a running gap counter.

module Ridgelines {
  import opened JavaMath

  /** Two scales closer than this count as the same scale. */
  const Epsilon: real := 0.000000001

  /** The abstract value of a ridge-line object: its three parallel lists,
      its gap counter and the scale-axis size fixed at creation. */
  datatype RidgeState = RidgeState(
    scales: seq<real>,
    indices: seq<int>,
    corValues: seq<real>,
    runningGap: int,
    totalNumberOfScales: int)
  {
    /** The three lists are parallel and never empty. */
    predicate WellFormed()
    {
      |scales| == |indices| == |corValues| && |scales| >= 1
    }

    function Length(): nat
    {
      |scales|
    }
  }

  /** `findIndexTolFromScale`: the index tolerance is the scale itself, so a
      point may move by up to about twice the scale between two scales. */
  function IndexTolFromScale(scale: real): (tol: real)
    ensures tol == scale
  {
    scale
  }

  /** The tolerance `tryAddPoint` uses: `(int) Math.round(findIndexTolFromScale(scale))`. */
  function IndexTol(scale: real): (tol: int)
    ensures tol as real - 0.5 <= scale < tol as real + 0.5
  {
    Round(IndexTolFromScale(scale))
  }

  /** Whether `a` and `b` agree within `Epsilon` (the "have this scale
      already" test). */
  predicate SameScale(a: real, b: real)
  {
    a <= b + Epsilon && a >= b - Epsilon
  }

  /** The rounded tolerance never shrinks as the scale grows. */
  lemma IndexTolMonotone(a: real, b: real)
    requires a <= b
    ensures IndexTol(a) <= IndexTol(b)
  {
    assert IndexTol(a) as real - 0.5 <= a;
    assert b < IndexTol(b) as real + 0.5;
  }

  /** The "have this scale already" test is a distance test: reflexive,
      symmetric, and true exactly when the scales differ by at most
      `Epsilon`. */
  lemma SameScaleDistance(a: real, b: real)
    ensures SameScale(a, a)
    ensures SameScale(a, b) <==> SameScale(b, a)
    ensures SameScale(a, b) <==> (if a >= b then a - b else b - a) <= Epsilon
  {
  }

  /** The transition `tryAddPoint(scale, index, corValue)` makes on a
      ridge-line's value, and whether it accepts the point. An accepted
      point becomes the last point of the ridge-line; a rejected one
      leaves every recorded point as it was (only the gap counter may
      move). */
  function TryAdd(r: RidgeState, scale: real, index: int, corValue: real): (res: (bool, RidgeState))
    requires r.WellFormed()
    ensures res.1.WellFormed() && res.1.totalNumberOfScales == r.totalNumberOfScales
    ensures res.0 ==>
      SameScale(Last(res.1.scales), scale) && Last(res.1.indices) == index && Last(res.1.corValues) == corValue
    ensures !res.0 ==> res.1.scales == r.scales && res.1.indices == r.indices && res.1.corValues == r.corValues
  {
    var last := |r.indices| - 1;
    var indexDiff := Abs(r.indices[last] - index);
    var indexTol := IndexTol(scale);
    if !SameScale(r.scales[last], scale) then
      if indexDiff < 2 * indexTol then
        (true, r.(scales := r.scales + [scale], indices := r.indices + [index],
                  corValues := r.corValues + [corValue], runningGap := 0))
      else
        (false, r.(runningGap := r.runningGap + 1))
    else if |r.scales| > 1 then
      var prevIndexDiff := Abs(r.indices[last - 1] - r.indices[last]);
      var curIndexDiff := Abs(r.indices[last - 1] - index);
      if prevIndexDiff > curIndexDiff then
        (true, r.(indices := r.indices[last := index], corValues := r.corValues[last := corValue]))
      else
        (false, r)
    else if indexDiff < 2 * indexTol && corValue > r.corValues[0] then
      (true, r.(indices := r.indices[last := index], corValues := r.corValues[last := corValue]))
    else
      (false, r)
  }

  function Last<T>(s: seq<T>): T
    requires |s| > 0
  {
    s[|s| - 1]
  }

  // ---------------------------------------------------------------------
  // Properties of TryAdd

  /** The lists stay parallel and non-empty, the scale-axis size never
      changes, and the length grows by one exactly on an append. */
  lemma TryAddShape(r: RidgeState, scale: real, index: int, corValue: real)
    requires r.WellFormed()
    ensures var (accepted, r') := TryAdd(r, scale, index, corValue);
      && r'.WellFormed()
      && r'.totalNumberOfScales == r.totalNumberOfScales
      && (r'.Length() == r.Length() || r'.Length() == r.Length() + 1)
      && (r'.Length() == r.Length() + 1 ==> accepted)
  {
  }

  /** Only the last point can change; every earlier point stays as it was,
      and the recorded scales are only ever extended. */
  lemma TryAddKeepsEarlierPoints(r: RidgeState, scale: real, index: int, corValue: real)
    requires r.WellFormed()
    ensures var r' := TryAdd(r, scale, index, corValue).1;
      && r'.scales[..r.Length()] == r.scales
      && r'.indices[..r.Length() - 1] == r.indices[..r.Length() - 1]
      && r'.corValues[..r.Length() - 1] == r.corValues[..r.Length() - 1]
  {
  }

  /** A new scale (not within Epsilon of the last): the point is appended
      and the gap reset iff it is within twice the index tolerance of the
      last index; otherwise only the gap counter moves. */
  lemma TryAddNewScale(r: RidgeState, scale: real, index: int, corValue: real)
    requires r.WellFormed()
    requires !SameScale(Last(r.scales), scale)
    ensures var (accepted, r') := TryAdd(r, scale, index, corValue);
      && (accepted <==> Abs(Last(r.indices) - index) < 2 * IndexTol(scale))
      && (accepted ==> r' == r.(scales := r.scales + [scale], indices := r.indices + [index],
                                corValues := r.corValues + [corValue], runningGap := 0))
      && (!accepted ==> r' == r.(runningGap := r.runningGap + 1))
  {
  }

  /** A second point at the same scale on a ridge-line of several points:
      it replaces the last point iff it is strictly closer to the
      second-to-last index; length, scales and gap never change. */
  lemma TryAddSameScaleLonger(r: RidgeState, scale: real, index: int, corValue: real)
    requires r.WellFormed() && r.Length() > 1
    requires SameScale(Last(r.scales), scale)
    ensures var (accepted, r') := TryAdd(r, scale, index, corValue);
      var n := r.Length();
      && (accepted <==> Abs(r.indices[n - 2] - index) < Abs(r.indices[n - 2] - r.indices[n - 1]))
      && r'.scales == r.scales && r'.runningGap == r.runningGap
      && (accepted ==> r'.indices == r.indices[n - 1 := index] && r'.corValues == r.corValues[n - 1 := corValue])
      && (!accepted ==> r' == r)
  {
  }

  /** A second point at the same scale on a one-point ridge-line: it
      replaces that point iff it is close enough and strictly stronger. */
  lemma TryAddSameScaleSingle(r: RidgeState, scale: real, index: int, corValue: real)
    requires r.WellFormed() && r.Length() == 1
    requires SameScale(Last(r.scales), scale)
    ensures var (accepted, r') := TryAdd(r, scale, index, corValue);
      && (accepted <==> Abs(r.indices[0] - index) < 2 * IndexTol(scale) && corValue > r.corValues[0])
      && (accepted ==> r' == r.(indices := [index], corValues := [corValue]))
      && (!accepted ==> r' == r)
  {
  }

  /** The scales recorded on a ridge-line are strictly decreasing. */
  predicate StrictlyDecreasing(s: seq<real>)
  {
    forall p, q :: 0 <= p < q < |s| ==> s[p] > s[q]
  }

  /** Offering points at scales no larger than the last recorded one keeps
      the recorded scales strictly decreasing, and the last recorded scale
      is then still no smaller than the offered one. */
  lemma TryAddKeepsDecreasing(r: RidgeState, scale: real, index: int, corValue: real)
    requires r.WellFormed() && StrictlyDecreasing(r.scales)
    requires scale <= Last(r.scales)
    ensures var r' := TryAdd(r, scale, index, corValue).1;
      StrictlyDecreasing(r'.scales) && scale <= Last(r'.scales)
  {
  }

  // ---------------------------------------------------------------------
  // The best point of a ridge-line

  /** The first position holding the strictly greatest correlation: what
      a running maximum seeded at negative infinity and updated only on `>`
      finds. */
  function FirstMaxPosition(corValues: seq<real>): (p: nat)
    requires |corValues| > 0
    ensures p < |corValues|
    ensures forall q :: 0 <= q < |corValues| ==> corValues[q] <= corValues[p]
    ensures forall q :: 0 <= q < p ==> corValues[q] < corValues[p]
  {
    if |corValues| == 1 then 0
    else
      var p := FirstMaxPosition(corValues[..|corValues| - 1]);
      if Last(corValues) > corValues[p] then |corValues| - 1 else p
  }

  /** The greatest correlation seen by a running maximum seeded at 0.0: the
      largest correlation when one is positive, and 0.0 otherwise. */
  function MaxCorSeededAtZero(corValues: seq<real>): (m: real)
    ensures m >= 0.0
    ensures forall q :: 0 <= q < |corValues| ==> corValues[q] <= m
    ensures m == 0.0 || exists q :: 0 <= q < |corValues| && corValues[q] == m
  {
    if |corValues| == 0 then 0.0
    else
      var m := MaxCorSeededAtZero(corValues[..|corValues| - 1]);
      if Last(corValues) > m then Last(corValues) else m
  }

  /** The two running maxima disagree exactly when every correlation is
      non-positive: then the best point is still chosen, but the reported
      coefficient is 0.0. */
  lemma MaxCorVersusBestPoint(corValues: seq<real>)
    requires |corValues| > 0
    ensures var best := corValues[FirstMaxPosition(corValues)];
      MaxCorSeededAtZero(corValues) == (if best > 0.0 then best else 0.0)
  {
  }

  /** A running maximum that starts below every real number. */
  datatype Seed = NegativeInfinity | AtLeast(value: real)
  {
    predicate Below(x: real)
    {
      NegativeInfinity? || x > value
    }
  }

  // ---------------------------------------------------------------------
  // The object

  class Ridgeline {
    var totalNumberOfScales: int
    var scales: seq<real>
    var indices: seq<int>
    var corValues: seq<real>
    var runningGap: int

    /** The class invariant: parallel, non-empty lists. */
    ghost predicate Valid()
      reads this
    {
      |scales| == |indices| == |corValues| && |scales| >= 1
    }

    function Value(): (v: RidgeState)
      reads this
      ensures Valid() ==> v.WellFormed()
    {
      RidgeState(scales, indices, corValues, runningGap, totalNumberOfScales)
    }

    /** A ridge-line of exactly one point, with no gap yet. */
    constructor (firstScale: real, firstIndex: int, corValue: real, nScales: int)
      ensures Valid()
      ensures Value() == RidgeState([firstScale], [firstIndex], [corValue], 0, nScales)
    {
      scales := [firstScale];
      indices := [firstIndex];
      corValues := [corValue];
      runningGap := 0;
      totalNumberOfScales := nScales;
    }

    function GetRunningGapNum(): (g: int)
      reads this
      ensures g == Value().runningGap
    {
      runningGap
    }

    /** `getRidgeLength`: the number of points, the common length of the
      three lists. */
    function GetRidgeLength(): (n: int)
      reads this
      requires Valid()
      ensures n >= 1 && n == |indices| && n == |corValues|
    {
      |scales|
    }

    /** `getBestIndex`: the index of the first point with the strictly
        greatest correlation. */
    method GetBestIndex() returns (curBestInd: int)
      requires Valid()
      ensures curBestInd == indices[FirstMaxPosition(corValues)]
    {
      curBestInd := -1;
      var maxCorVal := NegativeInfinity;
      ghost var best := 0;
      var i := 0;
      while i < |indices|
        invariant 0 <= i <= |indices|
        invariant i == 0 <==> maxCorVal.NegativeInfinity?
        invariant i > 0 ==> best == FirstMaxPosition(corValues[..i])
        invariant i > 0 ==> maxCorVal == AtLeast(corValues[best]) && curBestInd == indices[best]
      {
        var curCor := corValues[i];
        if maxCorVal.Below(curCor) {
          maxCorVal := AtLeast(curCor);
          curBestInd := indices[i];
          best := i;
        }
        assert corValues[..i + 1][..i] == corValues[..i];
        i := i + 1;
      }
      assert corValues[..i] == corValues;
    }

    /** `getBestScale`: the scale of that same point. */
    method GetBestScale() returns (curBestScale: real)
      requires Valid()
      ensures curBestScale == scales[FirstMaxPosition(corValues)]
    {
      curBestScale := -1.0;
      var maxCorVal := NegativeInfinity;
      ghost var best := 0;
      var i := 0;
      while i < |scales|
        invariant 0 <= i <= |scales|
        invariant i == 0 <==> maxCorVal.NegativeInfinity?
        invariant i > 0 ==> best == FirstMaxPosition(corValues[..i])
        invariant i > 0 ==> maxCorVal == AtLeast(corValues[best]) && curBestScale == scales[best]
      {
        var curCor := corValues[i];
        if maxCorVal.Below(curCor) {
          maxCorVal := AtLeast(curCor);
          curBestScale := scales[i];
          best := i;
        }
        assert corValues[..i + 1][..i] == corValues[..i];
        i := i + 1;
      }
      assert corValues[..i] == corValues;
    }

    /** `getMaxCor`: the greatest correlation, from a running maximum seeded
        at 0.0. */
    method GetMaxCor() returns (maxCorVal: real)
      ensures maxCorVal == MaxCorSeededAtZero(corValues)
    {
      maxCorVal := 0.0;
      var i := 0;
      while i < |corValues|
        invariant 0 <= i <= |corValues|
        invariant maxCorVal == MaxCorSeededAtZero(corValues[..i])
      {
        var curCor := corValues[i];
        if curCor > maxCorVal {
          maxCorVal := curCor;
        }
        assert corValues[..i + 1][..i] == corValues[..i];
        i := i + 1;
      }
      assert corValues[..i] == corValues;
    }

    /** `tryAddPoint`: offer a point to this ridge-line. */
    method TryAddPoint(scale: real, index: int, corValue: real) returns (accepted: bool)
      requires Valid()
      modifies this
      ensures Valid()
      ensures (accepted, Value()) == TryAdd(old(Value()), scale, index, corValue)
    {
      var last := |indices| - 1;
      var lastAddedInd := indices[last];
      var indexDiff := Abs(lastAddedInd - index);
      var indexTol := Round(IndexTolFromScale(scale));

      var haveThisScaleAlready := false;
      if scales[|scales| - 1] <= scale + Epsilon && scales[|scales| - 1] >= scale - Epsilon {
        haveThisScaleAlready := true;
      }
      if !haveThisScaleAlready {
        if indexDiff < 2 * indexTol {
          scales := scales + [scale];
          indices := indices + [index];
          corValues := corValues + [corValue];
          runningGap := 0;
          return true;
        } else {
          runningGap := runningGap + 1;
          return false;
        }
      } else {
        if |scales| > 1 {
          var prevIndexDiff := Abs(indices[|indices| - 2] - indices[|indices| - 1]);
          var curIndexDiff := Abs(indices[|indices| - 2] - index);
          if prevIndexDiff > curIndexDiff {
            indices := indices[|indices| - 1 := index];
            corValues := corValues[|indices| - 1 := corValue];
            return true;
          }
        } else {
          if indexDiff < 2 * indexTol {
            var prevCor := corValues[0];
            if corValue > prevCor {
              indices := indices[|indices| - 1 := index];
              corValues := corValues[|indices| - 1 := corValue];
              return true;
            }
          }
        }
      }
      return false;
    }
  }
}
