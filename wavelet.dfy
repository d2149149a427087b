// ContinuousWaveletTransform: the scale axis, ridge-line tracking across
// scales, ridge-line filtering and the extraction of peak boundaries. The
// wavelet coefficients themselves are an input (see README).

module Wavelet {
  import opened JavaMath
  import opened IndexSort
  import opened ScaleSpace
  import opened Maxima
  import opened Ridgelines

  /** Ridge-lines shorter than `totalNumberOfScales - MinRidgeLengthSlack`
      are dropped by `filterRidgelines`. */
  const MinRidgeLengthSlack: int := 3

  /** A ridge-line built while tracking over the scale axis `axis` of a
      signal of `n` samples: scales strictly decreasing and taken from the
      axis, indices inside the signal, `totalNumberOfScales` the axis size. */
  ghost predicate Tracked(v: RidgeState, axis: seq<real>, n: int)
  {
    && v.WellFormed()
    && v.totalNumberOfScales == |axis|
    && StrictlyDecreasing(v.scales)
    && (forall p :: 0 <= p < |v.scales| ==> v.scales[p] in axis)
    && (forall p :: 0 <= p < |v.indices| ==> 0 <= v.indices[p] < n)
  }

  /** Offering a point of the axis at no larger scale than the last one
      recorded keeps a tracked ridge-line tracked. */
  lemma TryAddKeepsTracked(v: RidgeState, axis: seq<real>, n: int,
                           scale: real, index: int, corValue: real)
    requires Tracked(v, axis, n) && scale <= Last(v.scales)
    requires scale in axis && 0 <= index < n
    ensures var v' := TryAdd(v, scale, index, corValue).1;
      Tracked(v', axis, n) && scale <= Last(v'.scales)
  {
    TryAddShape(v, scale, index, corValue);
    TryAddKeepsDecreasing(v, scale, index, corValue);
    var v' := TryAdd(v, scale, index, corValue).1;
    assert forall p :: 0 <= p < |v'.indices| ==> v'.indices[p] == index || v'.indices[p] in v.indices;
    assert forall p :: 0 <= p < |v'.scales| ==> v'.scales[p] == scale || v'.scales[p] in v.scales;
  }

  /** `findBoundries` for one ridge-line: the best index widened by the
      rounded best scale on each side, clipped to the signal. */
  function PeakBounds(bestIndex: int, bestScale: real, n: int): (b: (int, int))
    ensures b.0 >= 0 && b.1 <= n - 1
    ensures 0 <= bestIndex < n && bestScale >= 0.0 ==> b.0 <= bestIndex <= b.1
    ensures b.0 > 0 ==> b.0 == bestIndex - Round(bestScale)
    ensures b.0 == 0 ==> bestIndex - Round(bestScale) <= 0
    ensures b.1 < n - 1 ==> b.1 == bestIndex + Round(bestScale)
    ensures b.1 == n - 1 ==> bestIndex + Round(bestScale) >= n - 1
  {
    var curRightBound := bestIndex + Round(bestScale);
    var right := if curRightBound >= n then n - 1 else curRightBound;
    var curLeftBound := bestIndex - Round(bestScale);
    var left := if curLeftBound < 0 then 0 else curLeftBound;
    (left, right)
  }

  /** The peak region a ridge-line stands for: its bounds, clipped to the
      signal, and its coefficient, at least every correlation and never
      negative. */
  function PeakRegion(v: RidgeState, n: int): (region: (int, int, real))
    requires v.WellFormed()
    ensures 0 <= region.0 && region.1 <= n - 1
    ensures region.2 >= 0.0 && forall q :: 0 <= q < |v.corValues| ==> v.corValues[q] <= region.2
  {
    var best := FirstMaxPosition(v.corValues);
    var bounds := PeakBounds(v.indices[best], v.scales[best], n);
    (bounds.0, bounds.1, MaxCorSeededAtZero(v.corValues))
  }

  /** For a tracked ridge-line over positive scales, the region contains
      the best index and lies inside the signal; its coefficient is the
      best correlation, or 0.0 when that is not positive. */
  lemma PeakRegionContainsBest(v: RidgeState, axis: seq<real>, n: int)
    requires Tracked(v, axis, n)
    requires forall k :: 0 <= k < |axis| ==> axis[k] > 0.0
    ensures var best := FirstMaxPosition(v.corValues);
      var region := PeakRegion(v, n);
      && 0 <= region.0 <= v.indices[best] <= region.1 <= n - 1
      && region.2 == (if v.corValues[best] > 0.0 then v.corValues[best] else 0.0)
  {
    var best := FirstMaxPosition(v.corValues);
    assert v.scales[best] in axis;
    MaxCorVersusBestPoint(v.corValues);
  }

  /** `filterRidgelines`' test for keeping a ridge-line. */
  predicate LongEnough(r: Ridgeline)
    reads r
  {
    |r.scales| >= r.totalNumberOfScales - MinRidgeLengthSlack
  }

  /** The ridge-lines of `rs` that are long enough, in their original order. */
  function Filtered(rs: seq<Ridgeline>): (fs: seq<Ridgeline>)
    reads rs
    ensures |fs| <= |rs|
    ensures forall r :: r in fs ==> r in rs && LongEnough(r)
  {
    if rs == [] then []
    else Filtered(rs[..|rs| - 1]) + (if LongEnough(Last(rs)) then [Last(rs)] else [])
  }

  /** Filtering keeps exactly the long-enough ridge-lines. */
  lemma {:induction false} FilteredMembers(rs: seq<Ridgeline>)
    ensures forall r :: r in Filtered(rs) ==> r in rs && LongEnough(r)
    ensures forall r :: r in rs && LongEnough(r) ==> r in Filtered(rs)
    ensures |Filtered(rs)| <= |rs|
  {
    if rs != [] {
      FilteredMembers(rs[..|rs| - 1]);
      assert rs == rs[..|rs| - 1] + [Last(rs)];
    }
  }

  /** Filtering distributes over concatenation, so it keeps the relative
      order of the ridge-lines it retains. */
  lemma {:induction false} FilteredConcat(a: seq<Ridgeline>, b: seq<Ridgeline>)
    ensures Filtered(a + b) == Filtered(a) + Filtered(b)
    decreases |b|
  {
    if b == [] {
      assert a + b == a;
    } else {
      var b' := b[..|b| - 1];
      assert (a + b)[..|a + b| - 1] == a + b';
      assert Last(a + b) == Last(b);
      FilteredConcat(a, b');
    }
  }

  /** A list whose ridge-lines are all long enough passes unchanged. */
  lemma {:induction false} FilteredAllLongEnough(rs: seq<Ridgeline>)
    requires forall k :: 0 <= k < |rs| ==> LongEnough(rs[k])
    ensures Filtered(rs) == rs
  {
    if rs != [] {
      FilteredAllLongEnough(rs[..|rs| - 1]);
      assert rs == rs[..|rs| - 1] + [Last(rs)];
    }
  }

  /** Filtering twice is filtering once. */
  lemma FilteredIdempotent(rs: seq<Ridgeline>)
    ensures Filtered(Filtered(rs)) == Filtered(rs)
  {
    FilteredMembers(rs);
    var f := Filtered(rs);
    forall k | 0 <= k < |f|
      ensures LongEnough(f[k])
    {
      assert f[k] in f;
    }
    FilteredAllLongEnough(f);
  }

  /** No two positions of `rs` hold the same object. */
  predicate Distinct(rs: seq<Ridgeline>)
  {
    forall p, q :: 0 <= p < q < |rs| ==> rs[p] != rs[q]
  }

  /** Filtering a list without repeated objects leaves none repeated. */
  lemma {:induction false} FilteredDistinct(rs: seq<Ridgeline>)
    requires Distinct(rs)
    ensures Distinct(Filtered(rs))
  {
    if rs != [] {
      var init := rs[..|rs| - 1];
      FilteredDistinct(init);
      FilteredMembers(init);
      assert Last(rs) !in init by {
        forall k | 0 <= k < |init|
          ensures init[k] != Last(rs)
        {
          assert rs[k] == init[k];
        }
      }
    }
  }

  /** A ridge-line's value after being offered a point: `tryAddPoint`'s
      transition, left as is on values that are not well formed. */
  function Offered(v: RidgeState, scale: real, index: int, corValue: real): RidgeState
  {
    if v.WellFormed() then TryAdd(v, scale, index, corValue).1 else v
  }

  /** Whether a ridge-line accepts the offered point. */
  predicate Accepts(v: RidgeState, scale: real, index: int, corValue: real)
  {
    v.WellFormed() && TryAdd(v, scale, index, corValue).0
  }

  /** Every ridge-line is offered the point, in list order. */
  function OfferAll(vs: seq<RidgeState>, scale: real, index: int, corValue: real): (ws: seq<RidgeState>)
    ensures |ws| == |vs|
  {
    seq(|vs|, k requires 0 <= k < |vs| => Offered(vs[k], scale, index, corValue))
  }

  /** Offering a point to every ridge-line: those that accept it end at
      it, the others keep their points. */
  lemma OfferAllEffect(vs: seq<RidgeState>, scale: real, index: int, corValue: real)
    ensures var ws := OfferAll(vs, scale, index, corValue);
      && (forall k :: 0 <= k < |vs| && Accepts(vs[k], scale, index, corValue) ==>
            EndsAt(ws[k], scale, index, corValue))
      && (forall k :: 0 <= k < |vs| && !Accepts(vs[k], scale, index, corValue) ==>
            ws[k].scales == vs[k].scales && ws[k].indices == vs[k].indices
            && ws[k].corValues == vs[k].corValues)
  {
  }

  predicate AnyAccepts(vs: seq<RidgeState>, scale: real, index: int, corValue: real)
  {
    exists k :: 0 <= k < |vs| && Accepts(vs[k], scale, index, corValue)
  }

  /** The ridge-lines after one maximum has been linked: all of them are
      offered the point, and a one-point ridge-line is appended when none
      accepts it. */
  function OfferPoint(vs: seq<RidgeState>, scale: real, index: int, corValue: real,
                      nScales: int): (ws: seq<RidgeState>)
    ensures |vs| <= |ws| <= |vs| + 1
    ensures |ws| == |vs| + 1 <==> !AnyAccepts(vs, scale, index, corValue)
    ensures |ws| > |vs| ==>
      && EndsAt(ws[|vs|], scale, index, corValue) && ws[|vs|].Length() == 1
      && ws[|vs|].runningGap == 0 && ws[|vs|].totalNumberOfScales == nScales
  {
    OfferAll(vs, scale, index, corValue)
      + (if AnyAccepts(vs, scale, index, corValue) then []
         else [RidgeState([scale], [index], [corValue], 0, nScales)])
  }

  /** The last point of `v` is the offered one, up to the `Epsilon` scale
      tolerance. */
  predicate EndsAt(v: RidgeState, scale: real, index: int, corValue: real)
  {
    v.WellFormed() && SameScale(Last(v.scales), scale)
      && Last(v.indices) == index && Last(v.corValues) == corValue
  }

  /** A ridge-line that accepts a point ends at it. */
  lemma AcceptedEndsAt(v: RidgeState, scale: real, index: int, corValue: real)
    requires Accepts(v, scale, index, corValue)
    ensures EndsAt(Offered(v, scale, index, corValue), scale, index, corValue)
  {
    if !SameScale(Last(v.scales), scale) {
      TryAddNewScale(v, scale, index, corValue);
    } else if v.Length() > 1 {
      TryAddSameScaleLonger(v, scale, index, corValue);
    } else {
      TryAddSameScaleSingle(v, scale, index, corValue);
    }
  }

  /** No maximum is lost: after linking, some ridge-line ends at it. */
  lemma OfferPointRecords(vs: seq<RidgeState>, scale: real, index: int, corValue: real, nScales: int)
    ensures var vs' := OfferPoint(vs, scale, index, corValue, nScales);
      exists k :: 0 <= k < |vs'| && EndsAt(vs'[k], scale, index, corValue)
  {
    var vs' := OfferPoint(vs, scale, index, corValue, nScales);
    if AnyAccepts(vs, scale, index, corValue) {
      var k :| 0 <= k < |vs| && Accepts(vs[k], scale, index, corValue);
      AcceptedEndsAt(vs[k], scale, index, corValue);
      assert vs'[k] == Offered(vs[k], scale, index, corValue);
    } else {
      assert EndsAt(vs'[|vs|], scale, index, corValue);
    }
  }

  /** Linking a point of the axis at a scale no larger than the last one of
      each ridge-line from position `start` on keeps those ridge-lines
      tracked, and adds at most one, at the end. */
  lemma OfferPointKeepsTracked(vs: seq<RidgeState>, start: nat, axis: seq<real>, n: int,
                               scale: real, index: int, corValue: real)
    requires start <= |vs|
    requires forall k :: start <= k < |vs| ==> Tracked(vs[k], axis, n) && scale <= Last(vs[k].scales)
    requires scale in axis && 0 <= index < n
    ensures var vs' := OfferPoint(vs, scale, index, corValue, |axis|);
      && |vs| <= |vs'| <= |vs| + 1
      && (forall k :: start <= k < |vs'| ==> Tracked(vs'[k], axis, n) && scale <= Last(vs'[k].scales))
  {
    var vs' := OfferPoint(vs, scale, index, corValue, |axis|);
    forall k | start <= k < |vs'|
      ensures Tracked(vs'[k], axis, n) && scale <= Last(vs'[k].scales)
    {
      if k < |vs| {
        TryAddKeepsTracked(vs[k], axis, n, scale, index, corValue);
      }
    }
  }

  /** `buildRidgelines`' loop over the maxima of one scale, after its
      first `count` iterations: each of `maxima[..count]` in turn is linked
      into the ridge-lines, with the coefficient `row` gives it. */
  function LinkScale(vs: seq<RidgeState>, scale: real, row: seq<real>, maxima: seq<int>,
                     count: nat, nScales: int): (ws: seq<RidgeState>)
    requires count <= |maxima|
    requires forall j :: 0 <= j < |maxima| ==> 0 <= maxima[j] < |row|
    ensures |vs| <= |ws|
  {
    if count == 0 then vs
    else
      var m := maxima[count - 1];
      OfferPoint(LinkScale(vs, scale, row, maxima, count - 1, nScales), scale, m, row[m], nScales)
  }

  /** The ridge-lines of `vs` from position `start` on are tracked, and
      none has a last scale below `lo`. */
  ghost predicate TrackedFrom(vs: seq<RidgeState>, start: nat, axis: seq<real>, n: int, lo: real)
  {
    forall k :: start <= k < |vs| ==> Tracked(vs[k], axis, n) && lo <= Last(vs[k].scales)
  }

  /** Linking the maxima of one scale of the axis, no larger than the last
      scale of each ridge-line from `start` on, keeps those ridge-lines
      tracked and never removes one. */
  lemma {:induction false} LinkScaleKeepsTracked(vs: seq<RidgeState>, start: nat, axis: seq<real>, n: int,
                                                 scale: real, row: seq<real>, maxima: seq<int>, count: nat)
    requires start <= |vs| && count <= |maxima|
    requires forall j :: 0 <= j < |maxima| ==> 0 <= maxima[j] < |row| && maxima[j] < n
    requires TrackedFrom(vs, start, axis, n, scale)
    requires scale in axis
    ensures var vs' := LinkScale(vs, scale, row, maxima, count, |axis|);
      |vs| <= |vs'| <= |vs| + count && TrackedFrom(vs', start, axis, n, scale)
  {
    if count > 0 {
      var m := maxima[count - 1];
      LinkScaleKeepsTracked(vs, start, axis, n, scale, row, maxima, count - 1);
      OfferPointKeepsTracked(LinkScale(vs, scale, row, maxima, count - 1, |axis|),
                             start, axis, n, scale, m, row[m]);
    }
  }

  /** `w` continues the ridge-line `v`: the same scale-axis size, every
      recorded scale kept (so `w` is no shorter), and every point before
      the last one kept. */
  ghost predicate Extends(v: RidgeState, w: RidgeState)
  {
    && v.WellFormed() && w.WellFormed()
    && w.totalNumberOfScales == v.totalNumberOfScales
    && v.scales <= w.scales
    && v.indices[..|v.indices| - 1] <= w.indices
    && v.corValues[..|v.corValues| - 1] <= w.corValues
  }

  ghost predicate AllWellFormed(vs: seq<RidgeState>)
  {
    forall k :: 0 <= k < |vs| ==> vs[k].WellFormed()
  }

  /** No ridge-line of `vs` is lost or shortened in `ws`: each one keeps its
      position and is continued there, and new ones come after it. */
  ghost predicate ExtendsAll(vs: seq<RidgeState>, ws: seq<RidgeState>)
  {
    |vs| <= |ws| && forall k :: 0 <= k < |vs| ==> Extends(vs[k], ws[k])
  }

  lemma ExtendsTransitive(u: RidgeState, v: RidgeState, w: RidgeState)
    requires Extends(u, v) && Extends(v, w)
    ensures Extends(u, w)
  {
    assert u.indices[..|u.indices| - 1] <= v.indices[..|v.indices| - 1];
    assert u.corValues[..|u.corValues| - 1] <= v.corValues[..|v.corValues| - 1];
  }

  lemma ExtendsAllTransitive(us: seq<RidgeState>, vs: seq<RidgeState>, ws: seq<RidgeState>)
    requires ExtendsAll(us, vs) && ExtendsAll(vs, ws)
    ensures ExtendsAll(us, ws)
  {
    forall k | 0 <= k < |us|
      ensures Extends(us[k], ws[k])
    {
      ExtendsTransitive(us[k], vs[k], ws[k]);
    }
  }

  /** Offering a point to a ridge-line continues it. */
  lemma OfferedExtends(v: RidgeState, scale: real, index: int, corValue: real)
    requires v.WellFormed()
    ensures Extends(v, Offered(v, scale, index, corValue))
  {
    TryAddShape(v, scale, index, corValue);
    TryAddKeepsEarlierPoints(v, scale, index, corValue);
  }

  /** Linking one maximum loses and shortens no ridge-line. */
  lemma OfferPointExtends(vs: seq<RidgeState>, scale: real, index: int, corValue: real, nScales: int)
    requires AllWellFormed(vs)
    ensures var ws := OfferPoint(vs, scale, index, corValue, nScales);
      AllWellFormed(ws) && ExtendsAll(vs, ws)
  {
    var ws := OfferPoint(vs, scale, index, corValue, nScales);
    forall k | 0 <= k < |vs|
      ensures Extends(vs[k], ws[k])
    {
      OfferedExtends(vs[k], scale, index, corValue);
    }
  }

  /** Linking the first `count` maxima of one scale loses and shortens no
      ridge-line. */
  lemma {:induction false} LinkScaleExtends(vs: seq<RidgeState>, scale: real, row: seq<real>,
                                            maxima: seq<int>, count: nat, nScales: int)
    requires count <= |maxima|
    requires forall j :: 0 <= j < |maxima| ==> 0 <= maxima[j] < |row|
    requires AllWellFormed(vs)
    ensures var ws := LinkScale(vs, scale, row, maxima, count, nScales);
      AllWellFormed(ws) && ExtendsAll(vs, ws)
  {
    if count > 0 {
      var m := maxima[count - 1];
      var prev := LinkScale(vs, scale, row, maxima, count - 1, nScales);
      LinkScaleExtends(vs, scale, row, maxima, count - 1, nScales);
      OfferPointExtends(prev, scale, m, row[m], nScales);
      ExtendsAllTransitive(vs, prev, OfferPoint(prev, scale, m, row[m], nScales));
    } else {
      assert forall k :: 0 <= k < |vs| ==> Extends(vs[k], vs[k]);
    }
  }

  /** Ridge-lines whose last scales are at least the axis entry `i + 1`
      (or that do not exist yet, at the top of the axis) may be offered
      the entry `i` of a strictly ascending axis. */
  lemma StepDown(vs: seq<RidgeState>, start: nat, axis: seq<real>, n: int, i: int)
    requires 0 <= i < |axis|
    requires forall p, q :: 0 <= p < q < |axis| ==> axis[p] < axis[q]
    requires i + 1 == |axis| ==> |vs| == start
    requires i + 1 < |axis| ==> TrackedFrom(vs, start, axis, n, axis[i + 1])
    ensures TrackedFrom(vs, start, axis, n, axis[i])
  {
  }

  /** The maxima `findMaximaForThisScale` selects at each scale of the axis,
      from that scale's coefficient row. */
  function ScaleMaxima(axis: seq<real>, coefficients: seq<seq<real>>): (table: seq<seq<int>>)
    requires |coefficients| == |axis|
    ensures RowsInRange(coefficients, table)
  {
    seq(|axis|, j requires 0 <= j < |axis| => MaximaOf(coefficients[j], RemoveCutOff(axis[j])))
  }

  /** One list of positions per coefficient row, each inside its row. */
  predicate RowsInRange(coefficients: seq<seq<real>>, table: seq<seq<int>>)
  {
    |table| == |coefficients| && forall j :: 0 <= j < |table| ==> InRange(coefficients[j], table[j])
  }

  /** One iteration of `buildRidgelines`' loop over the scales: the maxima
      of axis scale `i`, found in row `i` of `coefficients`, are linked
      into `vs` in the order they were selected. */
  function LinkScaleOf(vs: seq<RidgeState>, axis: seq<real>, coefficients: seq<seq<real>>,
                       i: int): (ws: seq<RidgeState>)
    requires 0 <= i < |axis| && |coefficients| == |axis|
    ensures |vs| <= |ws|
  {
    var row := coefficients[i];
    var maxima := MaximaOf(row, RemoveCutOff(axis[i]));
    LinkScale(vs, axis[i], row, maxima, |maxima|, |axis|)
  }

  /** `buildRidgelines`' loop over the scales, with `table[j]` the maxima
      linked at scale `j`, once it has visited the axis from its largest
      scale down to scale `i`. */
  function LinkRows(vs: seq<RidgeState>, axis: seq<real>, coefficients: seq<seq<real>>,
                    table: seq<seq<int>>, i: int): (ws: seq<RidgeState>)
    requires 0 <= i <= |axis| && |coefficients| == |axis| && RowsInRange(coefficients, table)
    ensures |vs| <= |ws|
    decreases |axis| - i
  {
    if i == |axis| then vs
    else
      var prev := LinkRows(vs, axis, coefficients, table, i + 1);
      LinkScale(prev, axis[i], coefficients[i], table[i], |table[i]|, |axis|)
  }

  /** `buildRidgelines`' loop over the scales, with the maxima of each
      scale, once it has visited the axis down to scale `i`. */
  function LinkScalesDownTo(vs: seq<RidgeState>, axis: seq<real>, coefficients: seq<seq<real>>,
                            i: int): (ws: seq<RidgeState>)
    requires 0 <= i <= |axis| && |coefficients| == |axis|
    ensures |vs| <= |ws|
  {
    LinkRows(vs, axis, coefficients, ScaleMaxima(axis, coefficients), i)
  }

  /** After the scale loop has visited the axis down to scale `i`, the
      ridge-lines created since `vs` are tracked, none ending below scale
      `i` (every last scale is at least `axis[i]`); before it has visited
      any scale, none is created. */
  ghost predicate LoopTracked(vs: seq<RidgeState>, ws: seq<RidgeState>, axis: seq<real>, n: int, i: int)
    requires 0 <= i <= |axis|
  {
    && |vs| <= |ws|
    && (i == |axis| ==> |ws| == |vs|)
    && (i < |axis| ==> TrackedFrom(ws, |vs|, axis, n, axis[i]))
  }

  /** One scale of the loop, visited after the larger ones, keeps the
      ridge-lines created since `vs` tracked, now with none ending below
      scale `i`. */
  lemma LinkRowTracked(vs: seq<RidgeState>, prev: seq<RidgeState>, axis: seq<real>,
                       coefficients: seq<seq<real>>, table: seq<seq<int>>, n: int, i: int)
    requires 0 <= i < |axis| && |coefficients| == |axis| && RowsInRange(coefficients, table)
    requires |coefficients[i]| == n
    requires forall p, q :: 0 <= p < q < |axis| ==> axis[p] < axis[q]
    requires LoopTracked(vs, prev, axis, n, i + 1)
    ensures LoopTracked(vs, LinkScale(prev, axis[i], coefficients[i], table[i], |table[i]|, |axis|), axis, n, i)
  {
    StepDown(prev, |vs|, axis, n, i);
    assert axis[i] in axis;
    LinkScaleKeepsTracked(prev, |vs|, axis, n, axis[i], coefficients[i], table[i], |table[i]|);
  }

  /** Over an ascending axis, whatever maxima each scale contributes, the
      ridge-lines the scale loop creates are tracked: strictly decreasing
      scales from the axis, indices inside the signal, none ending below
      the last scale visited. */
  lemma {:induction false} LinkRowsTracked(vs: seq<RidgeState>, axis: seq<real>, coefficients: seq<seq<real>>,
                                           table: seq<seq<int>>, n: int, i: int)
    requires 0 <= i <= |axis| && |coefficients| == |axis| && RowsInRange(coefficients, table)
    requires forall p, q :: 0 <= p < q < |axis| ==> axis[p] < axis[q]
    requires forall j :: 0 <= j < |coefficients| ==> |coefficients[j]| == n
    ensures LoopTracked(vs, LinkRows(vs, axis, coefficients, table, i), axis, n, i)
    decreases |axis| - i
  {
    if i < |axis| {
      LinkRowsTracked(vs, axis, coefficients, table, n, i + 1);
      LinkRowTracked(vs, LinkRows(vs, axis, coefficients, table, i + 1), axis, coefficients, table, n, i);
    }
  }

  /** The scale loop, whatever maxima each scale contributes, loses and
      shortens no ridge-line. */
  lemma {:induction false} LinkRowsExtend(vs: seq<RidgeState>, axis: seq<real>, coefficients: seq<seq<real>>,
                                          table: seq<seq<int>>, i: int)
    requires 0 <= i <= |axis| && |coefficients| == |axis| && RowsInRange(coefficients, table)
    requires AllWellFormed(vs)
    ensures var ws := LinkRows(vs, axis, coefficients, table, i);
      AllWellFormed(ws) && ExtendsAll(vs, ws)
    decreases |axis| - i
  {
    if i < |axis| {
      var prev := LinkRows(vs, axis, coefficients, table, i + 1);
      LinkRowsExtend(vs, axis, coefficients, table, i + 1);
      LinkScaleExtends(prev, axis[i], coefficients[i], table[i], |table[i]|, |axis|);
      ExtendsAllTransitive(vs, prev, LinkRows(vs, axis, coefficients, table, i));
    } else {
      assert forall k :: 0 <= k < |vs| ==> Extends(vs[k], vs[k]);
    }
  }

  /** A preallocated row of `findBoundries`: its first `count` entries are
      those of `values`, the others are still 0.0. */
  ghost predicate FilledUpTo(row: seq<real>, values: seq<real>, count: int)
  {
    && 0 <= count <= |values| && count <= |row|
    && (forall k :: 0 <= k < count ==> row[k] == values[k])
    && (forall k :: count <= k < |row| ==> row[k] == 0.0)
  }

  lemma FilledStep(row: seq<real>, values: seq<real>, count: int, v: real)
    requires FilledUpTo(row, values, count) && count < |values| && count < |row|
    requires v == values[count]
    ensures FilledUpTo(row[count := v], values, count + 1)
  {
  }

  class ContinuousWaveletTransform {
    var smallScale: real
    var largeScale: real
    var incrementScale: real
    var arrScales: seq<real>
    var mapScaleToIndex: map<real, int>
    var signal: seq<real>
    var x: seq<real>
    var allCoefficients: seq<seq<real>>
    var ridgeLineArr: seq<Ridgeline>

    /** The scale axis is strictly ascending and `mapScaleToIndex` maps each
        entry to its position. */
    ghost predicate AxisValid()
      reads this
    {
      && (forall p, q :: 0 <= p < q < |arrScales| ==> arrScales[p] < arrScales[q])
      && (forall s :: s in mapScaleToIndex <==> s in arrScales)
      && (forall k :: 0 <= k < |arrScales| ==> mapScaleToIndex[arrScales[k]] == k)
    }

    /** Every ridge-line object is valid, and no object is listed twice. */
    ghost predicate RidgesValid()
      reads this, ridgeLineArr
    {
      && (forall k :: 0 <= k < |ridgeLineArr| ==> ridgeLineArr[k].Valid())
      && Distinct(ridgeLineArr)
    }

    ghost predicate Valid()
      reads this, ridgeLineArr
    {
      AxisValid() && RidgesValid()
    }

    /** The constructor builds the scale axis; there are no ridge-lines yet. */
    constructor (smallScaleIn: real, largeScaleIn: real, incrementScaleIn: real)
      requires incrementScaleIn > 0.0
      ensures Valid()
      ensures smallScale == smallScaleIn && largeScale == largeScaleIn && incrementScale == incrementScaleIn
      ensures forall k :: 0 <= k < |arrScales| ==> arrScales[k] == ScaleAt(smallScaleIn, incrementScaleIn, k)
      ensures forall k :: 0 <= k < |arrScales| ==> arrScales[k] <= largeScaleIn
      ensures ScaleAt(smallScaleIn, incrementScaleIn, |arrScales|) > largeScaleIn
      ensures ridgeLineArr == [] && signal == [] && x == [] && allCoefficients == []
    {
      smallScale := smallScaleIn;
      largeScale := largeScaleIn;
      incrementScale := incrementScaleIn;
      var scales, index := BuildScaleAxis(smallScaleIn, largeScaleIn, incrementScaleIn);
      arrScales := scales;
      mapScaleToIndex := index;
      signal := [];
      x := [];
      allCoefficients := [];
      ridgeLineArr := [];
    }

    /** `returnAllCoefficients`. */
    function ReturnAllCoefficients(): (c: seq<seq<real>>)
      reads this
      ensures c == allCoefficients
    {
      allCoefficients
    }

    method SetSignal(signalIn: seq<real>)
      modifies this
      ensures signal == signalIn
      ensures smallScale == old(smallScale) && largeScale == old(largeScale) && incrementScale == old(incrementScale)
      ensures x == old(x) && arrScales == old(arrScales) && mapScaleToIndex == old(mapScaleToIndex)
      ensures ridgeLineArr == old(ridgeLineArr) && allCoefficients == old(allCoefficients)
    {
      signal := signalIn;
    }

    /** `setX`; the average spacing it also computes only feeds the wavelet
        kernel and is not modelled. */
    method SetX(xIn: seq<real>)
      modifies this
      ensures x == xIn
      ensures smallScale == old(smallScale) && largeScale == old(largeScale) && incrementScale == old(incrementScale)
      ensures signal == old(signal) && arrScales == old(arrScales) && mapScaleToIndex == old(mapScaleToIndex)
      ensures ridgeLineArr == old(ridgeLineArr) && allCoefficients == old(allCoefficients)
    {
      x := xIn;
    }

    /** The abstract values of the ridge-lines, in list order. */
    ghost function Values(): (vs: seq<RidgeState>)
      reads this, ridgeLineArr
      ensures |vs| == |ridgeLineArr|
      ensures forall k :: 0 <= k < |vs| ==> vs[k] == ridgeLineArr[k].Value()
    {
      var rs := ridgeLineArr;
      seq(|rs|, k reads rs requires 0 <= k < |rs| => rs[k].Value())
    }

    /** `buildRidgelines`' loop over the ridge-lines for one maximum: each
        ridge-line in turn is offered the point; the result says whether
        any accepted it. */
    method OfferToAll(curScale: real, curBestMaxLoc: int, corValue: real)
      returns (wasMatched: bool)
      requires RidgesValid()
      modifies set r | r in ridgeLineArr
      ensures RidgesValid()
      ensures wasMatched == AnyAccepts(old(Values()), curScale, curBestMaxLoc, corValue)
      ensures Values() == OfferAll(old(Values()), curScale, curBestMaxLoc, corValue)
    {
      ghost var vs := Values();
      ghost var target := OfferAll(vs, curScale, curBestMaxLoc, corValue);
      var rs := ridgeLineArr;
      wasMatched := false;
      var alpha := 0;
      while alpha < |rs|
        invariant 0 <= alpha <= |rs| == |vs| == |target|
        invariant Distinct(rs)
        invariant forall k :: 0 <= k < |rs| ==>
          rs[k].Valid() && rs[k].Value() == (if k < alpha then target[k] else vs[k])
        invariant wasMatched == (exists k :: 0 <= k < alpha && Accepts(vs[k], curScale, curBestMaxLoc, corValue))
      {
        var r := rs[alpha];
        assert forall k :: 0 <= k < |rs| && k != alpha ==> rs[k] != r;
        var wasAdded := r.TryAddPoint(curScale, curBestMaxLoc, corValue);
        assert r.Value() == target[alpha] && wasAdded == Accepts(vs[alpha], curScale, curBestMaxLoc, corValue);
        if wasAdded {
          wasMatched := true;
        }
        alpha := alpha + 1;
      }
    }

    /** The body of `buildRidgelines`' loop over the maxima: offer the point
        to every ridge-line, and start a new one-point ridge-line when none
        accepts it. */
    method OfferToRidgelines(curScale: real, curBestMaxLoc: int, corValue: real)
      returns (wasMatched: bool)
      requires RidgesValid()
      modifies this`ridgeLineArr, set r | r in ridgeLineArr
      ensures RidgesValid()
      ensures wasMatched == AnyAccepts(old(Values()), curScale, curBestMaxLoc, corValue)
      ensures Values() == OfferPoint(old(Values()), curScale, curBestMaxLoc, corValue, |arrScales|)
      ensures wasMatched ==> ridgeLineArr == old(ridgeLineArr)
      ensures !wasMatched ==> ridgeLineArr == old(ridgeLineArr) + [Last(ridgeLineArr)] && fresh(Last(ridgeLineArr))
    {
      wasMatched := OfferToAll(curScale, curBestMaxLoc, corValue);
      if !wasMatched {
        var curStartRidge := new Ridgeline(curScale, curBestMaxLoc, corValue, |arrScales|);
        AddRidgeline(curStartRidge);
      }
    }

    /** `ridgeLineArr.add(r)` for a ridge-line not yet in the list. */
    method AddRidgeline(r: Ridgeline)
      requires RidgesValid() && r.Valid() && r !in ridgeLineArr
      modifies this`ridgeLineArr
      ensures RidgesValid()
      ensures ridgeLineArr == old(ridgeLineArr) + [r]
      ensures Values() == old(Values()) + [r.Value()]
    {
      ridgeLineArr := ridgeLineArr + [r];
    }

    /** Iteration `j` of `buildRidgelines`' loop over the maxima: maximum
        `maxima[j]` is linked into the ridge-lines. */
    method LinkOne(curScale: real, curCoefficients: seq<real>, maxima: seq<int>, j: int,
                   ghost vs: seq<RidgeState>)
      requires RidgesValid()
      requires 0 <= j < |maxima|
      requires forall t :: 0 <= t < |maxima| ==> 0 <= maxima[t] < |curCoefficients|
      requires Values() == LinkScale(vs, curScale, curCoefficients, maxima, j, |arrScales|)
      modifies this`ridgeLineArr, set r | r in ridgeLineArr
      ensures RidgesValid()
      ensures old(ridgeLineArr) <= ridgeLineArr
      ensures forall r :: r in ridgeLineArr ==> r in old(ridgeLineArr) || fresh(r)
      ensures Values() == LinkScale(vs, curScale, curCoefficients, maxima, j + 1, |arrScales|)
    {
      var curBestMaxLoc := maxima[j];
      var _ := OfferToRidgelines(curScale, curBestMaxLoc, curCoefficients[maxima[j]]);
    }

    /** `buildRidgelines`' loop over the maxima `maxima` of the scale
        `curScale`, whose coefficients are `curCoefficients`. */
    method LinkMaxima(curScale: real, curCoefficients: seq<real>, maxima: seq<int>)
      requires RidgesValid()
      requires forall j :: 0 <= j < |maxima| ==> 0 <= maxima[j] < |curCoefficients|
      modifies this`ridgeLineArr, set r | r in ridgeLineArr
      ensures RidgesValid()
      ensures old(ridgeLineArr) <= ridgeLineArr
      ensures forall r :: r in ridgeLineArr ==> r in old(ridgeLineArr) || fresh(r)
      ensures Values() == LinkScale(old(Values()), curScale, curCoefficients, maxima, |maxima|, |arrScales|)
    {
      ghost var vs := Values();
      ghost var before := ridgeLineArr;
      var j := 0;
      while j < |maxima|
        invariant 0 <= j <= |maxima|
        invariant RidgesValid()
        invariant before <= ridgeLineArr
        invariant forall r :: r in ridgeLineArr ==> r in before || fresh(r)
        invariant Values() == LinkScale(vs, curScale, curCoefficients, maxima, j, |arrScales|)
      {
        LinkOne(curScale, curCoefficients, maxima, j, vs);
        j := j + 1;
      }
    }

    /** The coefficient row of axis scale `i`, found through
        `mapScaleToIndex`, and the maxima `findMaximaForThisScale` selects
        from it. */
    method MaximaAt(i: int) returns (curCoefficients: seq<real>, maxima: seq<int>)
      requires Valid()
      requires 0 <= i < |arrScales| && |allCoefficients| == |arrScales|
      ensures curCoefficients == allCoefficients[i]
      ensures maxima == MaximaOf(curCoefficients, RemoveCutOff(arrScales[i]))
    {
      var curScale := arrScales[i];
      var indexOfThisWaveletScale := mapScaleToIndex[curScale];
      curCoefficients := allCoefficients[indexOfThisWaveletScale];
      maxima := FindMaximaForThisScale(curCoefficients, curScale);
    }

    /** One step of `buildRidgelines`' loop over the scales: the maxima of
        scale `i` of the axis are found in its coefficient row and linked
        into the ridge-lines. */
    method LinkScaleAt(i: int)
      requires Valid()
      requires 0 <= i < |arrScales| && |allCoefficients| == |arrScales|
      modifies this`ridgeLineArr, set r | r in ridgeLineArr
      ensures Valid()
      ensures old(ridgeLineArr) <= ridgeLineArr
      ensures forall r :: r in ridgeLineArr ==> r in old(ridgeLineArr) || fresh(r)
      ensures Values() == LinkScaleOf(old(Values()), arrScales, allCoefficients, i)
    {
      var curScale := arrScales[i];
      var curCoefficients, thisScaleBestMaxima := MaximaAt(i);
      LinkMaxima(curScale, curCoefficients, thisScaleBestMaxima);
    }

    /** `buildRidgelines`' loop over the scales, from the largest down: the
        maxima of each scale are linked into the ridge-lines. */
    method LinkAllScales()
      requires Valid()
      requires |allCoefficients| == |arrScales|
      modifies this`ridgeLineArr, set r | r in ridgeLineArr
      ensures Valid()
      ensures old(ridgeLineArr) <= ridgeLineArr
      ensures forall r :: r in ridgeLineArr ==> r in old(ridgeLineArr) || fresh(r)
      ensures Values() == LinkScalesDownTo(old(Values()), arrScales, allCoefficients, 0)
    {
      ghost var vs := Values();
      ghost var before := ridgeLineArr;
      var i := |arrScales| - 1;
      while i >= 0
        invariant -1 <= i < |arrScales|
        invariant Valid()
        invariant before <= ridgeLineArr
        invariant forall r :: r in ridgeLineArr ==> r in before || fresh(r)
        invariant Values() == LinkScalesDownTo(vs, arrScales, allCoefficients, i + 1)
      {
        LinkScaleAt(i);
        i := i - 1;
      }
    }

    /** `buildRidgelines` on the coefficient matrix `coefficients`, one row
        per scale of the axis and one column per sample: the scales are
        visited from the largest down, and the maxima of each are linked
        into the ridge-lines. No ridge-line is lost or shortened, and the
        ones created are tracked over the axis. */
    method BuildRidgelines(coefficients: seq<seq<real>>)
      requires Valid()
      requires |coefficients| == |arrScales|
      requires forall i :: 0 <= i < |coefficients| ==> |coefficients[i]| == |x|
      modifies this`allCoefficients, this`ridgeLineArr, set r | r in ridgeLineArr
      ensures Valid()
      ensures allCoefficients == coefficients
      ensures old(ridgeLineArr) <= ridgeLineArr
      ensures forall r :: r in ridgeLineArr ==> r in old(ridgeLineArr) || fresh(r)
      ensures Values() == LinkScalesDownTo(old(Values()), arrScales, coefficients, 0)
      ensures ExtendsAll(old(Values()), Values())
      ensures forall k :: |old(ridgeLineArr)| <= k < |ridgeLineArr| ==>
        Tracked(ridgeLineArr[k].Value(), arrScales, |x|)
    {
      ghost var vs := Values();
      allCoefficients := coefficients;
      assert Values() == vs;
      LinkAllScales();
      ghost var table := ScaleMaxima(arrScales, coefficients);
      LinkRowsExtend(vs, arrScales, coefficients, table, 0);
      LinkRowsTracked(vs, arrScales, coefficients, table, |x|, 0);
    }

    /** `filterRidgelines`: keep the ridge-lines of at least
        `totalNumberOfScales - 3` points. */
    method FilterRidgelines()
      requires RidgesValid()
      modifies this`ridgeLineArr
      ensures RidgesValid()
      ensures ridgeLineArr == Filtered(old(ridgeLineArr))
    {
      var filteredRidgelines: seq<Ridgeline> := [];
      var i := 0;
      while i < |ridgeLineArr|
        invariant 0 <= i <= |ridgeLineArr|
        invariant filteredRidgelines == Filtered(ridgeLineArr[..i])
      {
        var curRL := ridgeLineArr[i];
        var ridgeLength := curRL.GetRidgeLength();
        var nScales := curRL.totalNumberOfScales;
        assert ridgeLineArr[..i + 1][..i] == ridgeLineArr[..i];
        if ridgeLength < nScales - MinRidgeLengthSlack {
          i := i + 1;
          continue;
        }
        filteredRidgelines := filteredRidgelines + [curRL];
        i := i + 1;
      }
      assert ridgeLineArr[..i] == ridgeLineArr;
      FilteredMembers(ridgeLineArr);
      FilteredDistinct(ridgeLineArr);
      forall k | 0 <= k < |filteredRidgelines|
        ensures filteredRidgelines[k].Valid()
      {
        assert filteredRidgelines[k] in ridgeLineArr;
      }
      ridgeLineArr := filteredRidgelines;
    }

    /** The body of `findBoundries`' loop for one ridge-line: its best
        index widened by its rounded best scale and clipped to `n` samples,
        and its coefficient. */
    static method RidgeBounds(curRL: Ridgeline, n: int)
      returns (curLeftBound: int, curRightBound: int, bestCoefficient: real)
      requires curRL.Valid()
      ensures (curLeftBound, curRightBound, bestCoefficient) == PeakRegion(curRL.Value(), n)
    {
      var bestIndex := curRL.GetBestIndex();
      var bestScale := curRL.GetBestScale();
      bestCoefficient := curRL.GetMaxCor();
      ghost var bounds := PeakBounds(bestIndex, bestScale, n);
      assert PeakRegion(curRL.Value(), n) == (bounds.0, bounds.1, bestCoefficient);
      curRightBound := bestIndex + Round(bestScale);
      if curRightBound >= n {
        curRightBound := n - 1;
      }
      curLeftBound := bestIndex - Round(bestScale);
      if curLeftBound < 0 {
        curLeftBound := 0;
      }
    }

    /** Writes entry `count` of the three rows of `findBoundries`. */
    static method RecordRegion(lower: array<real>, upper: array<real>, coef: array<real>, count: int,
                               curLeftBound: int, curRightBound: int, bestCoefficient: real,
                               ghost lefts: seq<real>, ghost rights: seq<real>, ghost coefs: seq<real>)
      requires lower != upper && upper != coef && lower != coef
      requires count < |lefts| == |rights| == |coefs|
      requires count < lower.Length == upper.Length == coef.Length
      requires FilledUpTo(lower[..], lefts, count)
      requires FilledUpTo(upper[..], rights, count)
      requires FilledUpTo(coef[..], coefs, count)
      requires lefts[count] == curLeftBound as real && rights[count] == curRightBound as real
      requires coefs[count] == bestCoefficient
      modifies lower, upper, coef
      ensures FilledUpTo(lower[..], lefts, count + 1)
      ensures FilledUpTo(upper[..], rights, count + 1)
      ensures FilledUpTo(coef[..], coefs, count + 1)
    {
      FilledStep(lower[..], lefts, count, curLeftBound as real);
      lower[count] := curLeftBound as real;
      FilledStep(upper[..], rights, count, curRightBound as real);
      upper[count] := curRightBound as real;
      FilledStep(coef[..], coefs, count, bestCoefficient);
      coef[count] := bestCoefficient;
    }

    /** `findBoundries`: three rows of `|x|` entries; entry `count` of the
        rows holds the left bound, the right bound and the coefficient of
        ridge-line `count`, and the entries past the last ridge-line stay
        0.0. */
    method FindBoundaries() returns (boundsAndBestCoef: seq<seq<real>>)
      requires RidgesValid()
      requires |ridgeLineArr| <= |x|
      ensures |boundsAndBestCoef| == 3
      ensures forall r :: 0 <= r < 3 ==> |boundsAndBestCoef[r]| == |x|
      ensures forall k :: 0 <= k < |ridgeLineArr| ==>
        var region := PeakRegion(ridgeLineArr[k].Value(), |x|);
        && boundsAndBestCoef[0][k] == region.0 as real
        && boundsAndBestCoef[1][k] == region.1 as real
        && boundsAndBestCoef[2][k] == region.2
      ensures forall r, k :: 0 <= r < 3 && |ridgeLineArr| <= k < |x| ==> boundsAndBestCoef[r][k] == 0.0
    {
      var n := |x|;
      var rs := ridgeLineArr;
      ghost var vs := Values();
      ghost var regions := seq(|vs|, k requires 0 <= k < |vs| => PeakRegion(vs[k], n));
      ghost var lefts := seq(|rs|, k requires 0 <= k < |rs| => regions[k].0 as real);
      ghost var rights := seq(|rs|, k requires 0 <= k < |rs| => regions[k].1 as real);
      ghost var coefs := seq(|rs|, k requires 0 <= k < |rs| => regions[k].2);
      var lower := new real[n](_ => 0.0);
      var upper := new real[n](_ => 0.0);
      var coef := new real[n](_ => 0.0);
      var count := 0;
      while count < |rs|
        invariant 0 <= count <= |rs| == |regions|
        invariant FilledUpTo(lower[..], lefts, count)
        invariant FilledUpTo(upper[..], rights, count)
        invariant FilledUpTo(coef[..], coefs, count)
      {
        var curLeftBound, curRightBound, bestCoefficient := RidgeBounds(rs[count], n);
        RecordRegion(lower, upper, coef, count, curLeftBound, curRightBound, bestCoefficient,
                     lefts, rights, coefs);
        count := count + 1;
      }
      boundsAndBestCoef := [lower[..], upper[..], coef[..]];
    }
  }
}
