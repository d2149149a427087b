// `findMaximaForThisScale` of ContinuousWaveletTransform: greedy
// non-maximum suppression over one scale's coefficient row.

module Maxima {
  import opened JavaMath
  import opened IndexSort

  /** `removeCutOff`: the suppression radius used at `waveletScale`. A
      selected maximum suppresses every position less than this far away. */
  function RemoveCutOff(waveletScale: real): (cut: int)
    ensures waveletScale >= 0.0 ==> cut >= 0
    ensures cut as real - 0.5 <= waveletScale * 2.5 < cut as real + 0.5
  {
    Round(waveletScale * 2.5)
  }

  /** Position `k` is suppressed by a maximum at `m`: it is `m` itself or
      one of `m +- j` for `1 <= j < cut`. */
  predicate Near(m: int, k: int, cut: int)
  {
    k == m || Abs(k - m) < cut
  }

  /** No two selected maxima suppress each other: they are distinct and at
      least `cut` apart. */
  predicate Separated(maxima: seq<int>, cut: int)
  {
    forall p, q :: 0 <= p < q < |maxima| ==> !Near(maxima[p], maxima[q], cut)
  }

  /** Position `k` lies in the suppression window of a selected maximum
      that the scan reaches before `k`: one with a larger value, or an
      equal value at a later position. */
  predicate Dominated(data: seq<real>, maxima: seq<int>, k: int, cut: int)
    requires InRange(data, maxima) && 0 <= k < |data|
  {
    exists t :: 0 <= t < |maxima| && Near(maxima[t], k, cut) && KeyLeq(data, k, maxima[t])
  }

  /** Selected maxima come out largest first; equal values come out in
      decreasing position (the stable sort is scanned from its end). */
  predicate DiscoveryOrder(data: seq<real>, maxima: seq<int>)
    requires InRange(data, maxima)
  {
    forall p, q :: 0 <= p < q < |maxima| ==> KeyLeq(data, maxima[q], maxima[p])
  }

  /** No selected maximum suppresses position `k`. */
  predicate Eligible(maxima: seq<int>, k: int, cut: int)
  {
    forall t :: 0 <= t < |maxima| ==> !Near(maxima[t], k, cut)
  }

  lemma EligibleAppend(maxima: seq<int>, m: int, k: int, cut: int)
    ensures Eligible(maxima + [m], k, cut) <==> Eligible(maxima, k, cut) && !Near(m, k, cut)
  {
    var s := maxima + [m];
    assert s[|maxima|] == m;
    assert forall t :: 0 <= t < |maxima| ==> s[t] == maxima[t];
  }

  /** The eligibility table `mapIndexToBoolRemain`, keyed by every position
      of the sorted permutation and initialised to true. */
  method MarkAllEligible(order: seq<int>, n: nat) returns (remain: array<bool>)
    requires forall k :: 0 <= k < |order| ==> 0 <= order[k] < n
    requires forall k :: 0 <= k < n ==> k in order
    ensures fresh(remain) && remain.Length == n
    ensures forall k :: 0 <= k < n ==> remain[k]
  {
    remain := new bool[n];
    var i := 0;
    while i < |order|
      invariant 0 <= i <= |order|
      invariant forall j :: 0 <= j < i ==> remain[order[j]]
    {
      remain[order[i]] := true;
      i := i + 1;
    }
    forall k | 0 <= k < n
      ensures remain[k]
    {
      assert k in order;
      var j :| 0 <= j < |order| && order[j] == k;
    }
  }

  /** Marks a new maximum and its neighbours within `removeCutOff - 1`
      (clipped to the array) as no longer eligible. */
  method Suppress(remain: array<bool>, curLargestIndex: int, removeCutOff: int)
    requires 0 <= curLargestIndex < remain.Length
    modifies remain
    ensures forall k :: 0 <= k < remain.Length ==>
      remain[k] == (old(remain[k]) && !Near(curLargestIndex, k, removeCutOff))
  {
    var n := remain.Length;
    remain[curLargestIndex] := false;
    var j := 1;
    while j < removeCutOff
      invariant 1 <= j <= Max(1, removeCutOff)
      invariant forall k :: 0 <= k < n ==>
        remain[k] == (old(remain[k]) && k != curLargestIndex && Abs(k - curLargestIndex) >= j)
    {
      var curRemoveIndexRight := curLargestIndex + j;
      var curRemoveIndexLeft := curLargestIndex - j;
      if curRemoveIndexLeft >= 0 {
        remain[curRemoveIndexLeft] := false;
      }
      if curRemoveIndexRight < n {
        remain[curRemoveIndexRight] := false;
      }
      j := j + 1;
    }
  }

  /** What holds after the scan has visited the sorted positions
      `order[i+1..]`, with `remain` the eligibility table and `maxima` the
      maxima selected so far. */
  ghost predicate ScanInvariant(data: seq<real>, order: seq<int>, remain: seq<bool>,
                                maxima: seq<int>, i: int, cut: int)
  {
    && |order| == |data| && |remain| == |data| && -1 <= i < |data|
    && InRange(data, order) && SortedByKey(data, order)
    && InRange(data, maxima) && Separated(maxima, cut) && DiscoveryOrder(data, maxima)
    && (forall k :: 0 <= k < |data| ==> remain[k] == Eligible(maxima, k, cut))
    && (forall j :: i < j < |data| ==> !remain[order[j]])
    && (forall t, j :: 0 <= t < |maxima| && 0 <= j <= i ==> KeyLeq(data, order[j], maxima[t]))
    && (forall j :: i < j < |data| && order[j] !in maxima ==> Dominated(data, maxima, order[j], cut))
  }

  lemma ScanStart(data: seq<real>, order: seq<int>, remain: seq<bool>, cut: int)
    requires |order| == |data| && |remain| == |data|
    requires InRange(data, order) && SortedByKey(data, order)
    requires forall k :: 0 <= k < |data| ==> remain[k]
    ensures ScanInvariant(data, order, remain, [], |data| - 1, cut)
  {
  }

  /** Selecting an eligible position keeps the maxima separated. */
  lemma SelectKeepsSeparated(maxima: seq<int>, m: int, cut: int)
    requires Separated(maxima, cut) && Eligible(maxima, m, cut)
    ensures Separated(maxima + [m], cut)
  {
  }

  /** Selecting a position no larger than every selected maximum keeps the
      discovery order. */
  lemma SelectKeepsOrder(data: seq<real>, maxima: seq<int>, m: int)
    requires InRange(data, maxima) && 0 <= m < |data| && DiscoveryOrder(data, maxima)
    requires forall t :: 0 <= t < |maxima| ==> KeyLeq(data, m, maxima[t])
    ensures InRange(data, maxima + [m]) && DiscoveryOrder(data, maxima + [m])
  {
  }

  /** The eligibility table after suppressing around a new maximum `m`
      matches the extended list of maxima. */
  lemma SelectKeepsEligibility(remain: seq<bool>, remain': seq<bool>, maxima: seq<int>, m: int, cut: int)
    requires |remain'| == |remain|
    requires forall k :: 0 <= k < |remain| ==> remain[k] == Eligible(maxima, k, cut)
    requires forall k :: 0 <= k < |remain| ==> remain'[k] == (remain[k] && !Near(m, k, cut))
    ensures forall k :: 0 <= k < |remain'| ==> remain'[k] == Eligible(maxima + [m], k, cut)
  {
    forall k | 0 <= k < |remain'|
      ensures remain'[k] == Eligible(maxima + [m], k, cut)
    {
      EligibleAppend(maxima, m, k, cut);
    }
  }

  /** A position dominated before a new maximum is added stays dominated. */
  lemma DominatedAppend(data: seq<real>, maxima: seq<int>, m: int, k: int, cut: int)
    requires InRange(data, maxima) && 0 <= m < |data| && 0 <= k < |data|
    requires Dominated(data, maxima, k, cut)
    ensures Dominated(data, maxima + [m], k, cut)
  {
    var t :| 0 <= t < |maxima| && Near(maxima[t], k, cut) && KeyLeq(data, k, maxima[t]);
    assert (maxima + [m])[t] == maxima[t];
  }

  /** Visiting an eligible position selects it and suppresses its window. */
  lemma ScanSelect(data: seq<real>, order: seq<int>, remain: seq<bool>, remain': seq<bool>,
                   maxima: seq<int>, i: int, cut: int)
    requires ScanInvariant(data, order, remain, maxima, i, cut)
    requires i >= 0 && remain[order[i]]
    requires |remain'| == |remain|
    requires forall k :: 0 <= k < |remain| ==> remain'[k] == (remain[k] && !Near(order[i], k, cut))
    ensures ScanInvariant(data, order, remain', maxima + [order[i]], i - 1, cut)
  {
    var m := order[i];
    var maxima' := maxima + [m];
    SelectKeepsSeparated(maxima, m, cut);
    SelectKeepsOrder(data, maxima, m);
    SelectKeepsEligibility(remain, remain', maxima, m, cut);
    forall t, j | 0 <= t < |maxima'| && 0 <= j <= i - 1
      ensures KeyLeq(data, order[j], maxima'[t])
    {
      if t == |maxima| {
        assert KeyLeq(data, order[j], order[i]);
      } else {
        assert maxima'[t] == maxima[t];
      }
    }
    forall j | i - 1 < j < |data| && order[j] !in maxima'
      ensures Dominated(data, maxima', order[j], cut)
    {
      DominatedAppend(data, maxima, m, order[j], cut);
    }
  }

  /** Visiting an ineligible position selects nothing; a stronger maximum
      already suppresses it. */
  lemma ScanSkip(data: seq<real>, order: seq<int>, remain: seq<bool>,
                 maxima: seq<int>, i: int, cut: int)
    requires ScanInvariant(data, order, remain, maxima, i, cut)
    requires i >= 0 && !remain[order[i]]
    ensures ScanInvariant(data, order, remain, maxima, i - 1, cut)
  {
  }

  /** Once every sorted position is visited, each position is a maximum or
      dominated by one. */
  lemma ScanDone(data: seq<real>, order: seq<int>, remain: seq<bool>, maxima: seq<int>, cut: int)
    requires ScanInvariant(data, order, remain, maxima, -1, cut)
    requires forall k :: 0 <= k < |data| ==> k in order
    ensures forall k :: 0 <= k < |data| ==> k in maxima || Dominated(data, maxima, k, cut)
  {
    forall k | 0 <= k < |data|
      ensures k in maxima || Dominated(data, maxima, k, cut)
    {
      assert k in order;
      var j :| 0 <= j < |order| && order[j] == k;
    }
  }

  /** The scan over `order[..i + 1]`, from `order[i]` down, after `maxima`
      have been selected: each position no selected maximum suppresses is
      selected in turn. */
  function Scan(data: seq<real>, order: seq<int>, i: int, maxima: seq<int>, cut: int): (r: seq<int>)
    requires -1 <= i < |order|
    requires InRange(data, order) && InRange(data, maxima)
    ensures maxima <= r && InRange(data, r)
    decreases i + 1
  {
    if i < 0 then maxima
    else if Eligible(maxima, order[i], cut) then Scan(data, order, i - 1, maxima + [order[i]], cut)
    else Scan(data, order, i - 1, maxima, cut)
  }

  /** The maxima `findMaximaForThisScale` selects from `data` with
      suppression radius `cut`: the scan over the stably sorted positions,
      from the largest down. */
  function MaximaOf(data: seq<real>, cut: int): (maxima: seq<int>)
    ensures InRange(data, maxima)
  {
    Scan(data, SortedOrder(data), |data| - 1, [], cut)
  }

  /** The eligibility table for a list of selected maxima. */
  ghost function EligibleTable(n: nat, maxima: seq<int>, cut: int): (remain: seq<bool>)
    ensures |remain| == n
    ensures forall k :: 0 <= k < n ==> remain[k] == Eligible(maxima, k, cut)
  {
    seq(n, k => Eligible(maxima, k, cut))
  }

  /** Selecting an eligible position, with the eligibility table of the
      new maxima, preserves the scan invariant. */
  lemma ScanSelectTable(data: seq<real>, order: seq<int>, maxima: seq<int>, i: int, cut: int)
    requires ScanInvariant(data, order, EligibleTable(|data|, maxima, cut), maxima, i, cut)
    requires i >= 0 && Eligible(maxima, order[i], cut)
    ensures ScanInvariant(data, order, EligibleTable(|data|, maxima + [order[i]], cut),
                          maxima + [order[i]], i - 1, cut)
  {
    var m := order[i];
    var remain := EligibleTable(|data|, maxima, cut);
    var remain' := EligibleTable(|data|, maxima + [m], cut);
    forall k | 0 <= k < |remain|
      ensures remain'[k] == (remain[k] && !Near(m, k, cut))
    {
      EligibleAppend(maxima, m, k, cut);
    }
    ScanSelect(data, order, remain, remain', maxima, i, cut);
  }

  /** Running the scan to its end, with result `r`, keeps `ScanInvariant`. */
  lemma {:induction false} ScanToEnd(data: seq<real>, order: seq<int>, maxima: seq<int>, i: int,
                                     cut: int, r: seq<int>)
    requires ScanInvariant(data, order, EligibleTable(|data|, maxima, cut), maxima, i, cut)
    requires r == Scan(data, order, i, maxima, cut)
    ensures ScanInvariant(data, order, EligibleTable(|data|, r, cut), r, -1, cut)
    decreases i + 1
  {
    if i >= 0 {
      var m := order[i];
      if Eligible(maxima, m, cut) {
        ScanSelectTable(data, order, maxima, i, cut);
        ScanToEnd(data, order, maxima + [m], i - 1, cut, r);
      } else {
        ScanSkip(data, order, EligibleTable(|data|, maxima, cut), maxima, i, cut);
        ScanToEnd(data, order, maxima, i - 1, cut, r);
      }
    }
  }

  /** `MaximaOf` has the properties the scan guarantees: positions of the
      row, pairwise separated, largest first, and every other position
      suppressed by a maximum the scan reaches first. */
  lemma MaximaOfSpec(data: seq<real>, cut: int)
    ensures var maxima := MaximaOf(data, cut);
      && Separated(maxima, cut) && DiscoveryOrder(data, maxima)
      && (forall k :: 0 <= k < |data| ==> k in maxima || Dominated(data, maxima, k, cut))
  {
    var order := SortedOrder(data);
    var n := |data|;
    SortedOrderSorted(data);
    ScanStart(data, order, EligibleTable(n, [], cut), cut);
    var r := Scan(data, order, n - 1, [], cut);
    ScanToEnd(data, order, [], n - 1, cut, r);
    PermutationCoversRange(order, n);
    ScanDone(data, order, EligibleTable(n, r, cut), r, cut);
  }

  /** `maxima` are the maxima of the positions `u` of `data`: positions of
      `u`, separated, largest first, and covering the rest of `u`. */
  ghost predicate MaximaOn(data: seq<real>, u: set<int>, maxima: seq<int>, cut: int)
  {
    && InRange(data, maxima)
    && (forall t :: 0 <= t < |maxima| ==> maxima[t] in u)
    && Separated(maxima, cut) && DiscoveryOrder(data, maxima)
    && (forall k :: k in u ==> 0 <= k < |data| && (k in maxima || Dominated(data, maxima, k, cut)))
  }

  /** Any two such lists start with the same position: each head is
      reached by the scan no later than the other. */
  lemma MaximaHeadsAgree(data: seq<real>, u: set<int>, a: seq<int>, b: seq<int>, cut: int)
    requires MaximaOn(data, u, a, cut) && MaximaOn(data, u, b, cut)
    requires |a| > 0 && |b| > 0
    ensures a[0] == b[0]
  {
    HeadAbove(data, u, a, b, cut);
    HeadAbove(data, u, b, a, cut);
  }

  lemma HeadAbove(data: seq<real>, u: set<int>, a: seq<int>, b: seq<int>, cut: int)
    requires MaximaOn(data, u, a, cut) && MaximaOn(data, u, b, cut)
    requires |a| > 0 && |b| > 0
    ensures KeyLeq(data, a[0], b[0])
  {
    assert a[0] in u;
    if a[0] in b {
      var t :| 0 <= t < |b| && b[t] == a[0];
      if t > 0 {
        assert KeyLeq(data, b[t], b[0]);
      }
    } else {
      var t :| 0 <= t < |b| && Near(b[t], a[0], cut) && KeyLeq(data, a[0], b[t]);
      if t > 0 {
        assert KeyLeq(data, b[t], b[0]);
      }
    }
  }

  /** The positions of `u` a maximum at `m` does not suppress. */
  ghost function Unsuppressed(u: set<int>, m: int, cut: int): (u': set<int>)
    ensures forall k :: k in u' <==> k in u && !Near(m, k, cut)
  {
    set k | k in u && !Near(m, k, cut)
  }

  /** Dropping the first maximum and the positions it suppresses leaves the
      maxima of what remains. */
  lemma MaximaOnTail(data: seq<real>, u: set<int>, a: seq<int>, cut: int)
    requires MaximaOn(data, u, a, cut) && |a| > 0
    ensures MaximaOn(data, Unsuppressed(u, a[0], cut), a[1..], cut)
  {
    var u' := Unsuppressed(u, a[0], cut);
    var a' := a[1..];
    forall t | 0 <= t < |a'|
      ensures a'[t] in u'
    {
      assert a'[t] == a[t + 1];
      assert !Near(a[0], a[t + 1], cut);
    }
    forall p, q | 0 <= p < q < |a'|
      ensures !Near(a'[p], a'[q], cut) && KeyLeq(data, a'[q], a'[p])
    {
      assert a'[p] == a[p + 1] && a'[q] == a[q + 1];
    }
    forall k | k in u'
      ensures k in a' || Dominated(data, a', k, cut)
    {
      if k in a {
        var t :| 0 <= t < |a| && a[t] == k;
        assert t != 0;
        assert a'[t - 1] == k;
      } else {
        var t :| 0 <= t < |a| && Near(a[t], k, cut) && KeyLeq(data, k, a[t]);
        assert t != 0;
        assert a'[t - 1] == a[t];
      }
    }
  }

  lemma SubsetCard(a: set<int>, b: set<int>)
    requires a <= b
    ensures |a| <= |b|
  {
    assert b == a + (b - a);
    assert a * (b - a) == {};
  }

  /** A set of positions with a member has a maximum. */
  lemma MaximaOnCovers(data: seq<real>, u: set<int>, a: seq<int>, k: int, cut: int)
    requires MaximaOn(data, u, a, cut) && k in u
    ensures |a| > 0
  {
    assert k in a || Dominated(data, a, k, cut);
  }

  /** Removing the positions the first maximum suppresses shrinks the set. */
  lemma UnsuppressedSmaller(u: set<int>, m: int, cut: int)
    requires m in u
    ensures |Unsuppressed(u, m, cut)| < |u|
  {
    SubsetCard(Unsuppressed(u, m, cut), u - {m});
  }

  /** Either both lists are empty or neither is. */
  lemma MaximaOnEmptyTogether(data: seq<real>, u: set<int>, a: seq<int>, b: seq<int>, cut: int)
    requires MaximaOn(data, u, a, cut) && MaximaOn(data, u, b, cut)
    ensures |a| == 0 <==> |b| == 0
  {
    if |b| > 0 {
      assert b[0] in u;
      MaximaOnCovers(data, u, a, b[0], cut);
    }
    if |a| > 0 {
      assert a[0] in u;
      MaximaOnCovers(data, u, b, a[0], cut);
    }
  }

  /** The maxima of a set of positions are unique. */
  lemma {:induction false} MaximaOnUnique(data: seq<real>, u: set<int>, a: seq<int>, b: seq<int>, cut: int)
    requires MaximaOn(data, u, a, cut) && MaximaOn(data, u, b, cut)
    ensures a == b
    decreases |u|
  {
    MaximaOnEmptyTogether(data, u, a, b, cut);
    if |a| > 0 {
      MaximaHeadsAgree(data, u, a, b, cut);
      MaximaOnTail(data, u, a, cut);
      MaximaOnTail(data, u, b, cut);
      assert a[0] in u;
      UnsuppressedSmaller(u, a[0], cut);
      MaximaOnUnique(data, Unsuppressed(u, a[0], cut), a[1..], b[1..], cut);
      assert a == [a[0]] + a[1..];
      assert b == [b[0]] + b[1..];
    }
  }

  /** The positions of a row of `n` values. */
  ghost function Positions(n: nat): (u: set<int>)
    ensures forall k :: k in u <==> 0 <= k < n
  {
    var ids := Identity(n);
    assert forall k :: 0 <= k < n ==> k in ids by {
      forall k | 0 <= k < n
        ensures k in ids
      {
        assert ids[k] == k;
      }
    }
    set k | k in ids
  }

  /** The four properties determine the maxima: any list that has them is
      the one the scan selects. */
  lemma MaximaUnique(data: seq<real>, cut: int, maxima: seq<int>)
    requires InRange(data, maxima)
    requires Separated(maxima, cut) && DiscoveryOrder(data, maxima)
    requires forall k :: 0 <= k < |data| ==> k in maxima || Dominated(data, maxima, k, cut)
    ensures maxima == MaximaOf(data, cut)
  {
    var u := Positions(|data|);
    MaximaOfSpec(data, cut);
    MaximaOnUnique(data, u, maxima, MaximaOf(data, cut), cut);
  }

  /** The scan of `findMaximaForThisScale` over the sorted positions
      `order`, from the largest down: each position still eligible becomes
      a maximum and makes itself and its neighbours within
      `removeCutOff - 1` ineligible. */
  method ScanSorted(coefficients: seq<real>, order: seq<int>, removeCutOff: int)
    returns (maxima: seq<int>)
    requires |order| == |coefficients|
    requires InRange(coefficients, order) && SortedByKey(coefficients, order)
    requires forall k :: 0 <= k < |coefficients| ==> k in order
    ensures maxima == Scan(coefficients, order, |order| - 1, [], removeCutOff)
    ensures InRange(coefficients, maxima)
    ensures Separated(maxima, removeCutOff)
    ensures DiscoveryOrder(coefficients, maxima)
    ensures forall k :: 0 <= k < |coefficients| ==>
      k in maxima || Dominated(coefficients, maxima, k, removeCutOff)
  {
    var n := |coefficients|;
    var remain := MarkAllEligible(order, n);
    maxima := [];
    var i := n - 1;
    ScanStart(coefficients, order, remain[..], removeCutOff);
    while i >= 0
      invariant remain.Length == n
      invariant ScanInvariant(coefficients, order, remain[..], maxima, i, removeCutOff)
      invariant Scan(coefficients, order, i, maxima, removeCutOff)
             == Scan(coefficients, order, n - 1, [], removeCutOff)
    {
      if remain[order[i]] {
        var curLargestIndex := order[i];
        ghost var before := remain[..];
        Suppress(remain, curLargestIndex, removeCutOff);
        ScanSelect(coefficients, order, before, remain[..], maxima, i, removeCutOff);
        maxima := maxima + [curLargestIndex];
      } else {
        ScanSkip(coefficients, order, remain[..], maxima, i, removeCutOff);
      }
      i := i - 1;
    }
    ScanDone(coefficients, order, remain[..], maxima, removeCutOff);
  }

  /** `findMaximaForThisScale`: sort the positions by coefficient, then
      scan them from the largest down. */
  method FindMaximaForThisScale(coefficients: seq<real>, waveletScale: real)
    returns (maxima: seq<int>)
    ensures InRange(coefficients, maxima)
    ensures Separated(maxima, RemoveCutOff(waveletScale))
    ensures DiscoveryOrder(coefficients, maxima)
    ensures forall k :: 0 <= k < |coefficients| ==>
      k in maxima || Dominated(coefficients, maxima, k, RemoveCutOff(waveletScale))
    ensures maxima == MaximaOf(coefficients, RemoveCutOff(waveletScale))
  {
    var n := |coefficients|;
    var removeCutOff := RemoveCutOff(waveletScale);
    var indices := MakeArrOfIndices(coefficients);
    SortIndices(coefficients, indices);
    var order := indices[..];
    assert |order| == n;
    PermutationCoversRange(order, n);
    SortedOrderUnique(coefficients, order);
    maxima := ScanSorted(coefficients, order, removeCutOff);
  }
}
