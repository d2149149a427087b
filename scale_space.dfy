// The integer side of ContinuousWaveletTransform's scale space: the scale
// axis built in the constructor, and the clipped sample window of one
// coefficient.

module ScaleSpace {
  import opened JavaMath

  /** Scale number `k` of the axis starting at `smallScale` with step
      `incrementScale`, computed exactly. */
  function ScaleAt(smallScale: real, incrementScale: real, k: nat): real
  {
    smallScale + k as real * incrementScale
  }

  /** The constructor's loop: scales `smallScale, smallScale + increment, ...`
      while they do not exceed `largeScale`, each mapped to its position. */
  method BuildScaleAxis(smallScale: real, largeScale: real, incrementScale: real)
    returns (arrScales: seq<real>, mapScaleToIndex: map<real, int>)
    requires incrementScale > 0.0
    ensures forall k :: 0 <= k < |arrScales| ==> arrScales[k] == ScaleAt(smallScale, incrementScale, k)
    ensures forall k :: 0 <= k < |arrScales| ==> arrScales[k] <= largeScale
    ensures ScaleAt(smallScale, incrementScale, |arrScales|) > largeScale
    ensures forall p, q :: 0 <= p < q < |arrScales| ==> arrScales[p] < arrScales[q]
    ensures forall s :: s in mapScaleToIndex <==> s in arrScales
    ensures forall k :: 0 <= k < |arrScales| ==> mapScaleToIndex[arrScales[k]] == k
  {
    arrScales := [];
    mapScaleToIndex := map[];
    var index := 0;
    var curScale := smallScale;
    while curScale <= largeScale
      invariant index == |arrScales|
      invariant curScale == ScaleAt(smallScale, incrementScale, index)
      invariant forall k :: 0 <= k < |arrScales| ==> arrScales[k] == ScaleAt(smallScale, incrementScale, k)
      invariant forall k :: 0 <= k < |arrScales| ==> arrScales[k] <= largeScale
      invariant forall p, q :: 0 <= p < q < |arrScales| ==> arrScales[p] < arrScales[q]
      invariant forall k :: 0 <= k < |arrScales| ==> arrScales[k] < curScale
      invariant forall s :: s in mapScaleToIndex <==> s in arrScales
      invariant forall k :: 0 <= k < |arrScales| ==> mapScaleToIndex[arrScales[k]] == k
      decreases ((largeScale - curScale) / incrementScale).Floor
    {
      ScaleStepDecreases(largeScale, curScale, incrementScale);
      arrScales := arrScales + [curScale];
      mapScaleToIndex := mapScaleToIndex[curScale := index];
      index := index + 1;
      curScale := curScale + incrementScale;
    }
  }

  lemma ScaleStepDecreases(largeScale: real, curScale: real, incrementScale: real)
    requires incrementScale > 0.0 && curScale <= largeScale
    ensures 0 <= ((largeScale - curScale) / incrementScale).Floor
    ensures ((largeScale - (curScale + incrementScale)) / incrementScale).Floor
            < ((largeScale - curScale) / incrementScale).Floor
  {
    var d := (largeScale - curScale) / incrementScale;
    var e := (largeScale - (curScale + incrementScale)) / incrementScale;
    var x := e - d + 1.0;
    assert x * incrementScale == 0.0;
    assert e == d - 1.0;
  }

  /** How far out, in multiples of the scale, the wavelet is evaluated
      (`scaleCoefHowFarOut`). */
  const ScaleCoefHowFarOut: int := 5

  /** The window `[leftBoundIntegrate, rightBoundIntegrate]` that
      `signalWaveletInnerProductOnePoint` sums over for the coefficient
      centred at `xIndexOfWaveletMax`, for a signal of `n` samples: the
      rounded reach on each side, truncated to the signal. For a centre
      inside the signal and a non-negative scale the window is non-empty
      and contains the centre. */
  function IntegrationWindow(xIndexOfWaveletMax: int, waveletScale: real, n: int): (w: (int, int))
    ensures 0 <= w.0 && w.1 <= n - 1
    ensures 0 <= xIndexOfWaveletMax < n && waveletScale >= 0.0 ==> w.0 <= xIndexOfWaveletMax <= w.1
    ensures w.0 > 0 ==> w.0 == Round(xIndexOfWaveletMax as real - ScaleCoefHowFarOut as real * waveletScale - 1.0)
    ensures w.1 < n - 1 ==> w.1 == Round(xIndexOfWaveletMax as real + ScaleCoefHowFarOut as real * waveletScale + 1.0)
    ensures w.0 == 0 ==> Round(xIndexOfWaveletMax as real - ScaleCoefHowFarOut as real * waveletScale - 1.0) <= 0
    ensures w.1 == n - 1 ==> Round(xIndexOfWaveletMax as real + ScaleCoefHowFarOut as real * waveletScale + 1.0) >= n - 1
  {
    var reach := ScaleCoefHowFarOut as real * waveletScale;
    var leftBoundIntegrate := Round(xIndexOfWaveletMax as real - reach - 1.0);
    var rightBoundIntegrate := Round(xIndexOfWaveletMax as real + reach + 1.0);
    var left := if leftBoundIntegrate < 0 then 0 else leftBoundIntegrate;
    var right := if rightBoundIntegrate >= n then n - 1 else rightBoundIntegrate;
    (left, right)
  }
}
