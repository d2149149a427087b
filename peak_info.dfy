// PeakInfo: the record describing one detected peak, its ordering by apex
// position and the rule for merging two records of the same m/z.

module Peaks {
  import opened JavaMath

  /** The outcome of an operation that throws on bad input. */
  datatype Outcome<T> = Success(value: T) | Failure(error: string)

  /** The abstract value of a PeakInfo object: all of its fields. */
  datatype PeakRecord = PeakRecord(
    retTime: real,
    mzValue: real,
    intensity: real,
    retTimeStart: real,
    retTimeEnd: real,
    peakID: int,
    peakIndex: int,
    leftApexIndex: int,
    rightApexIndex: int,
    leftPeakIndex: int,
    rightPeakIndex: int,
    signalToNoiseRatio: real,
    coeffOverArea: real)

  /** A freshly constructed record: every field holds Java's default zero. */
  const DefaultRecord: PeakRecord :=
    PeakRecord(0.0, 0.0, 0.0, 0.0, 0.0, 0, 0, 0, 0, 0, 0, 0.0, 0.0)

  /** The ordering `compare` and `compareTo` implement: by `peakIndex` only. */
  function ComparePeakIndex(index1: int, index2: int): (c: int)
    ensures c == -1 <==> index1 < index2
    ensures c == 0 <==> index1 == index2
    ensures c == 1 <==> index1 > index2
  {
    if index1 < index2 then -1
    else if index1 == index2 then 0
    else 1
  }

  lemma ComparePeakIndexAntisymmetric(index1: int, index2: int)
    ensures ComparePeakIndex(index1, index2) == -ComparePeakIndex(index2, index1)
  {
  }

  lemma ComparePeakIndexTransitive(index1: int, index2: int, index3: int)
    requires ComparePeakIndex(index1, index2) <= 0 && ComparePeakIndex(index2, index3) <= 0
    ensures ComparePeakIndex(index1, index3) <= 0
  {
  }

  /** `merge` on values: two records of different m/z cannot be merged;
      otherwise the stronger record gives the intensity and the apex (the
      second on a tie), the bounds are the hull of both, and every other
      field keeps its default. */
  function MergeRecords(info1: PeakRecord, info2: PeakRecord): (r: Outcome<PeakRecord>)
    ensures r.Failure? <==> info1.mzValue != info2.mzValue
    ensures r.Success? ==> r.value.mzValue == info1.mzValue == info2.mzValue
    ensures r.Success? ==> r.value.intensity >= info1.intensity && r.value.intensity >= info2.intensity
    ensures r.Success? ==> r.value.intensity == info1.intensity || r.value.intensity == info2.intensity
    ensures r.Success? && info1.intensity > info2.intensity ==> r.value.peakIndex == info1.peakIndex
    ensures r.Success? && info1.intensity <= info2.intensity ==> r.value.peakIndex == info2.peakIndex
    ensures r.Success? ==> r.value.leftApexIndex == Min(info1.leftApexIndex, info2.leftApexIndex)
    ensures r.Success? ==> r.value.leftPeakIndex == Min(info1.leftPeakIndex, info2.leftPeakIndex)
    ensures r.Success? ==> r.value.rightApexIndex == Max(info1.rightApexIndex, info2.rightApexIndex)
    ensures r.Success? ==> r.value.rightPeakIndex == Max(info1.rightPeakIndex, info2.rightPeakIndex)
    ensures r.Success? ==> r.value.retTime == 0.0 && r.value.retTimeStart == 0.0 && r.value.retTimeEnd == 0.0
    ensures r.Success? ==> r.value.peakID == 0 && r.value.signalToNoiseRatio == 0.0 && r.value.coeffOverArea == 0.0
  {
    if info1.mzValue != info2.mzValue then
      Failure("Cannot merge PeakInfo with different m/z-values")
    else
      var stronger := if info1.intensity > info2.intensity then info1 else info2;
      Success(DefaultRecord.(
        mzValue := info1.mzValue,
        intensity := stronger.intensity,
        peakIndex := stronger.peakIndex,
        leftApexIndex := Min(info1.leftApexIndex, info2.leftApexIndex),
        leftPeakIndex := Min(info1.leftPeakIndex, info2.leftPeakIndex),
        rightApexIndex := Max(info1.rightApexIndex, info2.rightApexIndex),
        rightPeakIndex := Max(info1.rightPeakIndex, info2.rightPeakIndex)))
  }

  /** The record's apex interval and peak interval. */
  predicate Covers(outer: PeakRecord, inner: PeakRecord)
  {
    && outer.leftApexIndex <= inner.leftApexIndex && inner.rightApexIndex <= outer.rightApexIndex
    && outer.leftPeakIndex <= inner.leftPeakIndex && inner.rightPeakIndex <= outer.rightPeakIndex
  }

  /** The merged intervals contain both inputs' intervals, and are the
      smallest that do. */
  lemma MergeIsHull(info1: PeakRecord, info2: PeakRecord, bound: PeakRecord)
    requires info1.mzValue == info2.mzValue
    requires Covers(bound, info1) && Covers(bound, info2)
    ensures var r := MergeRecords(info1, info2).value;
      Covers(r, info1) && Covers(r, info2) && Covers(bound, r)
  {
  }

  /** Merging is symmetric in everything but the apex taken on an
      intensity tie. */
  lemma MergeSymmetric(info1: PeakRecord, info2: PeakRecord)
    ensures MergeRecords(info1, info2).Success? <==> MergeRecords(info2, info1).Success?
    ensures info1.mzValue == info2.mzValue && info1.intensity != info2.intensity ==>
      MergeRecords(info1, info2) == MergeRecords(info2, info1)
    ensures info1.mzValue == info2.mzValue ==>
      MergeRecords(info1, info2).value.(peakIndex := 0) == MergeRecords(info2, info1).value.(peakIndex := 0)
  {
  }

  /** Merging three records of one m/z gives the same record whichever pair
      is merged first, apart from the apex on intensity ties. */
  lemma MergeAssociative(info1: PeakRecord, info2: PeakRecord, info3: PeakRecord)
    requires info1.mzValue == info2.mzValue == info3.mzValue
    ensures var left := MergeRecords(MergeRecords(info1, info2).value, info3).value;
      var right := MergeRecords(info1, MergeRecords(info2, info3).value).value;
      && left.(peakIndex := 0) == right.(peakIndex := 0)
      && ((info1.intensity != info2.intensity && info2.intensity != info3.intensity
           && info1.intensity != info3.intensity) ==> left == right)
  {
  }

  class PeakInfo {
    var retTime: real
    var mzValue: real
    var intensity: real
    var retTimeStart: real
    var retTimeEnd: real
    var peakID: int
    var peakIndex: int
    var leftApexIndex: int
    var rightApexIndex: int
    var leftPeakIndex: int
    var rightPeakIndex: int
    var signalToNoiseRatio: real
    var coeffOverArea: real

    function Value(): PeakRecord
      reads this
    {
      PeakRecord(retTime, mzValue, intensity, retTimeStart, retTimeEnd,
                 peakID, peakIndex, leftApexIndex, rightApexIndex, leftPeakIndex, rightPeakIndex,
                 signalToNoiseRatio, coeffOverArea)
    }

    /** `PeakInfo()`: every field zero. */
    constructor ()
      ensures Value() == DefaultRecord
    {
      retTime, mzValue, intensity, retTimeStart, retTimeEnd := 0.0, 0.0, 0.0, 0.0, 0.0;
      peakID, peakIndex := 0, 0;
      leftApexIndex, rightApexIndex, leftPeakIndex, rightPeakIndex := 0, 0, 0, 0;
      signalToNoiseRatio, coeffOverArea := 0.0, 0.0;
    }

    /** `PeakInfo(int peakIndex)`: zero except for the apex. */
    constructor WithPeakIndex(peakIndexIn: int)
      ensures Value() == DefaultRecord.(peakIndex := peakIndexIn)
    {
      retTime, mzValue, intensity, retTimeStart, retTimeEnd := 0.0, 0.0, 0.0, 0.0, 0.0;
      peakID, peakIndex := 0, peakIndexIn;
      leftApexIndex, rightApexIndex, leftPeakIndex, rightPeakIndex := 0, 0, 0, 0;
      signalToNoiseRatio, coeffOverArea := 0.0, 0.0;
    }

    /** A default record with the fields `merge` assigns set. */
    constructor Merged(mz: real, intensityIn: real, peakIndexIn: int,
                       leftApex: int, leftPeak: int, rightApex: int, rightPeak: int)
      ensures Value() == DefaultRecord.(mzValue := mz, intensity := intensityIn, peakIndex := peakIndexIn,
        leftApexIndex := leftApex, leftPeakIndex := leftPeak,
        rightApexIndex := rightApex, rightPeakIndex := rightPeak)
    {
      retTime, mzValue, intensity, retTimeStart, retTimeEnd := 0.0, mz, intensityIn, 0.0, 0.0;
      peakID, peakIndex := 0, peakIndexIn;
      leftApexIndex, rightApexIndex, leftPeakIndex, rightPeakIndex := leftApex, rightApex, leftPeak, rightPeak;
      signalToNoiseRatio, coeffOverArea := 0.0, 0.0;
    }

    /** The copy constructor: every field of `info` except `coeffOverArea`,
        which keeps its default. */
    constructor Copy(info: PeakInfo)
      ensures Value() == info.Value().(coeffOverArea := 0.0)
    {
      retTime := info.retTime;
      mzValue := info.mzValue;
      intensity := info.intensity;
      retTimeStart := info.retTimeStart;
      retTimeEnd := info.retTimeEnd;
      peakID := info.peakID;
      peakIndex := info.peakIndex;
      leftApexIndex := info.leftApexIndex;
      rightApexIndex := info.rightApexIndex;
      leftPeakIndex := info.leftPeakIndex;
      rightPeakIndex := info.rightPeakIndex;
      signalToNoiseRatio := info.signalToNoiseRatio;
      coeffOverArea := 0.0;
    }

    /** The fluent setter `mzValue(mz)`. */
    method MzValue(mz: real) returns (self: PeakInfo)
      modifies this
      ensures self == this
      ensures Value() == old(Value()).(mzValue := mz)
    {
      mzValue := mz;
      self := this;
    }

    /** The fluent setter `peakID(id)`. */
    method PeakID(id: int) returns (self: PeakInfo)
      modifies this
      ensures self == this
      ensures Value() == old(Value()).(peakID := id)
    {
      peakID := id;
      self := this;
    }

    /** `compare(info1, info2)`: the receiver plays no part. */
    function Compare(info1: PeakInfo, info2: PeakInfo): (c: int)
      reads info1, info2
      ensures c == -1 <==> info1.peakIndex < info2.peakIndex
      ensures c == 0 <==> info1.peakIndex == info2.peakIndex
      ensures c == 1 <==> info1.peakIndex > info2.peakIndex
    {
      ComparePeakIndex(info1.peakIndex, info2.peakIndex)
    }

    /** `compareTo(info)`: this record against `info`. */
    function CompareTo(info: PeakInfo): (c: int)
      reads this, info
      ensures c == Compare(this, info)
      ensures c == -Compare(info, this)
    {
      ComparePeakIndexAntisymmetric(peakIndex, info.peakIndex);
      ComparePeakIndex(peakIndex, info.peakIndex)
    }

    /** `merge`: fails on different m/z values; otherwise a new record as
        `MergeRecords` describes. */
    static method Merge(info1: PeakInfo, info2: PeakInfo) returns (result: Outcome<PeakInfo>)
      ensures result.Failure? <==> info1.mzValue != info2.mzValue
      ensures result.Success? ==>
        fresh(result.value) && MergeRecords(info1.Value(), info2.Value()) == Success(result.value.Value())
    {
      if info1.mzValue != info2.mzValue {
        return Failure("Cannot merge PeakInfo with different m/z-values");
      }
      var intensity, peakIndex;
      if info1.intensity > info2.intensity {
        intensity, peakIndex := info1.intensity, info1.peakIndex;
      } else {
        intensity, peakIndex := info2.intensity, info2.peakIndex;
      }
      var r := new PeakInfo.Merged(info1.mzValue, intensity, peakIndex,
        Min(info1.leftApexIndex, info2.leftApexIndex), Min(info1.leftPeakIndex, info2.leftPeakIndex),
        Max(info1.rightApexIndex, info2.rightApexIndex), Max(info1.rightPeakIndex, info2.rightPeakIndex));
      result := Success(r);
    }
  }
}
