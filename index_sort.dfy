// SortAndKeepOriginalIndecies: a comparator over positions of a data array,
// used to sort the identity permutation by the values it points at.

module IndexSort {

  /** The identity permutation [0, 1, ..., n-1]. */
  function Identity(n: nat): (s: seq<int>)
    ensures |s| == n
    ensures forall k :: 0 <= k < n ==> s[k] == k
  {
    seq(n, k => k)
  }

  /** `makeArrOfIndecies`: a fresh array holding the positions of `data` in
      increasing order. */
  method MakeArrOfIndices(data: seq<real>) returns (indices: array<int>)
    ensures fresh(indices)
    ensures indices[..] == Identity(|data|)
  {
    indices := new int[|data|];
    var i := 0;
    while i < |data|
      invariant 0 <= i <= |data|
      invariant forall k :: 0 <= k < i ==> indices[k] == k
    {
      indices[i] := i;
      i := i + 1;
    }
  }

  /** `compare(index1, index2)`: the sign of data[index1] - data[index2]. */
  function Compare(data: seq<real>, index1: int, index2: int): (r: int)
    requires 0 <= index1 < |data| && 0 <= index2 < |data|
    ensures r == -1 || r == 0 || r == 1
    ensures r == -1 <==> data[index1] < data[index2]
    ensures r == 0 <==> data[index1] == data[index2]
    ensures r == 1 <==> data[index1] > data[index2]
  {
    if data[index2] > data[index1] then -1
    else if data[index2] < data[index1] then 1
    else 0
  }

  lemma CompareReflexive(data: seq<real>, a: int)
    requires 0 <= a < |data|
    ensures Compare(data, a, a) == 0
  {
  }

  lemma CompareAntisymmetric(data: seq<real>, a: int, b: int)
    requires 0 <= a < |data| && 0 <= b < |data|
    ensures Compare(data, a, b) == -Compare(data, b, a)
  {
  }

  /** The comparator is a total preorder: transitive and connected. */
  lemma CompareTotalPreorder(data: seq<real>, a: int, b: int, c: int)
    requires 0 <= a < |data| && 0 <= b < |data| && 0 <= c < |data|
    ensures Compare(data, a, b) <= 0 || Compare(data, b, a) <= 0
    ensures Compare(data, a, b) <= 0 && Compare(data, b, c) <= 0 ==> Compare(data, a, c) <= 0
    ensures Compare(data, a, b) == 0 && Compare(data, b, c) == 0 ==> Compare(data, a, c) == 0
  {
  }

  /** The order a STABLE sort with `Compare` produces from the identity
      array: by value, and among equal values by position. */
  predicate KeyLeq(data: seq<real>, a: int, b: int)
    requires 0 <= a < |data| && 0 <= b < |data|
  {
    Compare(data, a, b) < 0 || (Compare(data, a, b) == 0 && a <= b)
  }

  predicate InRange(data: seq<real>, s: seq<int>)
  {
    forall k :: 0 <= k < |s| ==> 0 <= s[k] < |data|
  }

  predicate SortedByKey(data: seq<real>, s: seq<int>)
    requires InRange(data, s)
  {
    forall p, q :: 0 <= p < q < |s| ==> KeyLeq(data, s[p], s[q])
  }

  method Swap(a: array<int>, i: int, j: int)
    requires 0 <= i < a.Length && 0 <= j < a.Length
    modifies a
    ensures a[..] == old(a[..])[i := old(a[j])][j := old(a[i])]
    ensures multiset(a[..]) == multiset(old(a[..]))
  {
    a[i], a[j] := a[j], a[i];
  }

  /** One step of insertion sort: `a[i]` sinks into the sorted prefix
      `a[..i]`, leaving `a[..i + 1]` sorted. */
  method InsertIntoPrefix(data: seq<real>, a: array<int>, i: int)
    requires 0 <= i < a.Length
    requires InRange(data, a[..])
    requires forall p, q :: 0 <= p < q < i ==> KeyLeq(data, a[p], a[q])
    modifies a
    ensures multiset(a[..]) == multiset(old(a[..]))
    ensures InRange(data, a[..])
    ensures forall p, q :: 0 <= p < q <= i ==> KeyLeq(data, a[p], a[q])
    ensures a[i + 1..] == old(a[i + 1..])
  {
    var j := i;
    while j > 0 && !KeyLeq(data, a[j - 1], a[j])
      invariant 0 <= j <= i
      invariant a[i + 1..] == old(a[i + 1..])
      invariant multiset(a[..]) == multiset(old(a[..]))
      invariant InRange(data, a[..])
      invariant forall p, q :: 0 <= p < q <= i && p != j && q != j ==> KeyLeq(data, a[p], a[q])
      invariant forall q :: j < q <= i ==> KeyLeq(data, a[j], a[q])
      invariant 0 < j < i ==> KeyLeq(data, a[j - 1], a[j + 1])
    {
      Swap(a, j - 1, j);
      j := j - 1;
    }
  }

  /** `Arrays.sort(indecies, comparator)`, sorting by value and then
      position. Java's object sort is stable, so on the identity array
      (the only array the code sorts) it yields this `KeyLeq` order; the
      model sorts in place by insertion. */
  method SortIndices(data: seq<real>, a: array<int>)
    requires InRange(data, a[..])
    modifies a
    ensures multiset(a[..]) == multiset(old(a[..]))
    ensures InRange(data, a[..])
    ensures SortedByKey(data, a[..])
    ensures a[..] == SortByKey(data, old(a[..]))
  {
    var i := 0;
    while i < a.Length
      invariant 0 <= i <= a.Length
      invariant multiset(a[..]) == multiset(old(a[..]))
      invariant InRange(data, a[..])
      invariant forall p, q :: 0 <= p < q < i ==> KeyLeq(data, a[p], a[q])
    {
      InsertIntoPrefix(data, a, i);
      i := i + 1;
    }
    SortByKeySorted(data, old(a[..]));
    SortedUnique(data, a[..], SortByKey(data, old(a[..])));
  }

  /** Two equal multisets with the same first element agree on the rest. */
  lemma TailMultiset(s: seq<int>, t: seq<int>)
    requires |s| > 0 && |t| > 0 && s[0] == t[0]
    requires multiset(s) == multiset(t)
    ensures multiset(s[1..]) == multiset(t[1..])
  {
    assert s == [s[0]] + s[1..];
    assert t == [t[0]] + t[1..];
    assert multiset(s[1..]) == multiset(s) - multiset{s[0]};
    assert multiset(t[1..]) == multiset(t) - multiset{t[0]};
  }

  /** Of two `KeyLeq`-sorted permutations of the same positions, the first
      elements agree: each is below the other. */
  lemma SortedHeadsAgree(data: seq<real>, s: seq<int>, t: seq<int>)
    requires |s| > 0 && |t| > 0
    requires InRange(data, s) && InRange(data, t)
    requires multiset(s) == multiset(t)
    requires SortedByKey(data, s) && SortedByKey(data, t)
    ensures s[0] == t[0]
  {
    assert s[0] in multiset(t);
    var j :| 0 <= j < |t| && t[j] == s[0];
    assert t[0] in multiset(s);
    var i :| 0 <= i < |s| && s[i] == t[0];
    assert KeyLeq(data, s[0], t[0]) by {
      if i > 0 { assert KeyLeq(data, s[0], s[i]); }
    }
    assert KeyLeq(data, t[0], s[0]) by {
      if j > 0 { assert KeyLeq(data, t[0], t[j]); }
    }
  }

  /** A permutation sorted by `KeyLeq` is unique: any stable sort of the
      same positions, insertion sort included, yields the same sequence. */
  lemma {:induction false} SortedUnique(data: seq<real>, s: seq<int>, t: seq<int>)
    requires InRange(data, s) && InRange(data, t)
    requires multiset(s) == multiset(t)
    requires SortedByKey(data, s) && SortedByKey(data, t)
    ensures s == t
    decreases |s|
  {
    assert |t| == |multiset(t)| == |multiset(s)| == |s|;
    if |s| > 0 {
      SortedHeadsAgree(data, s, t);
      TailMultiset(s, t);
      SortedUnique(data, s[1..], t[1..]);
      assert s == [s[0]] + s[1..];
      assert t == [t[0]] + t[1..];
    }
  }

  /** Inserts position `x` into `s` in front of the first element it is
      not above. */
  function InsertByKey(data: seq<real>, s: seq<int>, x: int): (r: seq<int>)
    requires InRange(data, s) && 0 <= x < |data|
    ensures |r| == |s| + 1 && multiset(r) == multiset(s) + multiset{x}
    ensures InRange(data, r)
  {
    if s == [] || KeyLeq(data, x, s[0]) then [x] + s
    else
      assert s == [s[0]] + s[1..];
      [s[0]] + InsertByKey(data, s[1..], x)
  }

  /** Inserting into a sorted sequence keeps it sorted. */
  lemma {:induction false} InsertByKeySorted(data: seq<real>, s: seq<int>, x: int)
    requires InRange(data, s) && 0 <= x < |data| && SortedByKey(data, s)
    ensures SortedByKey(data, InsertByKey(data, s, x))
  {
    if s != [] && !KeyLeq(data, x, s[0]) {
      var rest := InsertByKey(data, s[1..], x);
      InsertByKeySorted(data, s[1..], x);
      forall y | y in rest
        ensures KeyLeq(data, s[0], y)
      {
        InsertByKeyMember(data, s[1..], x, y);
        if y != x {
          var q :| 0 <= q < |s[1..]| && s[1..][q] == y;
          assert s[q + 1] == y;
        }
      }
      SortedCons(data, s[0], rest);
    }
  }

  /** Every element of the insertion result is the inserted one or one of
      the original ones. */
  lemma InsertByKeyMember(data: seq<real>, s: seq<int>, x: int, y: int)
    requires InRange(data, s) && 0 <= x < |data|
    requires y in InsertByKey(data, s, x)
    ensures y == x || y in s
  {
    assert y in multiset(InsertByKey(data, s, x));
  }

  /** A sorted sequence stays sorted behind a head below all its elements. */
  lemma SortedCons(data: seq<real>, h: int, rest: seq<int>)
    requires 0 <= h < |data| && InRange(data, rest) && SortedByKey(data, rest)
    requires forall y :: y in rest ==> KeyLeq(data, h, y)
    ensures InRange(data, [h] + rest) && SortedByKey(data, [h] + rest)
  {
    var r := [h] + rest;
    forall p, q | 0 <= p < q < |r|
      ensures KeyLeq(data, r[p], r[q])
    {
      assert r[q] == rest[q - 1];
      if p == 0 {
        assert rest[q - 1] in rest;
      } else {
        assert r[p] == rest[p - 1];
      }
    }
  }

  /** A reference sort: insertion of each element, in order, into the
      sorted result so far. */
  function SortByKey(data: seq<real>, s: seq<int>): (r: seq<int>)
    requires InRange(data, s)
    ensures |r| == |s| && multiset(r) == multiset(s)
    ensures InRange(data, r)
  {
    if s == [] then []
    else
      var init := SortByKey(data, s[..|s| - 1]);
      var x := s[|s| - 1];
      assert s == s[..|s| - 1] + [x];
      InsertByKey(data, init, x)
  }

  /** The reference sort's result is sorted. */
  lemma {:induction false} SortByKeySorted(data: seq<real>, s: seq<int>)
    requires InRange(data, s)
    ensures SortedByKey(data, SortByKey(data, s))
  {
    if s != [] {
      SortByKeySorted(data, s[..|s| - 1]);
      InsertByKeySorted(data, SortByKey(data, s[..|s| - 1]), s[|s| - 1]);
    }
  }

  /** The positions of `data` in the order a stable sort by `Compare`
      leaves the identity array. */
  function SortedOrder(data: seq<real>): (order: seq<int>)
    ensures |order| == |data| && multiset(order) == multiset(Identity(|data|))
    ensures InRange(data, order)
  {
    SortByKey(data, Identity(|data|))
  }

  /** `SortedOrder` is sorted by value and then position. */
  lemma SortedOrderSorted(data: seq<real>)
    ensures SortedByKey(data, SortedOrder(data))
  {
    SortByKeySorted(data, Identity(|data|));
  }

  /** Any `KeyLeq`-sorted permutation of the identity is `SortedOrder`. */
  lemma SortedOrderUnique(data: seq<real>, s: seq<int>)
    requires InRange(data, s) && SortedByKey(data, s)
    requires multiset(s) == multiset(Identity(|data|))
    ensures s == SortedOrder(data)
  {
    SortedOrderSorted(data);
    SortedUnique(data, s, SortedOrder(data));
  }

  /** Every position of `data` occurs in a permutation of the identity. */
  lemma PermutationCoversRange(s: seq<int>, n: nat)
    requires multiset(s) == multiset(Identity(n))
    ensures forall k :: 0 <= k < n ==> k in s
  {
    forall k | 0 <= k < n
      ensures k in s
    {
      assert Identity(n)[k] == k;
      assert k in multiset(Identity(n));
    }
  }
}
