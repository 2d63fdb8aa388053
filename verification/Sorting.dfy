/** Insertion sort, the algorithm of the Go library for short slices. */
module Sorting {

  /** `less` is a strict order on the elements of `s`, up to ties. */
  ghost predicate Orders<T(!new)>(s: seq<T>, less: (T, T) -> bool) {
    && (forall a, b | a in s && b in s && less(a, b) :: !less(b, a))
    && (forall a, b, c | a in s && b in s && c in s && less(a, c) :: less(a, b) || less(b, c))
  }

  ghost predicate Sorted<T>(s: seq<T>, less: (T, T) -> bool) {
    forall i, j | 0 <= i < j < |s| :: !less(s[j], s[i])
  }

  lemma Members<T>(a: seq<T>, b: seq<T>)
    requires multiset(a) == multiset(b)
    ensures |a| == |b| && forall x :: x in a <==> x in b
  {
    assert |multiset(a)| == |a| && |multiset(b)| == |b|;
    forall x ensures x in a <==> x in b {
      assert x in a <==> x in multiset(a);
      assert x in b <==> x in multiset(b);
    }
  }

  function SwapBack<T>(s: seq<T>, j: nat): (r: seq<T>)
    requires 0 < j < |s|
    ensures multiset(r) == multiset(s) && |r| == |s|
  {
    assert s == s[..j - 1] + [s[j - 1], s[j]] + s[j + 1..];
    s[..j - 1] + [s[j], s[j - 1]] + s[j + 1..]
  }

  /** Sorted up to `i`, but for the element at `j`, which only has to be in its place towards the end. */
  ghost predicate SortedBut<T(!new)>(s: seq<T>, less: (T, T) -> bool, j: nat, i: nat) {
    j <= i < |s| && Orders(s, less) && forall k, l | 0 <= k < l <= i && l != j :: !less(s[l], s[k])
  }

  lemma SwapSorts<T(!new)>(s: seq<T>, less: (T, T) -> bool, j: nat, i: nat)
    requires 0 < j && SortedBut(s, less, j, i) && less(s[j], s[j - 1])
    ensures SortedBut(SwapBack(s, j), less, j - 1, i)
  {
    var r := SwapBack(s, j);
    Members(r, s);
    forall k, l | 0 <= k < l <= i && l != j - 1 ensures !less(r[l], r[k]) {
      assert k < j - 1 && l == j ==> !less(s[j - 1], s[k]);
      assert k == j - 1 && l > j ==> !less(s[l], s[j]);
      assert k == j && l > j ==> !less(s[l], s[j - 1]);
      assert k != j && k != j - 1 && l > j ==> !less(s[l], s[k]);
    }
  }

  lemma InPlace<T(!new)>(s: seq<T>, less: (T, T) -> bool, j: nat, i: nat)
    requires SortedBut(s, less, j, i) && (j > 0 ==> !less(s[j], s[j - 1]))
    ensures Sorted(s[..i + 1], less)
  {
    forall k | 0 <= k < j ensures !less(s[j], s[k]) {
      assert k < j - 1 ==> !less(s[j - 1], s[k]);
    }
  }

  method Sink<T(!new)>(s: seq<T>, less: (T, T) -> bool, i: nat) returns (r: seq<T>)
    requires i < |s|
    ensures multiset(r) == multiset(s) && |r| == |s|
    ensures Orders(s, less) && Sorted(s[..i], less) ==> Sorted(r[..i + 1], less)
  {
    r := s;
    var j: nat := i;
    while j > 0 && less(r[j], r[j - 1])
      invariant j <= i && |r| == |s| && multiset(r) == multiset(s)
      invariant Orders(s, less) && Sorted(s[..i], less) ==> SortedBut(r, less, j, i)
    {
      if SortedBut(r, less, j, i) { SwapSorts(r, less, j, i); }
      r := SwapBack(r, j);
      j := j - 1;
    }
    if SortedBut(r, less, j, i) { InPlace(r, less, j, i); }
  }

  method Sort<T(!new)>(s: seq<T>, less: (T, T) -> bool) returns (r: seq<T>)
    ensures multiset(r) == multiset(s)
    ensures Orders(s, less) ==> Sorted(r, less)
  {
    r := s;
    for i := 0 to |s|
      invariant multiset(r) == multiset(s) && |r| == |s|
      invariant Orders(s, less) ==> Sorted(r[..i], less)
    {
      Members(s, r);
      r := Sink(r, less, i);
      Members(s, r);
    }
    assert r[..|s|] == r;
  }
}
