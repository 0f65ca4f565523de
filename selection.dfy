/** The in-place median of `Dataframe::MedianHelper`: a partial selection
    (`std::nth_element`) followed, for an even count, by the maximum of the
    elements ranked before the middle (`std::max_element`). */
module Selection {
  import opened Cells

  /** Rearranges `a` so that `a[n]` holds the element of rank `n`, nothing
      before it is larger and nothing after it is smaller: the contract of
      `std::nth_element`, met here by a selection of the `n + 1` smallest
      elements. */
  method NthElement(a: array<real>, n: nat)
    requires n < a.Length
    modifies a
    ensures multiset(a[..]) == old(multiset(a[..]))
    ensures forall i :: 0 <= i < n ==> a[i] <= a[n]
    ensures forall j :: n < j < a.Length ==> a[n] <= a[j]
  {
    var i := 0;
    while i <= n
      invariant 0 <= i <= n + 1
      invariant multiset(a[..]) == old(multiset(a[..]))
      invariant forall p, q :: 0 <= p < i && p <= q < a.Length ==> a[p] <= a[q]
    {
      var m := MinIndex(a, i);
      Swap(a, i, m);
      i := i + 1;
    }
  }

  /** Position of a least element of `a[from..]`. */
  method MinIndex(a: array<real>, from: nat) returns (m: nat)
    requires from < a.Length
    ensures from <= m < a.Length
    ensures forall q :: from <= q < a.Length ==> a[m] <= a[q]
  {
    m := from;
    var k := from + 1;
    while k < a.Length
      invariant from <= m < a.Length && from + 1 <= k <= a.Length
      invariant forall q :: from <= q < k ==> a[m] <= a[q]
    {
      if a[k] < a[m] {
        m := k;
      }
      k := k + 1;
    }
  }

  method Swap(a: array<real>, i: nat, j: nat)
    requires i < a.Length && j < a.Length
    modifies a
    ensures a[i] == old(a[j]) && a[j] == old(a[i])
    ensures forall k :: 0 <= k < a.Length && k != i && k != j ==> a[k] == old(a[k])
    ensures multiset(a[..]) == old(multiset(a[..]))
  {
    a[i], a[j] := a[j], a[i];
  }

  /** The largest of `a[..n]` (`*std::max_element(begin, begin + n)`). */
  method MaxElement(a: array<real>, n: nat) returns (m: real)
    requires 0 < n <= a.Length
    ensures m in a[..n]
    ensures forall i :: 0 <= i < n ==> a[i] <= m
  {
    m := a[0];
    var k := 1;
    while k < n
      invariant 1 <= k <= n
      invariant m in a[..k]
      invariant forall i :: 0 <= i < k ==> a[i] <= m
    {
      if m < a[k] {
        m := a[k];
      }
      k := k + 1;
    }
  }

  /** Median of a non-empty NaN-free vector, reordering it in place. */
  method MedianHelper(vec: array<real>) returns (m: real)
    requires vec.Length > 0
    modifies vec
    ensures multiset(vec[..]) == old(multiset(vec[..]))
    ensures m == Median(old(vec[..]))
  {
    var n := vec.Length / 2;
    NthElement(vec, n);
    var s := vec[..];
    SortPermutation(s, old(vec[..]));
    PartitionRanks(s, n);
    if vec.Length % 2 == 0 {
      var leftMiddle := MaxElement(vec, n);
      MaxIsRankBelow(s, n, leftMiddle);
      m := (leftMiddle + vec[n]) / 2.0;
    } else {
      m := vec[n];
    }
  }

  /** Sorting a sequence partitioned around position `n`: the prefix, the
      pivot and the suffix can be sorted separately. */
  lemma PartitionSort(s: seq<real>, n: nat)
    requires n < |s|
    requires forall i :: 0 <= i < n ==> s[i] <= s[n]
    requires forall j :: n < j < |s| ==> s[n] <= s[j]
    ensures Sort(s) == Sort(s[..n]) + [s[n]] + Sort(s[n + 1..])
  {
    var t := Sort(s[..n]) + [s[n]] + Sort(s[n + 1..]);
    PartitionSorted(s[..n], s[n], s[n + 1..]);
    PartitionPermutes(s, n);
    IsSortOf(t, s);
  }

  /** The sorted prefix, the pivot and the sorted suffix are in order. */
  lemma PartitionSorted(lo: seq<real>, x: real, hi: seq<real>)
    requires forall i :: 0 <= i < |lo| ==> lo[i] <= x
    requires forall j :: 0 <= j < |hi| ==> x <= hi[j]
    ensures Sorted(Sort(lo) + [x] + Sort(hi))
  {
    BoundsOfSort(lo, x, hi);
    SortSorted(lo);
    SortSorted(hi);
    SortedAround(Sort(lo), x, Sort(hi));
  }

  /** Sorting the two sides separately keeps every element. */
  lemma PartitionPermutes(s: seq<real>, n: nat)
    requires n < |s|
    ensures multiset(Sort(s[..n]) + [s[n]] + Sort(s[n + 1..])) == multiset(s)
  {
    SortPermutes(s[..n]);
    SortPermutes(s[n + 1..]);
    ConcatMultiset(Sort(s[..n]), s[n], Sort(s[n + 1..]));
    SplitMultiset(s, n);
  }

  lemma ConcatMultiset(lo: seq<real>, x: real, hi: seq<real>)
    ensures multiset(lo + [x] + hi) == multiset(lo) + multiset{x} + multiset(hi)
  {
  }

  /** A sorted permutation of `s` is its reference ordering. */
  lemma IsSortOf(t: seq<real>, s: seq<real>)
    requires Sorted(t) && multiset(t) == multiset(s)
    ensures t == Sort(s)
  {
    SortFacts(s);
    SortedUnique(t, Sort(s));
  }

  lemma SplitMultiset(s: seq<real>, n: nat)
    requires n < |s|
    ensures multiset(s) == multiset(s[..n]) + multiset{s[n]} + multiset(s[n + 1..])
  {
    assert s == s[..n] + [s[n]] + s[n + 1..];
  }

  lemma BoundsOfSort(lo: seq<real>, x: real, hi: seq<real>)
    requires forall i :: 0 <= i < |lo| ==> lo[i] <= x
    requires forall j :: 0 <= j < |hi| ==> x <= hi[j]
    ensures forall k :: 0 <= k < |Sort(lo)| ==> Sort(lo)[k] <= x
    ensures forall k :: 0 <= k < |Sort(hi)| ==> x <= Sort(hi)[k]
  {
    SortPermutes(lo);
    SortPermutes(hi);
    forall k | 0 <= k < |Sort(lo)| ensures Sort(lo)[k] <= x {
      assert Sort(lo)[k] in multiset(lo);
    }
    forall k | 0 <= k < |Sort(hi)| ensures x <= Sort(hi)[k] {
      assert Sort(hi)[k] in multiset(hi);
    }
  }

  lemma SortedAround(lo: seq<real>, x: real, hi: seq<real>)
    requires Sorted(lo) && Sorted(hi)
    requires forall k :: 0 <= k < |lo| ==> lo[k] <= x
    requires forall k :: 0 <= k < |hi| ==> x <= hi[k]
    ensures Sorted(lo + [x] + hi)
  {
    var t := lo + [x] + hi;
    var n := |lo|;
    forall i, j | 0 <= i < j < |t| ensures t[i] <= t[j] {
      if j < n {
        assert t[i] == lo[i] && t[j] == lo[j];
      } else if j == n {
        assert t[j] == x;
        if i < n { assert t[i] == lo[i]; }
      } else {
        assert t[j] == hi[j - n - 1];
        if i > n {
          assert t[i] == hi[i - n - 1];
        } else if i < n {
          assert t[i] == lo[i];
        }
      }
    }
  }

  /** After the partition `s[n]` has rank `n`. */
  lemma PartitionRanks(s: seq<real>, n: nat)
    requires n < |s|
    requires forall i :: 0 <= i < n ==> s[i] <= s[n]
    requires forall j :: n < j < |s| ==> s[n] <= s[j]
    ensures |Sort(s)| == |s| && Sort(s)[n] == s[n]
  {
    PartitionSort(s, n);
    SortPermutes(s[..n]);
    SortPermutes(s);
    assert |Sort(s[..n])| == n;
    assert (Sort(s[..n]) + [s[n]] + Sort(s[n + 1..]))[n] == s[n];
  }

  /** The largest element before the pivot has rank `n - 1`. */
  lemma MaxIsRankBelow(s: seq<real>, n: nat, m: real)
    requires 0 < n < |s|
    requires forall i :: 0 <= i < n ==> s[i] <= s[n]
    requires forall j :: n < j < |s| ==> s[n] <= s[j]
    requires m in s[..n] && forall i :: 0 <= i < n ==> s[i] <= m
    ensures |Sort(s)| == |s| && Sort(s)[n - 1] == m
  {
    PartitionSort(s, n);
    var lo := s[..n];
    SortPermutes(lo);
    SortPermutes(s);
    MaxIsLastOfSort(lo, m);
    ConcatIndex(Sort(lo), s[n], Sort(s[n + 1..]), n - 1);
  }

  /** The maximum of a sequence is the last element of its ordering. */
  lemma MaxIsLastOfSort(lo: seq<real>, m: real)
    requires m in lo && forall i :: 0 <= i < |lo| ==> lo[i] <= m
    ensures |Sort(lo)| == |lo| && Sort(lo)[|lo| - 1] == m
  {
    LastOfSortBelow(lo, m);
    LastOfSortAbove(lo, m);
  }

  /** No element of the ordering exceeds a bound of every element. */
  lemma LastOfSortBelow(lo: seq<real>, m: real)
    requires |lo| > 0 && forall i :: 0 <= i < |lo| ==> lo[i] <= m
    ensures |Sort(lo)| == |lo| && Sort(lo)[|lo| - 1] <= m
  {
    SortPermutes(lo);
    assert Sort(lo)[|lo| - 1] in multiset(lo);
  }

  /** The last element of the ordering is at least any element. */
  lemma LastOfSortAbove(lo: seq<real>, m: real)
    requires m in lo
    ensures |Sort(lo)| == |lo| && m <= Sort(lo)[|lo| - 1]
  {
    SortPermutes(lo);
    SortSorted(lo);
    assert m in multiset(lo);
    SortedLastIsMax(Sort(lo), m);
  }

  lemma SortedLastIsMax(t: seq<real>, m: real)
    requires Sorted(t) && m in multiset(t)
    ensures |t| > 0 && m <= t[|t| - 1]
  {
    var k :| 0 <= k < |t| && t[k] == m;
    if k < |t| - 1 { assert t[k] <= t[|t| - 1]; }
  }

  lemma ConcatIndex(a: seq<real>, x: real, b: seq<real>, i: nat)
    requires i < |a|
    ensures (a + [x] + b)[i] == a[i]
  {
  }
}
