/** Table cells and the NaN-aware arithmetic of the reductions.

    A cell of the C++ `Dataframe<float>` is a float that may be the quiet
    NaN sentinel.  Here it is exact: `NaN` or a `real` value, so sums and
    quotients are the mathematical ones and no rounding is modelled. */
module Cells {

  datatype Cell = NaN | Val(r: real)

  /** The non-NaN values of `s`, in order (the `views::filter` / the
      `isnan` test of the gathers). */
  function Values(s: seq<Cell>): (v: seq<real>)
    ensures |v| <= |s|
  {
    if s == [] then []
    else Values(s[..|s| - 1]) + (if s[|s| - 1].NaN? then [] else [s[|s| - 1].r])
  }

  /** Number of NaN cells (the `count_if(..., isnan)`). */
  function NaNCount(s: seq<Cell>): nat
  {
    if s == [] then 0 else NaNCount(s[..|s| - 1]) + (if s[|s| - 1].NaN? then 1 else 0)
  }

  /** The cells with NaN replaced by zero (the zero-substituting transform). */
  function ZeroSubstitute(s: seq<Cell>): (z: seq<real>)
    ensures |z| == |s|
    ensures forall i :: 0 <= i < |s| ==> z[i] == (if s[i].NaN? then 0.0 else s[i].r)
  {
    seq(|s|, i requires 0 <= i < |s| => if s[i].NaN? then 0.0 else s[i].r)
  }

  /** Sum of a sequence of reals (`std::reduce` with `+`). */
  function Total(xs: seq<real>): real
  {
    if xs == [] then 0.0 else Total(xs[..|xs| - 1]) + xs[|xs| - 1]
  }

  /** Mean with NaN counted as zero and the full length as divisor.  A
      zero divisor gives 0/0, the NaN of IEEE arithmetic. */
  function ZeroMean(s: seq<Cell>): Cell
  {
    if |s| == 0 then NaN else Val(Total(ZeroSubstitute(s)) / (|s| as real))
  }

  /** Mean of the non-NaN cells over `|s| - #NaN`, and 0 when every cell is
      NaN (the early `return 0`). */
  function OmitMean(s: seq<Cell>): Cell
  {
    if |s| - NaNCount(s) == 0 then Val(0.0)
    else Val(Total(Values(s)) / ((|s| - NaNCount(s)) as real))
  }

  /** Sum of the non-NaN values over their count; NaN when there are none
      (`sum / divisor` with both zero). */
  function MeanOfValues(xs: seq<real>): Cell
  {
    if |xs| == 0 then NaN else Val(Total(xs) / (|xs| as real))
  }

  // ---------------------------------------------------------------------
  // Facts about the NaN-aware sums

  lemma {:induction false} TotalAppend(a: seq<real>, b: seq<real>)
    ensures Total(a + b) == Total(a) + Total(b)
    decreases |b|
  {
    if b == [] {
      assert a + b == a;
    } else {
      assert (a + b)[..|a + b| - 1] == a + b[..|b| - 1];
      TotalAppend(a, b[..|b| - 1]);
    }
  }

  lemma {:induction false} ValuesAppend(a: seq<Cell>, b: seq<Cell>)
    ensures Values(a + b) == Values(a) + Values(b)
    decreases |b|
  {
    if b == [] {
      assert a + b == a;
    } else {
      assert (a + b)[..|a + b| - 1] == a + b[..|b| - 1];
      ValuesAppend(a, b[..|b| - 1]);
    }
  }

  /** Every cell is either counted as NaN or kept as a value. */
  lemma {:induction false} ValuesAndNaNs(s: seq<Cell>)
    ensures |Values(s)| + NaNCount(s) == |s|
  {
    if s != [] { ValuesAndNaNs(s[..|s| - 1]); }
  }

  /** Substituting zero for NaN does not change the sum of the values. */
  lemma {:induction false} ZeroSubstituteTotal(s: seq<Cell>)
    ensures Total(ZeroSubstitute(s)) == Total(Values(s))
  {
    if s != [] {
      var init := s[..|s| - 1];
      var last := s[|s| - 1];
      ZeroSubstituteTotal(init);
      assert ZeroSubstitute(s)[..|s| - 1] == ZeroSubstitute(init);
      TotalAppend(Values(init), if last.NaN? then [] else [last.r]);
    }
  }

  /** A NaN-free sequence keeps all its values. */
  lemma {:induction false} ValuesWithoutNaN(s: seq<Cell>)
    requires NaNCount(s) == 0
    ensures Values(s) == ZeroSubstitute(s)
  {
    if s != [] {
      var init := s[..|s| - 1];
      ValuesWithoutNaN(init);
      assert ZeroSubstitute(s) == ZeroSubstitute(init) + [s[|s| - 1].r];
    }
  }

  /** The value of a cell that is a numbered member of `Values`. */
  lemma {:induction false} ValuesMember(s: seq<Cell>, x: real)
    requires x in Values(s)
    ensures Val(x) in s
  {
    var init := s[..|s| - 1];
    if x in Values(init) {
      ValuesMember(init, x);
      assert forall c :: c in init ==> c in s;
    }
  }

  /** Both NaN policies divide the same sum, the total of the values: the
      zero-substituting mean by the full length, the omitting mean by the
      non-NaN count (and with no values that sum is zero). */
  lemma PoliciesShareTheSum(s: seq<Cell>)
    requires |s| > 0
    ensures ZeroMean(s) == Val(Total(Values(s)) / (|s| as real))
    ensures |s| - NaNCount(s) != 0 ==>
              OmitMean(s) == Val(Total(Values(s)) / ((|s| - NaNCount(s)) as real))
    ensures |s| - NaNCount(s) == 0 ==> OmitMean(s) == Val(0.0) && Total(Values(s)) == 0.0
  {
    ZeroSubstituteTotal(s);
    ValuesAndNaNs(s);
    OmitMeanCases(s);
  }

  /** With no values left the mean and the total are both zero; otherwise
      the mean is the total over the count of values. */
  lemma OmitMeanCases(s: seq<Cell>)
    requires |Values(s)| + NaNCount(s) == |s|
    ensures |s| - NaNCount(s) == 0 ==> OmitMean(s) == Val(0.0) && Total(Values(s)) == 0.0
    ensures |s| - NaNCount(s) != 0 ==>
              OmitMean(s) == Val(Total(Values(s)) / ((|s| - NaNCount(s)) as real))
  {
    if |s| - NaNCount(s) == 0 {
      AllNaNTotal(s);
    }
  }

  lemma AllNaNTotal(s: seq<Cell>)
    requires |Values(s)| == 0
    ensures Total(Values(s)) == 0.0
  {
    assert Values(s) == [];
  }

  /** Without NaN the two policies agree. */
  lemma PoliciesAgreeWithoutNaN(s: seq<Cell>)
    requires |s| > 0 && NaNCount(s) == 0
    ensures ZeroMean(s) == OmitMean(s)
  {
    ValuesWithoutNaN(s);
  }

  /** The omitted-NaN mean is the mean of the values. */
  lemma OmitMeanIsMeanOfValues(s: seq<Cell>)
    requires |Values(s)| > 0
    ensures OmitMean(s) == MeanOfValues(Values(s))
  {
    ValuesAndNaNs(s);
  }

  lemma {:induction false} TotalBounds(xs: seq<real>, lo: real, hi: real)
    requires forall i :: 0 <= i < |xs| ==> lo <= xs[i] <= hi
    ensures (|xs| as real) * lo <= Total(xs) <= (|xs| as real) * hi
  {
    if xs != [] { TotalBounds(xs[..|xs| - 1], lo, hi); }
  }

  /** A mean lies between any lower and upper bound of its values. */
  lemma MeanWithinBounds(xs: seq<real>, lo: real, hi: real)
    requires |xs| > 0
    requires forall i :: 0 <= i < |xs| ==> lo <= xs[i] <= hi
    ensures lo <= MeanOfValues(xs).r <= hi
  {
    TotalBounds(xs, lo, hi);
    var n := |xs| as real;
    var m := Total(xs) / n;
    assert m * n == Total(xs);
  }

  // ---------------------------------------------------------------------
  // Sorting and the median

  predicate Sorted(xs: seq<real>)
  {
    forall i, j :: 0 <= i < j < |xs| ==> xs[i] <= xs[j]
  }

  function Insert(x: real, xs: seq<real>): seq<real>
  {
    if xs == [] || x <= xs[0] then [x] + xs else [xs[0]] + Insert(x, xs[1..])
  }

  /** Reference ordering of a sequence (insertion sort). */
  function Sort(xs: seq<real>): seq<real>
  {
    if xs == [] then [] else Insert(xs[0], Sort(xs[1..]))
  }

  lemma InsertFacts(x: real, xs: seq<real>)
    requires Sorted(xs)
    ensures Sorted(Insert(x, xs))
    ensures multiset(Insert(x, xs)) == multiset(xs) + multiset{x}
    ensures |Insert(x, xs)| == |xs| + 1
  {
    InsertPermutes(x, xs);
    InsertSorted(x, xs);
  }

  /** Insertion adds exactly `x`. */
  lemma {:induction false} InsertPermutes(x: real, xs: seq<real>)
    ensures multiset(Insert(x, xs)) == multiset(xs) + multiset{x}
    ensures |Insert(x, xs)| == |xs| + 1
  {
    if !(xs == [] || x <= xs[0]) {
      InsertPermutes(x, xs[1..]);
      assert xs == [xs[0]] + xs[1..];
    }
  }

  /** Insertion into a sorted sequence keeps it sorted. */
  lemma {:induction false} InsertSorted(x: real, xs: seq<real>)
    requires Sorted(xs)
    ensures Sorted(Insert(x, xs))
  {
    if xs == [] || x <= xs[0] {
      InsertInFront(x, xs);
    } else {
      SortedTail(xs);
      InsertSorted(x, xs[1..]);
      InsertPermutes(x, xs[1..]);
      InsertBehind(x, xs);
    }
  }

  lemma InsertInFront(x: real, xs: seq<real>)
    requires Sorted(xs) && (xs == [] || x <= xs[0])
    ensures Sorted([x] + xs)
  {
    forall k | 0 <= k < |xs| ensures x <= xs[k] {
      if k > 0 { assert xs[0] <= xs[k]; }
    }
    SortedCons(x, xs);
  }

  /** Inserting behind the head of `xs` keeps the head in front. */
  lemma InsertBehind(x: real, xs: seq<real>)
    requires Sorted(xs) && |xs| > 0 && xs[0] < x
    requires Sorted(Insert(x, xs[1..]))
    requires multiset(Insert(x, xs[1..])) == multiset(xs[1..]) + multiset{x}
    ensures Sorted(Insert(x, xs))
  {
    var tail := xs[1..];
    var r := Insert(x, tail);
    forall i | 0 <= i < |tail| ensures xs[0] <= tail[i] {
      assert tail[i] == xs[i + 1];
    }
    InsertedAbove(xs[0], tail, x, r);
    SortedCons(xs[0], r);
  }

  /** A bound below both `tail` and `x` is below every element of a
      permutation of `tail` plus `x`. */
  lemma InsertedAbove(h: real, tail: seq<real>, x: real, r: seq<real>)
    requires forall i :: 0 <= i < |tail| ==> h <= tail[i]
    requires h <= x
    requires multiset(r) == multiset(tail) + multiset{x}
    ensures forall k :: 0 <= k < |r| ==> h <= r[k]
  {
    forall k | 0 <= k < |r| ensures h <= r[k] {
      assert r[k] in multiset(r);
      if r[k] != x {
        assert r[k] in multiset(tail);
        var i :| 0 <= i < |tail| && tail[i] == r[k];
      }
    }
  }

  lemma SortedCons(h: real, r: seq<real>)
    requires Sorted(r)
    requires forall k :: 0 <= k < |r| ==> h <= r[k]
    ensures Sorted([h] + r)
  {
    var s := [h] + r;
    forall i, j | 0 <= i < j < |s| ensures s[i] <= s[j] {
      assert s[j] == r[j - 1];
      if i > 0 { assert s[i] == r[i - 1]; }
    }
  }

  /** The first element of a sorted sequence is its least. */
  lemma SortedHeadLeast(b: seq<real>, x: real)
    requires Sorted(b) && x in multiset(b)
    ensures b[0] <= x
  {
    var i :| 0 <= i < |b| && b[i] == x;
    if i > 0 { assert b[0] <= b[i]; }
  }

  lemma SortedTail(b: seq<real>)
    requires Sorted(b) && |b| > 0
    ensures Sorted(b[1..])
  {
    var t := b[1..];
    forall i, j | 0 <= i < j < |t| ensures t[i] <= t[j] {
      assert t[i] == b[i + 1] && t[j] == b[j + 1];
    }
  }

  /** The reference ordering is sorted and a permutation of its input. */
  lemma SortFacts(xs: seq<real>)
    ensures Sorted(Sort(xs))
    ensures multiset(Sort(xs)) == multiset(xs)
    ensures |Sort(xs)| == |xs|
  {
    SortPermutes(xs);
    SortSorted(xs);
  }

  lemma {:induction false} SortPermutes(xs: seq<real>)
    ensures multiset(Sort(xs)) == multiset(xs)
    ensures |Sort(xs)| == |xs|
  {
    if xs != [] {
      SortPermutes(xs[1..]);
      InsertPermutes(xs[0], Sort(xs[1..]));
      assert xs == [xs[0]] + xs[1..];
    }
  }

  lemma {:induction false} SortSorted(xs: seq<real>)
    ensures Sorted(Sort(xs))
  {
    if xs != [] {
      SortSorted(xs[1..]);
      InsertSorted(xs[0], Sort(xs[1..]));
    }
  }

  /** Two sorted permutations of one multiset are the same sequence. */
  lemma {:induction false} SortedUnique(a: seq<real>, b: seq<real>)
    requires Sorted(a) && Sorted(b) && multiset(a) == multiset(b)
    ensures a == b
  {
    assert |a| == |multiset(a)| == |b|;
    if a != [] {
      HeadsAgree(a, b);
      TailsAgree(a, b);
      SortedTail(a);
      SortedTail(b);
      SortedUnique(a[1..], b[1..]);
      assert a == [a[0]] + a[1..] && b == [b[0]] + b[1..];
    }
  }

  lemma HeadsAgree(a: seq<real>, b: seq<real>)
    requires Sorted(a) && Sorted(b) && multiset(a) == multiset(b) && |a| > 0
    ensures |b| > 0 && a[0] == b[0]
  {
    assert a[0] in multiset(a);
    assert a[0] in multiset(b);
    SortedHeadLeast(b, a[0]);
    assert b[0] in multiset(a);
    SortedHeadLeast(a, b[0]);
  }

  lemma TailsAgree(a: seq<real>, b: seq<real>)
    requires |a| > 0 && |b| > 0 && a[0] == b[0] && multiset(a) == multiset(b)
    ensures multiset(a[1..]) == multiset(b[1..])
  {
    assert a == [a[0]] + a[1..];
    assert b == [b[0]] + b[1..];
    assert multiset(a) == multiset{a[0]} + multiset(a[1..]);
    assert multiset(b) == multiset{b[0]} + multiset(b[1..]);
    assert multiset(a[1..]) == multiset(a) - multiset{a[0]};
    assert multiset(b[1..]) == multiset(b) - multiset{b[0]};
  }

  /** The order of the values does not matter to the reference ordering, so
      an unordered (parallel) gather may be used. */
  lemma SortPermutation(a: seq<real>, b: seq<real>)
    requires multiset(a) == multiset(b)
    ensures Sort(a) == Sort(b)
  {
    SortFacts(a);
    SortFacts(b);
    SortedUnique(Sort(a), Sort(b));
  }

  /** The median: the middle element of the sorted values for an odd count,
      the mean of the two middle elements for an even count. */
  function Median(xs: seq<real>): real
    requires |xs| > 0
  {
    SortFacts(xs);
    var t := Sort(xs);
    var n := |xs| / 2;
    if |xs| % 2 == 0 then (t[n - 1] + t[n]) / 2.0 else t[n]
  }

  /** The median depends only on the multiset of values. */
  lemma MedianPermutation(a: seq<real>, b: seq<real>)
    requires |a| > 0 && multiset(a) == multiset(b)
    ensures |b| > 0 && Median(a) == Median(b)
  {
    assert |a| == |multiset(a)| == |b|;
    SortPermutation(a, b);
  }

  /** The median lies between the smallest and the largest value. */
  lemma MedianWithinBounds(xs: seq<real>, lo: real, hi: real)
    requires |xs| > 0
    requires forall i :: 0 <= i < |xs| ==> lo <= xs[i] <= hi
    ensures lo <= Median(xs) <= hi
  {
    SortFacts(xs);
    var t := Sort(xs);
    forall k | 0 <= k < |t| ensures lo <= t[k] <= hi {
      assert t[k] in multiset(xs);
    }
  }
}
