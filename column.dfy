/** A named vector of integers (`ppp::Column<int>`): element-wise sum and
    difference, dot and 3-D cross products, scaling, checked indexing,
    append, sum and the L0, L1 and L-infinity norms. The element-wise
    results are specified on sequences; the class methods build the new
    columns. */
module Columns {
  import opened Wrappers
  import opened Text

  function Abs(x: int): nat
  {
    if x < 0 then -x else x
  }

  /** The sum of the entries (`std::reduce`). */
  function SumOf(xs: seq<int>): int
  {
    if xs == [] then 0 else SumOf(xs[..|xs| - 1]) + xs[|xs| - 1]
  }

  /** The sum of the pairwise products. */
  function DotOf(a: seq<int>, b: seq<int>): int
    requires |a| == |b|
  {
    if a == [] then 0 else DotOf(a[..|a| - 1], b[..|b| - 1]) + a[|a| - 1] * b[|b| - 1]
  }

  /** L1: the sum of the magnitudes. */
  function AbsSum(xs: seq<int>): nat
  {
    if xs == [] then 0 else AbsSum(xs[..|xs| - 1]) + Abs(xs[|xs| - 1])
  }

  /** L0: the number of nonzero entries. */
  function NonZeroCount(xs: seq<int>): nat
  {
    if xs == [] then 0 else NonZeroCount(xs[..|xs| - 1]) + (if xs[|xs| - 1] != 0 then 1 else 0)
  }

  /** L-infinity: the largest magnitude. */
  function MaxAbs(xs: seq<int>): (m: nat)
    requires |xs| > 0
    ensures forall i :: 0 <= i < |xs| ==> Abs(xs[i]) <= m
    ensures exists i :: 0 <= i < |xs| && Abs(xs[i]) == m
  {
    if |xs| == 1 then Abs(xs[0])
    else
      var m := MaxAbs(xs[..|xs| - 1]);
      assert forall i :: 0 <= i < |xs| - 1 ==> xs[..|xs| - 1][i] == xs[i];
      if Abs(xs[|xs| - 1]) > m then Abs(xs[|xs| - 1]) else m
  }

  /** `operator+`: `None` when the sizes differ. */
  function Add(a: seq<int>, b: seq<int>): (r: Option<seq<int>>)
    ensures r.None? <==> |a| != |b|
    ensures r.Some? ==> |r.value| == |a| && forall i :: 0 <= i < |a| ==> r.value[i] == a[i] + b[i]
  {
    if |a| != |b| then None else Some(seq(|a|, i requires 0 <= i < |a| => a[i] + b[i]))
  }

  /** `operator-`: `None` when the sizes differ. */
  function Subtract(a: seq<int>, b: seq<int>): (r: Option<seq<int>>)
    ensures r.None? <==> |a| != |b|
    ensures r.Some? ==> |r.value| == |a| && forall i :: 0 <= i < |a| ==> r.value[i] == a[i] - b[i]
  {
    if |a| != |b| then None else Some(seq(|a|, i requires 0 <= i < |a| => a[i] - b[i]))
  }

  /** Scalar multiplication. */
  function Scale(k: int, a: seq<int>): (r: seq<int>)
    ensures |r| == |a| && forall i :: 0 <= i < |a| ==> r[i] == k * a[i]
  {
    seq(|a|, i requires 0 <= i < |a| => k * a[i])
  }

  /** The 3-D cross product: `None` unless both have three entries. */
  function Cross(a: seq<int>, b: seq<int>): (r: Option<seq<int>>)
    ensures r.None? <==> |a| != 3 || |b| != 3
    ensures r.Some? ==> |r.value| == 3
    ensures r.Some? ==> r.value[0] == a[1] * b[2] - a[2] * b[1]
    ensures r.Some? ==> r.value[1] == a[2] * b[0] - a[0] * b[2]
    ensures r.Some? ==> r.value[2] == a[0] * b[1] - a[1] * b[0]
  {
    if |a| != 3 || |b| != 3 then None
    else Some([a[1] * b[2] - a[2] * b[1], a[2] * b[0] - a[0] * b[2], a[0] * b[1] - a[1] * b[0]])
  }

  /** The binary operation `LNorm(1)` hands to `std::reduce`: the left
      operand is a partial result, the right one an entry. */
  function AbsFold(lhs: int, rhs: int): int
  {
    lhs + Abs(rhs)
  }

  /** `std::reduce` may group its terms in any order, and `AbsFold` is not
      associative: on the entries -3 and -4 the in-order fold gives the L1
      norm 7, while combining the two entries first gives 1. */
  lemma AbsFoldRegroups()
    ensures AbsFold(AbsFold(0, -3), -4) == AbsSum([-3, -4]) == 7
    ensures AbsFold(0, AbsFold(-3, -4)) == 1
  {
    assert [-3, -4][1..] == [-4];
  }

  lemma AddCommutes(a: seq<int>, b: seq<int>)
    ensures Add(a, b) == Add(b, a)
  {
    if |a| == |b| {
      assert Add(a, b).value == Add(b, a).value;
    }
  }

  /** Subtracting what was added gives the column back. */
  lemma SubtractUndoesAdd(a: seq<int>, b: seq<int>)
    requires |a| == |b|
    ensures Subtract(Add(a, b).value, b) == Some(a)
  {
    assert Subtract(Add(a, b).value, b).value == a;
  }

  lemma SubtractSelfIsZero(a: seq<int>)
    ensures Subtract(a, a) == Some(Scale(0, a))
  {
    assert Subtract(a, a).value == Scale(0, a);
  }

  /** The sum of a sum is the sum of the sums. */
  lemma {:induction false} SumOfAdd(a: seq<int>, b: seq<int>)
    requires |a| == |b|
    ensures SumOf(Add(a, b).value) == SumOf(a) + SumOf(b)
  {
    if a != [] {
      var n := |a| - 1;
      SumOfAdd(a[..n], b[..n]);
      assert Add(a, b).value[..n] == Add(a[..n], b[..n]).value;
    }
  }

  lemma {:induction false} SumOfScale(k: int, a: seq<int>)
    ensures SumOf(Scale(k, a)) == k * SumOf(a)
  {
    if a != [] {
      var n := |a| - 1;
      SumOfScale(k, a[..n]);
      assert Scale(k, a)[..n] == Scale(k, a[..n]);
    }
  }

  lemma {:induction false} DotCommutes(a: seq<int>, b: seq<int>)
    requires |a| == |b|
    ensures DotOf(a, b) == DotOf(b, a)
  {
    if a != [] {
      DotCommutes(a[..|a| - 1], b[..|b| - 1]);
    }
  }

  /** A column's dot product with itself is never negative, and is zero
      only for the zero column. */
  lemma {:induction false} DotSelf(a: seq<int>)
    ensures DotOf(a, a) >= 0
    ensures DotOf(a, a) == 0 <==> NonZeroCount(a) == 0
  {
    if a != [] {
      var n := |a| - 1;
      DotSelf(a[..n]);
      var x := a[n];
      assert x * x >= 0 by {
        if x < 0 { assert x * x == (-x) * (-x); }
      }
      assert x != 0 ==> x * x > 0 by {
        if x < 0 { assert x * x == (-x) * (-x); }
      }
    }
  }

  /** The cross product is orthogonal to both factors. */
  lemma CrossOrthogonal(a: seq<int>, b: seq<int>)
    requires |a| == 3 && |b| == 3
    ensures DotOf(Cross(a, b).value, a) == 0 && DotOf(Cross(a, b).value, b) == 0
  {
    var c := Cross(a, b).value;
    Dot3(c, a);
    Dot3(c, b);
    TripleProduct(c[0], c[1], c[2], a[0], a[1], a[2], b[0], b[1], b[2]);
  }

  lemma TripleProduct(c0: int, c1: int, c2: int, x0: int, x1: int, x2: int, y0: int, y1: int, y2: int)
    requires c0 == x1 * y2 - x2 * y1 && c1 == x2 * y0 - x0 * y2 && c2 == x0 * y1 - x1 * y0
    ensures c0 * x0 + c1 * x1 + c2 * x2 == 0
    ensures c0 * y0 + c1 * y1 + c2 * y2 == 0
  {
    TripleVanishes(c0, c1, c2, x0, x1, x2, y0, y1, y2);
    TripleVanishes(-c0, -c1, -c2, y0, y1, y2, x0, x1, x2);
  }

  /** The triple product of `x`, `x` and `y` is zero. */
  lemma TripleVanishes(c0: int, c1: int, c2: int, x0: int, x1: int, x2: int, y0: int, y1: int, y2: int)
    requires c0 == x1 * y2 - x2 * y1 && c1 == x2 * y0 - x0 * y2 && c2 == x0 * y1 - x1 * y0
    ensures c0 * x0 + c1 * x1 + c2 * x2 == 0
  {
    assert c0 * x0 == x0 * x1 * y2 - x0 * x2 * y1;
    assert c1 * x1 == x1 * x2 * y0 - x0 * x1 * y2;
    assert c2 * x2 == x0 * x2 * y1 - x1 * x2 * y0;
  }

  lemma Dot3(a: seq<int>, b: seq<int>)
    requires |a| == 3 && |b| == 3
    ensures DotOf(a, b) == a[0] * b[0] + a[1] * b[1] + a[2] * b[2]
  {
    var a2, b2 := a[..2], b[..2];
    var a1, b1 := a2[..1], b2[..1];
    assert a1[..0] == [] && b1[..0] == [];
    assert DotOf(a1, b1) == a[0] * b[0];
    assert DotOf(a2, b2) == a[0] * b[0] + a[1] * b[1];
  }

  /** Swapping the factors negates the cross product. */
  lemma CrossAnticommutes(a: seq<int>, b: seq<int>)
    requires |a| == 3 && |b| == 3
    ensures Cross(b, a).value == Scale(-1, Cross(a, b).value)
  {
  }

  /** The L1 norm lies between the L-infinity norm and `Size()` times it;
      the L0 norm is at most `Size()` and zero only with the L1 norm. */
  lemma NormBounds(xs: seq<int>)
    requires |xs| > 0
    ensures MaxAbs(xs) <= AbsSum(xs) <= |xs| * MaxAbs(xs)
    ensures NonZeroCount(xs) <= |xs|
    ensures NonZeroCount(xs) == 0 <==> AbsSum(xs) == 0
  {
    var i :| 0 <= i < |xs| && Abs(xs[i]) == MaxAbs(xs);
    AbsSumCovers(xs, i);
    AbsSumBelow(xs, MaxAbs(xs));
    NonZeroBound(xs);
    ZeroNorms(xs);
  }

  /** Entries bounded by `m` in magnitude sum to at most `|xs| * m`. */
  lemma {:induction false} AbsSumBelow(xs: seq<int>, m: nat)
    requires forall i :: 0 <= i < |xs| ==> Abs(xs[i]) <= m
    ensures AbsSum(xs) <= |xs| * m
  {
    if xs != [] {
      var n := |xs| - 1;
      assert forall i :: 0 <= i < n ==> xs[..n][i] == xs[i];
      AbsSumBelow(xs[..n], m);
      assert |xs| * m == n * m + m;
    }
  }

  lemma {:induction false} ZeroNorms(xs: seq<int>)
    ensures NonZeroCount(xs) == 0 <==> AbsSum(xs) == 0
  {
    if xs != [] {
      ZeroNorms(xs[..|xs| - 1]);
    }
  }

  /** Every magnitude is counted in the L1 norm. */
  lemma {:induction false} AbsSumCovers(xs: seq<int>, i: nat)
    requires i < |xs|
    ensures Abs(xs[i]) <= AbsSum(xs)
  {
    var n := |xs| - 1;
    if i < n {
      AbsSumCovers(xs[..n], i);
    }
  }

  class Column {
    var data: seq<int>
    var key: string

    constructor (data0: seq<int>, key0: string)
      ensures data == data0 && key == key0
    {
      data, key := data0, key0;
    }

    function Size(): (n: nat)
      reads this
      ensures n == |data|
    {
      |data|
    }

    function Sum(): int
      reads this
    {
      SumOf(data)
    }

    /** `LNorm`: `None` is L-infinity (the largest magnitude, so the column
        must not be empty), 1 the sum of magnitudes, 0 the count of nonzero
        entries. */
    function LNorm(norm: Option<nat>): (r: int)
      requires norm.None? ==> |data| > 0
      requires norm.Some? ==> norm.value <= 1
      reads this
      ensures r >= 0
      ensures norm.None? ==> (forall i :: 0 <= i < |data| ==> Abs(data[i]) <= r)
                             && exists i :: 0 <= i < |data| && Abs(data[i]) == r
      ensures norm == Some(1) ==> r == AbsSum(data)
      ensures norm == Some(0) ==> r == NonZeroCount(data) && r <= |data|
    {
      match norm
      case None => MaxAbs(data)
      case Some(p) =>
        if p == 1 then AbsSum(data)
        else (NonZeroBound(data); NonZeroCount(data))
    }

    /** `Dot` (and `operator*` on two columns): the products are added up
        into an accumulator. */
    method Dot(rhs: Column) returns (r: Option<int>)
      ensures r.None? <==> |rhs.data| != |data|
      ensures r.Some? ==> r.value == DotOf(data, rhs.data)
    {
      if |rhs.data| != |data| {
        return None;
      }
      var sum := 0;
      for i := 0 to |data|
        invariant sum == DotOf(data[..i], rhs.data[..i])
      {
        assert data[..i + 1][..i] == data[..i] && rhs.data[..i + 1][..i] == rhs.data[..i];
        sum := sum + data[i] * rhs.data[i];
      }
      assert data[..|data|] == data && rhs.data[..|rhs.data|] == rhs.data;
      return Some(sum);
    }

    /** `Cross3D(rhs, key)`. */
    method Cross3D(rhs: Column, name: string := "") returns (r: Option<Column>)
      ensures r.None? <==> |data| != 3 || |rhs.data| != 3
      ensures r.Some? ==> fresh(r.value) && r.value.data == Cross(data, rhs.data).value
                          && r.value.key == name
    {
      match Cross(data, rhs.data)
      case None =>
        return None;
      case Some(c) =>
        var col := new Column(c, name);
        return Some(col);
    }

    /** `Append(value)`. */
    method Append(value: int)
      modifies this
      ensures data == old(data) + [value] && key == old(key)
    {
      data := data + [value];
    }

    /** `operator[](index)`: `None` past the end. */
    function At(index: nat): (r: Option<int>)
      reads this
      ensures r.None? <==> index >= |data|
      ensures r.Some? ==> r.value == data[index]
    {
      if index >= |data| then None else Some(data[index])
    }

    /** `operator+`: the new key joins both keys with " + ". */
    method Plus(rhs: Column) returns (r: Option<Column>)
      ensures r.None? <==> |data| != |rhs.data|
      ensures r.Some? ==> fresh(r.value) && r.value.data == Add(data, rhs.data).value
                          && r.value.key == key + " + " + rhs.key
    {
      match Add(data, rhs.data)
      case None =>
        return None;
      case Some(s) =>
        var col := new Column(s, key + " + " + rhs.key);
        return Some(col);
    }

    /** `operator-`: the new key joins both keys with " - ". */
    method Minus(rhs: Column) returns (r: Option<Column>)
      ensures r.None? <==> |data| != |rhs.data|
      ensures r.Some? ==> fresh(r.value) && r.value.data == Subtract(data, rhs.data).value
                          && r.value.key == key + " - " + rhs.key
    {
      match Subtract(data, rhs.data)
      case None =>
        return None;
      case Some(d) =>
        var col := new Column(d, key + " - " + rhs.key);
        return Some(col);
    }

    /** `k * column`: the new key appends " * " and the factor. */
    method ScaledBy(k: int) returns (c: Column)
      ensures fresh(c) && c.data == Scale(k, data) && c.key == key + " * " + IntToString(k)
    {
      c := new Column(Scale(k, data), key + " * " + IntToString(k));
    }

    /** `column * k`, which is `k * column`. */
    method Times(k: int) returns (c: Column)
      ensures fresh(c) && c.data == Scale(k, data) && c.key == key + " * " + IntToString(k)
    {
      c := ScaledBy(k);
    }

    /** `operator==`: the entries decide, the keys do not. */
    function Equals(rhs: Column): (r: bool)
      reads this, rhs
      ensures r <==> |data| == |rhs.data| && forall i :: 0 <= i < |data| ==> data[i] == rhs.data[i]
    {
      data == rhs.data
    }
  }

  lemma {:induction false} NonZeroBound(xs: seq<int>)
    ensures NonZeroCount(xs) <= |xs|
  {
    if xs != [] {
      NonZeroBound(xs[..|xs| - 1]);
    }
  }

  /** The expected values of the column tests. */
  lemma ColumnExamples()
    ensures Add([1, 5, 6], [1, 5, 6]) == Some([2, 10, 12])
    ensures Add([1, 5, 6], [1, 5]).None? && Subtract([1, 5, 6], [1, 5]).None?
    ensures Subtract([1, 5, 6], [1, 5, 6]) == Some([0, 0, 0])
    ensures DotOf([1, 5, 6], [1, 5, 6]) == 62
    ensures SumOf([1, 5, 6]) == 12
    ensures Scale(3, [1, 5, 6]) == [3, 15, 18]
    ensures AbsSum([-3, -4]) == 7 && NonZeroCount([-3, -4]) == 2 && MaxAbs([-3, -4]) == 4
  {
    var a := [1, 5, 6];
    assert a[..2] == [1, 5] && a[..2][..1] == [1] && a[..2][..1][..0] == [];
    assert Add(a, a).value == [2, 10, 12];
    assert Subtract(a, a).value == [0, 0, 0];
    var b := [-3, -4];
    assert b[..1] == [-3] && b[..1][..0] == [];
  }

  /** The test client: indexing, appending and comparison on `{1, 5, 6}`. */
  method ColumnTest()
  {
    var col := new Column([1, 5, 6], "Key");
    var short := new Column([1, 5], "Key");
    var first := col.At(0);
    assert first == Some(1);
    var past := col.At(4);
    assert past.None?;
    assert !col.Equals(short);
    var dot := col.Dot(short);
    assert dot.None?;
    col.Append(7);
    var longer := new Column([1, 5, 6, 7], "Other");
    assert col.Equals(longer);
  }
}
