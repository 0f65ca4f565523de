/** The state of a data frame as a value, the exceptions its operations throw,
    and its read-only reductions: the NaN-aware means and medians by row, by
    column index, by column name and over the whole table. */
module Tables {
  import opened Wrappers
  import opened Cells
  import opened Selection

  /** One constructor per exception class the frame throws. */
  datatype Error =
    | VectorSizeMismatch      // DataframeVectorSizeMismatchException
    | ColumnNotFound          // ColumnNotFoundException
    | IndexOutOfBounds        // DataframeIndexOutOfBoundsException
    | HeaderStateMismatch     // HeaderStateMismatchException
    | HeaderLabelMismatch     // HeaderLabelMismatchException
    | BadShape                // BadDataframeShapeException
    | HeaderDataSizeMismatch  // HeaderDataSizeMismatchException
    | RowSizeMismatch         // DataframeRowSizeMismatchException (older frame)

  type Grid = seq<seq<Cell>>

  /** Every row of `g` has `width` cells. */
  predicate Rectangular(g: Grid, width: nat)
  {
    forall i :: 0 <= i < |g| ==> |g[i]| == width
  }

  /** The six fields of a frame. */
  datatype Table = Table(
    data: Grid,
    headers: seq<string>,
    hasHeaderRow: bool,
    height: nat,
    width: nat,
    maxColumnWidth: nat)
  {
    /** The shape invariant: `height` rows of `width` cells, one name per
        column when there is a header row and no labels otherwise. */
    predicate Valid()
    {
      height == |data| && Rectangular(data, width)
      && (hasHeaderRow ==> |headers| == width)
      && (!hasHeaderRow ==> headers == [])
    }
  }

  function Abs(i: int): nat
  {
    if i < 0 then -i else i
  }

  /** First position of `name` in `labels` (the `std::find` lookup). */
  function Find(labels: seq<string>, name: string): (r: Option<nat>)
    ensures r.None? <==> name !in labels
    ensures r.Some? ==> r.value < |labels| && labels[r.value] == name
    ensures r.Some? ==> forall k :: 0 <= k < r.value ==> labels[k] != name
  {
    if |labels| == 0 then None
    else if labels[0] == name then Some(0)
    else match Find(labels[1..], name)
      case None => None
      case Some(k) => Some(k + 1)
  }

  /** The bounds test and negative indexing of the mean overloads: an index
      is rejected when its magnitude reaches `extent`, and a negative one
      counts back from the end. */
  function Resolve(index: int, extent: nat): (r: Option<nat>)
    ensures r.None? <==> Abs(index) >= extent
    ensures r.Some? ==> r.value < extent
    ensures r.Some? && index >= 0 ==> r.value == index
    ensures r.Some? && index < 0 ==> r.value + Abs(index) == extent
  {
    if Abs(index) >= extent then None
    else if index < 0 then Some(extent - Abs(index))
    else Some(index)
  }

  /** `-k` and `extent - k` name the same position. */
  lemma NegativeIndexing(k: nat, extent: nat)
    requires 0 < k < extent
    ensures Resolve(-(k as int), extent) == Resolve(extent - k, extent) == Some(extent - k)
  {
  }

  /** Column `j` of `g`, top to bottom. */
  function Column(g: Grid, j: nat): (c: seq<Cell>)
    requires forall i :: 0 <= i < |g| ==> j < |g[i]|
    ensures |c| == |g|
    ensures forall i :: 0 <= i < |g| ==> c[i] == g[i][j]
  {
    seq(|g|, i requires 0 <= i < |g| => g[i][j])
  }

  /** The `omit_nan` switch: ignore NaN, or count it as 0. */
  function PolicyMean(s: seq<Cell>, omitNaN: bool): Cell
  {
    if omitNaN then OmitMean(s) else ZeroMean(s)
  }

  /** `Mean(name)` and `Mean(name, omit)`: the mean of the first column
      carrying `name`. */
  function MeanOfLabel(t: Table, name: string, omitNaN: bool): (r: Result<Cell, Error>)
    requires t.Valid()
    ensures r.Err? <==> !t.hasHeaderRow || name !in t.headers
    ensures r.Err? ==> r.error == ColumnNotFound
    ensures r.Ok? ==> exists j :: 0 <= j < t.width && t.headers[j] == name
                        && (forall k :: 0 <= k < j ==> t.headers[k] != name)
                        && r.value == PolicyMean(Column(t.data, j), omitNaN)
  {
    if !t.hasHeaderRow then Err(ColumnNotFound)
    else match Find(t.headers, name)
      case None => Err(ColumnNotFound)
      case Some(j) => Ok(PolicyMean(Column(t.data, j), omitNaN))
  }

  /** `Mean(index)` and `Mean(index, omit)`: the mean of one row. */
  function MeanOfRow(t: Table, index: int, omitNaN: bool): (r: Result<Cell, Error>)
    requires t.Valid()
    ensures r.Err? <==> Abs(index) >= t.height
    ensures r.Err? ==> r.error == IndexOutOfBounds
    ensures r.Ok? ==> exists i :: 0 <= i < t.height && Resolve(index, t.height) == Some(i)
                        && r.value == PolicyMean(t.data[i], omitNaN)
  {
    match Resolve(index, t.height)
      case None => Err(IndexOutOfBounds)
      case Some(i) => Ok(PolicyMean(t.data[i], omitNaN))
  }

  /** `Mean(index, omit, colWise)`: a column by position, or a row. */
  function MeanAlong(t: Table, index: int, omitNaN: bool, colWise: bool): (r: Result<Cell, Error>)
    requires t.Valid()
    ensures !colWise ==> r == MeanOfRow(t, index, omitNaN)
    ensures colWise ==> (r.Err? <==> Abs(index) >= t.width)
    ensures r.Err? ==> r.error == IndexOutOfBounds
    ensures colWise && r.Ok? ==> exists j :: 0 <= j < t.width && Resolve(index, t.width) == Some(j)
                                   && r.value == PolicyMean(Column(t.data, j), omitNaN)
  {
    if !colWise then MeanOfRow(t, index, omitNaN)
    else match Resolve(index, t.width)
      case None => Err(IndexOutOfBounds)
      case Some(j) => Ok(PolicyMean(Column(t.data, j), omitNaN))
  }

  /** A negative row index reaches the same row as its positive
      counterpart, so `Mean(-1) == Mean(height - 1)`. */
  lemma NegativeRowMean(t: Table, k: nat, omitNaN: bool)
    requires t.Valid() && 0 < k < t.height
    ensures MeanOfRow(t, -(k as int), omitNaN) == MeanOfRow(t, t.height - k, omitNaN)
    ensures MeanOfRow(t, -(k as int), omitNaN).Ok?
  {
    NegativeIndexing(k, t.height);
  }

  /** Looking a column up by name gives the same mean as naming the
      position of its first occurrence. */
  lemma LabelMeanIsIndexMean(t: Table, name: string, j: nat, omitNaN: bool)
    requires t.Valid() && t.hasHeaderRow
    requires j < t.width && t.headers[j] == name
    requires forall k :: 0 <= k < j ==> t.headers[k] != name
    ensures MeanOfLabel(t, name, omitNaN) == MeanAlong(t, j, omitNaN, true)
  {
    assert t.headers[j] in t.headers;
    var k := Find(t.headers, name).value;
    assert k == j;
  }

  /** All cells of `g`, row after row. */
  function Flat(g: Grid): seq<Cell>
  {
    if g == [] then [] else Flat(g[..|g| - 1]) + g[|g| - 1]
  }

  /** The flattened table holds exactly the table's values. */
  lemma {:induction false} FlatMembers(g: Grid, x: real)
    ensures x in Values(Flat(g)) <==>
            exists i, j :: 0 <= i < |g| && 0 <= j < |g[i]| && g[i][j] == Val(x)
  {
    if g != [] {
      var init, last := g[..|g| - 1], g[|g| - 1];
      FlatMembers(init, x);
      ValuesAppend(Flat(init), last);
      if x in Values(last) {
        ValuesMember(last, x);
        var j :| 0 <= j < |last| && last[j] == Val(x);
        assert g[|g| - 1][j] == Val(x);
      }
      if exists i, j :: 0 <= i < |g| && 0 <= j < |g[i]| && g[i][j] == Val(x) {
        var i, j :| 0 <= i < |g| && 0 <= j < |g[i]| && g[i][j] == Val(x);
        if i < |g| - 1 {
          assert init[i][j] == Val(x);
        } else {
          ValueOfMember(last, j);
        }
      }
    }
  }

  /** A non-NaN cell of `s` is among its values. */
  lemma {:induction false} ValueOfMember(s: seq<Cell>, j: nat)
    requires j < |s| && s[j].Val?
    ensures s[j].r in Values(s)
  {
    var init := s[..|s| - 1];
    if j < |s| - 1 {
      ValueOfMember(init, j);
    }
  }

  /** Gather of the non-NaN cells of one row or column (the `for_each` with a
      `push_back` under a lock). The parallel gather promises no order, so
      only the multiset is stated. */
  method NonNaN(cells: seq<Cell>) returns (vs: seq<real>)
    ensures multiset(vs) == multiset(Values(cells))
  {
    vs := [];
    for k := 0 to |cells|
      invariant vs == Values(cells[..k])
    {
      assert cells[..k + 1][..k] == cells[..k];
      if cells[k].Val? {
        vs := vs + [cells[k].r];
      }
    }
    assert cells[..|cells|] == cells;
  }

  /** `Flatten`: every non-NaN cell of the table, in some order. */
  method Flatten(t: Table) returns (flat: seq<real>)
    ensures multiset(flat) == multiset(Values(Flat(t.data)))
  {
    flat := [];
    for r := 0 to |t.data|
      invariant multiset(flat) == multiset(Values(Flat(t.data[..r])))
    {
      var row := NonNaN(t.data[r]);
      FlattenStep(t.data, r, flat, row);
      flat := flat + row;
    }
    assert t.data[..|t.data|] == t.data;
  }

  /** Appending the values of row `r` extends the values of the rows
      before it. */
  lemma FlattenStep(g: Grid, r: nat, flat: seq<real>, row: seq<real>)
    requires r < |g|
    requires multiset(flat) == multiset(Values(Flat(g[..r])))
    requires multiset(row) == multiset(Values(g[r]))
    ensures multiset(flat + row) == multiset(Values(Flat(g[..r + 1])))
  {
    FlatStep(g, r);
    ValuesAppend(Flat(g[..r]), g[r]);
  }

  lemma FlatStep(g: Grid, r: nat)
    requires r < |g|
    ensures Flat(g[..r + 1]) == Flat(g[..r]) + g[r]
  {
    assert g[..r + 1][..r] == g[..r];
  }

  /** The median of a non-empty NaN-free sequence through the in-place
      `MedianHelper`, on a fresh vector in any order of `vs`. */
  method MedianOf(vs: seq<real>) returns (m: real)
    requires |vs| > 0
    ensures m == Median(vs)
  {
    var vec := new real[|vs|](i requires 0 <= i < |vs| => vs[i]);
    assert vec[..] == vs;
    m := MedianHelper(vec);
  }

  /** Median of the non-NaN cells of `cells`. */
  method MedianOfCells(cells: seq<Cell>) returns (m: real)
    requires |Values(cells)| > 0
    ensures m == Median(Values(cells))
  {
    var vs := NonNaN(cells);
    MedianPermutation(Values(cells), vs);
    m := MedianOf(vs);
  }

  /** `Median(index)`: the median of one row's values. The bound test used
      here is the one of the mean overloads (see `MedianGuardAsWritten`). */
  method MedianOfRow(t: Table, index: int) returns (r: Result<real, Error>)
    requires t.Valid()
    requires Abs(index) < t.height ==> |Values(t.data[Resolve(index, t.height).value])| > 0
    ensures r.Err? <==> Abs(index) >= t.height
    ensures r.Err? ==> r.error == IndexOutOfBounds
    ensures r.Ok? ==> exists i :: 0 <= i < t.height && Resolve(index, t.height) == Some(i)
                        && r.value == Median(Values(t.data[i]))
  {
    match Resolve(index, t.height)
    case None =>
      r := Err(IndexOutOfBounds);
    case Some(i) =>
      var m := MedianOfCells(t.data[i]);
      r := Ok(m);
  }

  /** `Median(name)`: the median of the first column carrying `name`. */
  method MedianOfLabel(t: Table, name: string) returns (r: Result<real, Error>)
    requires t.Valid()
    requires name in t.headers ==> |Values(Column(t.data, Find(t.headers, name).value))| > 0
    ensures r.Err? <==> name !in t.headers
    ensures r.Err? ==> r.error == ColumnNotFound
    ensures r.Ok? ==> exists j :: 0 <= j < t.width && t.headers[j] == name
                        && (forall k :: 0 <= k < j ==> t.headers[k] != name)
                        && r.value == Median(Values(Column(t.data, j)))
  {
    match Find(t.headers, name)
    case None =>
      r := Err(ColumnNotFound);
    case Some(j) =>
      var m := MedianOfCells(Column(t.data, j));
      r := Ok(m);
  }

  /** `Median(index, colWise)`: a column by position, or a row. */
  method MedianAlong(t: Table, index: int, colWise: bool) returns (r: Result<real, Error>)
    requires t.Valid()
    requires !colWise && Abs(index) < t.height ==>
               |Values(t.data[Resolve(index, t.height).value])| > 0
    requires colWise && Abs(index) < t.width ==>
               |Values(Column(t.data, Resolve(index, t.width).value))| > 0
    ensures r.Err? <==> Abs(index) >= (if colWise then t.width else t.height)
    ensures r.Err? ==> r.error == IndexOutOfBounds
    ensures r.Ok? && !colWise ==> exists i :: 0 <= i < t.height && Resolve(index, t.height) == Some(i)
                                    && r.value == Median(Values(t.data[i]))
    ensures r.Ok? && colWise ==> exists j :: 0 <= j < t.width && Resolve(index, t.width) == Some(j)
                                   && r.value == Median(Values(Column(t.data, j)))
  {
    if !colWise {
      r := MedianOfRow(t, index);
    } else {
      match Resolve(index, t.width)
      case None =>
        r := Err(IndexOutOfBounds);
      case Some(j) =>
        var m := MedianOfCells(Column(t.data, j));
        r := Ok(m);
    }
  }

  /** `Median()`: the median of every non-NaN cell of the table. */
  method MedianOfTable(t: Table) returns (m: real)
    requires |Values(Flat(t.data))| > 0
    ensures m == Median(Values(Flat(t.data)))
  {
    var flat := Flatten(t);
    MedianPermutation(Values(Flat(t.data)), flat);
    m := MedianOf(flat);
  }

  /** `Mean()`: one sequential pass adding up and counting the non-NaN
      cells; with none, the division is 0/0 and gives NaN. */
  method MeanOfTable(t: Table) returns (m: Cell)
    ensures m == MeanOfValues(Values(Flat(t.data)))
  {
    var sum := 0.0;
    var divisor := 0;
    for r := 0 to |t.data|
      invariant sum == Total(Values(Flat(t.data[..r])))
      invariant divisor == |Values(Flat(t.data[..r]))|
    {
      var rowSum, rowCount := AccumulateRow(t.data[r]);
      AccumulateStep(t.data, r);
      sum := sum + rowSum;
      divisor := divisor + rowCount;
    }
    assert t.data[..|t.data|] == t.data;
    m := if divisor == 0 then NaN else Val(sum / divisor as real);
  }

  /** Row `r` adds its sum and its count to those of the rows before it. */
  lemma AccumulateStep(g: Grid, r: nat)
    requires r < |g|
    ensures Total(Values(Flat(g[..r + 1]))) == Total(Values(Flat(g[..r]))) + Total(Values(g[r]))
    ensures |Values(Flat(g[..r + 1]))| == |Values(Flat(g[..r]))| + |Values(g[r])|
  {
    FlatStep(g, r);
    ValuesAppend(Flat(g[..r]), g[r]);
    TotalAppend(Values(Flat(g[..r])), Values(g[r]));
  }

  /** The inner loop of `Mean()`: the sum and the count of one row's
      non-NaN cells. */
  method AccumulateRow(row: seq<Cell>) returns (sum: real, count: nat)
    ensures sum == Total(Values(row)) && count == |Values(row)|
  {
    sum, count := 0.0, 0;
    for c := 0 to |row|
      invariant sum == Total(Values(row[..c]))
      invariant count == |Values(row[..c])|
    {
      assert row[..c + 1][..c] == row[..c];
      assert Values(row[..c + 1]) == Values(row[..c]) + (if row[c].NaN? then [] else [row[c].r]);
      if row[c].Val? {
        TotalAppend(Values(row[..c]), [row[c].r]);
        assert Total([row[c].r]) == row[c].r by {
          assert [row[c].r][..0] == [];
        }
        sum := sum + row[c].r;
        count := count + 1;
      } else {
        assert Values(row[..c + 1]) == Values(row[..c]);
      }
    }
    assert row[..|row|] == row;
  }

  /** The whole-table mean is the omit-NaN mean of the flattened table
      whenever some cell is not NaN (and NaN, not 0, when every cell is). */
  lemma TableMeanOmitsNaN(t: Table)
    ensures |Values(Flat(t.data))| > 0 ==>
              MeanOfValues(Values(Flat(t.data))) == OmitMean(Flat(t.data))
    ensures |Values(Flat(t.data))| == 0 ==> MeanOfValues(Values(Flat(t.data))) == NaN
  {
    if |Values(Flat(t.data))| > 0 {
      OmitMeanIsMeanOfValues(Flat(t.data));
    }
  }

  /** The bound test of `Median(index)` and `Median(index, colWise)` as
      written: it rejects only magnitudes strictly above `extent`, then
      applies negative indexing. */
  function MedianGuardAsWritten(index: int, extent: nat): (r: Option<int>)
    ensures r.None? <==> Abs(index) > extent
  {
    if Abs(index) > extent then None
    else if index < 0 then Some(extent - Abs(index))
    else Some(index)
  }

  /** The as-written test lets `index == extent` through, to a position one
      past the last row or column; `Resolve` rejects it. */
  lemma MedianGuardAdmitsExtent(extent: nat)
    ensures MedianGuardAsWritten(extent, extent) == Some(extent)
    ensures Resolve(extent, extent) == None
  {
  }
}
