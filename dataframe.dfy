/** The data frame class: its constructors, the mutators that change its
    rows, columns and header row in place, and its element accessors. The
    read-only reductions are those of `Tables`, applied to `View()`. */
module Frame {
  import opened Wrappers
  import opened Cells
  import opened Text
  import opened Tables
  import opened Parse

  /** The widest of `w` and the lengths of `labels`. */
  function Widest(labels: seq<string>, w: nat): nat
  {
    if labels == [] then w
    else
      var v := Widest(labels[..|labels| - 1], w);
      var last := labels[|labels| - 1];
      if |last| > v then |last| else v
  }

  /** `Widest` is the maximum: no smaller than `w` or any label, and equal to
      one of them. */
  lemma {:induction false} WidestIsMaximum(labels: seq<string>, w: nat)
    ensures Widest(labels, w) >= w
    ensures forall k :: 0 <= k < |labels| ==> Widest(labels, w) >= |labels[k]|
    ensures Widest(labels, w) == w ||
            exists k :: 0 <= k < |labels| && Widest(labels, w) == |labels[k]|
  {
    if labels != [] {
      var init := labels[..|labels| - 1];
      WidestIsMaximum(init, w);
      forall k | 0 <= k < |labels| ensures Widest(labels, w) >= |labels[k]| {
        if k < |labels| - 1 {
          assert labels[k] == init[k];
        }
      }
      if Widest(labels, w) != w && Widest(labels, w) == Widest(init, w) {
        var k :| 0 <= k < |init| && Widest(init, w) == |init[k]|;
        assert labels[k] == init[k];
      }
    }
  }

  /** The label loop of the labelled grid constructor as written: the width
      becomes the length of a label longer than 15 each time one is seen, so
      the last such label wins. */
  function LastLongLabel(labels: seq<string>): nat
  {
    if labels == [] then DefaultColumnWidth
    else
      var v := LastLongLabel(labels[..|labels| - 1]);
      var last := labels[|labels| - 1];
      if |last| > DefaultColumnWidth then |last| else v
  }

  /** A 20-character label followed by a 16-character one: the loop as
      written settles on 16, below the widest label. */
  lemma LastLongLabelMissesWidest()
    ensures LastLongLabel(["aaaaaaaaaaaaaaaaaaaa", "bbbbbbbbbbbbbbbb"]) == 16
    ensures Widest(["aaaaaaaaaaaaaaaaaaaa", "bbbbbbbbbbbbbbbb"], DefaultColumnWidth) == 20
  {
    var labels := ["aaaaaaaaaaaaaaaaaaaa", "bbbbbbbbbbbbbbbb"];
    assert labels[..1] == ["aaaaaaaaaaaaaaaaaaaa"];
    assert labels[..1][..0] == [];
  }

  /** The label loop of the sized labelled constructor and of
      `RefactorHeaders`. */
  method Widen(labels: seq<string>, w: nat) returns (v: nat)
    ensures v == Widest(labels, w)
  {
    v := w;
    for k := 0 to |labels|
      invariant v == Widest(labels[..k], w)
    {
      assert labels[..k + 1][..k] == labels[..k];
      if |labels[k]| > v {
        v := |labels[k]|;
      }
    }
    assert labels[..|labels|] == labels;
  }

  /** `n` zero cells. */
  function ZeroRow(n: nat): (r: seq<Cell>)
    ensures |r| == n && forall k :: 0 <= k < n ==> r[k] == Val(0.0)
  {
    seq(n, k => Val(0.0))
  }

  /** `rows` rows of `columns` zeros. */
  function Zeros(rows: nat, columns: nat): (g: Grid)
    ensures |g| == rows && forall i :: 0 <= i < rows ==> g[i] == ZeroRow(columns)
  {
    seq(rows, i => ZeroRow(columns))
  }

  /** `after` is `before` with `c` added as a last column. */
  predicate ColumnAppended(before: Grid, after: Grid, c: seq<Cell>)
    requires |c| == |before|
  {
    |after| == |before| && forall i :: 0 <= i < |before| ==> after[i] == before[i] + [c[i]]
  }

  /** `after` is `before` with column `index` replaced by `c`. */
  predicate ColumnReplaced(before: Grid, after: Grid, index: nat, c: seq<Cell>)
    requires |c| == |before|
  {
    |after| == |before|
    && (forall i :: 0 <= i < |before| ==> |after[i]| == |before[i]|)
    && (forall i, j :: 0 <= i < |before| && 0 <= j < |before[i]| ==>
          after[i][j] == if j == index then c[i] else before[i][j])
  }

  /** The file constructors' column width: the header width, or 15 when it
      stayed 0. */
  function FileColumnWidth(lines: seq<string>, hasHeader: bool): nat
    requires hasHeader ==> |lines| > 0
  {
    var w := if hasHeader then HeaderWidth(TerminatedTokens(lines[0]), 0) else 0;
    if w == 0 then DefaultColumnWidth else w
  }

  /** The data lines of a file. */
  function Body(lines: seq<string>, hasHeader: bool): seq<string>
    requires hasHeader ==> |lines| > 0
  {
    if hasHeader then lines[1..] else lines
  }

  /** A file whose data lines all have the comma count of the header line
      (or of the first data line when there is none). */
  predicate UniformFile(lines: seq<string>, hasHeader: bool)
    requires |lines| > (if hasHeader then 1 else 0)
  {
    var body := Body(lines, hasHeader);
    forall i :: 0 <= i < |body| ==> CommaCount(body[i]) == CommaCount(lines[0])
  }

  class Dataframe {
    var height: nat
    var width: nat
    var hasHeaderRow: bool
    var data: Grid
    var headers: seq<string>
    var maxColumnWidth: nat

    /** The fields as a value, for the read-only reductions. */
    function View(): Table
      reads this
    {
      Table(data, headers, hasHeaderRow, height, width, maxColumnWidth)
    }

    predicate Valid()
      reads this
    {
      View().Valid()
    }

    /** A frame holding exactly the fields of `t`. */
    constructor Of(t: Table)
      ensures View() == t
    {
      height, width, hasHeaderRow := t.height, t.width, t.hasHeaderRow;
      data, headers, maxColumnWidth := t.data, t.headers, t.maxColumnWidth;
    }

    /** The file constructors: `None` is a path that does not open, and
        leaves the frame empty; otherwise the header line (when there is
        one) and the data lines are parsed. */
    constructor FromFile(file: Option<seq<string>>, hasHeader: bool, stof: NumberParser)
      requires file.Some? ==> |file.value| > (if hasHeader then 1 else 0)
      ensures hasHeaderRow == hasHeader
      ensures file.None? ==> height == 0 && width == 0 && data == [] && headers == []
                             && maxColumnWidth == 0
      ensures file.Some? ==>
                var lines := file.value;
                var body := Body(lines, hasHeader);
                && headers == (if hasHeader then Split(lines[0]) else [])
                && maxColumnWidth == FileColumnWidth(lines, hasHeader)
                && data == ParseGrid(body, stof)
                && height == |body|
                && width == TokenTotal(body) / |body|
      ensures file.None? ==> Valid()
      ensures file.Some? && UniformFile(file.value, hasHeader) ==> Valid()
    {
      hasHeaderRow := hasHeader;
      if file.None? {
        height, width, data, headers, maxColumnWidth := 0, 0, [], [], 0;
      } else {
        var lines := file.value;
        var w := 0;
        var labels := [];
        if hasHeader {
          labels, w := ReadHeaders(lines[0], 0);
        }
        if w <= 0 {
          w := DefaultColumnWidth;
        }
        var body := Body(lines, hasHeader);
        var g, wd, ht := ReadVals(body, stof);
        height, width, data, headers, maxColumnWidth := ht, wd, g, labels, w;
        if UniformFile(lines, hasHeader) {
          RectangularLines(body, CommaCount(lines[0]), stof);
          SplitLength(lines[0]);
        }
      }
    }

    /** The empty frame. */
    constructor Empty()
      ensures height == 0 && width == 0 && data == [] && headers == []
      ensures !hasHeaderRow && maxColumnWidth == DefaultColumnWidth
      ensures Valid()
    {
      height, width, data, headers := 0, 0, [], [];
      hasHeaderRow, maxColumnWidth := false, DefaultColumnWidth;
    }

    /** `rows` rows of `columns` zeros, without a header row. */
    constructor Sized(rows: nat, columns: nat)
      ensures height == rows && width == columns && data == Zeros(rows, columns)
      ensures headers == [] && !hasHeaderRow && maxColumnWidth == DefaultColumnWidth
      ensures Valid()
    {
      height, width, data, headers := rows, columns, Zeros(rows, columns), [];
      hasHeaderRow, maxColumnWidth := false, DefaultColumnWidth;
    }

    /** The shape check of the grid constructors: every row as long as the
        first. */
    static method CheckShape(grid: Grid) returns (ok: bool)
      requires |grid| > 0
      ensures ok <==> Rectangular(grid, |grid[0]|)
    {
      for i := 0 to |grid|
        invariant forall k :: 0 <= k < i ==> |grid[k]| == |grid[0]|
      {
        if |grid[i]| != |grid[0]| {
          return false;
        }
      }
      return true;
    }

    /** The grid constructor without labels. */
    static method FromGrid(grid: Grid) returns (r: Result<Dataframe, Error>)
      requires |grid| > 0
      ensures r.Err? <==> !Rectangular(grid, |grid[0]|)
      ensures r.Err? ==> r.error == BadShape
      ensures r.Ok? ==> fresh(r.value) && r.value.Valid()
                        && r.value.View() == Table(grid, [], false, |grid|, |grid[0]|, DefaultColumnWidth)
    {
      var ok := CheckShape(grid);
      if !ok {
        return Err(BadShape);
      }
      var f := new Dataframe.Of(Table(grid, [], false, |grid|, |grid[0]|, DefaultColumnWidth));
      return Ok(f);
    }

    /** The grid constructor with labels: the shape is checked before the
        label count. The width is the widest label, at least 15 (see
        `LastLongLabel` for the loop as written). */
    static method FromLabelledGrid(grid: Grid, labels: seq<string>) returns (r: Result<Dataframe, Error>)
      requires |grid| > 0
      ensures r.Err? <==> !Rectangular(grid, |grid[0]|) || |labels| != |grid[0]|
      ensures r.Err? && !Rectangular(grid, |grid[0]|) ==> r.error == BadShape
      ensures r.Err? && Rectangular(grid, |grid[0]|) ==> r.error == HeaderDataSizeMismatch
      ensures r.Ok? ==> fresh(r.value) && r.value.Valid()
                        && r.value.View() == Table(grid, labels, true, |grid|, |grid[0]|,
                                                   Widest(labels, DefaultColumnWidth))
    {
      var ok := CheckShape(grid);
      if !ok {
        return Err(BadShape);
      }
      if |labels| != |grid[0]| {
        return Err(HeaderDataSizeMismatch);
      }
      var w := Widen(labels, DefaultColumnWidth);
      var f := new Dataframe.Of(Table(grid, labels, true, |grid|, |grid[0]|, w));
      return Ok(f);
    }

    /** `rows` rows of `columns` zeros under `labels`. */
    static method SizedLabelled(rows: nat, columns: nat, labels: seq<string>) returns (r: Result<Dataframe, Error>)
      ensures r.Err? <==> |labels| != columns
      ensures r.Err? ==> r.error == HeaderDataSizeMismatch
      ensures r.Ok? ==> fresh(r.value) && r.value.Valid()
                        && r.value.View() == Table(Zeros(rows, columns), labels, true, rows, columns,
                                                   Widest(labels, DefaultColumnWidth))
    {
      if |labels| != columns {
        return Err(HeaderDataSizeMismatch);
      }
      var w := Widen(labels, DefaultColumnWidth);
      var f := new Dataframe.Of(Table(Zeros(rows, columns), labels, true, rows, columns, w));
      return Ok(f);
    }

    /** `RefactorHeaders`: the labels are checked against the current labels
        (or the width when there are none), then installed; the column width
        only grows. */
    method RefactorHeaders(labels: seq<string>) returns (o: Outcome<Error>)
      requires Valid()
      modifies this
      ensures Valid()
      ensures o.Fail? <==> |labels| != (if old(hasHeaderRow) then |old(headers)| else old(width))
      ensures o.Fail? <==> |labels| != old(width)
      ensures o.Fail? ==> o.error == HeaderDataSizeMismatch && unchanged(this)
      ensures o.Pass? ==> headers == labels && hasHeaderRow
                          && maxColumnWidth == Widest(labels, old(maxColumnWidth))
                          && data == old(data) && height == old(height) && width == old(width)
    {
      var expected := if hasHeaderRow then |headers| else width;
      if |labels| != expected {
        return Fail(HeaderDataSizeMismatch);
      }
      hasHeaderRow := true;
      headers := labels;
      maxColumnWidth := Widen(labels, maxColumnWidth);
      return Pass;
    }

    /** Overwrites column `index` with `c`, row by row. */
    method OverwriteColumn(index: nat, c: seq<Cell>)
      requires height == |data| && Rectangular(data, width) && index < width && |c| == height
      modifies this
      ensures height == |data| && Rectangular(data, width)
      ensures ColumnReplaced(old(data), data, index, c)
      ensures height == old(height) && width == old(width) && headers == old(headers)
      ensures hasHeaderRow == old(hasHeaderRow) && maxColumnWidth == old(maxColumnWidth)
    {
      for row := 0 to height
        invariant height == |data| && Rectangular(data, width)
        invariant |old(data)| == height && Rectangular(old(data), width)
        invariant forall i, j :: 0 <= i < height && 0 <= j < width ==>
                    data[i][j] == if j == index && i < row then c[i] else old(data)[i][j]
        invariant height == old(height) && width == old(width) && headers == old(headers)
        invariant hasHeaderRow == old(hasHeaderRow) && maxColumnWidth == old(maxColumnWidth)
      {
        data := data[row := data[row][index := c[row]]];
      }
    }

    /** `RefactorColumn`: the length is checked before the index. */
    method RefactorColumn(index: nat, c: seq<Cell>) returns (o: Outcome<Error>)
      requires Valid()
      modifies this
      ensures Valid()
      ensures o.Fail? <==> |c| != old(height) || index >= old(width)
      ensures o.Fail? && |c| != old(height) ==> o.error == VectorSizeMismatch
      ensures o.Fail? && |c| == old(height) ==> o.error == IndexOutOfBounds
      ensures o.Fail? ==> unchanged(this)
      ensures o.Pass? ==> ColumnReplaced(old(data), data, index, c) && Column(data, index) == c
      ensures o.Pass? ==> height == old(height) && width == old(width) && headers == old(headers)
                          && hasHeaderRow == old(hasHeaderRow) && maxColumnWidth == old(maxColumnWidth)
    {
      if |c| != height {
        return Fail(VectorSizeMismatch);
      }
      if index >= width {
        return Fail(IndexOutOfBounds);
      }
      OverwriteColumn(index, c);
      return Pass;
    }

    /** `SetColumn`: only the length is checked; the index must name a
        column whenever there is a row to write. */
    method SetColumn(c: seq<Cell>, index: nat) returns (o: Outcome<Error>)
      requires Valid()
      requires |c| == height && height > 0 ==> index < width
      modifies this
      ensures Valid()
      ensures o.Fail? <==> |c| != old(height)
      ensures o.Fail? ==> o.error == VectorSizeMismatch && unchanged(this)
      ensures o.Pass? ==> ColumnReplaced(old(data), data, index, c)
      ensures o.Pass? ==> height == old(height) && width == old(width) && headers == old(headers)
                          && hasHeaderRow == old(hasHeaderRow) && maxColumnWidth == old(maxColumnWidth)
    {
      if |c| != height {
        return Fail(VectorSizeMismatch);
      }
      if height > 0 {
        OverwriteColumn(index, c);
      }
      return Pass;
    }

    /** `InsertRow(row)`. */
    method InsertRow(row: seq<Cell>) returns (o: Outcome<Error>)
      requires Valid()
      modifies this
      ensures Valid()
      ensures o.Fail? <==> |row| != old(width)
      ensures o.Fail? ==> o.error == VectorSizeMismatch && unchanged(this)
      ensures o.Pass? ==> data == old(data) + [row] && height == old(height) + 1
      ensures width == old(width) && headers == old(headers)
      ensures hasHeaderRow == old(hasHeaderRow) && maxColumnWidth == old(maxColumnWidth)
    {
      if |row| != width {
        return Fail(VectorSizeMismatch);
      }
      data := data + [row];
      height := height + 1;
      return Pass;
    }

    /** `InsertRow()`: a row of zeros. */
    method InsertZeroRow()
      requires Valid()
      modifies this
      ensures Valid()
      ensures data == old(data) + [ZeroRow(width)] && height == old(height) + 1
      ensures width == old(width) && headers == old(headers)
      ensures hasHeaderRow == old(hasHeaderRow) && maxColumnWidth == old(maxColumnWidth)
    {
      data := data + [ZeroRow(width)];
      height := height + 1;
    }

    /** Adds `c` at the end of every row. */
    method AddColumn(c: seq<Cell>)
      requires height == |data| && Rectangular(data, width) && |c| == height
      modifies this
      ensures height == |data| && Rectangular(data, width)
      ensures ColumnAppended(old(data), data, c) && width == old(width) + 1
      ensures height == old(height) && headers == old(headers)
      ensures hasHeaderRow == old(hasHeaderRow) && maxColumnWidth == old(maxColumnWidth)
    {
      for row := 0 to height
        invariant |data| == height && |old(data)| == height
        invariant forall i :: 0 <= i < row ==> data[i] == old(data)[i] + [c[i]]
        invariant forall i :: row <= i < height ==> data[i] == old(data)[i]
        invariant height == old(height) && width == old(width) && headers == old(headers)
        invariant hasHeaderRow == old(hasHeaderRow) && maxColumnWidth == old(maxColumnWidth)
      {
        data := data[row := data[row] + [c[row]]];
      }
      width := width + 1;
    }

    /** `InsertColumn(header, col)`: the length is checked before the header
        state, and the frame must have a header row. */
    method InsertLabelledColumn(header: string, c: seq<Cell>) returns (o: Outcome<Error>)
      requires Valid()
      modifies this
      ensures Valid()
      ensures o.Fail? <==> |c| != old(height) || !old(hasHeaderRow)
      ensures o.Fail? && |c| != old(height) ==> o.error == VectorSizeMismatch
      ensures o.Fail? && |c| == old(height) ==> o.error == HeaderStateMismatch
      ensures o.Fail? ==> unchanged(this)
      ensures o.Pass? ==> ColumnAppended(old(data), data, c) && Column(data, old(width)) == c
      ensures o.Pass? ==> headers == old(headers) + [header] && width == old(width) + 1
      ensures height == old(height) && hasHeaderRow == old(hasHeaderRow)
      ensures maxColumnWidth == old(maxColumnWidth)
    {
      if |c| != height {
        return Fail(VectorSizeMismatch);
      }
      if !hasHeaderRow {
        return Fail(HeaderStateMismatch);
      }
      headers := headers + [header];
      AddColumn(c);
      return Pass;
    }

    /** `InsertColumn(col)`: the frame must have no header row. */
    method InsertColumn(c: seq<Cell>) returns (o: Outcome<Error>)
      requires Valid()
      modifies this
      ensures Valid()
      ensures o.Fail? <==> |c| != old(height) || old(hasHeaderRow)
      ensures o.Fail? && |c| != old(height) ==> o.error == VectorSizeMismatch
      ensures o.Fail? && |c| == old(height) ==> o.error == HeaderStateMismatch
      ensures o.Fail? ==> unchanged(this)
      ensures o.Pass? ==> ColumnAppended(old(data), data, c) && Column(data, old(width)) == c
      ensures o.Pass? ==> width == old(width) + 1
      ensures headers == old(headers) && height == old(height) && hasHeaderRow == old(hasHeaderRow)
      ensures maxColumnWidth == old(maxColumnWidth)
    {
      if |c| != height {
        return Fail(VectorSizeMismatch);
      }
      if hasHeaderRow {
        return Fail(HeaderStateMismatch);
      }
      AddColumn(c);
      return Pass;
    }

    /** `InsertColumn(header)`: a labelled column of zeros. */
    method InsertLabelledZeroColumn(header: string) returns (o: Outcome<Error>)
      requires Valid()
      modifies this
      ensures Valid()
      ensures o.Fail? <==> !old(hasHeaderRow)
      ensures o.Fail? ==> o.error == HeaderStateMismatch && unchanged(this)
      ensures o.Pass? ==> ColumnAppended(old(data), data, ZeroRow(old(height)))
      ensures o.Pass? ==> headers == old(headers) + [header] && width == old(width) + 1
      ensures height == old(height) && hasHeaderRow == old(hasHeaderRow)
      ensures maxColumnWidth == old(maxColumnWidth)
    {
      if !hasHeaderRow {
        return Fail(HeaderStateMismatch);
      }
      headers := headers + [header];
      AddColumn(ZeroRow(height));
      return Pass;
    }

    /** `InsertColumn()`: an unlabelled column of zeros. */
    method InsertZeroColumn() returns (o: Outcome<Error>)
      requires Valid()
      modifies this
      ensures Valid()
      ensures o.Fail? <==> old(hasHeaderRow)
      ensures o.Fail? ==> o.error == HeaderStateMismatch && unchanged(this)
      ensures o.Pass? ==> ColumnAppended(old(data), data, ZeroRow(old(height)))
                          && width == old(width) + 1
      ensures headers == old(headers) && height == old(height) && hasHeaderRow == old(hasHeaderRow)
      ensures maxColumnWidth == old(maxColumnWidth)
    {
      if hasHeaderRow {
        return Fail(HeaderStateMismatch);
      }
      AddColumn(ZeroRow(height));
      return Pass;
    }

    /** `Stack(bottom)`: appends the rows of `bottom`, checking the width and
        then the labels first. */
    method Stack(bottom: Dataframe) returns (o: Outcome<Error>)
      requires Valid() && bottom.Valid() && bottom != this
      modifies this
      ensures Valid()
      ensures o.Fail? <==> old(width) != bottom.width || old(headers) != bottom.headers
      ensures o.Fail? && old(width) != bottom.width ==> o.error == VectorSizeMismatch
      ensures o.Fail? && old(width) == bottom.width ==> o.error == HeaderLabelMismatch
      ensures o.Fail? ==> unchanged(this)
      ensures o.Pass? ==> data == old(data) + bottom.data && height == old(height) + bottom.height
      ensures width == old(width) && headers == old(headers)
      ensures hasHeaderRow == old(hasHeaderRow) && maxColumnWidth == old(maxColumnWidth)
      ensures unchanged(bottom)
    {
      if width != bottom.width {
        return Fail(VectorSizeMismatch);
      }
      if headers != bottom.headers {
        return Fail(HeaderLabelMismatch);
      }
      var rows := bottom.data;
      for k := 0 to |rows|
        invariant data == old(data) + rows[..k]
        invariant height == |data| && Rectangular(data, width)
        invariant width == old(width) && headers == old(headers)
        invariant hasHeaderRow == old(hasHeaderRow) && maxColumnWidth == old(maxColumnWidth)
      {
        assert rows[..k + 1] == rows[..k] + [rows[k]];
        data := data + [rows[k]];
        height := height + 1;
      }
      assert rows[..|rows|] == rows;
      return Pass;
    }

    /** `GetColumn(index)`: no bounds check, so the index must name a
        column. */
    method GetColumn(index: nat) returns (c: seq<Cell>)
      requires Valid() && (height > 0 ==> index < width)
      ensures c == Column(data, index)
    {
      c := [];
      for row := 0 to height
        invariant |c| == row && forall i :: 0 <= i < row ==> c[i] == data[i][index]
      {
        c := c + [data[row][index]];
      }
    }

    /** `GetHeader(index)`: out of bounds iff `index >= width`. */
    function GetHeader(index: nat): (r: Result<string, Error>)
      requires Valid() && (index < width ==> hasHeaderRow)
      reads this
      ensures r.Err? <==> index >= width
      ensures r.Err? ==> r.error == IndexOutOfBounds
      ensures r.Ok? ==> r.value == headers[index]
    {
      if index >= width then Err(IndexOutOfBounds) else Ok(headers[index])
    }

    /** `GetElement(row, column)`: no bounds checks. */
    function GetElement(row: nat, column: nat): (x: Cell)
      requires Valid() && row < height && column < width
      reads this
      ensures x == Column(data, column)[row]
    {
      data[row][column]
    }

    /** `operator[](index)`: a copy of one row, unchecked. */
    function RowAt(index: nat): (r: seq<Cell>)
      requires Valid() && index < height
      reads this
      ensures |r| == width && forall j :: 0 <= j < width ==> r[j] == GetElement(index, j)
    {
      data[index]
    }

    /** The labels `GetDSPData` builds: for each column, its number from 1
        followed by " Frequencies", " Amplitudes" and " Phases". */
    method DspHeaders() returns (labels: seq<string>)
      ensures labels == DspLabels(width)
    {
      labels := [];
      for column := 1 to width + 1
        invariant labels == DspLabels(column - 1)
      {
        for attribute := 0 to 3
          invariant labels == DspLabels(column - 1) + ColumnLabels(column)[..attribute]
        {
          assert ColumnLabels(column)[..attribute + 1]
              == ColumnLabels(column)[..attribute] + [ColumnLabels(column)[attribute]];
          labels := labels + [ColumnLabels(column)[attribute]];
        }
        assert ColumnLabels(column)[..3] == ColumnLabels(column);
      }
    }
  }

  /** The three labels of column number `column`. */
  function ColumnLabels(column: nat): (r: seq<string>)
    ensures |r| == 3
  {
    [SignalLabel(column, 0), SignalLabel(column, 1), SignalLabel(column, 2)]
  }

  /** The labels of the first `n` columns, column by column. */
  function DspLabels(n: nat): (r: seq<string>)
    ensures |r| == 3 * n
  {
    if n == 0 then [] else DspLabels(n - 1) + ColumnLabels(n)
  }

  /** Label `k` of the first `n` columns is attribute `k % 3` of column
      number `k / 3 + 1`. */
  lemma {:induction false} DspLabelAt(n: nat, k: nat)
    requires k < 3 * n
    ensures DspLabels(n)[k] == DspLabel(k)
  {
    if k < 3 * (n - 1) {
      EarlierColumnLabel(n, k);
      DspLabelAt(n - 1, k);
    } else {
      var attribute := k - 3 * (n - 1);
      LastColumnLabel(n, attribute);
      LabelPosition(n, attribute);
    }
  }

  lemma EarlierColumnLabel(n: nat, k: nat)
    requires n > 0 && k < 3 * (n - 1)
    ensures DspLabels(n)[k] == DspLabels(n - 1)[k]
  {
  }

  lemma LastColumnLabel(n: nat, attribute: nat)
    requires n > 0 && attribute < 3
    ensures DspLabels(n)[3 * (n - 1) + attribute] == SignalLabel(n, attribute)
  {
    assert DspLabels(n)[3 * (n - 1) + attribute] == ColumnLabels(n)[attribute];
  }

  /** The label of one attribute of one column: "Signal ", the column
      number and the attribute suffix. */
  function SignalLabel(column: nat, attribute: nat): string
  {
    "Signal " + NatToString(column) + DspAttribute(attribute)
  }

  /** Label `k` of the signal frame: attribute `k % 3` of column number
      `k / 3 + 1`. */
  function DspLabel(k: nat): string
  {
    SignalLabel(k / 3 + 1, k % 3)
  }

  /** Label `3 * (column - 1) + attribute` belongs to `column` and names
      `attribute`. */
  lemma LabelPosition(column: nat, attribute: nat)
    requires column >= 1 && attribute < 3
    ensures DspLabel(3 * (column - 1) + attribute) == SignalLabel(column, attribute)
  {
    var k := 3 * (column - 1) + attribute;
    DivideByThree(k, column - 1, attribute);
    assert k / 3 + 1 == column && k % 3 == attribute;
  }

  lemma DivideByThree(k: nat, q: nat, r: nat)
    requires k == 3 * q + r && r < 3
    ensures k / 3 == q && k % 3 == r
  {
  }

  /** The three attribute suffixes of the signal labels. */
  function DspAttribute(attribute: nat): string
  {
    if attribute == 0 then " Frequencies"
    else if attribute == 1 then " Amplitudes"
    else " Phases"
  }
}
