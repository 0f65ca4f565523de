/** The older data frame: the same parser and the same read-only reductions
    as `Frame.Dataframe` (those of `Tables`, applied to `View()`), the file
    constructors, and an `InsertRow` that reports its own exception. */
module LegacyFrame {
  import opened Wrappers
  import opened Cells
  import opened Text
  import opened Tables
  import opened Parse
  import Frame

  class Dataframe {
    var height: nat
    var width: nat
    var hasHeaderRow: bool
    var data: Grid
    var headers: seq<string>
    var maxColumnWidth: nat

    function View(): Table
      reads this
    {
      Table(data, headers, hasHeaderRow, height, width, maxColumnWidth)
    }

    predicate Valid()
      reads this
    {
      View().Valid()
    }

    /** The file constructors, with the same parse as the newer frame. */
    constructor FromFile(file: Option<seq<string>>, hasHeader: bool, stof: NumberParser)
      requires file.Some? ==> |file.value| > (if hasHeader then 1 else 0)
      ensures hasHeaderRow == hasHeader
      ensures file.None? ==> height == 0 && width == 0 && data == [] && headers == []
                             && maxColumnWidth == 0
      ensures file.Some? ==>
                var lines := file.value;
                var body := Frame.Body(lines, hasHeader);
                && headers == (if hasHeader then Split(lines[0]) else [])
                && maxColumnWidth == Frame.FileColumnWidth(lines, hasHeader)
                && data == ParseGrid(body, stof)
                && height == |body|
                && width == TokenTotal(body) / |body|
      ensures file.None? ==> Valid()
      ensures file.Some? && Frame.UniformFile(file.value, hasHeader) ==> Valid()
    {
      hasHeaderRow := hasHeader;
      if file.None? {
        height, width, data, headers, maxColumnWidth := 0, 0, [], [], 0;
      } else {
        var lines := file.value;
        var w := 0;
        var labels := [];
        if hasHeader {
          labels, w := ReadHeaders(lines[0], 0);
        }
        if w <= 0 {
          w := DefaultColumnWidth;
        }
        var body := Frame.Body(lines, hasHeader);
        var g, wd, ht := ReadVals(body, stof);
        height, width, data, headers, maxColumnWidth := ht, wd, g, labels, w;
        if Frame.UniformFile(lines, hasHeader) {
          RectangularLines(body, CommaCount(lines[0]), stof);
          SplitLength(lines[0]);
        }
      }
    }

    /** `InsertRow(row)`: a row of the wrong length is refused with
        `DataframeRowSizeMismatchException`. */
    method InsertRow(row: seq<Cell>) returns (o: Outcome<Error>)
      requires Valid()
      modifies this
      ensures Valid()
      ensures o.Fail? <==> |row| != old(width)
      ensures o.Fail? ==> o.error == RowSizeMismatch && unchanged(this)
      ensures o.Pass? ==> data == old(data) + [row] && height == old(height) + 1
      ensures width == old(width) && headers == old(headers)
      ensures hasHeaderRow == old(hasHeaderRow) && maxColumnWidth == old(maxColumnWidth)
    {
      if |row| != width {
        return Fail(RowSizeMismatch);
      }
      data := data + [row];
      height := height + 1;
      return Pass;
    }

    /** `operator[](index)`: a copy of one row, unchecked. */
    function RowAt(index: nat): (r: seq<Cell>)
      requires Valid() && index < height
      reads this
      ensures |r| == width && forall j :: 0 <= j < width ==> r[j] == Column(data, j)[index]
    {
      data[index]
    }
  }
}
