/** The earliest reader, class `CSV`: its constructor splits the header line
    like the later frames, keeps only the data tokens that a comma
    terminates, stores 0 for a token that does not parse, and adds one to
    the averaged width. */
module ReadCsv {
  import opened Wrappers
  import opened Text
  import opened Parse
  import Frame

  /** A data token's number, or 0 when it does not parse. */
  function ToNumber(token: string, stof: NumberParser): real
  {
    match stof(token)
    case None => 0.0
    case Some(x) => x
  }

  /** The values of one data line: one per comma, the text after the last
      comma dropped. */
  function TerminatedRow(line: string, stof: NumberParser): (row: seq<real>)
    ensures |row| == CommaCount(line)
    ensures |Split(line)| == |row| + 1
    ensures forall k :: 0 <= k < |row| ==> row[k] == ToNumber(Split(line)[k], stof)
  {
    SplitLength(line);
    var tokens := TerminatedTokens(line);
    seq(|tokens|, k requires 0 <= k < |tokens| => ToNumber(tokens[k], stof))
  }

  /** The number of commas in `lines`, the count `width_` runs up. */
  function CommaTotal(lines: seq<string>): nat
  {
    if lines == [] then 0
    else CommaTotal(lines[..|lines| - 1]) + CommaCount(lines[|lines| - 1])
  }

  /** The inner loop of the constructor: one line's values. */
  method ReadTerminatedLine(line: string, stof: NumberParser) returns (row: seq<real>)
    ensures row == TerminatedRow(line, stof)
  {
    var rest := line;
    row := [];
    ghost var tokens: seq<string> := [];
    while FindComma(rest).Some?
      invariant Split(line) == tokens + Split(rest)
      invariant |row| == |tokens| && forall k :: 0 <= k < |row| ==> row[k] == ToNumber(tokens[k], stof)
      decreases |rest|
    {
      var pos := FindComma(rest).value;
      var token := rest[..pos];
      SplitStep(tokens, rest, pos);
      row := row + [ToNumber(token, stof)];
      tokens := tokens + [token];
      rest := rest[pos + 1..];
    }
    assert Split(line) == tokens + [rest];
    assert TerminatedTokens(line) == tokens;
  }

  /** The data loop of the constructor: the rows and the comma total. */
  method ReadTerminatedLines(lines: seq<string>, stof: NumberParser) returns (data: seq<seq<real>>, count: nat)
    ensures |data| == |lines|
    ensures forall i :: 0 <= i < |lines| ==> data[i] == TerminatedRow(lines[i], stof)
    ensures count == CommaTotal(lines)
  {
    data := [];
    count := 0;
    for row := 0 to |lines|
      invariant |data| == row
      invariant forall i :: 0 <= i < row ==> data[i] == TerminatedRow(lines[i], stof)
      invariant count == CommaTotal(lines[..row])
    {
      var values := ReadTerminatedLine(lines[row], stof);
      assert lines[..row + 1][..row] == lines[..row];
      data := data + [values];
      count := count + |values|;
    }
    assert lines[..|lines|] == lines;
  }

  class CSV {
    var height: nat
    var width: nat
    var hasHeaderRow: bool
    var data: seq<seq<real>>
    var headers: seq<string>
    var maxColumnWidth: nat

    /** `None` is a path that does not open: the counters stay 0 and the
        header flag is left unset. */
    constructor FromFile(file: Option<seq<string>>, hasHeader: bool, stof: NumberParser)
      requires file.Some? ==> |file.value| > (if hasHeader then 1 else 0)
      ensures file.None? ==> height == 0 && width == 0 && maxColumnWidth == 0
                             && data == [] && headers == []
      ensures file.Some? ==>
                var lines := file.value;
                var body := Frame.Body(lines, hasHeader);
                && hasHeaderRow == hasHeader
                && headers == (if hasHeader then Split(lines[0]) else [])
                && maxColumnWidth == Frame.FileColumnWidth(lines, hasHeader)
                && |data| == |body|
                && (forall i :: 0 <= i < |body| ==> data[i] == TerminatedRow(body[i], stof))
                && height == |body|
                && width == CommaTotal(body) / |body| + 1
    {
      height, width, maxColumnWidth := 0, 0, 0;
      data, headers := [], [];
      if file.Some? {
        var lines := file.value;
        var labels, w := [], 0;
        if hasHeader {
          hasHeaderRow := true;
          labels, w := ReadHeaders(lines[0], 0);
        } else {
          hasHeaderRow := false;
        }
        if w <= 0 {
          w := DefaultColumnWidth;
        }
        var body := Frame.Body(lines, hasHeader);
        var rows, count := ReadTerminatedLines(body, stof);
        headers, maxColumnWidth := labels, w;
        data, height := rows, |body|;
        width := count / |body| + 1;
      }
    }
  }

  /** On lines with `commas` commas each, every row holds `commas` values
      while the width is `commas + 1`: the width names one column more than
      any row has. */
  lemma WidthExceedsRows(lines: seq<string>, commas: nat, stof: NumberParser)
    requires |lines| > 0
    requires forall i :: 0 <= i < |lines| ==> CommaCount(lines[i]) == commas
    ensures CommaTotal(lines) / |lines| + 1 == commas + 1
    ensures forall i :: 0 <= i < |lines| ==> |TerminatedRow(lines[i], stof)| == commas
  {
    UniformCommaTotal(lines, commas);
    ExactQuotient(commas, |lines|);
  }

  lemma {:induction false} UniformCommaTotal(lines: seq<string>, commas: nat)
    requires forall i :: 0 <= i < |lines| ==> CommaCount(lines[i]) == commas
    ensures CommaTotal(lines) == |lines| * commas
  {
    if lines != [] {
      UniformCommaTotal(lines[..|lines| - 1], commas);
    }
  }
}
