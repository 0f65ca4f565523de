/** The comma-splitting parser shared by the file constructors: the header
    line (`ReadHeaders`) and the data lines (`ReadVals`). The file is a
    sequence of lines and the number parser a parameter. */
module Parse {
  import opened Wrappers
  import opened Cells
  import opened Text
  import opened Tables

  /** Extra room added to a long header token's length. */
  const Padding: nat := 5
  /** The column width used when no header token widened it. */
  const DefaultColumnWidth: nat := 15

  /** The number parser (`std::stof`): `None` where it throws. */
  type NumberParser = string -> Option<real>

  /** The cell a data token becomes: its number, or NaN when it does not
      parse. */
  function ToCell(token: string, stof: NumberParser): Cell
  {
    match stof(token)
    case None => NaN
    case Some(x) => Val(x)
  }

  /** One cell per token. */
  function ToCells(tokens: seq<string>, stof: NumberParser): (row: seq<Cell>)
    ensures |row| == |tokens|
    ensures forall k :: 0 <= k < |tokens| ==> row[k] == ToCell(tokens[k], stof)
  {
    seq(|tokens|, k requires 0 <= k < |tokens| => ToCell(tokens[k], stof))
  }

  /** The cells of a line: one per token, the one after the last comma
      included. */
  function ParseLine(line: string, stof: NumberParser): (row: seq<Cell>)
    ensures |row| == CommaCount(line) + 1
  {
    SplitLength(line);
    ToCells(Split(line), stof)
  }

  /** The rows of the data lines. */
  function ParseGrid(lines: seq<string>, stof: NumberParser): (g: Grid)
    ensures |g| == |lines|
    ensures forall i :: 0 <= i < |lines| ==> g[i] == ParseLine(lines[i], stof)
  {
    seq(|lines|, i requires 0 <= i < |lines| => ParseLine(lines[i], stof))
  }

  /** The number of cells read from `lines`, the counter `width_` runs up
      before the final division. */
  function TokenTotal(lines: seq<string>): nat
  {
    if lines == [] then 0
    else TokenTotal(lines[..|lines| - 1]) + CommaCount(lines[|lines| - 1]) + 1
  }

  /** The column width after the header tokens that end in a comma: each one
      longer than the current width sets it to its length plus `Padding`. */
  function HeaderWidth(tokens: seq<string>, w: nat): nat
  {
    if tokens == [] then w
    else
      var v := HeaderWidth(tokens[..|tokens| - 1], w);
      var last := tokens[|tokens| - 1];
      if |last| > v then |last| + Padding else v
  }

  /** `HeaderWidth` never shrinks the width, covers every token it saw, and
      is the starting width or some token's length plus the padding. */
  lemma {:induction false} HeaderWidthBounds(tokens: seq<string>, w: nat)
    ensures HeaderWidth(tokens, w) >= w
    ensures forall k :: 0 <= k < |tokens| ==> HeaderWidth(tokens, w) >= |tokens[k]|
    ensures HeaderWidth(tokens, w) == w ||
            exists k :: 0 <= k < |tokens| && HeaderWidth(tokens, w) == |tokens[k]| + Padding
  {
    if tokens != [] {
      var init := tokens[..|tokens| - 1];
      HeaderWidthBounds(init, w);
      var v := HeaderWidth(init, w);
      forall k | 0 <= k < |tokens| ensures HeaderWidth(tokens, w) >= |tokens[k]| {
        if k < |tokens| - 1 {
          assert tokens[k] == init[k];
        }
      }
      if HeaderWidth(tokens, w) != w && HeaderWidth(tokens, w) == v {
        var k :| 0 <= k < |init| && v == |init[k]| + Padding;
        assert tokens[k] == init[k];
      }
    }
  }

  /** `ReadHeaders`: the header line split on commas, and the column width
      grown by every token that ends in a comma (the last token does not
      take part). */
  method ReadHeaders(line: string, maxColumnWidth: nat) returns (headers: seq<string>, w: nat)
    ensures headers == Split(line)
    ensures w == HeaderWidth(TerminatedTokens(line), maxColumnWidth)
  {
    var rest := line;
    headers := [];
    w := maxColumnWidth;
    while FindComma(rest).Some?
      invariant Split(line) == headers + Split(rest)
      invariant w == HeaderWidth(headers, maxColumnWidth)
      decreases |rest|
    {
      var pos := FindComma(rest).value;
      var token := rest[..pos];
      SplitStep(headers, rest, pos);
      assert (headers + [token])[..|headers|] == headers;
      headers := headers + [token];
      if |token| > w {
        w := |token| + Padding;
      }
      rest := rest[pos + 1..];
    }
    assert (headers + [rest])[..|headers|] == headers;
    headers := headers + [rest];
  }

  /** The inner loop of `ReadVals`: one line's cells. */
  method ReadLine(line: string, stof: NumberParser) returns (row: seq<Cell>)
    ensures row == ParseLine(line, stof)
  {
    var rest := line;
    row := [];
    ghost var tokens: seq<string> := [];
    while FindComma(rest).Some?
      invariant Split(line) == tokens + Split(rest)
      invariant row == ToCells(tokens, stof)
      decreases |rest|
    {
      var pos := FindComma(rest).value;
      var token := rest[..pos];
      SplitStep(tokens, rest, pos);
      row := row + [ToCell(token, stof)];
      tokens := tokens + [token];
      rest := rest[pos + 1..];
    }
    row := row + [ToCell(rest, stof)];
    tokens := tokens + [rest];
    assert Split(line) == tokens;
  }

  lemma SplitStep(tokens: seq<string>, rest: string, pos: nat)
    requires FindComma(rest) == Some(pos)
    ensures tokens + Split(rest) == (tokens + [rest[..pos]]) + Split(rest[pos + 1..])
  {
    SplitAt(rest, pos);
    Associate(tokens, [rest[..pos]], Split(rest[pos + 1..]));
  }

  lemma SplitAt(s: string, pos: nat)
    requires FindComma(s) == Some(pos)
    ensures Split(s) == [s[..pos]] + Split(s[pos + 1..])
  {
  }

  lemma Associate(a: seq<string>, b: seq<string>, c: seq<string>)
    ensures a + (b + c) == (a + b) + c
  {
  }

  /** `ReadVals`: every data line becomes a row, and the width is the total
      cell count divided by the number of rows. */
  method ReadVals(lines: seq<string>, stof: NumberParser) returns (data: Grid, width: nat, height: nat)
    requires |lines| > 0
    ensures data == ParseGrid(lines, stof)
    ensures height == |lines|
    ensures width == TokenTotal(lines) / |lines|
  {
    var count;
    data, count := ReadRows(lines, stof);
    height := |lines|;
    width := count / height;
  }

  /** The loop of `ReadVals`: the rows and the running cell count. */
  method ReadRows(lines: seq<string>, stof: NumberParser) returns (data: Grid, count: nat)
    ensures |data| == |lines|
    ensures forall i :: 0 <= i < |lines| ==> data[i] == ParseLine(lines[i], stof)
    ensures count == TokenTotal(lines)
  {
    data := [];
    count := 0;
    for row := 0 to |lines|
      invariant |data| == row
      invariant forall i :: 0 <= i < row ==> data[i] == ParseLine(lines[i], stof)
      invariant count == TokenTotal(lines[..row])
    {
      var cells := ReadLine(lines[row], stof);
      TokenTotalStep(lines, row);
      data := data + [cells];
      count := count + |cells|;
    }
    assert lines[..|lines|] == lines;
  }

  /** One more line adds its cells to the running total. */
  lemma TokenTotalStep(lines: seq<string>, row: nat)
    requires row < |lines|
    ensures TokenTotal(lines[..row + 1]) == TokenTotal(lines[..row]) + CommaCount(lines[row]) + 1
  {
    assert lines[..row + 1][..row] == lines[..row];
  }

  /** Lines with the same number of commas give a rectangular grid whose
      width is that number plus one. */
  lemma RectangularLines(lines: seq<string>, commas: nat, stof: NumberParser)
    requires |lines| > 0
    requires forall i :: 0 <= i < |lines| ==> CommaCount(lines[i]) == commas
    ensures TokenTotal(lines) / |lines| == commas + 1
    ensures Rectangular(ParseGrid(lines, stof), commas + 1)
  {
    UniformTotal(lines, commas);
    ExactQuotient(commas + 1, |lines|);
  }

  lemma ExactQuotient(q: nat, n: nat)
    requires n > 0
    ensures (n * q) / n == q
  {
    var d, m := (n * q) / n, (n * q) % n;
    assert n * q == n * d + m && 0 <= m < n;
    if d > q {
      MulMono(n, q + 1, d);
    } else if d < q {
      MulMono(n, d + 1, q);
    }
  }

  lemma MulMono(n: nat, a: int, b: int)
    requires a <= b
    ensures n * a <= n * b
  {
    assert n * b - n * a == n * (b - a);
  }

  lemma {:induction false} UniformTotal(lines: seq<string>, commas: nat)
    requires forall i :: 0 <= i < |lines| ==> CommaCount(lines[i]) == commas
    ensures TokenTotal(lines) == |lines| * (commas + 1)
  {
    if lines != [] {
      UniformTotal(lines[..|lines| - 1], commas);
    }
  }

  /** On ragged lines the averaged width fits no row exactly: a line with
      one comma followed by a line with none gives width 1, while the first
      row holds two cells. */
  lemma RaggedWidth(stof: NumberParser)
    ensures TokenTotal(["1,2", "3"]) / 2 == 1
    ensures |ParseGrid(["1,2", "3"], stof)[0]| == 2
  {
    var lines := ["1,2", "3"];
    assert lines[..1] == ["1,2"];
    assert ["1,2"][..0] == [];
    assert CommaCount("1,2") == 1 by {
      assert "1,2"[1..] == ",2";
      assert ",2"[1..] == "2";
      assert "2"[1..] == "";
    }
    assert CommaCount("3") == 0 by {
      assert "3"[1..] == "";
    }
  }
}
