/** String handling shared by the CSV readers: splitting a line on ','
    exactly as the `find(",")` / `substr` / `erase` loops do, and the
    decimal rendering of `std::to_string`. */
module Text {
  import opened Wrappers

  /** Position of the first ',' in `s`, as `std::string::find(",")`. */
  function FindComma(s: string): (r: Option<nat>)
    ensures r.None? <==> ',' !in s
    ensures r.Some? ==> r.value < |s| && s[r.value] == ',' && ',' !in s[..r.value]
  {
    if s == [] then None
    else if s[0] == ',' then Some(0)
    else match FindComma(s[1..])
      case None => None
      case Some(p) => Some(p + 1)
  }

  /** Number of ',' characters in `s`. */
  function CommaCount(s: string): nat
  {
    if s == [] then 0 else (if s[0] == ',' then 1 else 0) + CommaCount(s[1..])
  }

  /** The tokens of `s` between commas, the text after the last comma
      included. */
  function Split(s: string): seq<string>
    decreases |s|
  {
    match FindComma(s)
    case None => [s]
    case Some(p) => [s[..p]] + Split(s[p + 1..])
  }

  /** Tokens glued back together with ',' between them. */
  function Join(parts: seq<string>): string
  {
    if |parts| <= 1 then (if parts == [] then "" else parts[0])
    else parts[0] + "," + Join(parts[1..])
  }

  /** The tokens that are followed by a comma: every token but the last. */
  function TerminatedTokens(s: string): seq<string>
  {
    var parts := Split(s);
    parts[..|parts| - 1]
  }

  lemma {:induction false} CommaCountSplitAt(s: string, p: nat)
    requires p < |s| && s[p] == ',' && ',' !in s[..p]
    ensures CommaCount(s) == 1 + CommaCount(s[p + 1..])
  {
    if p > 0 {
      assert s[0] != ',' by { assert s[0] == s[..p][0]; }
      assert s[1..][p - 1] == ',';
      assert s[1..][..p - 1] == s[..p][1..];
      CommaCountSplitAt(s[1..], p - 1);
      assert s[1..][p - 1 + 1..] == s[p + 1..];
    }
  }

  lemma {:induction false} CommaCountNone(s: string)
    requires ',' !in s
    ensures CommaCount(s) == 0
  {
    if s != [] {
      assert s[0] in s;
      assert forall c :: c in s[1..] ==> c in s;
      CommaCountNone(s[1..]);
    }
  }

  /** `header_row` splits into one token per comma plus the last one. */
  lemma {:induction false} SplitLength(s: string)
    ensures |Split(s)| == CommaCount(s) + 1
    decreases |s|
  {
    match FindComma(s)
    case None => CommaCountNone(s);
    case Some(p) =>
      CommaCountSplitAt(s, p);
      SplitLength(s[p + 1..]);
  }

  /** No token contains the delimiter. */
  lemma {:induction false} SplitTokensCommaFree(s: string)
    ensures forall k :: 0 <= k < |Split(s)| ==> ',' !in Split(s)[k]
    decreases |s|
  {
    match FindComma(s)
    case None =>
    case Some(p) =>
      SplitTokensCommaFree(s[p + 1..]);
      assert Split(s) == [s[..p]] + Split(s[p + 1..]);
  }

  /** Splitting loses nothing: the line is the tokens joined by ','. */
  lemma {:induction false} JoinSplit(s: string)
    ensures Join(Split(s)) == s
    decreases |s|
  {
    match FindComma(s)
    case None =>
    case Some(p) =>
      var rest := s[p + 1..];
      var parts := Split(s);
      JoinSplit(rest);
      SplitLength(rest);
      assert parts == [s[..p]] + Split(rest);
      assert |parts| >= 2;
      assert parts[1..] == Split(rest);
      calc {
        Join(parts);
        parts[0] + "," + Join(parts[1..]);
        s[..p] + "," + rest;
        { assert s == s[..p] + [s[p]] + rest; }
        s;
      }
  }

  /** Splitting is the inverse of joining comma-free tokens. */
  lemma {:induction false} SplitJoin(parts: seq<string>)
    requires |parts| > 0
    requires forall k :: 0 <= k < |parts| ==> ',' !in parts[k]
    ensures Split(Join(parts)) == parts
  {
    if |parts| == 1 {
      assert FindComma(parts[0]).None?;
    } else {
      TailCommaFree(parts);
      SplitJoin(parts[1..]);
      SplitJoinStep(parts);
    }
  }

  /** Splitting a join peels off its first token. */
  lemma SplitJoinStep(parts: seq<string>)
    requires |parts| > 1 && ',' !in parts[0]
    requires Split(Join(parts[1..])) == parts[1..]
    ensures Split(Join(parts)) == parts
  {
    var s := Join(parts);
    JoinFront(parts);
    FindFirst(s, |parts[0]|);
    assert Split(s) == [parts[0]] + Split(Join(parts[1..]));
    assert parts == [parts[0]] + parts[1..];
  }

  /** The first token of a join, then its comma, then the join of the rest. */
  lemma JoinFront(parts: seq<string>)
    requires |parts| > 1 && ',' !in parts[0]
    ensures var s, p := Join(parts), |parts[0]|;
            p < |s| && s[..p] == parts[0] && s[p] == ',' && ',' !in s[..p]
            && s[p + 1..] == Join(parts[1..])
  {
    var s, p := Join(parts), |parts[0]|;
    assert s == parts[0] + "," + Join(parts[1..]);
    assert s[..p] == parts[0];
    assert s[p + 1..] == Join(parts[1..]);
  }

  lemma TailCommaFree(parts: seq<string>)
    requires |parts| > 0
    requires forall k :: 0 <= k < |parts| ==> ',' !in parts[k]
    ensures forall k :: 0 <= k < |parts[1..]| ==> ',' !in parts[1..][k]
  {
    forall k | 0 <= k < |parts[1..]| ensures ',' !in parts[1..][k] {
      assert parts[1..][k] == parts[k + 1];
    }
  }

  lemma {:induction false} FindFirst(s: string, p: nat)
    requires p < |s| && s[p] == ',' && ',' !in s[..p]
    ensures FindComma(s) == Some(p)
  {
    assert s[p] in s;
  }

  /** Decimal digits of `n`, as `std::to_string` writes an unsigned value. */
  function NatToString(n: nat): (s: string)
    ensures |s| > 0
    ensures forall k :: 0 <= k < |s| ==> '0' <= s[k] <= '9'
  {
    if n < 10 then [Digit(n)] else NatToString(n / 10) + [Digit(n % 10)]
  }

  function Digit(d: nat): (c: char)
    requires d < 10
    ensures '0' <= c <= '9'
  {
    ['0', '1', '2', '3', '4', '5', '6', '7', '8', '9'][d]
  }

  /** `std::to_string` of a signed integer. */
  function IntToString(i: int): (s: string)
    ensures i < 0 <==> (|s| > 0 && s[0] == '-')
  {
    if i < 0 then "-" + NatToString(-i) else NatToString(i)
  }

  /** Reading decimal digits back. */
  function DigitsValue(s: string): int
  {
    if s == [] then 0 else DigitsValue(s[..|s| - 1]) * 10 + ((s[|s| - 1] as int) - ('0' as int))
  }

  /** The decimal rendering reads back as the number it came from. */
  lemma {:induction false} NatToStringRoundTrip(n: nat)
    ensures DigitsValue(NatToString(n)) == n
  {
    var s := NatToString(n);
    if n < 10 {
      assert s[..|s| - 1] == [];
      assert Digit(n) as int - '0' as int == n;
    } else {
      NatToStringRoundTrip(n / 10);
      assert s[..|s| - 1] == NatToString(n / 10);
      assert Digit(n % 10) as int - '0' as int == n % 10;
    }
  }
}
