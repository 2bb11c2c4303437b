/** Text helpers shared by the serialisers: decimal rendering of integers (as the Arduino
    `String` class does it), joining and splitting on a separator, and the parsers that
    invert the renderings. */
module Text {
  import opened Options

  // ---------------------------------------------------------------------------
  // Decimal digits
  // ---------------------------------------------------------------------------

  predicate IsDigit(c: char) {
    '0' <= c <= '9'
  }

  predicate AllDigits(s: string) {
    forall i :: 0 <= i < |s| ==> IsDigit(s[i])
  }

  /** Every character is a 7-bit ASCII character. */
  predicate IsAscii(s: string) {
    forall c | c in s :: c as int < 128
  }

  function DigitChar(d: nat): (c: char)
    requires d < 10
    ensures IsDigit(c)
  {
    ('0' as int + d) as char
  }

  function DigitValue(c: char): (d: nat)
    requires IsDigit(c)
    ensures d < 10
  {
    c as int - '0' as int
  }

  /** Decimal rendering of a natural number, most significant digit first, no leading zeros. */
  function NatToString(n: nat): (s: string)
    ensures |s| > 0 && AllDigits(s)
    ensures |s| > 1 ==> s[0] != '0'
    decreases n
  {
    if n < 10 then [DigitChar(n)] else NatToString(n / 10) + [DigitChar(n % 10)]
  }

  /** Decimal rendering of an integer: a leading '-' for negative values. */
  function IntToString(i: int): (s: string)
    ensures |s| > 0 && IsAscii(s)
    ensures s[0] == '-' <==> i < 0
  {
    if i < 0 then "-" + NatToString(-i) else NatToString(i)
  }

  /** The number denoted by a string of decimal digits. */
  function DigitsValue(s: string): nat
    requires AllDigits(s)
  {
    if |s| == 0 then 0 else DigitsValue(s[..|s| - 1]) * 10 + DigitValue(s[|s| - 1])
  }

  /** Length of the run of digits at the start of `s`. */
  function SpanDigits(s: string): (k: nat)
    ensures k <= |s|
    ensures AllDigits(s[..k])
    ensures k < |s| ==> !IsDigit(s[k])
  {
    if |s| == 0 || !IsDigit(s[0]) then 0 else 1 + SpanDigits(s[1..])
  }

  /** Reads an optional '-' followed by at least one digit; returns the value and the rest. */
  function ParseInt(s: string): (r: Option<(int, string)>)
    ensures r.Some? ==> |r.value.1| < |s|
  {
    if |s| > 0 && s[0] == '-' then
      var k := SpanDigits(s[1..]);
      if k == 0 then None else Some((-(DigitsValue(s[1..][..k]) as int), s[1..][k..]))
    else
      var k := SpanDigits(s);
      if k == 0 then None else Some((DigitsValue(s[..k]), s[k..]))
  }

  lemma {:induction false} DigitsValueOfNatToString(n: nat)
    ensures DigitsValue(NatToString(n)) == n
    decreases n
  {
    if n >= 10 {
      var s := NatToString(n);
      var p := NatToString(n / 10);
      assert s == p + [DigitChar(n % 10)];
      assert s[..|s| - 1] == p;
      DigitsValueOfNatToString(n / 10);
    }
  }

  lemma {:induction false} SpanDigitsOfPrefix(a: string, rest: string)
    requires AllDigits(a)
    requires |rest| == 0 || !IsDigit(rest[0])
    ensures SpanDigits(a + rest) == |a|
    decreases |a|
  {
    if |a| > 0 {
      assert (a + rest)[1..] == a[1..] + rest;
      SpanDigitsOfPrefix(a[1..], rest);
    } else {
      assert a + rest == rest;
    }
  }

  /** A digit run followed by a non-digit splits exactly at the end of the run. */
  lemma DigitRunPrefix(d: string, rest: string)
    requires AllDigits(d)
    requires |rest| == 0 || !IsDigit(rest[0])
    ensures SpanDigits(d + rest) == |d|
    ensures (d + rest)[..|d|] == d && (d + rest)[|d|..] == rest
  {
    SpanDigitsOfPrefix(d, rest);
  }

  lemma ParseNatRoundTrip(n: nat, rest: string)
    requires |rest| == 0 || !IsDigit(rest[0])
    ensures ParseInt(NatToString(n) + rest) == Some((n, rest))
  {
    var d := NatToString(n);
    DigitRunPrefix(d, rest);
    DigitsValueOfNatToString(n);
  }

  lemma ParseNegRoundTrip(n: nat, rest: string)
    requires n > 0
    requires |rest| == 0 || !IsDigit(rest[0])
    ensures ParseInt("-" + NatToString(n) + rest) == Some((-(n as int), rest))
  {
    var d := NatToString(n);
    var s := "-" + d + rest;
    assert s[1..] == d + rest;
    DigitRunPrefix(d, rest);
    DigitsValueOfNatToString(n);
  }

  /** Parsing the rendering of `n` recovers `n` and leaves exactly what followed it,
      provided what follows does not continue the digit run. */
  lemma ParseIntRoundTrip(n: int, rest: string)
    requires |rest| == 0 || !IsDigit(rest[0])
    ensures ParseInt(IntToString(n) + rest) == Some((n, rest))
  {
    if n < 0 {
      ParseNegRoundTrip(-n, rest);
    } else {
      ParseNatRoundTrip(n, rest);
    }
  }

  // ---------------------------------------------------------------------------
  // Joining and splitting on a separator character
  // ---------------------------------------------------------------------------

  /** The parts with `sep` between consecutive parts (none before the first or after the last). */
  function Join(parts: seq<string>, sep: char): string
  {
    if |parts| == 0 then ""
    else if |parts| == 1 then parts[0]
    else parts[0] + [sep] + Join(parts[1..], sep)
  }

  lemma {:induction false} JoinAscii(parts: seq<string>, sep: char)
    requires sep as int < 128
    requires forall i :: 0 <= i < |parts| ==> IsAscii(parts[i])
    ensures IsAscii(Join(parts, sep))
    decreases |parts|
  {
    if |parts| > 1 {
      JoinAscii(parts[1..], sep);
    }
  }

  /** A join of three parts. */
  lemma JoinThree(a: string, b: string, c: string)
    ensures Join([a, b, c], ',') == a + "," + b + "," + c
  {
    assert [a, b, c][1..] == [b, c];
    assert [b, c][1..] == [c];
    assert Join([b, c], ',') == b + [','] + c;
    assert Join([a, b, c], ',') == a + [','] + (b + [','] + c);
    ConcatAssociative(a, [','], b, [','] + c);
  }

  lemma ConcatAssociative(a: string, b: string, c: string, d: string)
    ensures a + b + c + d == a + (b + (c + d))
  {
  }

  /** A join of two or more parts, followed by a closing text, split after the first part. */
  lemma JoinCons(parts: seq<string>, sep: char, close: string)
    requires |parts| > 1
    ensures Join(parts, sep) + close == parts[0] + ([sep] + (Join(parts[1..], sep) + close))
  {
    ConcatAssociative(parts[0], [sep], Join(parts[1..], sep), close);
  }

  lemma HeadTail<T>(xs: seq<T>)
    requires |xs| > 0
    ensures [xs[0]] + xs[1..] == xs
  {
  }

  /** Position of the first `c` in `s`, or `|s|` when there is none. */
  function IndexOf(s: string, c: char): (i: nat)
    ensures i <= |s|
    ensures i < |s| ==> s[i] == c
    ensures forall k :: 0 <= k < i ==> s[k] != c
  {
    if |s| == 0 then 0 else if s[0] == c then 0 else 1 + IndexOf(s[1..], c)
  }

  /** The maximal pieces of `s` between occurrences of `sep`; always at least one piece. */
  function Split(s: string, sep: char): (parts: seq<string>)
    ensures |parts| > 0
    decreases |s|
  {
    var i := IndexOf(s, sep);
    if i == |s| then [s] else [s[..i]] + Split(s[i + 1..], sep)
  }

  /** Appending one more part to a non-empty join adds the separator and the part. */
  lemma {:induction false} JoinSnoc(parts: seq<string>, last: string, sep: char)
    ensures Join(parts + [last], sep) == if |parts| == 0 then last else Join(parts, sep) + [sep] + last
    decreases |parts|
  {
    if |parts| == 0 {
      assert parts + [last] == [last];
    } else if |parts| == 1 {
      assert (parts + [last])[1..] == [last];
    } else {
      assert (parts + [last])[1..] == parts[1..] + [last];
      JoinSnoc(parts[1..], last, sep);
    }
  }

  /** What a loop that prints `parts[k]` followed by `sep` unless `k` is the last index has
      printed after `i` parts. */
  function JoinPrefix(parts: seq<string>, sep: char, i: nat): string
    requires i <= |parts|
  {
    Join(parts[..i], sep) + (if 0 < i < |parts| then [sep] else "")
  }

  lemma JoinPrefixNone(parts: seq<string>, sep: char)
    ensures JoinPrefix(parts, sep, 0) == ""
  {
    assert parts[..0] == [];
  }

  lemma JoinPrefixStep(parts: seq<string>, sep: char, i: nat)
    requires i < |parts|
    ensures JoinPrefix(parts, sep, i) + parts[i] + (if i < |parts| - 1 then [sep] else "")
            == JoinPrefix(parts, sep, i + 1)
  {
    assert parts[..i + 1] == parts[..i] + [parts[i]];
    JoinSnoc(parts[..i], parts[i], sep);
    if i == 0 {
      assert JoinPrefix(parts, sep, 0) == "";
    } else {
      assert JoinPrefix(parts, sep, i) == Join(parts[..i], sep) + [sep];
    }
  }

  /** One step of such a loop, after some fixed text `prefix` printed before it. */
  lemma JoinPrefixPrint(prefix: string, parts: seq<string>, sep: char, i: nat)
    requires i < |parts|
    ensures i < |parts| - 1 ==>
      prefix + JoinPrefix(parts, sep, i) + parts[i] + [sep] == prefix + JoinPrefix(parts, sep, i + 1)
    ensures i == |parts| - 1 ==>
      prefix + JoinPrefix(parts, sep, i) + parts[i] == prefix + JoinPrefix(parts, sep, i + 1)
  {
    JoinPrefixStep(parts, sep, i);
    if i < |parts| - 1 {
      ConcatAssociative(prefix, JoinPrefix(parts, sep, i), parts[i], [sep]);
    } else {
      ConcatAssociative(prefix, JoinPrefix(parts, sep, i), parts[i], "");
    }
  }

  lemma JoinPrefixAll(parts: seq<string>, sep: char)
    ensures JoinPrefix(parts, sep, |parts|) == Join(parts, sep)
  {
    assert parts[..|parts|] == parts;
  }

  lemma IndexOfAfterPrefix(a: string, c: char, b: string)
    requires c !in a
    ensures IndexOf(a + [c] + b, c) == |a|
  {
    var s := a + [c] + b;
    var i := IndexOf(s, c);
    assert s[|a|] == c;
    assert forall k :: 0 <= k < |a| ==> s[k] == a[k];
  }

  lemma IndexOfAbsent(s: string, c: char)
    requires c !in s
    ensures IndexOf(s, c) == |s|
  {
  }

  /** Splitting a join recovers the parts, as long as no part contains the separator. */
  lemma {:induction false} SplitJoin(parts: seq<string>, sep: char)
    requires |parts| > 0
    requires forall i :: 0 <= i < |parts| ==> sep !in parts[i]
    ensures Split(Join(parts, sep), sep) == parts
    decreases |parts|
  {
    if |parts| == 1 {
      IndexOfAbsent(parts[0], sep);
    } else {
      var s := Join(parts, sep);
      var tail := Join(parts[1..], sep);
      assert s == parts[0] + [sep] + tail;
      IndexOfAfterPrefix(parts[0], sep, tail);
      assert s[..|parts[0]|] == parts[0];
      assert s[|parts[0]| + 1..] == tail;
      SplitJoin(parts[1..], sep);
      assert [parts[0]] + parts[1..] == parts;
    }
  }

  // ---------------------------------------------------------------------------
  // Lines
  // ---------------------------------------------------------------------------

  /** The line terminator, modelled as a single "\n"; Arduino's `println` writes "\r\n". */
  const NewLine: char := '\n'

  /** Every line followed by the terminator. */
  function Lines(lines: seq<string>): string
  {
    if |lines| == 0 then "" else lines[0] + [NewLine] + Lines(lines[1..])
  }

  lemma {:induction false} LinesSnoc(lines: seq<string>, last: string)
    ensures Lines(lines + [last]) == Lines(lines) + last + [NewLine]
    decreases |lines|
  {
    if |lines| == 0 {
      assert lines + [last] == [last];
    } else {
      assert (lines + [last])[1..] == lines[1..] + [last];
      LinesSnoc(lines[1..], last);
    }
  }

  /** Terminated lines are the lines joined by the terminator followed by one empty part. */
  lemma {:induction false} LinesAsJoin(lines: seq<string>)
    ensures Lines(lines) == Join(lines + [""], NewLine)
    decreases |lines|
  {
    if |lines| > 0 {
      assert (lines + [""])[1..] == lines[1..] + [""];
      LinesAsJoin(lines[1..]);
    }
  }

  /** Splitting terminated lines on the terminator gives back the lines and a final empty piece. */
  lemma SplitLines(lines: seq<string>)
    requires forall i :: 0 <= i < |lines| ==> NewLine !in lines[i]
    ensures Split(Lines(lines), NewLine) == lines + [""]
  {
    LinesAsJoin(lines);
    SplitJoin(lines + [""], NewLine);
  }
}
