/** A growable sequence of points (include/PointSequence.h, src/PointSequence.cpp). The
    storage starts at a given capacity and doubles when an `add` finds it full; capacity and
    size are 16-bit unsigned counters. */
module PointSequences {
  import opened Options
  import opened Text
  import opened Points
  import StringStreams

  /** The largest value a 16-bit unsigned counter holds. */
  const MaxCapacity: nat := 65535

  /** The capacity of a default-constructed sequence. */
  const DefaultCapacity: nat := 10

  datatype PointSequence = PointSequence(points: seq<Point>, capacity: nat)

  /** Size never exceeds capacity; capacity is positive and fits in 16 bits. */
  predicate Valid(s: PointSequence) {
    0 < s.capacity <= MaxCapacity && |s.points| <= s.capacity
  }

  /** The constructor: empty, with the requested capacity. */
  function New(initialCapacity: nat): (s: PointSequence)
    requires 0 < initialCapacity <= MaxCapacity
    ensures Valid(s) && |s.points| == 0 && s.capacity == initialCapacity
  {
    PointSequence([], initialCapacity)
  }

  /** `expand`: nothing to do while there is room; when full, doubles the capacity, keeping
      the points. Doubling past the 16-bit range is refused (see `ExpandAsWritten`). */
  function Expand(s: PointSequence): (r: (bool, PointSequence))
    requires Valid(s)
    ensures Valid(r.1) && r.1.points == s.points
    ensures |s.points| < s.capacity ==> r == (true, s)
    ensures |s.points| == s.capacity && 2 * s.capacity <= MaxCapacity ==> r.0 && r.1.capacity == 2 * s.capacity
    ensures |s.points| == s.capacity && 2 * s.capacity > MaxCapacity ==> !r.0 && r.1 == s
    ensures r.0 ==> |r.1.points| < r.1.capacity
  {
    if |s.points| < s.capacity then (true, s)
    else if 2 * s.capacity > MaxCapacity then (false, s)
    else (true, s.(capacity := 2 * s.capacity))
  }

  /** `add(point)`: appends at index `size`, expanding first when full. */
  function Add(s: PointSequence, p: Point): (r: (bool, PointSequence))
    requires Valid(s)
    ensures Valid(r.1)
    ensures r.0 <==> |s.points| < s.capacity || 2 * s.capacity <= MaxCapacity
    ensures r.0 ==> r.1.points == s.points + [p]
    ensures !r.0 ==> r.1 == s
    ensures |s.points| < s.capacity ==> r.1.capacity == s.capacity
    ensures |s.points| == s.capacity && r.0 ==> r.1.capacity == 2 * s.capacity
  {
    var (ok, t) := if |s.points| == s.capacity then Expand(s) else (true, s);
    if !ok then (false, s) else (true, t.(points := t.points + [p]))
  }

  /** `add(x, y)`: the same as adding `Point(x, y)`. */
  function AddXY(s: PointSequence, x: int, y: int): (r: (bool, PointSequence))
    requires Valid(s)
    ensures r == Add(s, Make(x, y))
    ensures r.0 ==> r.1.points == s.points + [Point(x, y)]
  {
    Add(s, Make(x, y))
  }

  /** `operator[]`: the stored point for an index below the size, the origin otherwise. */
  function At(s: PointSequence, index: nat): (p: Point)
    ensures index < |s.points| ==> p == s.points[index]
    ensures index >= |s.points| ==> p == Origin
  {
    if index < |s.points| then s.points[index] else Origin
  }

  /** `clear`: removes every point, keeping the capacity. */
  function Clear(s: PointSequence): (r: PointSequence)
    requires Valid(s)
    ensures Valid(r) && |r.points| == 0 && r.capacity == s.capacity
  {
    s.(points := [])
  }

  /** `add(other)`: adds other's points in order, stopping at the first that cannot be added.
      On failure the points added so far stay, and the storage is full and cannot double. */
  method AddAll(s: PointSequence, other: PointSequence) returns (ok: bool, r: PointSequence)
    requires Valid(s)
    ensures Valid(r) && r.capacity >= s.capacity
    ensures ok ==> r.points == s.points + other.points
    ensures !ok ==> |s.points| <= |r.points| < |s.points| + |other.points|
    ensures !ok ==> r.points == s.points + other.points[..|r.points| - |s.points|]
    ensures !ok ==> |r.points| == r.capacity && 2 * r.capacity > MaxCapacity
  {
    r := s;
    var i := 0;
    while i < |other.points|
      invariant 0 <= i <= |other.points|
      invariant Valid(r) && r.capacity >= s.capacity
      invariant r.points == s.points + other.points[..i]
    {
      var (added, t) := Add(r, At(other, i));
      if !added {
        return false, r;
      }
      assert other.points[..i + 1] == other.points[..i] + [other.points[i]];
      r := t;
      i := i + 1;
    }
    assert other.points[..i] == other.points;
    return true, r;
  }

  // ---------------------------------------------------------------------------
  // Text form
  // ---------------------------------------------------------------------------

  /** The text forms of the points, in order. */
  function Strings(points: seq<Point>): (parts: seq<string>)
    ensures |parts| == |points|
  {
    seq(|points|, i requires 0 <= i < |points| => Points.ToString(points[i]))
  }

  /** The text form: "[" then the points' "(x,y)" forms separated by "," then "]". */
  function Render(points: seq<Point>): (text: string)
    ensures IsAscii(text)
    ensures |text| >= 2 && text[0] == '[' && text[|text| - 1] == ']'
    ensures text == "[]" <==> |points| == 0
  {
    JoinAscii(Strings(points), ',');
    "[" + Join(Strings(points), ',') + "]"
  }

  /** `write_to_stream`: the text printed to the stream — "[", each point followed by ","
      except the last, then "]". */
  method WriteToStream(s: PointSequence) returns (out: string)
    ensures out == Render(s.points)
  {
    var n := |s.points|;
    ghost var parts := Strings(s.points);
    out := "[";
    JoinPrefixNone(parts, ',');
    var i := 0;
    while i < n
      invariant 0 <= i <= n
      invariant out == "[" + JoinPrefix(parts, ',', i)
    {
      var text := Points.ToString(s.points[i]);
      assert text == parts[i];
      JoinPrefixPrint("[", parts, ',', i);
      if i < n - 1 {
        out := out + text + ",";
      } else {
        out := out + text;
      }
      i := i + 1;
    }
    JoinPrefixAll(parts, ',');
    out := out + "]";
  }

  /** `operator String`: the text written to a fresh string stream. */
  function ToString(s: PointSequence): (text: string)
    ensures text == Render(s.points)
  {
    StringStreams.AsciiIsBytes(Render(s.points));
    StringStreams.ToString(StringStreams.Print(StringStreams.New(), Render(s.points)))
  }

  /** Reads one or more points separated by "," and closed by "]" at the very end. */
  function ParseElements(text: string): Option<seq<Point>>
    decreases |text|
  {
    match ParsePoint(text)
    case None => None
    case Some((p, rest)) =>
      if rest == "]" then Some([p])
      else if |rest| > 0 && rest[0] == ',' then
        match ParseElements(rest[1..])
        case None => None
        case Some(ps) => Some([p] + ps)
      else None
  }

  /** Reads the text form of a point sequence. */
  function Parse(text: string): Option<seq<Point>>
  {
    if text == "[]" then Some([])
    else if |text| > 0 && text[0] == '[' then ParseElements(text[1..])
    else None
  }

  /** Each text in `parts` reads back, whatever follows it, as the point at the same index. */
  ghost predicate ReadsBackAs(parts: seq<string>, points: seq<Point>) {
    && |parts| == |points|
    && forall i, rest :: 0 <= i < |parts| ==> ParsePoint(parts[i] + rest) == Some((points[i], rest))
  }

  lemma ReadsBackHead(parts: seq<string>, points: seq<Point>, rest: string)
    requires |parts| > 0 && ReadsBackAs(parts, points)
    ensures ParsePoint(parts[0] + rest) == Some((points[0], rest))
  {
  }

  lemma ReadsBackTail(parts: seq<string>, points: seq<Point>)
    requires |parts| > 0 && ReadsBackAs(parts, points)
    ensures ReadsBackAs(parts[1..], points[1..])
  {
    forall i, rest | 0 <= i < |parts| - 1
      ensures ParsePoint(parts[1..][i] + rest) == Some((points[1..][i], rest))
    {
      assert ParsePoint(parts[i + 1] + rest) == Some((points[i + 1], rest));
    }
  }

  lemma ParseElementsCons(head: string, p: Point, tail: string, ps: seq<Point>)
    requires ParsePoint(head + ("," + tail)) == Some((p, "," + tail))
    requires ParseElements(tail) == Some(ps)
    ensures ParseElements(head + ("," + tail)) == Some([p] + ps)
  {
    assert ("," + tail)[1..] == tail;
  }

  lemma {:induction false} ParseElementsOfJoin(parts: seq<string>, points: seq<Point>)
    requires |parts| > 0 && ReadsBackAs(parts, points)
    ensures ParseElements(Join(parts, ',') + "]") == Some(points)
    decreases |parts|
  {
    if |parts| == 1 {
      ReadsBackHead(parts, points, "]");
      assert Join(parts, ',') == parts[0];
      assert [points[0]] == points;
    } else {
      var tail := Join(parts[1..], ',') + "]";
      JoinCons(parts, ',', "]");
      ReadsBackHead(parts, points, "," + tail);
      ReadsBackTail(parts, points);
      ParseElementsOfJoin(parts[1..], points[1..]);
      ParseElementsCons(parts[0], points[0], tail, points[1..]);
      HeadTail(points);
    }
  }

  lemma StringsReadBack(points: seq<Point>)
    ensures ReadsBackAs(Strings(points), points)
  {
    var parts := Strings(points);
    forall i, rest | 0 <= i < |parts|
      ensures ParsePoint(parts[i] + rest) == Some((points[i], rest))
    {
      ParsePointRoundTrip(points[i], rest);
    }
  }

  lemma RenderAfterBracket(points: seq<Point>)
    ensures Render(points)[1..] == Join(Strings(points), ',') + "]"
  {
  }

  /** The text form parses back to the same points, in order. */
  lemma RenderRoundTrip(points: seq<Point>)
    ensures Parse(Render(points)) == Some(points)
  {
    if |points| > 0 {
      StringsReadBack(points);
      RenderAfterBracket(points);
      ParseElementsOfJoin(Strings(points), points);
    }
  }

  /** The unit test: three adds to a default sequence keep size 3 and capacity 10. */
  lemma DefaultSequenceExample()
    ensures var s0 := New(DefaultCapacity);
            var s1 := Add(s0, Point(0, 0)).1;
            var s2 := Add(s1, Point(1, 0)).1;
            var s3 := Add(s2, Point(1, 1)).1;
            && |s0.points| == 0 && s0.capacity == 10
            && s3 == PointSequence([Point(0, 0), Point(1, 0), Point(1, 1)], 10)
  {
    var s1 := Add(New(DefaultCapacity), Point(0, 0)).1;
    assert s1 == PointSequence([Point(0, 0)], 10);
    var s2 := Add(s1, Point(1, 0)).1;
    assert s2 == PointSequence([Point(0, 0), Point(1, 0)], 10);
  }

  lemma ExampleStrings()
    ensures Strings([Point(0, 0), Point(1, 0), Point(1, 1)]) == ["(0,0)", "(1,0)", "(1,1)"]
  {
    ToStringExamples();
    assert Points.ToString(Point(1, 1)) == "(1,1)";
  }

  /** The unit test's expected text for those three points. */
  lemma RenderExample()
    ensures Render([Point(0, 0), Point(1, 0), Point(1, 1)]) == "[(0,0),(1,0),(1,1)]"
  {
    ExampleJoin();
    assert "[" + "(0,0),(1,0),(1,1)" + "]" == "[(0,0),(1,0),(1,1)]";
  }

  lemma ExampleJoin()
    ensures Join(Strings([Point(0, 0), Point(1, 0), Point(1, 1)]), ',') == "(0,0),(1,0),(1,1)"
  {
    ExampleStrings();
    JoinThree("(0,0)", "(1,0)", "(1,1)");
    assert "(0,0)" + "," + "(1,0)" + "," + "(1,1)" == "(0,0),(1,0),(1,1)";
  }

  // ---------------------------------------------------------------------------
  // Capacity doubling as written: the 16-bit capacity wraps
  // ---------------------------------------------------------------------------

  /** `expand` as written: the doubled capacity is stored in a 16-bit counter. */
  function ExpandAsWritten(s: PointSequence): (r: (bool, PointSequence))
    requires Valid(s)
    ensures r.0 && r.1.points == s.points
    ensures |s.points| == s.capacity ==> r.1.capacity == (2 * s.capacity) % (MaxCapacity + 1)
  {
    if |s.points| < s.capacity then (true, s)
    else (true, s.(capacity := (2 * s.capacity) % (MaxCapacity + 1)))
  }

  /** `add(point)` as written, on top of `ExpandAsWritten`. */
  function AddAsWritten(s: PointSequence, p: Point): (r: (bool, PointSequence))
    requires Valid(s)
    ensures r.0 && r.1.points == s.points + [p]
    ensures |s.points| == s.capacity ==> r.1.capacity == (2 * s.capacity) % (MaxCapacity + 1)
  {
    var t := if |s.points| == s.capacity then ExpandAsWritten(s).1 else s;
    (true, t.(points := t.points + [p]))
  }

  /** A full sequence of capacity 32768 doubles to 65536, stored as 0: afterwards the size
      exceeds the capacity. */
  lemma AddAsWrittenBreaksInvariant(p: Point)
    ensures var s := PointSequence(seq(32768, _ => Origin), 32768);
            Valid(s) && AddAsWritten(s, p).1.capacity == 0 && !Valid(AddAsWritten(s, p).1)
  {
  }

  /** The corrected `add` keeps the invariant on the same input, refusing the point. */
  lemma AddKeepsInvariantAtWrap(p: Point)
    ensures var s := PointSequence(seq(32768, _ => Origin), 32768);
            Valid(s) && !Add(s, p).0 && Add(s, p).1 == s
  {
  }
}
