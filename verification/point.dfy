/** An integer point in the plane with componentwise equality and addition and a
    "(x,y)" text form (include/Point.h). */
module Points {
  import opened Options
  import opened Text

  datatype Point = Point(x: int, y: int)

  /** The default-constructed point. */
  const Origin: Point := Point(0, 0)

  /** `Point(x, y)`: a point whose coordinates read back as given. */
  function Make(x: int, y: int): (p: Point)
    ensures p.x == x && p.y == y
    ensures p == Origin <==> x == 0 && y == 0
  {
    Point(x, y)
  }

  /** `operator==`: coordinatewise comparison, which is exactly equality of points. */
  function Equal(p: Point, q: Point): (r: bool)
    ensures r <==> p == q
  {
    p.x == q.x && p.y == q.y
  }

  /** `operator!=`: the negation of `operator==`. */
  function NotEqual(p: Point, q: Point): (r: bool)
    ensures r <==> p != q
    ensures r == !Equal(p, q)
  {
    !Equal(p, q)
  }

  /** `operator+`: componentwise sum. */
  function Add(p: Point, q: Point): (r: Point)
    ensures r.x == p.x + q.x && r.y == p.y + q.y
  {
    Point(p.x + q.x, p.y + q.y)
  }

  lemma AddCommutative(p: Point, q: Point)
    ensures Add(p, q) == Add(q, p)
  {
  }

  lemma AddAssociative(p: Point, q: Point, s: Point)
    ensures Add(Add(p, q), s) == Add(p, Add(q, s))
  {
  }

  lemma AddOriginIdentity(p: Point)
    ensures Add(p, Origin) == p && Add(Origin, p) == p
  {
  }

  /** The three sums checked by the unit tests. */
  lemma AddExamples()
    ensures Add(Point(0, 0), Point(1, 0)) == Point(1, 0)
    ensures Add(Point(0, 0), Point(1, 1)) == Point(1, 1)
    ensures Add(Point(1, 0), Point(1, 1)) == Point(2, 1)
    ensures NotEqual(Point(0, 0), Point(1, 0)) && !Equal(Point(1, 0), Point(1, 1))
  {
  }

  /** `operator String`: "(" x "," y ")" with decimal coordinates. */
  function ToString(p: Point): (s: string)
    ensures |s| >= 5 && s[0] == '(' && s[|s| - 1] == ')'
    ensures IsAscii(s)
  {
    "(" + IntToString(p.x) + "," + IntToString(p.y) + ")"
  }

  /** Reads a point in the form written by `ToString`; returns it and the remaining text. */
  function ParsePoint(s: string): (r: Option<(Point, string)>)
    ensures r.Some? ==> |r.value.1| < |s|
  {
    if |s| == 0 || s[0] != '(' then None
    else match ParseInt(s[1..])
      case None => None
      case Some((x, r1)) =>
        if |r1| == 0 || r1[0] != ',' then None
        else match ParseInt(r1[1..])
          case None => None
          case Some((y, r2)) =>
            if |r2| == 0 || r2[0] != ')' then None
            else Some((Point(x, y), r2[1..]))
  }

  /** The text form of a point parses back to the same point, whatever follows it. */
  lemma ParsePointRoundTrip(p: Point, rest: string)
    ensures ParsePoint(ToString(p) + rest) == Some((p, rest))
  {
    var r1 := "," + IntToString(p.y) + ")" + rest;
    TextAfterOpening(p, rest);
    ParseIntRoundTrip(p.x, r1);
    TextAfterComma(p.y, rest);
    ParseIntRoundTrip(p.y, ")" + rest);
    assert (")" + rest)[1..] == rest;
  }

  /** After the opening bracket come the x coordinate and the rest of the form. */
  lemma TextAfterOpening(p: Point, rest: string)
    ensures (ToString(p) + rest)[0] == '('
    ensures (ToString(p) + rest)[1..] == IntToString(p.x) + ("," + IntToString(p.y) + ")" + rest)
  {
    var xs := IntToString(p.x);
    var ys := IntToString(p.y);
    assert ToString(p) + rest == "(" + (xs + ("," + ys + ")" + rest));
  }

  /** After the comma come the y coordinate and the closing bracket. */
  lemma TextAfterComma(y: int, rest: string)
    ensures ("," + IntToString(y) + ")" + rest)[0] == ','
    ensures ("," + IntToString(y) + ")" + rest)[1..] == IntToString(y) + (")" + rest)
  {
    var ys := IntToString(y);
    assert "," + ys + ")" + rest == "," + (ys + (")" + rest));
  }

  /** The rendering is injective: different points have different text. */
  lemma ToStringInjective(p: Point, q: Point)
    requires ToString(p) == ToString(q)
    ensures p == q
  {
    ParsePointRoundTrip(p, "");
    ParsePointRoundTrip(q, "");
    assert ToString(p) + "" == ToString(p);
    assert ToString(q) + "" == ToString(q);
  }

  lemma ToStringExamples()
    ensures ToString(Point(0, 0)) == "(0,0)"
    ensures ToString(Point(1, 0)) == "(1,0)"
    ensures ToString(Point(-12, 3)) == "(-12,3)"
  {
  }
}
