/** Sampling from a piecewise linear cumulative distribution: the table check, both
    directions of the lookup, and the running integral. */
module CdfSampling {
  import opened Wrappers

  /** x is a value, y its percentile. */
  datatype Point = Point(x: real, y: real)

  // ------------------------------------------------------------- reference

  /** From percentile 0 to 100, both coordinates strictly increasing. */
  predicate IsCdf(cdf: seq<Point>) {
    && |cdf| > 0 && cdf[0].y == 0.0 && cdf[|cdf| - 1].y == 100.0
    && forall i | 0 < i < |cdf| :: cdf[i - 1].x < cdf[i].x && cdf[i - 1].y < cdf[i].y
  }

  /** (x, y) lies on the straight line through p and q. */
  predicate OnLine(p: Point, q: Point, x: real, y: real) {
    (x - p.x) * (q.y - p.y) == (q.x - p.x) * (y - p.y)
  }

  predicate OnSegment(cdf: seq<Point>, i: int, x: real, y: real) {
    && 0 < i < |cdf|
    && cdf[i - 1].x <= x <= cdf[i].x && cdf[i - 1].y <= y <= cdf[i].y
    && OnLine(cdf[i - 1], cdf[i], x, y)
  }

  /** (x, y) lies on the graph of the distribution function. */
  ghost predicate OnCurve(cdf: seq<Point>, x: real, y: real) {
    exists i :: OnSegment(cdf, i, x, y)
  }

  lemma {:induction false} Increasing(cdf: seq<Point>, i: nat, j: nat)
    requires IsCdf(cdf) && i < j < |cdf|
    ensures cdf[i].x < cdf[j].x && cdf[i].y < cdf[j].y
  {
    if i + 1 < j {
      Increasing(cdf, i, j - 1);
    }
  }

  lemma SameSign(a: real, b: real, c: real, d: real)
    requires a * b == c * d && b > 0.0 && c > 0.0
    ensures a > 0.0 <==> d > 0.0
    ensures a == 0.0 <==> d == 0.0
  {
    if a > 0.0 {
      assert a * b > 0.0;
      assert d <= 0.0 ==> c * d <= 0.0;
    } else if a == 0.0 {
      assert d > 0.0 ==> c * d > 0.0;
      assert d < 0.0 ==> c * d < 0.0;
    } else {
      assert a * b < 0.0;
      assert d >= 0.0 ==> c * d >= 0.0;
    }
  }

  lemma OnLineIncreases(p: Point, q: Point, x: real, y: real, x': real, y': real)
    requires p.x < q.x && p.y < q.y && OnLine(p, q, x, y) && OnLine(p, q, x', y')
    ensures x < x' <==> y < y'
    ensures x == x' <==> y == y'
  {
    assert (x' - x) * (q.y - p.y) == (q.x - p.x) * (y' - y);
    SameSign(x' - x, q.y - p.y, q.x - p.x, y' - y);
  }

  /** The curve is the graph of a strictly increasing function, and so of its inverse. */
  lemma CurveIncreases(cdf: seq<Point>, x: real, y: real, x': real, y': real)
    requires IsCdf(cdf) && OnCurve(cdf, x, y) && OnCurve(cdf, x', y')
    ensures x < x' <==> y < y'
    ensures x == x' <==> y == y'
  {
    var i :| OnSegment(cdf, i, x, y);
    var j :| OnSegment(cdf, j, x', y');
    if i == j {
      OnLineIncreases(cdf[i - 1], cdf[i], x, y, x', y');
    } else if i < j {
      AcrossSegments(cdf, i, x, y, j, x', y');
    } else {
      AcrossSegments(cdf, j, x', y', i, x, y);
    }
  }

  lemma AcrossSegments(cdf: seq<Point>, i: int, x: real, y: real, j: int, x': real, y': real)
    requires IsCdf(cdf) && OnSegment(cdf, i, x, y) && OnSegment(cdf, j, x', y') && i < j
    ensures x < x' <==> y < y'
    ensures x == x' <==> y == y'
    ensures x <= x' && y <= y'
  {
    if i < j - 1 {
      Increasing(cdf, i, j - 1);
    } else {
      OnLineIncreases(cdf[i - 1], cdf[i], x, y, cdf[i].x, cdf[i].y);
      OnLineIncreases(cdf[i], cdf[j], cdf[i].x, cdf[i].y, x', y');
    }
  }

  // ------------------------------------------------------------- integral

  /** Twice the area between the curve and the percentile axis up to the i-th point. */
  function TwiceArea(cdf: seq<Point>, i: nat): real
    requires i < |cdf|
  {
    if i == 0 then 0.0
    else TwiceArea(cdf, i - 1) + (cdf[i].x + cdf[i - 1].x) * (cdf[i].y - cdf[i - 1].y)
  }

  /** Twice the area up to the point (x, y) of segment i. */
  function TwiceAreaTo(cdf: seq<Point>, i: nat, x: real, y: real): real
    requires 0 < i < |cdf|
  {
    TwiceArea(cdf, i - 1) + (cdf[i - 1].x + x) * (y - cdf[i - 1].y)
  }

  lemma MulLe(a: real, b: real, d: real)
    requires a <= b && d >= 0.0
    ensures a * d <= b * d
  {}

  /** Twice an area of a given height lies between those of rectangles of widths p and r. */
  predicate Between(p: real, r: real, height: real, twice: real) {
    (2.0 * p) * height <= twice <= (2.0 * r) * height
  }

  lemma NoHeight(p: real, height: real, twice: real)
    requires height == 0.0 && twice == 0.0
    ensures Between(p, p, height, twice)
  {}

  lemma BetweenWider(p: real, q: real, q': real, r: real, height: real, twice: real)
    requires p <= q && q' <= r && height >= 0.0 && Between(q, q', height, twice)
    ensures Between(p, r, height, twice)
  {
    MulLe(2.0 * p, 2.0 * q, height);
    MulLe(2.0 * q', 2.0 * r, height);
  }

  lemma BetweenSum(p: real, r: real, h: real, k: real, lower: real, upper: real)
    requires Between(p, r, h, lower) && Between(p, r, k, upper)
    ensures Between(p, r, h + k, lower + upper)
  {
    assert (2.0 * p) * (h + k) == (2.0 * p) * h + (2.0 * p) * k;
    assert (2.0 * r) * (h + k) == (2.0 * r) * h + (2.0 * r) * k;
  }

  /** Areas one above the other. */
  lemma Stacked(p: real, q: real, q': real, r: real, h: real, k: real, lower: real, upper: real, height: real,
                twice: real)
    requires p <= q <= q' <= r && h >= 0.0 && k >= 0.0
    requires Between(p, q, h, lower) && Between(q', r, k, upper)
    requires height == h + k && twice == lower + upper
    ensures Between(p, r, height, twice)
  {
    BetweenWider(p, p, q, r, h, lower);
    BetweenWider(p, q', r, r, k, upper);
    BetweenSum(p, r, h, k, lower, upper);
  }

  /** A trapezoid lies between the rectangles on its two sides. */
  lemma Trapezoid(x: real, x': real, d: real)
    requires x <= x' && d >= 0.0
    ensures Between(x, x', d, (x + x') * d)
  {
    MulLe(2.0 * x, x + x', d);
    MulLe(x + x', 2.0 * x', d);
  }

  /** On one segment the area between two points is that of their trapezoid. */
  lemma WithinSegment(p: Point, q: Point, x: real, y: real, x': real, y': real)
    requires p.y < q.y && OnLine(p, q, x, y) && OnLine(p, q, x', y')
    ensures (p.x + x') * (y' - p.y) - (p.x + x) * (y - p.y) == (x + x') * (y' - y)
  {
    var a, b, u, v, h, w := x - p.x, x' - p.x, y - p.y, y' - p.y, q.y - p.y, q.x - p.x;
    CrossEqual(a, b, u, v, h, w);
    Shoelace(p.x, a, b, u, v);
  }

  lemma CrossEqual(a: real, b: real, u: real, v: real, h: real, w: real)
    requires h > 0.0 && a * h == w * u && b * h == w * v
    ensures a * v == b * u
  {
    assert (a * v) * h == (a * h) * v == (w * u) * v == (w * v) * u == (b * h) * u == (b * u) * h;
    assert (a * v - b * u) * h == 0.0;
  }

  lemma Shoelace(c: real, a: real, b: real, u: real, v: real)
    requires a * v == b * u
    ensures (c + (b + c)) * v - (c + (a + c)) * u == ((a + c) + (b + c)) * (v - u)
  {
    assert (c + (b + c)) * v == 2.0 * c * v + b * v;
    assert (c + (a + c)) * u == 2.0 * c * u + a * u;
    assert ((a + c) + (b + c)) * (v - u) == a * v + b * v + 2.0 * c * v - a * u - b * u - 2.0 * c * u;
  }

  /** a and b are twice the areas up to two points of a segment. */
  lemma SegmentArea(p: Point, q: Point, x: real, y: real, x': real, y': real, before: real, a: real, b: real)
    requires p.y < q.y && OnLine(p, q, x, y) && OnLine(p, q, x', y') && x <= x' && y <= y'
    requires a == before + (p.x + x) * (y - p.y) && b == before + (p.x + x') * (y' - p.y)
    ensures Between(x, x', y' - y, b - a)
  {
    WithinSegment(p, q, x, y, x', y');
    Trapezoid(x, x', y' - y);
  }

  lemma SegmentBounds(cdf: seq<Point>, i: int, x: real, y: real, x': real, y': real)
    requires IsCdf(cdf) && OnSegment(cdf, i, x, y) && OnSegment(cdf, i, x', y') && y <= y'
    ensures x <= x' && Between(x, x', y' - y, TwiceAreaTo(cdf, i, x', y') - TwiceAreaTo(cdf, i, x, y))
  {
    OnLineIncreases(cdf[i - 1], cdf[i], x, y, x', y');
    SegmentArea(cdf[i - 1], cdf[i], x, y, x', y', TwiceArea(cdf, i - 1), TwiceAreaTo(cdf, i, x, y),
                TwiceAreaTo(cdf, i, x', y'));
  }

  lemma EndsOnSegment(cdf: seq<Point>, i: nat)
    requires IsCdf(cdf) && 0 < i < |cdf|
    ensures OnSegment(cdf, i, cdf[i - 1].x, cdf[i - 1].y) && OnSegment(cdf, i, cdf[i].x, cdf[i].y)
    ensures TwiceAreaTo(cdf, i, cdf[i].x, cdf[i].y) == TwiceArea(cdf, i)
    ensures TwiceAreaTo(cdf, i, cdf[i - 1].x, cdf[i - 1].y) == TwiceArea(cdf, i - 1)
  {}

  lemma CurveStaysInside(cdf: seq<Point>, x: real, y: real)
    requires IsCdf(cdf) && |cdf| > 1 && OnCurve(cdf, x, y) && 0.0 <= y < 100.0
    ensures cdf[0].x <= x < cdf[|cdf| - 1].x
  {
    var n := |cdf| - 1;
    EndsOnSegment(cdf, 1);
    EndsOnSegment(cdf, n);
    CurveIncreases(cdf, cdf[0].x, 0.0, x, y);
    CurveIncreases(cdf, x, y, cdf[n].x, 100.0);
  }

  lemma {:induction false} AreaBetweenPoints(cdf: seq<Point>, i: nat, j: nat)
    requires IsCdf(cdf) && i <= j < |cdf|
    ensures cdf[i].x <= cdf[j].x && cdf[i].y <= cdf[j].y
    ensures Between(cdf[i].x, cdf[j].x, cdf[j].y - cdf[i].y, TwiceArea(cdf, j) - TwiceArea(cdf, i))
  {
    if i == j {
      NoHeight(cdf[i].x, cdf[j].y - cdf[i].y, TwiceArea(cdf, j) - TwiceArea(cdf, i));
    } else {
      var q, r := cdf[j - 1], cdf[j];
      AreaBetweenPoints(cdf, i, j - 1);
      var lower, upper := TwiceArea(cdf, j - 1) - TwiceArea(cdf, i), TwiceArea(cdf, j) - TwiceArea(cdf, j - 1);
      EndsOnSegment(cdf, j);
      SegmentBounds(cdf, j, q.x, q.y, r.x, r.y);
      Stacked(cdf[i].x, q.x, q.x, r.x, q.y - cdf[i].y, r.y - q.y, lower, upper, r.y - cdf[i].y, lower + upper);
    }
  }

  /** Between any two points of the curve, twice the area lies between those of the
      rectangles as wide as the lower and as the upper value. */
  lemma AreaBounds(cdf: seq<Point>, i: int, x: real, y: real, j: int, x': real, y': real)
    requires IsCdf(cdf) && OnSegment(cdf, i, x, y) && OnSegment(cdf, j, x', y') && y <= y' && i <= j
    ensures Between(x, x', y' - y, TwiceAreaTo(cdf, j, x', y') - TwiceAreaTo(cdf, i, x, y))
  {
    if i == j {
      SegmentBounds(cdf, i, x, y, x', y');
    } else {
      var p, q := cdf[i], cdf[j - 1];
      EndsOnSegment(cdf, i);
      EndsOnSegment(cdf, j);
      SegmentBounds(cdf, i, x, y, p.x, p.y);
      AreaBetweenPoints(cdf, i, j - 1);
      SegmentBounds(cdf, j, q.x, q.y, x', y');
      var first, middle, last := TwiceArea(cdf, i) - TwiceAreaTo(cdf, i, x, y),
        TwiceArea(cdf, j - 1) - TwiceArea(cdf, i), TwiceAreaTo(cdf, j, x', y') - TwiceArea(cdf, j - 1);
      Stacked(x, p.x, p.x, q.x, p.y - y, q.y - p.y, first, middle, q.y - y, first + middle);
      Stacked(x, q.x, q.x, x', q.y - y, y' - q.y, first + middle, last, y' - y,
              TwiceAreaTo(cdf, j, x', y') - TwiceAreaTo(cdf, i, x, y));
    }
  }

  // -------------------------------------------------------------- lookups

  /** The value of the line through p and q at x. */
  function LineAt(p: Point, q: Point, x: real): real
    requires p.x < q.x
  {
    p.y + (q.y - p.y) / (q.x - p.x) * (x - p.x)
  }

  lemma LineAtIsOnLine(p: Point, q: Point, x: real)
    requires p.x < q.x
    ensures OnLine(p, q, x, LineAt(p, q, x))
  {
    var slope := (q.y - p.y) / (q.x - p.x);
    assert slope * (q.x - p.x) == q.y - p.y;
    assert (x - p.x) * (slope * (q.x - p.x)) == (q.x - p.x) * (slope * (x - p.x));
  }

  function Flip(p: Point): Point { Point(p.y, p.x) }

  lemma PercentileOnSegment(cdf: seq<Point>, i: nat, x: real)
    requires IsCdf(cdf) && 0 < i < |cdf| && cdf[i - 1].x <= x <= cdf[i].x
    ensures OnSegment(cdf, i, x, LineAt(cdf[i - 1], cdf[i], x))
  {
    var p, q, y := cdf[i - 1], cdf[i], LineAt(cdf[i - 1], cdf[i], x);
    LineAtIsOnLine(p, q, x);
    OnLineIncreases(p, q, p.x, p.y, x, y);
    OnLineIncreases(p, q, x, y, q.x, q.y);
  }

  lemma ValueOnSegment(cdf: seq<Point>, i: nat, y: real)
    requires IsCdf(cdf) && 0 < i < |cdf| && cdf[i - 1].y <= y <= cdf[i].y
    ensures OnSegment(cdf, i, LineAt(Flip(cdf[i - 1]), Flip(cdf[i]), y), y)
  {
    var p, q, x := cdf[i - 1], cdf[i], LineAt(Flip(cdf[i - 1]), Flip(cdf[i]), y);
    LineAtIsOnLine(Flip(p), Flip(q), y);
    OnLineIncreases(p, q, p.x, p.y, x, y);
    OnLineIncreases(p, q, x, y, q.x, q.y);
  }

  lemma AtMostHundred(cdf: seq<Point>, i: nat)
    requires IsCdf(cdf) && i < |cdf|
    ensures cdf[i].y <= 100.0
  {
    if i < |cdf| - 1 {
      Increasing(cdf, i, |cdf| - 1);
    }
  }

  lemma BelowTheTable(cdf: seq<Point>, x: real)
    requires IsCdf(cdf) && |cdf| > 1 && x < cdf[0].x
    ensures OnLine(cdf[0], cdf[1], x, LineAt(cdf[0], cdf[1], x)) && LineAt(cdf[0], cdf[1], x) < 0.0
  {
    LineAtIsOnLine(cdf[0], cdf[1], x);
    OnLineIncreases(cdf[0], cdf[1], x, LineAt(cdf[0], cdf[1], x), cdf[0].x, 0.0);
  }

  lemma AddTrapezoid(s: real, width: real, height: real)
    ensures 200.0 * (s + 0.5 * width * height / 100.0) == 200.0 * s + width * height
  {}

  lemma HalfBetween(p: real, r: real, height: real, twice: real, area: real)
    requires Between(p, r, height, twice) && twice == 2.0 * area
    ensures p * height <= area <= r * height
  {
    assert (2.0 * p) * height == 2.0 * (p * height) && (2.0 * r) * height == 2.0 * (r * height);
  }

  /** s is the integral of the values over the percentiles up to y, as a fraction of 1. */
  ghost predicate IsIntegral(cdf: seq<Point>, y: real, s: real) {
    exists i: nat, x :: OnSegment(cdf, i, x, y) && 200.0 * s == TwiceAreaTo(cdf, i, x, y)
  }

  /** The last trapezoid ends at percentile y. */
  lemma IntegralReached(cdf: seq<Point>, i: nat, p: Point, q: Point, x: real, y: real, s: real, t: real)
    requires IsCdf(cdf) && 0 < i < |cdf| && p == cdf[i - 1] && q == cdf[i]
    requires y <= q.y && (i == 1 || p.y < y) && x == LineAt(Flip(p), Flip(q), y)
    requires 200.0 * s == TwiceArea(cdf, i - 1) && t == s + 0.5 * (p.x + x) * (y - p.y) / 100.0
    ensures y <= 100.0 && (0.0 <= y ==> IsIntegral(cdf, y, t))
  {
    AtMostHundred(cdf, i);
    AddTrapezoid(s, p.x + x, y - p.y);
    if 0.0 <= y {
      ValueOnSegment(cdf, i, y);
      assert OnSegment(cdf, i, x, y);
    }
  }

  /** The integral over all percentiles is the average. */
  lemma WholeIntegralIsAverage(cdf: seq<Point>, s: real)
    requires IsCdf(cdf) && |cdf| > 1 && IsIntegral(cdf, 100.0, s)
    ensures 200.0 * s == TwiceArea(cdf, |cdf| - 1)
  {
    var n := |cdf| - 1;
    var i: nat, x :| OnSegment(cdf, i, x, 100.0) && 200.0 * s == TwiceAreaTo(cdf, i, x, 100.0);
    if i < n {
      Increasing(cdf, i, n);
    }
    EndsOnSegment(cdf, n);
    OnLineIncreases(cdf[n - 1], cdf[n], x, 100.0, cdf[n].x, 100.0);
  }

  lemma IntegralBoundsAt(cdf: seq<Point>, i: nat, x: real, a: real, s: real, j: nat, x': real, b: real, t: real)
    requires IsCdf(cdf) && a < b
    requires OnSegment(cdf, i, x, a) && 200.0 * s == TwiceAreaTo(cdf, i, x, a)
    requires OnSegment(cdf, j, x', b) && 200.0 * t == TwiceAreaTo(cdf, j, x', b)
    ensures x * (b - a) <= 100.0 * (t - s) <= x' * (b - a)
  {
    var twice := TwiceAreaTo(cdf, j, x', b) - TwiceAreaTo(cdf, i, x, a);
    assert Between(x, x', b - a, twice) by {
      if j < i - 1 {
        Increasing(cdf, j, i - 1);
      }
      AreaBounds(cdf, i, x, a, j, x', b);
    }
    HalfBetween(x, x', b - a, twice, 100.0 * (t - s));
  }

  /** The integral grows, between two percentiles, at least as fast as the value at the
      lower one and at most as fast as the value at the upper one. */
  lemma IntegralBounds(cdf: seq<Point>, a: real, v: real, s: real, b: real, w: real, t: real)
    requires IsCdf(cdf) && a < b
    requires OnCurve(cdf, v, a) && IsIntegral(cdf, a, s)
    requires OnCurve(cdf, w, b) && IsIntegral(cdf, b, t)
    ensures v * (b - a) <= 100.0 * (t - s) <= w * (b - a)
  {
    var i: nat, x :| OnSegment(cdf, i, x, a) && 200.0 * s == TwiceAreaTo(cdf, i, x, a);
    var j: nat, x' :| OnSegment(cdf, j, x', b) && 200.0 * t == TwiceAreaTo(cdf, j, x', b);
    assert x == v && x' == w by {
      CurveIncreases(cdf, v, a, x, a);
      CurveIncreases(cdf, w, b, x', b);
    }
    IntegralBoundsAt(cdf, i, v, a, s, j, w, b, t);
  }

  /** Looking a value's percentile up, or a percentile's value, and back again gives the
      same; and both lookups are strictly increasing. */
  lemma LookupsAreInverse(cdf: seq<Point>, x: real, y: real, x': real, y': real)
    requires IsCdf(cdf) && OnCurve(cdf, x, y)
    ensures OnCurve(cdf, x', y) ==> x' == x
    ensures OnCurve(cdf, x, y') ==> y' == y
    ensures OnCurve(cdf, x', y') ==> (x < x' <==> y < y')
  {
    if OnCurve(cdf, x', y) { CurveIncreases(cdf, x, y, x', y); }
    if OnCurve(cdf, x, y') { CurveIncreases(cdf, x, y, x, y'); }
    if OnCurve(cdf, x', y') { CurveIncreases(cdf, x, y, x', y'); }
  }

  /** The table check; None where indexing an empty table raises. */
  method TestCdf(table: seq<Point>) returns (r: Option<bool>)
    ensures r == if table == [] then None else Some(IsCdf(table))
  {
    if table == [] {
      return None;
    }
    if table[0].y != 0.0 || table[|table| - 1].y != 100.0 {
      return Some(false);
    }
    for i := 1 to |table|
      invariant forall k | 0 < k < i :: table[k - 1].x < table[k].x && table[k - 1].y < table[k].y
    {
      if table[i].y <= table[i - 1].y || table[i].x <= table[i - 1].x {
        return Some(false);
      }
    }
    return Some(true);
  }

  class CustomRand {
    var cdf: seq<Point>

    constructor (table: seq<Point>)
      requires IsCdf(table)
      ensures cdf == table && Valid()
    {
      cdf := table;
    }

    predicate Valid()
      reads this
    {
      IsCdf(cdf)
    }

    /** Keeps the old table when the new one is refused or raises. */
    method SetCdf(table: seq<Point>) returns (r: Option<bool>)
      requires Valid()
      modifies this
      ensures r == (if table == [] then None else Some(IsCdf(table)))
      ensures cdf == (if r == Some(true) then table else old(cdf)) && Valid()
    {
      r := TestCdf(table);
      if r == Some(true) {
        cdf := table;
      }
    }

    method GetAvg() returns (average: real)
      requires Valid()
      ensures 200.0 * average == TwiceArea(cdf, |cdf| - 1)
    {
      var s := 0.0;
      var last := cdf[0];
      for i := 1 to |cdf|
        invariant last == cdf[i - 1] && 2.0 * s == TwiceArea(cdf, i - 1)
      {
        var c := cdf[i];
        s := s + (c.x + last.x) / 2.0 * (c.y - last.y);
        last := c;
      }
      average := s / 100.0;
    }

    /** -1 outside the table; below the first value, for values from 0 on, the first
        line is extended. */
    method GetPercentileFromValue(x: real) returns (r: Option<real>)
      requires Valid()
      ensures x < 0.0 || x > cdf[|cdf| - 1].x ==> r == Some(-1.0)
      ensures 0.0 <= x && cdf[0].x <= x <= cdf[|cdf| - 1].x ==> r.Some? && OnCurve(cdf, x, r.value)
      ensures 0.0 <= x < cdf[0].x ==> r.Some? && OnLine(cdf[0], cdf[1], x, r.value) && r.value < 0.0
    {
      Increasing(cdf, 0, |cdf| - 1);
      if x < 0.0 || x > cdf[|cdf| - 1].x {
        return Some(-1.0);
      }
      for i := 1 to |cdf|
        invariant i == 1 || (cdf[0].x < x && cdf[i - 1].x < x)
      {
        if x <= cdf[i].x {
          if cdf[i - 1].x <= x {
            PercentileOnSegment(cdf, i, x);
          } else {
            BelowTheTable(cdf, x);
          }
          return Some(LineAt(cdf[i - 1], cdf[i], x));
        }
      }
      return None;
    }

    /** None above 100; below 0 the first line is extended. */
    method GetValueFromPercentile(y: real) returns (r: Option<real>)
      requires Valid()
      ensures y > 100.0 ==> r == None
      ensures 0.0 <= y <= 100.0 ==> r.Some? && OnCurve(cdf, r.value, y)
      ensures y < 0.0 ==> r.Some? && OnLine(cdf[0], cdf[1], r.value, y)
    {
      for i := 1 to |cdf|
        invariant i == 1 || (0.0 < y && cdf[i - 1].y < y)
      {
        if y <= cdf[i].y {
          AtMostHundred(cdf, i);
          if cdf[i - 1].y <= y {
            ValueOnSegment(cdf, i, y);
          } else {
            LineAtIsOnLine(Flip(cdf[0]), Flip(cdf[1]), y);
          }
          return Some(LineAt(Flip(cdf[i - 1]), Flip(cdf[i]), y));
        }
      }
      return None;
    }

    /** A draw from [0, 1) gives a value of the table's range, its upper end excluded. */
    method Rand(draw: real) returns (r: Option<real>)
      requires Valid() && 0.0 <= draw < 1.0
      ensures r.Some? && cdf[0].x <= r.value < cdf[|cdf| - 1].x && OnCurve(cdf, r.value, draw * 100.0)
    {
      r := GetValueFromPercentile(draw * 100.0);
      CurveStaysInside(cdf, r.value, draw * 100.0);
    }

    method GetIntegralY(y: real) returns (s: real)
      requires Valid()
      ensures 0.0 <= y <= 100.0 ==> IsIntegral(cdf, y, s)
      ensures y > 100.0 ==> 200.0 * s == TwiceArea(cdf, |cdf| - 1)
    {
      s := 0.0;
      for i := 1 to |cdf|
        invariant i == 1 || (0.0 < y && cdf[i - 1].y < y)
        invariant 200.0 * s == TwiceArea(cdf, i - 1)
      {
        var p, q := cdf[i - 1], cdf[i];
        if y <= q.y {
          var x := LineAt(Flip(p), Flip(q), y);
          ghost var before := s;
          s := s + 0.5 * (p.x + x) * (y - p.y) / 100.0;
          IntegralReached(cdf, i, p, q, x, y, before, s);
          break;
        }
        AddTrapezoid(s, q.x + p.x, q.y - p.y);
        s := s + 0.5 * (q.x + p.x) * (q.y - p.y) / 100.0;
      }
    }
  }
}
