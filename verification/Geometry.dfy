/**
 Zone membership and box overlap on the camera image, over exact reals: a ray cast with an explicit
 tolerance on the edges, and intersection over union.
 */
module Geometry {
  import opened Reals

  datatype Point = Point(x: real, y: real)

  type Edge = (Point, Point)

  const EPS := 0.000000001

  function Abs(r: real): real { if r < 0.0 then -r else r }

  function Min(a: real, b: real): real { if b < a then b else a }

  function Max(a: real, b: real): real { if b > a then b else a }

  // ---------------------------------------------------------------- one edge

  function Cross(p: Point, a: Point, b: Point): real {
    (p.y - a.y) * (b.x - a.x) - (p.x - a.x) * (b.y - a.y)
  }

  predicate OnSegment(p: Point, a: Point, b: Point) {
    && Abs(Cross(p, a, b)) <= EPS
    && Min(a.x, b.x) - EPS <= p.x <= Max(a.x, b.x) + EPS
    && Min(a.y, b.y) - EPS <= p.y <= Max(a.y, b.y) + EPS
  }

  predicate Straddles(p: Point, a: Point, b: Point) {
    (a.y > p.y) != (b.y > p.y)
  }

  /** Where the line through an edge meets the horizontal through p; a flat edge divides by the tolerance. */
  function MeetsAt(p: Point, a: Point, b: Point): real {
    var rise := b.y - a.y;
    (b.x - a.x) * (p.y - a.y) / (if rise == 0.0 then EPS else rise) + a.x
  }

  predicate Crosses(p: Point, a: Point, b: Point) {
    Straddles(p, a, b) && p.x < MeetsAt(p, a, b)
  }

  // ---------------------------------------------------------------- the polygon

  /** The closed chain: edge i ends in vertex i. */
  function Edges(polygon: seq<Point>): (es: seq<Edge>)
    ensures |es| == |polygon|
    ensures forall i | 0 <= i < |es| ::
              es[i] == (polygon[if i == 0 then |polygon| - 1 else i - 1], polygon[i])
  {
    seq(|polygon|, i requires 0 <= i < |polygon| =>
      (polygon[if i == 0 then |polygon| - 1 else i - 1], polygon[i]))
  }

  function Crossings(p: Point, es: seq<Edge>): nat {
    if es == [] then 0
    else Crossings(p, es[..|es| - 1]) + if Crosses(p, es[|es| - 1].1, es[|es| - 1].0) then 1 else 0
  }

  predicate Odd(n: nat) { n % 2 == 1 }

  lemma CrossingsStep(p: Point, es: seq<Edge>, i: nat)
    requires i < |es|
    ensures Odd(Crossings(p, es[..i + 1])) <==> (Odd(Crossings(p, es[..i])) != Crosses(p, es[i].1, es[i].0))
  {
    assert es[..i + 1][..i] == es[..i];
  }

  predicate OnBoundary(p: Point, polygon: seq<Point>) {
    exists e | e in Edges(polygon) :: OnSegment(p, e.0, e.1)
  }

  predicate Contains(p: Point, polygon: seq<Point>) {
    |polygon| >= 3 && (OnBoundary(p, polygon) || Odd(Crossings(p, Edges(polygon))))
  }

  /** The explicit edge check: whether the point is within the tolerance of some edge. */
  method TouchesEdge(p: Point, polygon: seq<Point>) returns (touches: bool)
    ensures touches <==> OnBoundary(p, polygon)
  {
    var n := |polygon|;
    ghost var es := Edges(polygon);
    for i := 0 to n
      invariant forall k | 0 < k < n && k <= i :: !OnSegment(p, es[k].0, es[k].1)
      invariant i == n > 0 ==> !OnSegment(p, es[0].0, es[0].1)
    {
      var next := if i + 1 == n then 0 else i + 1;
      assert es[next] == (polygon[i], polygon[next]) && es[next] in es;
      if OnSegment(p, polygon[i], polygon[next]) {
        return true;
      }
    }
    return false;
  }

  /** The ray cast: whether the ray to the right crosses an odd number of edges. */
  method CastRay(p: Point, polygon: seq<Point>) returns (inside: bool)
    requires |polygon| > 0
    ensures inside <==> Odd(Crossings(p, Edges(polygon)))
  {
    var n := |polygon|;
    ghost var es := Edges(polygon);
    inside := false;
    var j := n - 1;
    for i := 0 to n
      invariant j == if i == 0 then n - 1 else i - 1
      invariant inside <==> Odd(Crossings(p, es[..i]))
    {
      CrossingsStep(p, es, i);
      if Crosses(p, polygon[i], polygon[j]) {
        inside := !inside;
      }
      j := i;
    }
    assert es[..n] == es;
  }

  method PointInPolygon(p: Point, polygon: seq<Point>) returns (inside: bool)
    ensures inside <==> Contains(p, polygon)
  {
    if |polygon| < 3 {
      return false;
    }
    var touches := TouchesEdge(p, polygon);
    if touches {
      return true;
    }
    inside := CastRay(p, polygon);
  }

  // ---------------------------------------------------------------- an edge has no direction

  function Swap(e: Edge): Edge { (e.1, e.0) }

  lemma CrossFlips(p: Point, a: Point, b: Point)
    ensures Cross(p, b, a) == -Cross(p, a, b)
  {
    var u, v, w, z := p.y - a.y, b.x - a.x, p.x - a.x, b.y - a.y;
    assert p.y - b.y == u - z && p.x - b.x == w - v && a.x - b.x == -v && a.y - b.y == -z;
    assert (u - z) * -v == z * v - u * v;
    assert (w - v) * -z == v * z - w * z;
  }

  lemma OnSegmentFlips(p: Point, a: Point, b: Point)
    ensures OnSegment(p, a, b) <==> OnSegment(p, b, a)
  {
    CrossFlips(p, a, b);
  }

  lemma CancelFactor(a: real, b: real, d: real)
    requires d != 0.0 && a * d == b * d
    ensures a == b
  {
    assert (a - b) * d == 0.0;
  }

  /** The height of a crossing, cleared of the division. */
  lemma MeetsTimesRise(p: Point, a: Point, b: Point)
    requires a.y != b.y
    ensures MeetsAt(p, a, b) * (b.y - a.y) == (b.x - a.x) * (p.y - a.y) + a.x * (b.y - a.y)
  {
    var n, d := (b.x - a.x) * (p.y - a.y), b.y - a.y;
    DivTimes(n, d);
    assert (n / d + a.x) * d == n / d * d + a.x * d;
  }

  lemma MeetsFlips(p: Point, a: Point, b: Point)
    requires a.y != b.y
    ensures MeetsAt(p, a, b) == MeetsAt(p, b, a)
  {
    var d := b.y - a.y;
    var v, u := b.x - a.x, p.y - a.y;
    MeetsTimesRise(p, a, b);
    MeetsTimesRise(p, b, a);
    var m := MeetsAt(p, b, a);
    assert m * (a.y - b.y) == (a.x - b.x) * (p.y - b.y) + b.x * (a.y - b.y);
    assert a.y - b.y == -d && a.x - b.x == -v && p.y - b.y == u - d && b.x == a.x + v;
    assert m * -d == -(m * d);
    assert -v * (u - d) == v * d - v * u;
    assert (a.x + v) * -d == -(a.x * d) - v * d;
    CancelFactor(MeetsAt(p, a, b), m, d);
  }

  lemma CrossesFlips(p: Point, a: Point, b: Point)
    ensures Crosses(p, a, b) <==> Crosses(p, b, a)
  {
    if Straddles(p, a, b) {
      MeetsFlips(p, a, b);
    }
  }

  // ---------------------------------------------------------------- boxes

  /** Corners as given; nothing says that x1 <= x2 or y1 <= y2. */
  datatype Box = Box(x1: real, y1: real, x2: real, y2: real)

  function Extent(lo: real, hi: real): real { Max(0.0, hi - lo) }

  function Area(b: Box): real { Extent(b.x1, b.x2) * Extent(b.y1, b.y2) }

  function Meet(a: Box, b: Box): Box {
    Box(Max(a.x1, b.x1), Max(a.y1, b.y1), Min(a.x2, b.x2), Min(a.y2, b.y2))
  }

  function Iou(a: Box, b: Box): real {
    var inter := Area(Meet(a, b));
    var union := Area(a) + Area(b) - inter;
    if union > 0.0 then inter / union else 0.0
  }
}
