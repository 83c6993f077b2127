/**
 What zone membership does not depend on (where the vertex list starts, which way it runs), which points
 it always accepts, which it never accepts, and the range of intersection over union.
 */
module GeometryLaws {
  import opened Geometry
  import opened Reals

  // ---------------------------------------------------------------- sums over edges

  lemma {:induction false} CrossingsConcat(p: Point, a: seq<Edge>, b: seq<Edge>)
    ensures Crossings(p, a + b) == Crossings(p, a) + Crossings(p, b)
    decreases |b|
  {
    if b == [] {
      assert a + b == a;
    } else {
      CrossingsConcat(p, a, b[..|b| - 1]);
      assert (a + b)[..|a + b| - 1] == a + b[..|b| - 1];
    }
  }

  function Mirrored(es: seq<Edge>): (r: seq<Edge>)
    ensures |r| == |es| && forall i | 0 <= i < |r| :: r[i] == Swap(es[|es| - 1 - i])
    decreases |es|
  {
    if es == [] then [] else [Swap(es[|es| - 1])] + Mirrored(es[..|es| - 1])
  }

  lemma {:induction false} CrossingsMirror(p: Point, es: seq<Edge>)
    ensures Crossings(p, Mirrored(es)) == Crossings(p, es)
    decreases |es|
  {
    if es != [] {
      var last := es[|es| - 1];
      CrossingsMirror(p, es[..|es| - 1]);
      CrossingsConcat(p, [Swap(last)], Mirrored(es[..|es| - 1]));
      CrossesFlips(p, last.0, last.1);
      CrossingsOne(p, Swap(last));
    }
  }

  lemma CrossingsOne(p: Point, e: Edge)
    ensures Crossings(p, [e]) == if Crosses(p, e.1, e.0) then 1 else 0
  {
    assert [e][..0] == [];
  }

  // ---------------------------------------------------------------- where the list starts

  function Rotate<T>(s: seq<T>, k: nat): (r: seq<T>)
    requires k <= |s|
    ensures |r| == |s|
  {
    s[k..] + s[..k]
  }

  lemma EdgesRotate(polygon: seq<Point>, k: nat)
    requires k <= |polygon|
    ensures Edges(Rotate(polygon, k)) == Rotate(Edges(polygon), k)
  {
  }

  lemma RotateMembers<T>(s: seq<T>, k: nat)
    requires k <= |s|
    ensures forall x :: x in s <==> x in Rotate(s, k)
  {
    assert s == s[..k] + s[k..];
  }

  lemma RotationBoundary(p: Point, polygon: seq<Point>, k: nat)
    requires k <= |polygon|
    ensures OnBoundary(p, Rotate(polygon, k)) <==> OnBoundary(p, polygon)
  {
    EdgesRotate(polygon, k);
    RotateMembers(Edges(polygon), k);
  }

  lemma RotationCrossings(p: Point, es: seq<Edge>, k: nat)
    requires k <= |es|
    ensures Crossings(p, Rotate(es, k)) == Crossings(p, es)
  {
    CrossingsConcat(p, es[k..], es[..k]);
    CrossingsConcat(p, es[..k], es[k..]);
    assert es == es[..k] + es[k..];
  }

  /** Membership does not depend on which vertex the list starts with. */
  lemma RotationInvariant(p: Point, polygon: seq<Point>, k: nat)
    requires k <= |polygon|
    ensures Contains(p, Rotate(polygon, k)) <==> Contains(p, polygon)
  {
    RotationBoundary(p, polygon, k);
    EdgesRotate(polygon, k);
    RotationCrossings(p, Edges(polygon), k);
  }

  // ---------------------------------------------------------------- which way the list runs

  function Reversed<T>(s: seq<T>): (r: seq<T>)
    ensures |r| == |s| && forall i | 0 <= i < |s| :: r[i] == s[|s| - 1 - i]
  {
    seq(|s|, i requires 0 <= i < |s| => s[|s| - 1 - i])
  }

  /** Reversing the vertices reverses the edges and starts them one vertex later. */
  lemma EdgesReverse(polygon: seq<Point>)
    requires polygon != []
    ensures Edges(Reversed(polygon)) == [Swap(Edges(polygon)[0])] + Mirrored(Edges(polygon)[1..])
  {
    var es, rs, n := Edges(polygon), Edges(Reversed(polygon)), |polygon|;
    var ms := Mirrored(es[1..]);
    forall i | 0 < i < n ensures rs[i] == ms[i - 1] {
      assert ms[i - 1] == Swap(es[1..][n - 1 - i]) == Swap(es[n - i]);
    }
  }

  lemma MirrorMembers(es: seq<Edge>, e: Edge)
    ensures e in Mirrored(es) <==> Swap(e) in es
  {
    var ms := Mirrored(es);
    if e in ms {
      var i :| 0 <= i < |ms| && ms[i] == e;
      assert Swap(e) == es[|es| - 1 - i];
    }
    if Swap(e) in es {
      var i :| 0 <= i < |es| && es[i] == Swap(e);
      assert e == ms[|es| - 1 - i];
    }
  }

  lemma ReversedEdgesMatch(polygon: seq<Point>, e: Edge)
    requires polygon != []
    ensures e in Edges(Reversed(polygon)) <==> Swap(e) in Edges(polygon)
  {
    EdgesReverse(polygon);
    var es := Edges(polygon);
    MirrorMembers(es[1..], e);
    assert es == [es[0]] + es[1..];
  }

  lemma ReversalBoundary(p: Point, polygon: seq<Point>)
    requires polygon != []
    ensures OnBoundary(p, Reversed(polygon)) <==> OnBoundary(p, polygon)
  {
    var es, rs := Edges(polygon), Edges(Reversed(polygon));
    if OnBoundary(p, polygon) {
      var e :| e in es && OnSegment(p, e.0, e.1);
      ReversedEdgesMatch(polygon, Swap(e));
      OnSegmentFlips(p, e.0, e.1);
      assert Swap(e) in rs;
    }
    if OnBoundary(p, Reversed(polygon)) {
      var e :| e in rs && OnSegment(p, e.0, e.1);
      ReversedEdgesMatch(polygon, e);
      OnSegmentFlips(p, e.0, e.1);
      assert Swap(e) in es;
    }
  }

  lemma ReversalCrossings(p: Point, es: seq<Edge>)
    requires es != []
    ensures Crossings(p, [Swap(es[0])] + Mirrored(es[1..])) == Crossings(p, es)
  {
    CrossingsConcat(p, [Swap(es[0])], Mirrored(es[1..]));
    CrossingsMirror(p, es[1..]);
    CrossingsOne(p, Swap(es[0]));
    CrossesFlips(p, es[0].0, es[0].1);
    CrossingsOne(p, es[0]);
    CrossingsConcat(p, [es[0]], es[1..]);
    assert es == [es[0]] + es[1..];
  }

  /** Membership does not depend on whether the vertices run clockwise or anticlockwise. */
  lemma ReversalInvariant(p: Point, polygon: seq<Point>)
    ensures Contains(p, Reversed(polygon)) <==> Contains(p, polygon)
  {
    if polygon != [] {
      ReversalBoundary(p, polygon);
      EdgesReverse(polygon);
      ReversalCrossings(p, Edges(polygon));
    }
  }

  // ---------------------------------------------------------------- points that are always accepted

  /** The point a fraction t of the way from a to b. */
  function Along(a: Point, b: Point, t: real): Point {
    Point(a.x + Times(t, b.x - a.x), a.y + Times(t, b.y - a.y))
  }

  function Times(t: real, w: real): real { t * w }

  lemma Shrinks(t: real, w: real)
    requires 0.0 <= t <= 1.0 && w >= 0.0
    ensures 0.0 <= Times(t, w) <= w
    ensures -w <= Times(t, -w) <= 0.0
  {
    ProductNonNegative(t, w);
    ProductNonNegative(1.0 - t, w);
    assert (1.0 - t) * w == w - t * w;
    assert t * -w == -(t * w);
  }

  lemma BetweenEnds(a: real, b: real, t: real)
    requires 0.0 <= t <= 1.0
    ensures Min(a, b) <= a + Times(t, b - a) <= Max(a, b)
  {
    if b >= a {
      Shrinks(t, b - a);
    } else {
      Shrinks(t, a - b);
      assert b - a == -(a - b);
    }
  }

  lemma AlongIsOn(a: Point, b: Point, t: real)
    requires 0.0 <= t <= 1.0
    ensures OnSegment(Along(a, b, t), a, b)
  {
    var u, v := b.x - a.x, b.y - a.y;
    var p := Along(a, b, t);
    assert p.y - a.y == t * v && p.x - a.x == t * u;
    assert (t * v) * u == (t * u) * v;
    BetweenEnds(a.x, b.x, t);
    BetweenEnds(a.y, b.y, t);
  }

  /** Every point of every edge is inside, exactly because there are at least three vertices. */
  lemma EdgePointIsInsideIff(polygon: seq<Point>, i: nat, t: real)
    requires i < |polygon| && 0.0 <= t <= 1.0
    ensures var a, b := polygon[i], polygon[if i + 1 == |polygon| then 0 else i + 1];
            Contains(Along(a, b, t), polygon) <==> |polygon| >= 3
  {
    var next := if i + 1 == |polygon| then 0 else i + 1;
    AlongIsOn(polygon[i], polygon[next], t);
    assert Edges(polygon)[next] == (polygon[i], polygon[next]) && Edges(polygon)[next] in Edges(polygon);
  }

  // ---------------------------------------------------------------- points that are never accepted

  ghost predicate Bounded(polygon: seq<Point>, lo: Point, hi: Point) {
    forall v | v in polygon :: lo.x <= v.x <= hi.x && lo.y <= v.y <= hi.y
  }

  predicate Within(p: Point, lo: Point, hi: Point, slack: real) {
    lo.x - slack <= p.x <= hi.x + slack && lo.y - slack <= p.y <= hi.y + slack
  }

  /** The number of times the closed chain changes between above and not above the point is even. */
  function Changes(p: Point, es: seq<Edge>): nat {
    if es == [] then 0
    else Changes(p, es[..|es| - 1]) + if Straddles(p, es[|es| - 1].1, es[|es| - 1].0) then 1 else 0
  }

  predicate Above(p: Point, v: Point) { v.y > p.y }

  lemma ChangesStep(p: Point, es: seq<Edge>, i: nat)
    requires i < |es|
    ensures Odd(Changes(p, es[..i + 1])) <==> (Odd(Changes(p, es[..i])) != (Above(p, es[i].1) != Above(p, es[i].0)))
  {
    assert es[..i + 1][..i] == es[..i];
  }

  lemma {:induction false} ChangesAlongChain(p: Point, polygon: seq<Point>, k: nat)
    requires 0 < k <= |polygon|
    ensures Odd(Changes(p, Edges(polygon)[..k])) <==> (Above(p, polygon[|polygon| - 1]) != Above(p, polygon[k - 1]))
    decreases k
  {
    var es := Edges(polygon);
    ChangesStep(p, es, k - 1);
    if k > 1 {
      assert es[k - 1] == (polygon[k - 2], polygon[k - 1]);
      ChangesAlongChain(p, polygon, k - 1);
    } else {
      assert es[..0] == [] && es[0] == (polygon[|polygon| - 1], polygon[0]);
    }
  }

  lemma ChangesAreEven(p: Point, polygon: seq<Point>)
    ensures !Odd(Changes(p, Edges(polygon)))
  {
    if polygon != [] {
      ChangesAlongChain(p, polygon, |polygon|);
      assert Edges(polygon)[..|polygon|] == Edges(polygon);
    }
  }

  lemma Fraction(h: real, d: real)
    requires (0.0 <= h <= d && d > 0.0) || (d <= h <= 0.0 && d < 0.0)
    ensures 0.0 <= h / d <= 1.0
  {
  }

  /** A straddling edge meets the horizontal between its two ends. */
  lemma MeetsBetweenEnds(p: Point, a: Point, b: Point)
    requires Straddles(p, a, b)
    ensures Min(a.x, b.x) <= MeetsAt(p, a, b) <= Max(a.x, b.x)
  {
    var d, h := b.y - a.y, p.y - a.y;
    var t := h / d;
    DivTimes(h, d);
    Fraction(h, d);
    BetweenEnds(a.x, b.x, t);
    MeetsTimesRise(p, a, b);
    var v := b.x - a.x;
    assert (a.x + t * v) * d == a.x * d + v * (t * d);
    CancelFactor(a.x + t * v, MeetsAt(p, a, b), d);
  }

  lemma {:induction false} FarLeftCountsChanges(p: Point, es: seq<Edge>)
    requires forall e | e in es :: p.x < e.0.x && p.x < e.1.x
    ensures Crossings(p, es) == Changes(p, es)
    decreases |es|
  {
    if es != [] {
      var e := es[|es| - 1];
      assert e in es;
      FarLeftCountsChanges(p, es[..|es| - 1]);
      if Straddles(p, e.1, e.0) {
        MeetsBetweenEnds(p, e.1, e.0);
      }
    }
  }

  lemma {:induction false} FarRightCrossesNothing(p: Point, es: seq<Edge>)
    requires forall e | e in es :: e.0.x < p.x && e.1.x < p.x
    ensures Crossings(p, es) == 0
    decreases |es|
  {
    if es != [] {
      var e := es[|es| - 1];
      assert e in es;
      FarRightCrossesNothing(p, es[..|es| - 1]);
      if Straddles(p, e.1, e.0) {
        MeetsBetweenEnds(p, e.1, e.0);
      }
    }
  }

  lemma {:induction false} FlatCrossesNothing(p: Point, es: seq<Edge>)
    requires forall e | e in es :: !Straddles(p, e.1, e.0)
    ensures Crossings(p, es) == 0
    decreases |es|
  {
    if es != [] {
      assert es[|es| - 1] in es;
      FlatCrossesNothing(p, es[..|es| - 1]);
    }
  }

  lemma OutsideCrossesEvenly(p: Point, polygon: seq<Point>, lo: Point, hi: Point)
    requires Bounded(polygon, lo, hi) && !Within(p, lo, hi, 0.0)
    ensures !Odd(Crossings(p, Edges(polygon)))
  {
    var es := Edges(polygon);
    EdgesBounded(polygon, lo, hi);
    ChangesAreEven(p, polygon);
    if p.x < lo.x {
      FarLeftCountsChanges(p, es);
    } else if p.x > hi.x {
      FarRightCrossesNothing(p, es);
    } else {
      FlatCrossesNothing(p, es);
    }
  }

  lemma BoundaryIsWithinBounds(p: Point, polygon: seq<Point>, lo: Point, hi: Point)
    requires Bounded(polygon, lo, hi) && OnBoundary(p, polygon)
    ensures Within(p, lo, hi, EPS)
  {
    EdgesBounded(polygon, lo, hi);
    var e :| e in Edges(polygon) && OnSegment(p, e.0, e.1);
  }

  /** Whatever the shape, even one that crosses itself, no point outside its bounding box is accepted. */
  lemma InsideIsWithinBounds(p: Point, polygon: seq<Point>, lo: Point, hi: Point)
    requires Bounded(polygon, lo, hi) && Contains(p, polygon)
    ensures Within(p, lo, hi, EPS)
  {
    if OnBoundary(p, polygon) {
      BoundaryIsWithinBounds(p, polygon, lo, hi);
    } else if !Within(p, lo, hi, 0.0) {
      OutsideCrossesEvenly(p, polygon, lo, hi);
    }
  }

  lemma EdgesBounded(polygon: seq<Point>, lo: Point, hi: Point)
    requires Bounded(polygon, lo, hi)
    ensures forall e | e in Edges(polygon) :: Within(e.0, lo, hi, 0.0) && Within(e.1, lo, hi, 0.0)
  {
    forall e | e in Edges(polygon) ensures Within(e.0, lo, hi, 0.0) && Within(e.1, lo, hi, 0.0) {
      assert e.0 in polygon && e.1 in polygon;
    }
  }

  // ---------------------------------------------------------------- rectangles

  function Rectangle(lo: Point, hi: Point): seq<Point> {
    [lo, Point(hi.x, lo.y), hi, Point(lo.x, hi.y)]
  }

  lemma UprightEdge(p: Point, x: real, y1: real, y2: real)
    requires y1 != y2
    ensures MeetsAt(p, Point(x, y1), Point(x, y2)) == x
  {
    var h, d := p.y - y1, y2 - y1;
    assert (x - x) * h == 0.0;
  }

  lemma CrossingsOfFour(p: Point, a: Edge, b: Edge, c: Edge, d: Edge)
    ensures Crossings(p, [a, b, c, d])
         == (if Crosses(p, a.1, a.0) then 1 else 0) + (if Crosses(p, b.1, b.0) then 1 else 0)
          + (if Crosses(p, c.1, c.0) then 1 else 0) + (if Crosses(p, d.1, d.0) then 1 else 0)
  {
    CrossingsOne(p, a);
    CrossingsConcat(p, [a], [b]);
    CrossingsOne(p, b);
    CrossingsConcat(p, [a, b], [c]);
    CrossingsOne(p, c);
    CrossingsConcat(p, [a, b, c], [d]);
    CrossingsOne(p, d);
    assert [a, b, c, d] == [a, b, c] + [d] && [a, b, c] == [a, b] + [c] && [a, b] == [a] + [b];
  }

  lemma RectangleRay(p: Point, lo: Point, hi: Point)
    requires lo.x < hi.x && lo.y < hi.y
    ensures Odd(Crossings(p, Edges(Rectangle(lo, hi)))) <==> lo.x <= p.x < hi.x && lo.y <= p.y < hi.y
  {
    var ne, sw := Point(hi.x, lo.y), Point(lo.x, hi.y);
    assert Edges(Rectangle(lo, hi)) == [(sw, lo), (lo, ne), (ne, hi), (hi, sw)];
    CrossingsOfFour(p, (sw, lo), (lo, ne), (ne, hi), (hi, sw));
    UprightEdge(p, lo.x, lo.y, hi.y);
    UprightEdge(p, hi.x, hi.y, lo.y);
  }

  /** A side of the rectangle is one of the polygon's edges, and its points are on it. */
  lemma SideIsBoundary(p: Point, lo: Point, hi: Point)
    requires lo.x < hi.x && lo.y < hi.y && Within(p, lo, hi, 0.0)
    requires p.x == lo.x || p.x == hi.x || p.y == lo.y || p.y == hi.y
    ensures OnBoundary(p, Rectangle(lo, hi))
  {
    var ne, sw := Point(hi.x, lo.y), Point(lo.x, hi.y);
    var es := Edges(Rectangle(lo, hi));
    assert es[0] == (sw, lo) && es[1] == (lo, ne) && es[2] == (ne, hi) && es[3] == (hi, sw);
    var i := if p.x == lo.x then 0 else if p.y == lo.y then 1 else if p.x == hi.x then 2 else 3;
    FlatCross(p, es[i].0, es[i].1);
    assert es[i] in es;
  }

  lemma FlatCross(p: Point, a: Point, b: Point)
    requires (a.x == b.x == p.x) || (a.y == b.y == p.y)
    ensures Cross(p, a, b) == 0.0
  {
  }

  /**
   A zone drawn as an upright rectangle accepts every point of it, nothing further than the tolerance
   outside it, and off the tolerance band exactly its interior.
   */
  lemma RectangleMembership(p: Point, lo: Point, hi: Point)
    requires lo.x < hi.x && lo.y < hi.y
    ensures Within(p, lo, hi, 0.0) ==> Contains(p, Rectangle(lo, hi))
    ensures Contains(p, Rectangle(lo, hi)) ==> Within(p, lo, hi, EPS)
    ensures !OnBoundary(p, Rectangle(lo, hi)) ==>
              (Contains(p, Rectangle(lo, hi)) <==> lo.x < p.x < hi.x && lo.y < p.y < hi.y)
  {
    RectangleRay(p, lo, hi);
    if Within(p, lo, hi, 0.0) && (p.x == lo.x || p.x == hi.x || p.y == lo.y || p.y == hi.y) {
      SideIsBoundary(p, lo, hi);
    }
    if Contains(p, Rectangle(lo, hi)) {
      InsideIsWithinBounds(p, Rectangle(lo, hi), lo, hi);
    }
  }

  // ---------------------------------------------------------------- intersection over union

  lemma ProductsGrow(a: real, b: real, c: real, d: real)
    requires 0.0 <= a <= c && 0.0 <= b <= d
    ensures 0.0 <= a * b <= c * d
    ensures c * d > 0.0 && a * b == c * d ==> a == c && b == d
  {
    assert a * b <= c * b <= c * d;
    if c * d > 0.0 && a * b == c * d {
      assert c > 0.0 && d > 0.0;
      assert (c - a) * b == 0.0 && c * (d - b) == 0.0;
    }
  }

  lemma MeetIsSmaller(a: Box, b: Box)
    ensures 0.0 <= Area(Meet(a, b)) <= Area(a)
    ensures Area(a) > 0.0 && Area(Meet(a, b)) == Area(a) ==>
              Meet(a, b).x2 - Meet(a, b).x1 == a.x2 - a.x1 && Meet(a, b).y2 - Meet(a, b).y1 == a.y2 - a.y1
  {
    var m := Meet(a, b);
    ProductsGrow(Extent(m.x1, m.x2), Extent(m.y1, m.y2), Extent(a.x1, a.x2), Extent(a.y1, a.y2));
    if Area(a) > 0.0 {
      PositiveArea(a);
    }
  }

  lemma PositiveArea(b: Box)
    ensures Area(b) > 0.0 <==> b.x1 < b.x2 && b.y1 < b.y2
  {
    var w, h := Extent(b.x1, b.x2), Extent(b.y1, b.y2);
    assert w == 0.0 || h == 0.0 ==> w * h == 0.0;
    assert w > 0.0 && h > 0.0 ==> w * h > 0.0;
  }

  /** The same box, and not an empty or inverted one. */
  predicate SameProper(a: Box, b: Box) { a == b && a.x1 < a.x2 && a.y1 < a.y2 }

  predicate Overlap(a: Box, b: Box) {
    var m := Meet(a, b);
    m.x1 < m.x2 && m.y1 < m.y2
  }

  /**
   For all boxes, inverted ones included: a symmetric ratio, positive exactly on overlap, one exactly for
   the same box.
   */
  lemma IouRange(a: Box, b: Box)
    ensures Iou(a, b) == Iou(b, a)
    ensures 0.0 <= Iou(a, b) <= 1.0
    ensures Iou(a, b) > 0.0 <==> Overlap(a, b)
    ensures Iou(a, b) == 1.0 <==> SameProper(a, b)
  {
    var i := Area(Meet(a, b));
    var u := Area(a) + Area(b) - i;
    assert Meet(a, b) == Meet(b, a);
    MeetIsSmaller(a, b);
    MeetIsSmaller(b, a);
    PositiveArea(Meet(a, b));
    PositiveArea(a);
    if u > 0.0 {
      Fraction(i, u);
      DivTimes(i, u);
      assert i > 0.0 ==> i / u > 0.0;
      assert i / u == 1.0 <==> i == u;
    }
  }

  predicate Proper(b: Box) { b.x1 < b.x2 && b.y1 < b.y2 }

  predicate InsideOf(a: Box, b: Box) {
    b.x1 <= a.x1 && a.x2 <= b.x2 && b.y1 <= a.y1 && a.y2 <= b.y2
  }

  /** Of a box within another the ratio is that of the two areas. */
  lemma IouOfNested(a: Box, b: Box)
    requires Proper(a) && InsideOf(a, b)
    ensures Iou(a, b) * ((b.x2 - b.x1) * (b.y2 - b.y1)) == (a.x2 - a.x1) * (a.y2 - a.y1)
  {
    assert Meet(a, b) == a;
    PositiveArea(b);
    DivTimes(Area(a), Area(b));
  }
}
