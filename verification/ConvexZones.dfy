/**
 Which points a convex zone accepts: off the tolerance band, exactly those on the inner side of every
 edge, whatever the slant of the edges.
 */
module ConvexZones {
  import opened Geometry
  import opened GeometryLaws
  import opened Reals

  // ---------------------------------------------------------------- one edge and the height of the point

  /** The point where the line through an edge meets the horizontal through p. */
  function Hit(p: Point, a: Point, b: Point): Point {
    Point(MeetsAt(p, a, b), p.y)
  }

  lemma SidewaysCross(p: Point, q: Point, a: Point, b: Point)
    requires p.y == q.y
    ensures Cross(p, a, b) - Cross(q, a, b) == Times(q.x - p.x, b.y - a.y)
  {
    SameHeight(p.x, q.x, p.y, a, b);
    assert p == Point(p.x, p.y) && q == Point(q.x, p.y);
  }

  lemma SameHeight(px: real, qx: real, y: real, a: Point, b: Point)
    ensures Cross(Point(px, y), a, b) - Cross(Point(qx, y), a, b) == Times(qx - px, b.y - a.y)
  {
    var d := b.y - a.y;
    assert (px - a.x) * d - (qx - a.x) * d == (px - qx) * d;
    assert (qx - px) * d == -((px - qx) * d);
  }

  lemma HitIsOnLine(p: Point, a: Point, b: Point)
    requires a.y != b.y
    ensures Cross(Hit(p, a, b), a, b) == 0.0
  {
    var m, d := MeetsAt(p, a, b), b.y - a.y;
    MeetsTimesRise(p, a, b);
    assert (m - a.x) * d == m * d - a.x * d;
    assert (p.y - a.y) * (b.x - a.x) == (b.x - a.x) * (p.y - a.y);
  }

  /** Between the heights of its ends, an edge's tolerance band is a billionth over its rise wide to either side. */
  lemma BandOfSlantedEdge(p: Point, a: Point, b: Point)
    requires a.y != b.y && Min(a.x, b.x) <= p.x <= Max(a.x, b.x) && Min(a.y, b.y) <= p.y <= Max(a.y, b.y)
    ensures OnSegment(p, a, b) <==> Abs(p.x - MeetsAt(p, a, b)) * Abs(b.y - a.y) <= 0.000000001
  {
    HitIsOnLine(p, a, b);
    SidewaysCross(Hit(p, a, b), p, a, b);
    AbsTimes(p.x - MeetsAt(p, a, b), b.y - a.y);
  }

  lemma AbsTimes(x: real, y: real)
    ensures Abs(Times(x, y)) == Abs(x) * Abs(y)
  {
    if x > 0.0 && y < 0.0 { ProductPositive(x, -y); }
    if x < 0.0 && y > 0.0 { ProductPositive(-x, y); }
    assert x * (-y) == -(x * y) && (-x) * y == -(x * y) && (-x) * (-y) == x * y;
    if x >= 0.0 && y >= 0.0 { ProductNonNegative(x, y); }
    if x <= 0.0 && y <= 0.0 { ProductNonNegative(-x, -y); }
  }

  lemma SignTimesPositive(x: real, y: real)
    requires y > 0.0
    ensures Times(x, y) > 0.0 <==> x > 0.0
    ensures Times(x, y) < 0.0 <==> x < 0.0
  {
    if x > 0.0 {
      ProductPositive(x, y);
    } else if x < 0.0 {
      ProductPositive(-x, y);
      assert (-x) * y == -(x * y);
    }
  }

  lemma LeftOfRising(p: Point, q: Point, a: Point, b: Point)
    requires q.y == p.y && a.y < b.y
    ensures Cross(q, a, b) > 0.0 <==> q.x < MeetsAt(p, a, b)
    ensures Cross(q, a, b) < 0.0 <==> q.x > MeetsAt(p, a, b)
  {
    var m := Hit(p, a, b);
    HitIsOnLine(p, a, b);
    SidewaysCross(q, m, a, b);
    SignTimesPositive(m.x - q.x, b.y - a.y);
  }

  lemma LeftOfFalling(p: Point, q: Point, a: Point, b: Point)
    requires q.y == p.y && a.y > b.y
    ensures Cross(q, a, b) > 0.0 <==> q.x > MeetsAt(p, a, b)
    ensures Cross(q, a, b) < 0.0 <==> q.x < MeetsAt(p, a, b)
  {
    LeftOfRising(p, q, b, a);
    MeetsFlips(p, a, b);
    CrossFlips(q, a, b);
  }

  /** Left of an edge that goes up, or right of one that goes down: the ray to the right crosses it. */
  lemma CrossedIffOnItsLeft(p: Point, a: Point, b: Point)
    requires Straddles(p, a, b)
    ensures Crosses(p, a, b) <==> if b.y > a.y then Cross(p, a, b) > 0.0 else Cross(p, a, b) < 0.0
  {
    if b.y > a.y {
      LeftOfRising(p, p, a, b);
    } else {
      LeftOfFalling(p, p, a, b);
    }
  }

  /** The meeting point is a weighted mean of the ends, so its side of a line is that of theirs. */
  lemma HitIsBetween(p: Point, a: Point, b: Point, c: Point, d: Point)
    requires a.y != b.y
    ensures Times(b.y - a.y, Cross(Hit(p, a, b), c, d))
         == Times(b.y - p.y, Cross(a, c, d)) + Times(p.y - a.y, Cross(b, c, d))
  {
    var r, s, t := b.y - a.y, b.y - p.y, p.y - a.y;
    var u, v := d.x - c.x, d.y - c.y;
    var x := MeetsAt(p, a, b);
    MeetsTimesRise(p, a, b);
    assert x * r == s * a.x + t * b.x by {
      assert x * r == (b.x - a.x) * t + a.x * r;
      assert (b.x - a.x) * t == b.x * t - a.x * t;
      assert a.x * r == a.x * s + a.x * t;
    }
    assert p.y * r == s * a.y + t * b.y by {
      assert p.y * r == p.y * s + p.y * t;
      assert s * a.y + t * b.y == s * (p.y - t) + t * (p.y + s);
      assert s * (p.y - t) == s * p.y - s * t;
      assert t * (p.y + s) == t * p.y + t * s;
    }
    Blend(r, s, t, x, a.x, b.x, c.x);
    Blend(r, s, t, p.y, a.y, b.y, c.y);
    Spread(r, s, t, p.y - c.y, a.y - c.y, b.y - c.y, u);
    Spread(r, s, t, x - c.x, a.x - c.x, b.x - c.x, v);
    var py, px := (p.y - c.y) * u, (x - c.x) * v;
    assert r * (py - px) == r * py - r * px;
    var ay, ax, by_, bx := (a.y - c.y) * u, (a.x - c.x) * v, (b.y - c.y) * u, (b.x - c.x) * v;
    assert s * (ay - ax) == s * ay - s * ax && t * (by_ - bx) == t * by_ - t * bx;
  }

  lemma Blend(r: real, s: real, t: real, m: real, a: real, b: real, c: real)
    requires r == s + t && m * r == s * a + t * b
    ensures r * (m - c) == s * (a - c) + t * (b - c)
  {
    assert r * (m - c) == m * r - r * c;
    assert s * (a - c) == s * a - s * c && t * (b - c) == t * b - t * c;
    assert (s + t) * c == s * c + t * c;
  }

  lemma Spread(r: real, s: real, t: real, m: real, a: real, b: real, u: real)
    requires r * m == s * a + t * b
    ensures r * (m * u) == s * (a * u) + t * (b * u)
  {
    assert r * (m * u) == (r * m) * u;
    assert (s * a + t * b) * u == (s * a) * u + (t * b) * u;
    assert (s * a) * u == s * (a * u) && (t * b) * u == t * (b * u);
  }

  /** Where a straddling edge is met it is on no worse a side of a line than its ends. */
  lemma HitSide(p: Point, a: Point, b: Point, c: Point, d: Point)
    requires Straddles(p, a, b) && Cross(a, c, d) >= 0.0 && Cross(b, c, d) >= 0.0
    ensures Cross(Hit(p, a, b), c, d) >= 0.0
    ensures (if a.y > p.y then Cross(b, c, d) else Cross(a, c, d)) > 0.0 ==> Cross(Hit(p, a, b), c, d) > 0.0
  {
    var h, ca, cb := Cross(Hit(p, a, b), c, d), Cross(a, c, d), Cross(b, c, d);
    HitIsBetween(p, a, b, c, d);
    if b.y > a.y {
      WeightedSign(b.y - a.y, b.y - p.y, p.y - a.y, h, ca, cb);
    } else {
      NegatedFactor(b.y - a.y, a.y - b.y, h);
      NegatedFactor(b.y - p.y, p.y - b.y, ca);
      NegatedFactor(p.y - a.y, a.y - p.y, cb);
      WeightedSign(a.y - b.y, a.y - p.y, p.y - b.y, h, cb, ca);
    }
  }

  lemma NegatedFactor(x: real, y: real, z: real)
    requires x == -y
    ensures Times(x, z) == -Times(y, z)
  {
    assert (-y) * z == -(y * z);
  }

  lemma WeightedSign(r: real, s: real, t: real, h: real, a: real, b: real)
    requires r > 0.0 && s >= 0.0 && t >= 0.0 && a >= 0.0 && b >= 0.0
    requires Times(r, h) == Times(s, a) + Times(t, b)
    ensures h >= 0.0
    ensures s > 0.0 && a > 0.0 ==> h > 0.0
  {
    ProductNonNegative(s, a);
    ProductNonNegative(t, b);
    if s > 0.0 && a > 0.0 {
      ProductPositive(s, a);
    }
    SignTimesPositive(h, r);
    assert Times(h, r) == Times(r, h);
  }

  // ---------------------------------------------------------------- convex zones

  /** Edge i ends in vertex i. */
  function Prev(n: nat, i: nat): (j: nat)
    requires i < n
    ensures j < n
  {
    if i == 0 then n - 1 else i - 1
  }

  function EdgeAt(polygon: seq<Point>, i: nat): (e: Edge)
    requires i < |polygon|
    ensures e == Edges(polygon)[i]
  {
    (polygon[Prev(|polygon|, i)], polygon[i])
  }

  /** Positive on the left of edge i, zero on its line. */
  function Side(p: Point, polygon: seq<Point>, i: nat): real
    requires i < |polygon|
  {
    Cross(p, EdgeAt(polygon, i).0, EdgeAt(polygon, i).1)
  }

  /** Every vertex that is not an end of an edge is strictly on its left. */
  ghost predicate Convex(polygon: seq<Point>) {
    && |polygon| >= 3
    && forall i, k | 0 <= i < |polygon| && 0 <= k < |polygon| && k != i && k != Prev(|polygon|, i) ::
         Side(polygon[k], polygon, i) > 0.0
  }

  lemma VertexSide(polygon: seq<Point>, i: nat, k: nat)
    requires Convex(polygon) && i < |polygon| && k < |polygon|
    ensures Side(polygon[k], polygon, i) >= 0.0
  {
    EndsAreOnLine(EdgeAt(polygon, i).0, EdgeAt(polygon, i).1);
  }

  lemma EndsAreOnLine(a: Point, b: Point)
    ensures Cross(a, a, b) == 0.0 && Cross(b, a, b) == 0.0
  {
    var u, v := b.x - a.x, b.y - a.y;
    assert v * u - u * v == 0.0;
    assert 0.0 * u - 0.0 * v == 0.0;
  }

  // ---------------------------------------------------------------- one edge up, one edge down

  predicate Up(p: Point, polygon: seq<Point>, i: nat)
    requires i < |polygon|
  {
    !Above(p, EdgeAt(polygon, i).0) && Above(p, EdgeAt(polygon, i).1)
  }

  predicate Down(p: Point, polygon: seq<Point>, i: nat)
    requires i < |polygon|
  {
    Above(p, EdgeAt(polygon, i).0) && !Above(p, EdgeAt(polygon, i).1)
  }

  function HitOf(p: Point, polygon: seq<Point>, i: nat): Point
    requires i < |polygon|
  {
    Hit(p, EdgeAt(polygon, i).0, EdgeAt(polygon, i).1)
  }

  /** Where one edge is met is on the inner side of every other one. */
  lemma HitIsInside(p: Point, polygon: seq<Point>, i: nat, j: nat)
    requires Convex(polygon) && i < |polygon| && j < |polygon|
    requires Up(p, polygon, i) || Down(p, polygon, i)
    ensures Side(HitOf(p, polygon, i), polygon, j) >= 0.0
    ensures i != j && (if Up(p, polygon, i) then Up(p, polygon, j) else Down(p, polygon, j)) ==>
              Side(HitOf(p, polygon, i), polygon, j) > 0.0
  {
    var n := |polygon|;
    VertexSide(polygon, j, i);
    VertexSide(polygon, j, Prev(n, i));
    var (a, b) := EdgeAt(polygon, i);
    var (c, d) := EdgeAt(polygon, j);
    HitSide(p, a, b, c, d);
    if i != j && (if Up(p, polygon, i) then Up(p, polygon, j) else Down(p, polygon, j)) {
      var lower := if Up(p, polygon, i) then Prev(n, i) else i;
      assert lower != j && lower != Prev(n, j);
      assert Side(polygon[lower], polygon, j) > 0.0;
    }
  }

  /** At the height of p, the inner side of an edge that goes up is its left, of one that goes down its right. */
  lemma SideOfHit(p: Point, q: Point, polygon: seq<Point>, j: nat)
    requires j < |polygon| && q.y == p.y
    ensures Up(p, polygon, j) ==> (Side(q, polygon, j) > 0.0 <==> q.x < HitOf(p, polygon, j).x)
    ensures Up(p, polygon, j) ==> (Side(q, polygon, j) < 0.0 <==> q.x > HitOf(p, polygon, j).x)
    ensures Down(p, polygon, j) ==> (Side(q, polygon, j) > 0.0 <==> q.x > HitOf(p, polygon, j).x)
    ensures Down(p, polygon, j) ==> (Side(q, polygon, j) < 0.0 <==> q.x < HitOf(p, polygon, j).x)
  {
    var (a, b) := EdgeAt(polygon, j);
    if Up(p, polygon, j) {
      LeftOfRising(p, q, a, b);
    } else if Down(p, polygon, j) {
      LeftOfFalling(p, q, a, b);
    }
  }

  lemma UpIsLeftOf(p: Point, polygon: seq<Point>, i: nat, j: nat)
    requires Convex(polygon) && i < |polygon| && j < |polygon| && Up(p, polygon, i) && Up(p, polygon, j) && i != j
    ensures HitOf(p, polygon, i).x < HitOf(p, polygon, j).x
  {
    HitIsInside(p, polygon, i, j);
    SideOfHit(p, HitOf(p, polygon, i), polygon, j);
  }

  lemma OneUp(p: Point, polygon: seq<Point>, i: nat, j: nat)
    requires Convex(polygon) && i < |polygon| && j < |polygon| && Up(p, polygon, i) && Up(p, polygon, j)
    ensures i == j
  {
    if i != j {
      UpIsLeftOf(p, polygon, i, j);
      UpIsLeftOf(p, polygon, j, i);
    }
  }

  lemma DownIsRightOf(p: Point, polygon: seq<Point>, i: nat, j: nat)
    requires Convex(polygon) && i < |polygon| && j < |polygon|
    requires Down(p, polygon, i) && Down(p, polygon, j) && i != j
    ensures HitOf(p, polygon, i).x > HitOf(p, polygon, j).x
  {
    HitIsInside(p, polygon, i, j);
    SideOfHit(p, HitOf(p, polygon, i), polygon, j);
  }

  lemma OneDown(p: Point, polygon: seq<Point>, i: nat, j: nat)
    requires Convex(polygon) && i < |polygon| && j < |polygon| && Down(p, polygon, i) && Down(p, polygon, j)
    ensures i == j
  {
    if i != j {
      DownIsRightOf(p, polygon, i, j);
      DownIsRightOf(p, polygon, j, i);
    }
  }

  /** The edge that goes down is met on the left of the one that goes up. */
  lemma DownBeforeUp(p: Point, polygon: seq<Point>, u: nat, d: nat)
    requires Convex(polygon) && u < |polygon| && d < |polygon| && Up(p, polygon, u) && Down(p, polygon, d)
    ensures HitOf(p, polygon, d).x <= HitOf(p, polygon, u).x
  {
    HitIsInside(p, polygon, d, u);
    SideOfHit(p, HitOf(p, polygon, d), polygon, u);
  }

  // ---------------------------------------------------------------- a closed chain that goes up comes down

  /** Between two vertices on different sides of the height an edge passes it, in the same direction. */
  lemma {:induction false} Passes(p: Point, polygon: seq<Point>, i: nat, j: nat) returns (k: nat)
    requires i <= j < |polygon| && Above(p, polygon[i]) != Above(p, polygon[j])
    ensures i < k <= j && Above(p, polygon[k]) == Above(p, polygon[j])
    ensures Above(p, EdgeAt(polygon, k).0) == Above(p, polygon[i])
    decreases j - i
  {
    if Above(p, polygon[j - 1]) == Above(p, polygon[i]) {
      k := j;
    } else {
      k := Passes(p, polygon, i, j - 1);
    }
  }

  lemma PassesBack(p: Point, polygon: seq<Point>, i: nat) returns (k: nat)
    requires i < |polygon| && Above(p, EdgeAt(polygon, i).0) != Above(p, EdgeAt(polygon, i).1)
    ensures k < |polygon| && Above(p, EdgeAt(polygon, k).0) == Above(p, EdgeAt(polygon, i).1)
    ensures Above(p, EdgeAt(polygon, k).1) == Above(p, EdgeAt(polygon, i).0)
  {
    var last := |polygon| - 1;
    if i == 0 {
      k := Passes(p, polygon, 0, last);
    } else if Above(p, polygon[0]) == Above(p, polygon[i]) {
      k := Passes(p, polygon, 0, i - 1);
    } else if Above(p, polygon[last]) != Above(p, polygon[i]) {
      k := Passes(p, polygon, i, last);
    } else {
      k := 0;
    }
  }

  // ---------------------------------------------------------------- the crossings of a convex zone

  predicate CrossesAt(p: Point, polygon: seq<Point>, i: nat)
    requires i < |polygon|
  {
    Crosses(p, EdgeAt(polygon, i).1, EdgeAt(polygon, i).0)
  }

  /** To the right of p: exactly the passing edges that are met there. */
  lemma CrossesAtIff(p: Point, polygon: seq<Point>, i: nat)
    requires i < |polygon|
    ensures CrossesAt(p, polygon, i)
            <==> (Up(p, polygon, i) || Down(p, polygon, i)) && p.x < HitOf(p, polygon, i).x
  {
    CrossesFlips(p, EdgeAt(polygon, i).0, EdgeAt(polygon, i).1);
  }

  /** Which edges the ray crosses. */
  function Marks(p: Point, polygon: seq<Point>): (marks: seq<bool>)
    ensures |marks| == |polygon|
  {
    seq(|polygon|, i requires 0 <= i < |polygon| => CrossesAt(p, polygon, i))
  }

  function Trues(marks: seq<bool>): nat {
    if marks == [] then 0 else Trues(marks[..|marks| - 1]) + if marks[|marks| - 1] then 1 else 0
  }

  lemma {:induction false} CrossingsAreMarks(p: Point, polygon: seq<Point>, m: nat)
    requires m <= |polygon|
    ensures Crossings(p, Edges(polygon)[..m]) == Trues(Marks(p, polygon)[..m])
    decreases m
  {
    if m > 0 {
      var es, marks := Edges(polygon)[..m], Marks(p, polygon)[..m];
      CrossingsAreMarks(p, polygon, m - 1);
      assert es[..m - 1] == Edges(polygon)[..m - 1] && marks[..m - 1] == Marks(p, polygon)[..m - 1];
      assert es[m - 1] == EdgeAt(polygon, m - 1);
    }
  }

  lemma CrossingsAreTrues(p: Point, polygon: seq<Point>)
    ensures Crossings(p, Edges(polygon)) == Trues(Marks(p, polygon))
  {
    CrossingsAreMarks(p, polygon, |polygon|);
    assert Edges(polygon)[..|polygon|] == Edges(polygon);
    assert Marks(p, polygon)[..|polygon|] == Marks(p, polygon);
  }

  lemma OnlyTwo(marks: seq<bool>, u: nat, d: nat)
    requires u < |marks| && d < |marks| && u != d
    requires forall i | 0 <= i < |marks| && marks[i] :: i == u || i == d
    ensures Odd(Trues(marks)) <==> marks[u] != marks[d]
  {
    TwoSoFar(marks, u, d, |marks|);
    assert marks[..|marks|] == marks;
  }

  lemma {:induction false} TwoSoFar(marks: seq<bool>, u: nat, d: nat, m: nat)
    requires u < |marks| && d < |marks| && u != d && m <= |marks|
    requires forall i | 0 <= i < |marks| && marks[i] :: i == u || i == d
    ensures Trues(marks[..m]) == (if u < m && marks[u] then 1 else 0) + (if d < m && marks[d] then 1 else 0)
    decreases m
  {
    if m > 0 {
      TwoSoFar(marks, u, d, m - 1);
      assert marks[..m][..m - 1] == marks[..m - 1] && marks[..m][m - 1] == marks[m - 1];
    }
  }

  lemma MarkedIsUpOrDown(p: Point, polygon: seq<Point>, u: nat, d: nat, i: nat)
    requires Convex(polygon) && u < |polygon| && d < |polygon| && Up(p, polygon, u) && Down(p, polygon, d)
    requires i < |polygon| && Marks(p, polygon)[i]
    ensures i == u || i == d
  {
    CrossesAtIff(p, polygon, i);
    if Up(p, polygon, i) {
      OneUp(p, polygon, i, u);
    } else {
      OneDown(p, polygon, i, d);
    }
  }

  lemma OddIffOneOfTwo(p: Point, polygon: seq<Point>, u: nat, d: nat)
    requires Convex(polygon) && u < |polygon| && d < |polygon| && Up(p, polygon, u) && Down(p, polygon, d)
    ensures Odd(Trues(Marks(p, polygon))) <==> Marks(p, polygon)[u] != Marks(p, polygon)[d]
  {
    var marks := Marks(p, polygon);
    forall i | 0 <= i < |marks| && marks[i] ensures i == u || i == d {
      MarkedIsUpOrDown(p, polygon, u, d, i);
    }
    OnlyTwo(marks, u, d);
  }

  lemma MarkIff(p: Point, polygon: seq<Point>, i: nat)
    requires i < |polygon| && (Up(p, polygon, i) || Down(p, polygon, i))
    ensures Marks(p, polygon)[i] <==> p.x < HitOf(p, polygon, i).x
  {
    CrossesAtIff(p, polygon, i);
  }

  /** The ray cast, when the height of the point is passed at all: between the edge down and the edge up. */
  lemma RayIsBetween(p: Point, polygon: seq<Point>, u: nat, d: nat)
    requires Convex(polygon) && u < |polygon| && d < |polygon| && Up(p, polygon, u) && Down(p, polygon, d)
    ensures Odd(Crossings(p, Edges(polygon))) <==> HitOf(p, polygon, d).x <= p.x < HitOf(p, polygon, u).x
  {
    OddIffOneOfTwo(p, polygon, u, d);
    CrossingsAreTrues(p, polygon);
    MarkIff(p, polygon, u);
    MarkIff(p, polygon, d);
    DownBeforeUp(p, polygon, u, d);
  }

  lemma {:induction false} NoneMarked(marks: seq<bool>)
    requires forall i | 0 <= i < |marks| :: !marks[i]
    ensures Trues(marks) == 0
    decreases |marks|
  {
    if marks != [] {
      NoneMarked(marks[..|marks| - 1]);
    }
  }

  lemma UnpassedCrossesNothing(p: Point, polygon: seq<Point>)
    requires forall i | 0 <= i < |polygon| :: !Up(p, polygon, i) && !Down(p, polygon, i)
    ensures Crossings(p, Edges(polygon)) == 0
  {
    var marks := Marks(p, polygon);
    CrossingsAreTrues(p, polygon);
    forall i | 0 <= i < |marks| ensures !marks[i] {
      CrossesAtIff(p, polygon, i);
    }
    NoneMarked(marks);
  }

  // ---------------------------------------------------------------- crossed once means inside

  lemma MetIsBoundary(p: Point, polygon: seq<Point>, i: nat)
    requires i < |polygon| && (Up(p, polygon, i) || Down(p, polygon, i)) && p.x == HitOf(p, polygon, i).x
    ensures OnBoundary(p, polygon)
  {
    var (a, b) := EdgeAt(polygon, i);
    MeetsBetweenEnds(p, a, b);
    HitIsOnLine(p, a, b);
    assert p == Hit(p, a, b) && Edges(polygon)[i] in Edges(polygon);
  }

  lemma FurtherLeft(p: Point, q: Point, a: Point, b: Point)
    requires p.y == q.y && p.x < q.x
    ensures b.y > a.y ==> Cross(p, a, b) > Cross(q, a, b)
    ensures b.y < a.y ==> Cross(p, a, b) < Cross(q, a, b)
    ensures b.y == a.y ==> Cross(p, a, b) == Cross(q, a, b)
  {
    SidewaysCross(p, q, a, b);
    if b.y > a.y {
      SignTimesPositive(q.x - p.x, b.y - a.y);
    } else if b.y < a.y {
      CrossFlips(p, a, b);
      CrossFlips(q, a, b);
      SidewaysCross(p, q, b, a);
      SignTimesPositive(q.x - p.x, a.y - b.y);
    } else {
      assert Times(q.x - p.x, 0.0) == 0.0;
    }
  }

  /** Between the two edges that pass its height a point is inside of every slanted edge, not outside of a flat one. */
  lemma BetweenHits(p: Point, polygon: seq<Point>, u: nat, d: nat, k: nat)
    requires Convex(polygon) && u < |polygon| && d < |polygon| && Up(p, polygon, u) && Down(p, polygon, d)
    requires HitOf(p, polygon, d).x < p.x < HitOf(p, polygon, u).x && k < |polygon|
    ensures Side(p, polygon, k) >= 0.0
    ensures EdgeAt(polygon, k).0.y != EdgeAt(polygon, k).1.y ==> Side(p, polygon, k) > 0.0
  {
    var (a, b) := EdgeAt(polygon, k);
    HitIsInside(p, polygon, u, k);
    HitIsInside(p, polygon, d, k);
    FurtherLeft(p, HitOf(p, polygon, u), a, b);
    FurtherLeft(HitOf(p, polygon, d), p, a, b);
  }

  /** A point at the height of a flat edge that is inside of both its neighbours is on it. */
  lemma BetweenNeighbours(p: Point, z: Point, a: Point, b: Point, w: Point)
    requires a.y == b.y == p.y && a.x != b.x && Cross(z, a, b) > 0.0 && Cross(w, a, b) > 0.0
    requires Cross(p, z, a) > 0.0 && Cross(p, b, w) > 0.0
    ensures OnSegment(p, a, b)
  {
    FlatCrossIsRise(w, a, b);
    FlatCrossIsRise(z, a, b);
    FlatCrossIsRise(p, a, b);
    CrossFlips(p, a, z);
    CrossAtHeight(p, a, z);
    CrossAtHeight(p, b, w);
    NegatedFactor(a.x - p.x, p.x - a.x, z.y - a.y);
    SameSign(b.x - a.x, w.y - b.y, b.x - p.x);
    SameSign(b.x - a.x, z.y - a.y, p.x - a.x);
  }

  lemma FlatCrossIsRise(w: Point, a: Point, b: Point)
    requires a.y == b.y
    ensures Cross(w, a, b) == Times(w.y - a.y, b.x - a.x)
  {
    LevelLine(w, a.x, b.x, a.y);
    assert a == Point(a.x, a.y) && b == Point(b.x, a.y);
  }

  lemma LevelLine(w: Point, ax: real, bx: real, y: real)
    ensures Cross(w, Point(ax, y), Point(bx, y)) == Times(w.y - y, bx - ax)
  {
    assert (w.x - ax) * 0.0 == 0.0;
  }

  lemma CrossAtHeight(p: Point, a: Point, z: Point)
    requires p.y == a.y
    ensures Cross(p, a, z) == Times(a.x - p.x, z.y - a.y)
  {
    SidewaysCross(p, a, a, z);
    EndsAreOnLine(a, z);
  }

  lemma SameSign(d: real, rise: real, x: real)
    requires d != 0.0 && Times(rise, d) > 0.0 && Times(x, rise) > 0.0
    ensures d > 0.0 <==> x > 0.0
    ensures d < 0.0 <==> x < 0.0
  {
    if d > 0.0 {
      SignTimesPositive(rise, d);
      SignTimesPositive(x, rise);
    } else {
      assert rise * d == (-rise) * (-d) && x * rise == (-x) * (-rise);
      SignTimesPositive(-rise, -d);
      SignTimesPositive(-x, -rise);
    }
  }

  function Next(n: nat, i: nat): (j: nat)
    requires i < n
    ensures j < n && Prev(n, j) == i
  {
    if i + 1 == n then 0 else i + 1
  }

  lemma FlatEdge(p: Point, polygon: seq<Point>, k: nat)
    requires Convex(polygon) && k < |polygon| && !OnBoundary(p, polygon)
    requires EdgeAt(polygon, k).0.y == EdgeAt(polygon, k).1.y && Side(p, polygon, k) >= 0.0
    requires forall j | 0 <= j < |polygon| && EdgeAt(polygon, j).0.y != EdgeAt(polygon, j).1.y ::
               Side(p, polygon, j) > 0.0
    ensures Side(p, polygon, k) > 0.0
  {
    var n := |polygon|;
    var (a, b) := EdgeAt(polygon, k);
    var before, after := Prev(n, k), Next(n, k);
    var z, w := polygon[Prev(n, before)], polygon[after];
    assert Side(z, polygon, k) > 0.0 && Side(w, polygon, k) > 0.0;
    assert EdgeAt(polygon, before) == (z, a) && EdgeAt(polygon, after) == (b, w);
    RisesFrom(z, a, b);
    RisesFrom(w, a, b);
    assert Edges(polygon)[k] in Edges(polygon);
    if Side(p, polygon, k) == 0.0 {
      OnFlatLine(p, a, b);
      BetweenNeighbours(p, z, a, b, w);
    }
  }

  lemma RisesFrom(z: Point, a: Point, b: Point)
    requires a.y == b.y && Cross(z, a, b) > 0.0
    ensures z.y != a.y && a.x != b.x
  {
    FlatCrossIsRise(z, a, b);
    assert z.y == a.y || a.x == b.x ==> Times(z.y - a.y, b.x - a.x) == 0.0;
  }

  lemma OnFlatLine(p: Point, a: Point, b: Point)
    requires a.y == b.y && a.x != b.x && Cross(p, a, b) == 0.0
    ensures p.y == a.y
  {
    FlatCrossIsRise(p, a, b);
    assert Times(p.y - a.y, b.x - a.x) == 0.0;
    CancelFactor(p.y - a.y, 0.0, b.x - a.x);
  }

  ghost predicate InsideAll(p: Point, polygon: seq<Point>) {
    forall k | 0 <= k < |polygon| :: Side(p, polygon, k) > 0.0
  }

  lemma PassedIsInsideIff(p: Point, polygon: seq<Point>, u: nat, d: nat)
    requires Convex(polygon) && u < |polygon| && d < |polygon| && Up(p, polygon, u) && Down(p, polygon, d)
    requires !OnBoundary(p, polygon)
    ensures HitOf(p, polygon, d).x <= p.x < HitOf(p, polygon, u).x <==> InsideAll(p, polygon)
  {
    SideOfHit(p, p, polygon, u);
    SideOfHit(p, p, polygon, d);
    if HitOf(p, polygon, d).x <= p.x < HitOf(p, polygon, u).x {
      if p.x == HitOf(p, polygon, d).x {
        MetIsBoundary(p, polygon, d);
      }
      forall k | 0 <= k < |polygon| ensures Side(p, polygon, k) >= 0.0
        ensures EdgeAt(polygon, k).0.y != EdgeAt(polygon, k).1.y ==> Side(p, polygon, k) > 0.0
      {
        BetweenHits(p, polygon, u, d, k);
      }
      forall k | 0 <= k < |polygon| ensures Side(p, polygon, k) > 0.0 {
        if EdgeAt(polygon, k).0.y == EdgeAt(polygon, k).1.y {
          FlatEdge(p, polygon, k);
        }
      }
    }
  }

  // ---------------------------------------------------------------- inside means passed

  lemma AtVertex(p: Point, z: Point, v: Point, w: Point)
    ensures Times(w.y - v.y, Cross(p, z, v)) - Times(v.y - z.y, Cross(p, v, w)) == Times(p.y - v.y, Cross(w, z, v))
  {
    var ax, ay, bx, by_, qx, qy := v.x - z.x, v.y - z.y, w.x - v.x, w.y - v.y, p.x - v.x, p.y - v.y;
    var axqy, ayqx, bxqy, byqx, axby, aybx := ax * qy, ay * qx, bx * qy, by_ * qx, ax * by_, ay * bx;
    assert Cross(p, z, v) == axqy - ayqx by {
      assert (qy + ay) * ax == axqy + ax * ay && (qx + ax) * ay == ayqx + ax * ay;
    }
    assert Cross(p, v, w) == bxqy - byqx;
    assert Cross(w, z, v) == axby - aybx by {
      assert (by_ + ay) * ax == axby + ax * ay && (bx + ax) * ay == aybx + ax * ay;
    }
    assert by_ * axqy == qy * axby && ay * bxqy == qy * aybx && by_ * ayqx == ay * byqx;
    assert by_ * (axqy - ayqx) == by_ * axqy - by_ * ayqx;
    assert ay * (bxqy - byqx) == ay * bxqy - ay * byqx;
    assert qy * (axby - aybx) == qy * axby - qy * aybx;
  }

  /** A point on the inner side of a corner's two edges is not below it if it is lowest, and is if it is highest. */
  lemma CornerIsPassed(p: Point, z: Point, v: Point, w: Point)
    requires Cross(p, z, v) > 0.0 && Cross(p, v, w) > 0.0 && Cross(w, z, v) > 0.0
    ensures v.y <= z.y && v.y <= w.y ==> v.y <= p.y
    ensures v.y >= z.y && v.y >= w.y ==> v.y > p.y
  {
    AtVertex(p, z, v, w);
    SignTimesPositive(w.y - v.y, Cross(p, z, v));
    SignTimesPositive(v.y - z.y, Cross(p, v, w));
    SignTimesPositive(p.y - v.y, Cross(w, z, v));
    NotFlat(z, v, w);
  }

  lemma NotFlat(z: Point, v: Point, w: Point)
    requires Cross(w, z, v) > 0.0
    ensures z.y != v.y || w.y != v.y
  {
    if z.y == v.y {
      FlatCrossIsRise(w, z, v);
      assert w.y == z.y ==> Times(w.y - z.y, v.x - z.x) == 0.0;
    }
  }

  lemma {:induction false} Extremes(polygon: seq<Point>, m: nat) returns (lo: nat, hi: nat)
    requires 0 < m <= |polygon|
    ensures lo < m && hi < m && forall k | 0 <= k < m :: polygon[lo].y <= polygon[k].y <= polygon[hi].y
    decreases m
  {
    if m == 1 {
      lo, hi := 0, 0;
    } else {
      lo, hi := Extremes(polygon, m - 1);
      if polygon[m - 1].y < polygon[lo].y { lo := m - 1; }
      if polygon[m - 1].y > polygon[hi].y { hi := m - 1; }
    }
  }

  lemma CornerOfConvex(p: Point, polygon: seq<Point>, i: nat)
    requires Convex(polygon) && InsideAll(p, polygon) && i < |polygon|
    ensures (forall k | 0 <= k < |polygon| :: polygon[i].y <= polygon[k].y) ==> !Above(p, polygon[i])
    ensures (forall k | 0 <= k < |polygon| :: polygon[i].y >= polygon[k].y) ==> Above(p, polygon[i])
  {
    var n, after := |polygon|, Next(|polygon|, i);
    assert EdgeAt(polygon, after) == (polygon[i], polygon[after]);
    assert Side(p, polygon, i) > 0.0 && Side(p, polygon, after) > 0.0 && Side(polygon[after], polygon, i) > 0.0;
    CornerIsPassed(p, polygon[Prev(n, i)], polygon[i], polygon[after]);
  }

  /** A point on the inner side of every edge has vertices above it and vertices that are not. */
  lemma InsideIsPassed(p: Point, polygon: seq<Point>) returns (k: nat)
    requires Convex(polygon) && InsideAll(p, polygon)
    ensures k < |polygon| && (Up(p, polygon, k) || Down(p, polygon, k))
  {
    var lo, hi := Extremes(polygon, |polygon|);
    CornerOfConvex(p, polygon, lo);
    CornerOfConvex(p, polygon, hi);
    if lo < hi {
      k := Passes(p, polygon, lo, hi);
    } else {
      k := Passes(p, polygon, hi, lo);
    }
  }

  /** Off the tolerance band a convex zone accepts exactly the points strictly on the left of all its edges. */
  lemma ConvexIndices(p: Point, polygon: seq<Point>)
    requires Convex(polygon) && !OnBoundary(p, polygon)
    ensures Contains(p, polygon) <==> InsideAll(p, polygon)
  {
    if k: nat :| k < |polygon| && (Up(p, polygon, k) || Down(p, polygon, k)) {
      var back := PassesBack(p, polygon, k);
      var u, d := if Up(p, polygon, k) then k else back, if Up(p, polygon, k) then back else k;
      RayIsBetween(p, polygon, u, d);
      PassedIsInsideIff(p, polygon, u, d);
    } else {
      UnpassedCrossesNothing(p, polygon);
      if InsideAll(p, polygon) {
        var _ := InsideIsPassed(p, polygon);
      }
    }
  }

  /**
   A zone whose corners all turn left accepts, off the tolerance band, exactly the points strictly on
   the left of every edge.
   */
  lemma ConvexMembership(p: Point, polygon: seq<Point>)
    requires Convex(polygon) && !OnBoundary(p, polygon)
    ensures Contains(p, polygon) <==> forall e | e in Edges(polygon) :: Cross(p, e.0, e.1) > 0.0
  {
    ConvexIndices(p, polygon);
    var es := Edges(polygon);
    forall e | e in es && InsideAll(p, polygon) ensures Cross(p, e.0, e.1) > 0.0 {
      var i :| 0 <= i < |es| && es[i] == e;
      assert Side(p, polygon, i) > 0.0;
    }
    if forall e | e in es :: Cross(p, e.0, e.1) > 0.0 {
      forall k | 0 <= k < |polygon| ensures Side(p, polygon, k) > 0.0 {
        assert es[k] in es;
      }
    }
  }

  /** One whose corners all turn right: exactly those strictly on the right of every edge. */
  lemma ClockwiseMembership(p: Point, polygon: seq<Point>)
    requires Convex(Reversed(polygon)) && !OnBoundary(p, polygon)
    ensures Contains(p, polygon) <==> forall e | e in Edges(polygon) :: Cross(p, e.0, e.1) < 0.0
  {
    ReversalBoundary(p, polygon);
    ReversalInvariant(p, polygon);
    ConvexMembership(p, Reversed(polygon));
    var es, rs := Edges(polygon), Edges(Reversed(polygon));
    if forall e | e in rs :: Cross(p, e.0, e.1) > 0.0 {
      forall e | e in es ensures Cross(p, e.0, e.1) < 0.0 {
        OtherWay(p, polygon, Swap(e));
      }
    }
    if forall e | e in es :: Cross(p, e.0, e.1) < 0.0 {
      forall e | e in rs ensures Cross(p, e.0, e.1) > 0.0 {
        OtherWay(p, polygon, e);
      }
    }
  }

  lemma OtherWay(p: Point, polygon: seq<Point>, e: Edge)
    requires polygon != []
    ensures e in Edges(Reversed(polygon)) <==> Swap(e) in Edges(polygon)
    ensures Cross(p, Swap(e).0, Swap(e).1) == -Cross(p, e.0, e.1)
    ensures Swap(Swap(e)) == e
  {
    ReversedEdgesMatch(polygon, e);
    CrossFlips(p, e.0, e.1);
  }

  lemma CrossTurns(a: Point, b: Point, c: Point)
    ensures Cross(c, a, b) == Cross(a, b, c) == Cross(b, c, a)
  {
    var ux, uy, vx, vy := b.x - a.x, b.y - a.y, c.x - a.x, c.y - a.y;
    var p, q := vy * ux, vx * uy;
    assert Cross(c, a, b) == p - q;
    assert Cross(a, b, c) == p - q by {
      assert (-uy) * (vx - ux) == uy * ux - q && (-ux) * (vy - uy) == uy * ux - p;
    }
    assert Cross(b, c, a) == p - q by {
      assert (uy - vy) * (-vx) == vy * vx - q && (ux - vx) * (-vy) == vy * vx - p;
    }
  }

  lemma LeftTurn(a: Point, b: Point, c: Point)
    requires Cross(c, a, b) > 0.0
    ensures Convex([a, b, c])
  {
    CrossTurns(a, b, c);
  }

  lemma TriangleEdges(a: Point, b: Point, c: Point)
    ensures Edges([a, b, c]) == [(c, a), (a, b), (b, c)]
    ensures Reversed([a, b, c]) == [c, b, a]
  {
  }

  /** Every triangle that is not flat, whichever way it runs. */
  lemma TriangleMembership(p: Point, a: Point, b: Point, c: Point)
    requires Cross(c, a, b) != 0.0 && !OnBoundary(p, [a, b, c])
    ensures Contains(p, [a, b, c]) <==>
              if Cross(c, a, b) > 0.0
              then Cross(p, a, b) > 0.0 && Cross(p, b, c) > 0.0 && Cross(p, c, a) > 0.0
              else Cross(p, a, b) < 0.0 && Cross(p, b, c) < 0.0 && Cross(p, c, a) < 0.0
  {
    TriangleEdges(a, b, c);
    if Cross(c, a, b) > 0.0 {
      LeftTurn(a, b, c);
      ConvexMembership(p, [a, b, c]);
    } else {
      CrossFlips(c, a, b);
      CrossTurns(c, b, a);
      LeftTurn(c, b, a);
      ClockwiseMembership(p, [a, b, c]);
    }
  }
}
