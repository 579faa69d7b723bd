/** Is a point inside a dig-site polygon?  The server walks the vertices once and adds up quadrant
    changes as seen from the point.  Here that walk is tied to geometry: signed ray crossings,
    signed triangles of a fan, half-planes and convex polygons. */
module Winding {

  datatype Point = Point(x: int, y: int)

  function Minus(p: Point, q: Point): Point { Point(p.x - q.x, p.y - q.y) }

  function Cross(p: Point, q: Point): int { p.x * q.y - p.y * q.x }

  function Dot(p: Point, q: Point): int { p.x * q.x + p.y * q.y }

  /** The table `q_patt`: quadrants counted counter-clockwise, axes belonging to the side of the plus sign. */
  function Quadrant(p: Point): int {
    if p.y >= 0 then (if p.x >= 0 then 0 else 1)
    else (if p.x < 0 then 2 else 3)
  }

  /** What one edge adds to the counter, both ends taken relative to the point under test. */
  function Turn(p: Point, q: Point): int {
    var d := Quadrant(q) - Quadrant(p);
    if d == -3 then 1
    else if d == 3 then -1
    else if d == -2 then (if p.x * q.y >= p.y * q.x then 1 else 0)
    else if d == 2 then (if !(p.x * q.y >= p.y * q.x) then -1 else 0)
    else 0
  }

  /** Signed crossing of the ray from the origin along the positive x axis. */
  function Crossing(p: Point, q: Point): int {
    if p.y < 0 <= q.y && Cross(p, q) > 0 then 1
    else if q.y < 0 <= p.y && Cross(p, q) < 0 then -1
    else 0
  }

  /** The origin lies on the closed segment. */
  ghost predicate OnEdge(p: Point, q: Point) { Cross(p, q) == 0 && Dot(p, q) <= 0 }

  // ---------------------------------------------------------------- sums along paths and cycles

  function PathSum(f: (Point, Point) -> int, s: seq<Point>): int {
    if |s| <= 1 then 0 else PathSum(f, s[..|s| - 1]) + f(s[|s| - 2], s[|s| - 1])
  }

  function CycleSum(f: (Point, Point) -> int, s: seq<Point>): int {
    if s == [] then 0 else PathSum(f, s) + f(s[|s| - 1], s[0])
  }

  function Seen(test: Point, polygon: seq<Point>): seq<Point> {
    seq(|polygon|, i requires 0 <= i < |polygon| => Minus(polygon[i], test))
  }

  /** The winding number of a polygon around a point. */
  function WindingNumber(test: Point, polygon: seq<Point>): int {
    CycleSum(Turn, Seen(test, polygon))
  }

  method IsPointInZone(test: Point, polygon: seq<Point>) returns (inside: bool)
    ensures inside <==> |polygon| >= 3 && WindingNumber(test, polygon) != 0
  {
    if |polygon| < 3 {
      return false;
    }
    var predPt := Minus(polygon[|polygon| - 1], test);
    var predQ := Quadrant(predPt);
    var w := 0;
    ghost var seen := Seen(test, polygon);
    for i := 0 to |polygon|
      invariant predPt == if i == 0 then seen[|seen| - 1] else seen[i - 1]
      invariant predQ == Quadrant(predPt)
      invariant w == if i == 0 then 0 else Turn(seen[|seen| - 1], seen[0]) + PathSum(Turn, seen[..i])
    {
      assert seen[..i + 1][..i] == seen[..i];
      var curPt := Minus(polygon[i], test);
      var q := Quadrant(curPt);
      match q - predQ {
        case -3 => w := w + 1;
        case 3 => w := w - 1;
        case -2 =>
          if predPt.x * curPt.y >= predPt.y * curPt.x {
            w := w + 1;
          }
        case 2 =>
          if !(predPt.x * curPt.y >= predPt.y * curPt.x) {
            w := w - 1;
          }
        case _ =>
      }
      predPt, predQ := curPt, q;
    }
    assert seen[..|seen|] == seen;
    return w != 0;
  }

  // ---------------------------------------------------------------- one edge

  lemma SignOfProduct(a: int, b: int)
    ensures a >= 0 && b >= 0 ==> a * b >= 0
    ensures a > 0 && b > 0 ==> a * b > 0
    ensures a <= 0 && b >= 0 ==> a * b <= 0
    ensures a >= 0 && b <= 0 ==> a * b <= 0
    ensures a < 0 && b < 0 ==> a * b > 0
    ensures a < 0 && b > 0 ==> a * b < 0
    ensures a > 0 && b < 0 ==> a * b < 0
    ensures a <= 0 && b <= 0 ==> a * b >= 0
  {
  }

  lemma EdgeSigns(p: Point, q: Point)
    ensures p.x < 0 && q.x < 0 && p.y < 0 <= q.y ==> Cross(p, q) < 0
    ensures p.x < 0 && q.x < 0 && q.y < 0 <= p.y ==> Cross(p, q) > 0
    ensures p.x >= 0 && q.x >= 0 && p.y < 0 <= q.y ==> Cross(p, q) >= 0
    ensures p.x >= 0 && q.x >= 0 && q.y < 0 <= p.y ==> Cross(p, q) <= 0
  {
    SignOfProduct(p.x, q.y);
    SignOfProduct(p.y, q.x);
  }

  /** The quadrant step is the signed ray crossing, except exactly on these edges through the point. */
  lemma TurnVersusCrossing(p: Point, q: Point)
    ensures Turn(p, q) != Crossing(p, q) <==>
            Cross(p, q) == 0 && (p.y < 0 <= q.y || (q.y < 0 <= p.y && p.x >= 0 && q.x >= 0))
  {
    EdgeSigns(p, q);
  }

  lemma CollinearDot(p: Point, q: Point)
    requires Cross(p, q) == 0
    ensures p.y * Dot(p, q) == q.y * Dot(p, p)
  {
    var t := p.x * q.y;
    assert t == p.y * q.x;
    calc {
      p.y * Dot(p, q);
      p.y * (p.x * q.x) + p.y * (p.y * q.y);
      { assert p.y * (p.x * q.x) == p.x * (p.y * q.x); }
      p.x * (p.x * q.y) + p.y * (p.y * q.y);
      { assert p.x * (p.x * q.y) == q.y * (p.x * p.x); assert p.y * (p.y * q.y) == q.y * (p.y * p.y); }
      q.y * Dot(p, p);
    }
  }

  /** An edge whose line passes the point while the edge changes sides does contain the point. */
  lemma DegenerateIsOnEdge(p: Point, q: Point)
    requires Cross(p, q) == 0 && (p.y < 0 <= q.y || q.y < 0 <= p.y)
    ensures OnEdge(p, q)
  {
    hide OnEdge, Dot;
    CollinearDot(p, q);
    DotSelf(p);
    SignOfProduct(p.y, Dot(p, q));
    SignOfProduct(q.y, Dot(p, p));
    SignOfProduct(p.x, q.y);
    if p.y == 0 {
      assert Dot(p, q) == 0 by { DotZero(p, q); }
    }
    assert Dot(p, q) <= 0;
    OnEdgeIntro(p, q);
  }

  lemma DotSelf(p: Point)
    ensures Dot(p, p) >= 0
  {
    SignOfProduct(p.x, p.x);
    SignOfProduct(p.y, p.y);
  }

  lemma DotZero(p: Point, q: Point)
    requires p.x == 0 && p.y == 0
    ensures Dot(p, q) == 0
  {
  }

  lemma OnEdgeIntro(p: Point, q: Point)
    requires Cross(p, q) == 0 && Dot(p, q) <= 0
    ensures OnEdge(p, q)
  {
  }

  lemma TurnIsCrossing(p: Point, q: Point)
    requires !OnEdge(p, q)
    ensures Turn(p, q) == Crossing(p, q)
  {
    TurnVersusCrossing(p, q);
    if Turn(p, q) != Crossing(p, q) {
      DegenerateIsOnEdge(p, q);
    }
  }

  // ---------------------------------------------------------------- laws of cyclic sums

  function Next(s: seq<Point>, k: int): Point
    requires 0 <= k < |s|
  {
    if k + 1 < |s| then s[k + 1] else s[0]
  }

  /** The origin is on no edge of the closed polygon. */
  ghost predicate OffBoundary(s: seq<Point>) {
    forall k :: 0 <= k < |s| ==> !OnEdge(s[k], Next(s, k))
  }

  lemma {:induction false} PathConcat(f: (Point, Point) -> int, a: seq<Point>, b: seq<Point>)
    requires a != [] && b != []
    ensures PathSum(f, a + b) == PathSum(f, a) + f(a[|a| - 1], b[0]) + PathSum(f, b)
  {
    var s := a + b;
    if |b| == 1 {
      assert s[..|s| - 1] == a;
    } else {
      assert s[..|s| - 1] == a + b[..|b| - 1];
      PathConcat(f, a, b[..|b| - 1]);
    }
  }

  lemma CycleRotation(f: (Point, Point) -> int, s: seq<Point>, k: nat)
    requires k <= |s|
    ensures CycleSum(f, s[k..] + s[..k]) == CycleSum(f, s)
  {
    if 0 < k < |s| {
      PathConcat(f, s[k..], s[..k]);
      PathConcat(f, s[..k], s[k..]);
      assert s[..k] + s[k..] == s;
    } else {
      assert s[k..] + s[..k] == s;
    }
  }

  /** A chord cuts a cycle into two whose sums add up, when the chord counts oppositely both ways. */
  lemma CycleChord(f: (Point, Point) -> int, s: seq<Point>, k: nat)
    requires 0 < k < |s|
    requires f(s[k], s[0]) == -f(s[0], s[k])
    ensures CycleSum(f, s) == CycleSum(f, s[..k + 1]) + CycleSum(f, [s[0]] + s[k..])
  {
    PathConcat(f, [s[0]], s[k..]);
    PathConcat(f, s[..k], s[k..]);
    assert s[..k] + s[k..] == s;
    assert s[..k + 1][..k] == s[..k];
  }

  function Reversed(s: seq<Point>): seq<Point> {
    if s == [] then [] else [s[|s| - 1]] + Reversed(s[..|s| - 1])
  }

  lemma {:induction false} ReversedEnds(s: seq<Point>)
    ensures |Reversed(s)| == |s|
    ensures s != [] ==> Reversed(s)[0] == s[|s| - 1] && Reversed(s)[|s| - 1] == s[0]
  {
    if s != [] {
      ReversedEnds(s[..|s| - 1]);
    }
  }

  lemma {:induction false} PathReversed(f: (Point, Point) -> int, s: seq<Point>)
    requires forall k :: 0 <= k < |s| - 1 ==> f(s[k + 1], s[k]) == -f(s[k], s[k + 1])
    ensures PathSum(f, Reversed(s)) == -PathSum(f, s)
  {
    ReversedEnds(s);
    if |s| > 1 {
      var front := s[..|s| - 1];
      ReversedEnds(front);
      PathReversed(f, front);
      PathConcat(f, [s[|s| - 1]], Reversed(front));
      assert f(s[|s| - 2 + 1], s[|s| - 2]) == -f(s[|s| - 2], s[|s| - 2 + 1]);
    }
  }

  lemma {:induction false} PathSame(f: (Point, Point) -> int, g: (Point, Point) -> int, s: seq<Point>)
    requires forall k :: 0 <= k < |s| - 1 ==> f(s[k], s[k + 1]) == g(s[k], s[k + 1])
    ensures PathSum(f, s) == PathSum(g, s)
  {
    if |s| > 1 {
      PathSame(f, g, s[..|s| - 1]);
      assert f(s[|s| - 2], s[|s| - 2 + 1]) == g(s[|s| - 2], s[|s| - 2 + 1]);
    }
  }

  // ---------------------------------------------------------------- winding laws

  /** Off the boundary the quadrant walk counts signed crossings of one ray. */
  lemma WindingIsCrossings(s: seq<Point>)
    requires OffBoundary(s)
    ensures CycleSum(Turn, s) == CycleSum(Crossing, s)
  {
    forall k | 0 <= k < |s|
      ensures Turn(s[k], Next(s, k)) == Crossing(s[k], Next(s, k))
    {
      TurnIsCrossing(s[k], Next(s, k));
    }
    assert forall k :: 0 <= k < |s| - 1 ==> Next(s, k) == s[k + 1];
    PathSame(Turn, Crossing, s);
    if s != [] {
      assert Next(s, |s| - 1) == s[0];
    }
  }

  lemma CrossSwap(p: Point, q: Point)
    ensures Cross(q, p) == -Cross(p, q) && Dot(q, p) == Dot(p, q)
  {
  }

  lemma TurnSwap(p: Point, q: Point)
    requires !OnEdge(p, q)
    ensures Turn(q, p) == -Turn(p, q)
  {
    CrossSwap(p, q);
    TurnIsCrossing(p, q);
    TurnIsCrossing(q, p);
  }

  /** Where the list of vertices starts does not matter. */
  lemma RotationLaw(test: Point, polygon: seq<Point>, k: nat)
    requires k <= |polygon|
    ensures WindingNumber(test, polygon[k..] + polygon[..k]) == WindingNumber(test, polygon)
  {
    var s := Seen(test, polygon);
    CycleRotation(Turn, s, k);
    assert Seen(test, polygon[k..] + polygon[..k]) == s[k..] + s[..k];
  }

  /** A chord that misses the point cuts the polygon into two whose winding numbers add up. */
  lemma ChordLaw(test: Point, polygon: seq<Point>, k: nat)
    requires 0 < k < |polygon| && !OnEdge(Minus(polygon[k], test), Minus(polygon[0], test))
    ensures WindingNumber(test, polygon) ==
            WindingNumber(test, polygon[..k + 1]) + WindingNumber(test, [polygon[0]] + polygon[k..])
  {
    var s := Seen(test, polygon);
    TurnSwap(s[k], s[0]);
    CycleChord(Turn, s, k);
    assert Seen(test, polygon[..k + 1]) == s[..k + 1];
    assert Seen(test, [polygon[0]] + polygon[k..]) == [s[0]] + s[k..];
  }

  lemma CycleReversal(s: seq<Point>)
    requires OffBoundary(s)
    ensures CycleSum(Turn, Reversed(s)) == -CycleSum(Turn, s)
  {
    ReversedEnds(s);
    forall k | 0 <= k < |s|
      ensures Turn(Next(s, k), s[k]) == -Turn(s[k], Next(s, k))
    {
      TurnSwap(s[k], Next(s, k));
    }
    assert forall k :: 0 <= k < |s| - 1 ==> Next(s, k) == s[k + 1];
    PathReversed(Turn, s);
    if s != [] {
      assert Next(s, |s| - 1) == s[0];
    }
  }

  lemma {:induction false} SeenReversed(test: Point, polygon: seq<Point>)
    ensures Seen(test, Reversed(polygon)) == Reversed(Seen(test, polygon))
  {
    if polygon != [] {
      var front := polygon[..|polygon| - 1];
      SeenReversed(test, front);
      assert Seen(test, polygon)[..|polygon| - 1] == Seen(test, front);
      assert Seen(test, Reversed(polygon)) == [Minus(polygon[|polygon| - 1], test)] + Seen(test, Reversed(front));
    }
  }

  /** Walking the polygon the other way round negates the winding number of a point on no edge. */
  lemma ReversalLaw(test: Point, polygon: seq<Point>)
    requires OffBoundary(Seen(test, polygon))
    ensures WindingNumber(test, Reversed(polygon)) == -WindingNumber(test, polygon)
  {
    SeenReversed(test, polygon);
    CycleReversal(Seen(test, polygon));
  }

  // ---------------------------------------------------------------- half-planes

  function Level(a: int, b: int, p: Point): int { a * p.x + b * p.y }

  /** Inside an open half-plane that does not contain the origin an edge that changes sides of the
      x axis passes the origin on the side the half-plane is on. */
  lemma CrossInHalfPlane(a: int, b: int, p: Point, q: Point)
    requires Level(a, b, p) > 0 && Level(a, b, q) > 0
    ensures p.y < 0 <= q.y ==> a * Cross(p, q) > 0
    ensures q.y < 0 <= p.y ==> a * Cross(p, q) < 0
  {
    var l, m := Level(a, b, p), Level(a, b, q);
    LevelCross(a, b, p, q);
    hide Level, Cross;
    SignOfProduct(q.y, l);
    SignOfProduct(p.y, m);
  }

  lemma LevelCross(a: int, b: int, p: Point, q: Point)
    ensures q.y * Level(a, b, p) - p.y * Level(a, b, q) == a * Cross(p, q)
  {
    calc {
      q.y * Level(a, b, p) - p.y * Level(a, b, q);
      q.y * (a * p.x) + q.y * (b * p.y) - (p.y * (a * q.x) + p.y * (b * q.y));
      { assert q.y * (b * p.y) == p.y * (b * q.y); }
      q.y * (a * p.x) - p.y * (a * q.x);
      { assert q.y * (a * p.x) == a * (p.x * q.y); assert p.y * (a * q.x) == a * (p.y * q.x); }
      a * (p.x * q.y) - a * (p.y * q.x);
      a * Cross(p, q);
    }
  }

  function Side(a: int, p: Point): int { if a > 0 && p.y >= 0 then 1 else 0 }

  lemma TurnInHalfPlane(a: int, b: int, p: Point, q: Point)
    requires Level(a, b, p) > 0 && Level(a, b, q) > 0
    ensures Turn(p, q) == Side(a, q) - Side(a, p)
  {
    CrossInHalfPlane(a, b, p, q);
    SignOfProduct(a, Cross(p, q));
    TurnVersusCrossing(p, q);
  }

  lemma {:induction false} PathTelescopes(a: int, b: int, s: seq<Point>)
    requires s != [] && forall k :: 0 <= k < |s| ==> Level(a, b, s[k]) > 0
    ensures PathSum(Turn, s) == Side(a, s[|s| - 1]) - Side(a, s[0])
  {
    if |s| > 1 {
      PathTelescopes(a, b, s[..|s| - 1]);
      TurnInHalfPlane(a, b, s[|s| - 2], s[|s| - 1]);
    }
  }

  /** A point that some line separates from every vertex is never in the zone, whatever the polygon
      looks like.  The bounding box is the special case of four directions. */
  lemma SeparatedIsOutside(a: int, b: int, s: seq<Point>)
    requires forall k :: 0 <= k < |s| ==> Level(a, b, s[k]) > 0
    ensures CycleSum(Turn, s) == 0
  {
    if s != [] {
      PathTelescopes(a, b, s);
      TurnInHalfPlane(a, b, s[|s| - 1], s[0]);
    }
  }

  lemma OutsideBoxIsOutside(test: Point, polygon: seq<Point>)
    requires || (forall k :: 0 <= k < |polygon| ==> polygon[k].x > test.x)
             || (forall k :: 0 <= k < |polygon| ==> polygon[k].x < test.x)
             || (forall k :: 0 <= k < |polygon| ==> polygon[k].y > test.y)
             || (forall k :: 0 <= k < |polygon| ==> polygon[k].y < test.y)
    ensures WindingNumber(test, polygon) == 0
  {
    var s := Seen(test, polygon);
    if forall k :: 0 <= k < |polygon| ==> polygon[k].x > test.x {
      SeparatedIsOutside(1, 0, s);
    } else if forall k :: 0 <= k < |polygon| ==> polygon[k].x < test.x {
      SeparatedIsOutside(-1, 0, s);
    } else if forall k :: 0 <= k < |polygon| ==> polygon[k].y > test.y {
      SeparatedIsOutside(0, 1, s);
    } else {
      SeparatedIsOutside(0, -1, s);
    }
  }

  // ---------------------------------------------------------------- the point sees every edge on its left

  /** Three vectors of the plane: the turn from a to c follows from the turns over b. */
  lemma CrossChain(a: Point, b: Point, c: Point)
    ensures Cross(a, c) * b.y == Cross(a, b) * c.y + Cross(b, c) * a.y
    ensures Cross(a, c) * b.x == Cross(a, b) * c.x + Cross(b, c) * a.x
  {
    calc {
      Cross(a, b) * c.y + Cross(b, c) * a.y;
      (a.x * b.y) * c.y - (a.y * b.x) * c.y + (b.x * c.y) * a.y - (b.y * c.x) * a.y;
      { assert (a.y * b.x) * c.y == (b.x * c.y) * a.y; }
      (a.x * b.y) * c.y - (b.y * c.x) * a.y;
      { assert (a.x * b.y) * c.y == (a.x * c.y) * b.y; assert (b.y * c.x) * a.y == (a.y * c.x) * b.y; }
      Cross(a, c) * b.y;
    }
    calc {
      Cross(a, b) * c.x + Cross(b, c) * a.x;
      (a.x * b.y) * c.x - (a.y * b.x) * c.x + (b.x * c.y) * a.x - (b.y * c.x) * a.x;
      { assert (a.x * b.y) * c.x == (b.y * c.x) * a.x; }
      (b.x * c.y) * a.x - (a.y * b.x) * c.x;
      { assert (b.x * c.y) * a.x == (a.x * c.y) * b.x; assert (a.y * b.x) * c.x == (a.y * c.x) * b.x; }
      Cross(a, c) * b.x;
    }
  }

  /** The edge passes the origin on its left, or points straight to or away from it. */
  ghost predicate Leftish(p: Point, q: Point) { Cross(p, q) >= 0 && !OnEdge(p, q) }

  /** The directions of one side of the x axis from right to left: the axis, then by slope, then the axis. */
  function Stage(p: Point): int { if p.y != 0 then 1 else if p.x > 0 then 0 else 2 }

  function Slope(p: Point): real { if p.y != 0 then p.x as real / p.y as real else 0.0 }

  predicate Further(p: Point, q: Point) { Stage(p) < Stage(q) || (Stage(p) == Stage(q) && Slope(p) > Slope(q)) }

  /** Within one side an edge leads to the same direction or further on, and further when it turns left. */
  lemma LeftishAdvances(p: Point, q: Point)
    requires Leftish(p, q) && (p.y >= 0) == (q.y >= 0)
    ensures Further(p, q) <==> Cross(p, q) > 0
    ensures !Further(q, p)
  {
    SignOfProduct(p.x, q.y);
    SignOfProduct(p.y, q.x);
    SignOfProduct(p.x, q.x);
    if p.y != 0 && q.y != 0 {
      SlopeDifference(p, q);
    }
  }

  lemma SlopeDifference(p: Point, q: Point)
    requires p.y != 0 && q.y != 0 && (p.y >= 0) == (q.y >= 0)
    ensures Slope(p) > Slope(q) <==> Cross(p, q) > 0
    ensures Slope(p) < Slope(q) <==> Cross(p, q) < 0
  {
    SignOfProduct(p.y, q.y);
    var px, py, qx, qy := p.x as real, p.y as real, q.x as real, q.y as real;
    assert (Slope(p) - Slope(q)) * (py * qy) == px * qy - py * qx by {
      assert Slope(p) * py == px && Slope(q) * qy == qx;
      assert Slope(p) * (py * qy) == px * qy;
      assert Slope(q) * (py * qy) == qx * py;
    }
    assert px * qy - py * qx == Cross(p, q) as real;
    assert py * qy > 0.0;
    PositiveFactor(Slope(p) - Slope(q), py * qy);
  }

  lemma PositiveFactor(d: real, f: real)
    requires f > 0.0
    ensures d * f > 0.0 <==> d > 0.0
    ensures d * f < 0.0 <==> d < 0.0
  {
  }

  /** Left turns within one side of the x axis never come full circle. */
  lemma {:induction false} PathAdvances(s: seq<Point>, upper: bool)
    requires s != [] && forall k :: 0 <= k < |s| ==> (s[k].y >= 0) == upper
    requires forall k :: 0 <= k < |s| - 1 ==> Leftish(s[k], s[k + 1])
    ensures !Further(s[|s| - 1], s[0])
    ensures Further(s[0], s[|s| - 1]) <==> exists k :: 0 <= k < |s| - 1 && Cross(s[k], s[k + 1]) > 0
  {
    hide Leftish, Further, Cross;
    if |s| == 1 {
      NotFurther(s[0]);
    } else {
      var front, last := s[..|s| - 1], |s| - 2;
      PathAdvances(front, upper);
      assert Leftish(s[last], s[last + 1]);
      LeftishAdvances(s[last], s[last + 1]);
      FurtherChain(s[0], s[last], s[last + 1]);
      if k :| 0 <= k < |s| - 1 && Cross(s[k], s[k + 1]) > 0 {
        assert k < |front| - 1 ==> Cross(front[k], front[k + 1]) > 0;
      }
      if k :| 0 <= k < |front| - 1 && Cross(front[k], front[k + 1]) > 0 {
        assert Cross(s[k], s[k + 1]) > 0;
      }
    }
  }

  lemma NotFurther(p: Point)
    ensures !Further(p, p)
  {
  }

  lemma FurtherChain(p: Point, q: Point, r: Point)
    requires !Further(q, p) && !Further(r, q)
    ensures !Further(r, p) && (Further(p, r) <==> Further(p, q) || Further(q, r))
  {
    hide Stage, Slope;
  }

  lemma {:induction false} PathNeverDown(s: seq<Point>)
    requires forall k :: 0 <= k < |s| - 1 ==> Leftish(s[k], s[k + 1])
    ensures PathSum(Crossing, s) >= 0
    ensures PathSum(Crossing, s) == 0 && s != [] && s[|s| - 1].y >= 0 ==>
              forall k :: 0 <= k < |s| ==> s[k].y >= 0
    ensures PathSum(Crossing, s) == 0 && s != [] && s[0].y < 0 ==>
              forall k :: 0 <= k < |s| ==> s[k].y < 0
  {
    if |s| > 1 {
      PathNeverDown(s[..|s| - 1]);
      assert Leftish(s[|s| - 2], s[|s| - 2 + 1]);
      LeftishCrossing(s[|s| - 2], s[|s| - 1]);
      hide Leftish, Crossing;
    }
  }

  lemma LeftishCrossing(p: Point, q: Point)
    requires Leftish(p, q)
    ensures Crossing(p, q) == if p.y < 0 <= q.y then 1 else 0
  {
    if p.y < 0 <= q.y { SideChangeIsNonzero(p, q); }
  }

  /** A point that has no edge on its right and some edge strictly on its left is in the zone. */
  lemma LeftOfAllIsInside(s: seq<Point>, j: nat)
    requires j < |s| && Cross(s[j], Next(s, j)) > 0
    requires forall k :: 0 <= k < |s| ==> Leftish(s[k], Next(s, k))
    ensures CycleSum(Turn, s) >= 1
  {
    var first, last := s[0], s[|s| - 1];
    assert OffBoundary(s);
    WindingIsCrossings(s);
    forall k | 0 <= k < |s| - 1 ensures Leftish(s[k], s[k + 1]) {
      assert Next(s, k) == s[k + 1];
    }
    PathNeverDown(s);
    assert Leftish(last, first) by { assert Next(s, |s| - 1) == first; }
    LeftishCrossing(last, first);
    assert j < |s| - 1 ==> Cross(s[j], s[j + 1]) > 0;
    hide Leftish, Cross, Crossing;
    if CycleSum(Crossing, s) == 0 {
      PathAdvances(s, last.y >= 0);
      LeftishAdvances(last, first);
    }
  }

  // ---------------------------------------------------------------- convex polygons

  /** p, q and t turn left (right if negative) in this order. */
  function Orientation(p: Point, q: Point, t: Point): int { Cross(Minus(q, p), Minus(t, p)) }

  /** Vertices in counter-clockwise order, each on the left of or on every edge line. */
  ghost predicate Convex(polygon: seq<Point>) {
    forall k, j :: 0 <= k < |polygon| && 0 <= j < |polygon| ==>
      Orientation(polygon[k], Next(polygon, k), polygon[j]) >= 0
  }

  lemma OrientationSeen(p: Point, q: Point, t: Point)
    ensures Orientation(p, q, t) == Cross(Minus(p, t), Minus(q, t))
  {
  }

  /** For a convex polygon and a point on no edge, the walk decides "on the right of no edge, on the left of one". */
  lemma ConvexZone(test: Point, polygon: seq<Point>)
    requires Convex(polygon) && OffBoundary(Seen(test, polygon))
    ensures WindingNumber(test, polygon) != 0 <==>
            && (forall k :: 0 <= k < |polygon| ==> Orientation(polygon[k], Next(polygon, k), test) >= 0)
            && (exists k :: 0 <= k < |polygon| && Orientation(polygon[k], Next(polygon, k), test) > 0)
  {
    var s := Seen(test, polygon);
    forall k | 0 <= k < |s|
      ensures Cross(s[k], Next(s, k)) == Orientation(polygon[k], Next(polygon, k), test)
    {
      OrientationSeen(polygon[k], Next(polygon, k), test);
    }
    hide Orientation, Cross, Convex;
    if k :| 0 <= k < |polygon| && Orientation(polygon[k], Next(polygon, k), test) < 0 {
      RightOfOneIsOutside(test, polygon, k);
    } else if k :| 0 <= k < |polygon| && Orientation(polygon[k], Next(polygon, k), test) > 0 {
      LeftOfAllIsInside(s, k);
    } else {
      InLineIsOutside(s);
    }
  }

  /** A point in line with every edge, and on none, is outside. */
  lemma InLineIsOutside(s: seq<Point>)
    requires OffBoundary(s) && forall k :: 0 <= k < |s| ==> Cross(s[k], Next(s, k)) == 0
    ensures CycleSum(Turn, s) == 0
  {
    forall k | 0 <= k < |s| - 1 ensures Turn(s[k], s[k + 1]) == 0 {
      assert Next(s, k) == s[k + 1];
      TurnIsCrossing(s[k], s[k + 1]);
    }
    PathZero(s);
    if s != [] {
      assert Next(s, |s| - 1) == s[0];
      TurnIsCrossing(s[|s| - 1], s[0]);
    }
  }

  lemma {:induction false} PathZero(s: seq<Point>)
    requires forall k :: 0 <= k < |s| - 1 ==> Turn(s[k], s[k + 1]) == 0
    ensures PathSum(Turn, s) == 0
  {
    if |s| > 1 {
      PathZero(s[..|s| - 1]);
      assert Turn(s[|s| - 2], s[|s| - 2 + 1]) == 0;
    }
  }

  /** One edge of a convex polygon that has the point on its right separates it from all vertices. */
  lemma RightOfOneIsOutside(test: Point, polygon: seq<Point>, k: nat)
    requires Convex(polygon) && k < |polygon|
    requires Orientation(polygon[k], Next(polygon, k), test) < 0
    ensures WindingNumber(test, polygon) == 0
  {
    var s := Seen(test, polygon);
    var d := Minus(Next(polygon, k), polygon[k]);
    forall j | 0 <= j < |s|
      ensures Level(-d.y, d.x, s[j]) > 0
    {
      assert Orientation(polygon[k], Next(polygon, k), polygon[j]) >= 0;
      OrientationShift(polygon[k], d, polygon[j], test);
    }
    SeparatedIsOutside(-d.y, d.x, s);
  }

  lemma OrientationShift(p: Point, d: Point, v: Point, t: Point)
    ensures Level(-d.y, d.x, Minus(v, t)) == Cross(d, Minus(v, p)) - Cross(d, Minus(t, p))
  {
  }

  // ---------------------------------------------------------------- triangles and fans

  /** The signed triangle test: 1 or -1 strictly inside by orientation, 0 outside. */
  function InTriangle(a: Point, b: Point, c: Point): int {
    if Cross(a, b) > 0 && Cross(b, c) > 0 && Cross(c, a) > 0 then 1
    else if Cross(a, b) < 0 && Cross(b, c) < 0 && Cross(c, a) < 0 then -1
    else 0
  }

  /** The number of signed triangles of the fan from the first vertex that contain the origin. */
  function FanCover(s: seq<Point>): int {
    if |s| < 3 then 0 else FanCover(s[..|s| - 1]) + InTriangle(s[0], s[|s| - 2], s[|s| - 1])
  }

  lemma CrossSum(p: Point, q: Point, r: Point)
    ensures Cross(p, q) * r.y + Cross(q, r) * p.y + Cross(r, p) * q.y == 0
  {
    CrossChain(p, q, r);
    CrossSwap(r, p);
    NegatedProduct(Cross(r, p), q.y);
  }

  lemma NegatedProduct(a: int, b: int)
    ensures (-a) * b == -(a * b)
  {
  }

  lemma SideChangeIsNonzero(p: Point, q: Point)
    requires !OnEdge(p, q) && (p.y < 0 <= q.y || q.y < 0 <= p.y)
    ensures Cross(p, q) != 0
  {
    if Cross(p, q) == 0 {
      DegenerateIsOnEdge(p, q);
    }
  }

  /** The vertex p lies on one side of the x axis, q and r on the other. */
  lemma ApexTriangle(p: Point, q: Point, r: Point)
    requires !OnEdge(p, q) && !OnEdge(q, r) && !OnEdge(r, p)
    requires (p.y < 0 && q.y >= 0 && r.y >= 0) || (p.y >= 0 && q.y < 0 && r.y < 0)
    ensures Crossing(p, q) + Crossing(q, r) + Crossing(r, p) == InTriangle(p, q, r)
  {
    SideChangeIsNonzero(p, q);
    SideChangeIsNonzero(r, p);
    CrossSum(p, q, r);
    SignOfProduct(Cross(p, q), r.y);
    SignOfProduct(Cross(q, r), p.y);
    SignOfProduct(Cross(r, p), q.y);
    if q.y == 0 && r.y == 0 {
      SignOfProduct(p.y, q.x);
      SignOfProduct(r.x, p.y);
      SignOfProduct(q.x, r.x);
    }
  }

  /** A triangle's winding number is its signed containment test. */
  lemma TriangleWinding(a: Point, b: Point, c: Point)
    requires !OnEdge(a, b) && !OnEdge(b, c) && !OnEdge(c, a)
    ensures CycleSum(Turn, [a, b, c]) == InTriangle(a, b, c)
  {
    assert [a, b, c] == [a] + [b] + [c];
    PathConcat(Turn, [a], [b]);
    PathConcat(Turn, [a] + [b], [c]);
    assert CycleSum(Turn, [a, b, c]) == Turn(a, b) + Turn(b, c) + Turn(c, a);
    TurnIsCrossing(a, b);
    TurnIsCrossing(b, c);
    TurnIsCrossing(c, a);
    if (a.y < 0) != (b.y < 0) && (a.y < 0) != (c.y < 0) {
      ApexTriangle(a, b, c);
    } else if (b.y < 0) != (a.y < 0) && (b.y < 0) != (c.y < 0) {
      ApexTriangle(b, c, a);
    } else if (c.y < 0) != (a.y < 0) && (c.y < 0) != (b.y < 0) {
      ApexTriangle(c, a, b);
    } else {
      SameSideTriangle(a, b, c);
    }
  }

  lemma SameSideTriangle(a: Point, b: Point, c: Point)
    requires (a.y < 0) == (b.y < 0) == (c.y < 0)
    ensures InTriangle(a, b, c) == 0
  {
    CrossSum(a, b, c);
    SignOfProduct(Cross(a, b), c.y);
    SignOfProduct(Cross(b, c), a.y);
    SignOfProduct(Cross(c, a), b.y);
  }

  /** No edge of the polygon and no chord from its first vertex passes through the origin. */
  ghost predicate OffFan(s: seq<Point>) {
    && (forall k :: 0 <= k < |s| - 1 ==> !OnEdge(s[k], s[k + 1]))
    && (forall k :: 1 <= k < |s| ==> !OnEdge(s[k], s[0]))
  }

  /** For every polygon, simple or not, the winding number is the number of signed triangles of the
      fan that contain the point. */
  lemma {:induction false} WindingIsFanCover(s: seq<Point>)
    requires |s| >= 3 && OffFan(s)
    ensures CycleSum(Turn, s) == FanCover(s)
  {
    var n := |s|;
    assert !OnEdge(s[n - 2], s[n - 2 + 1]) && !OnEdge(s[n - 1], s[0]) && !OnEdge(s[n - 2], s[0]);
    if n == 3 {
      assert !OnEdge(s[0], s[0 + 1]);
      assert s == [s[0], s[1], s[2]];
      TriangleWinding(s[0], s[1], s[2]);
    } else {
      WindingIsFanCover(s[..n - 1]);
      TurnSwap(s[n - 2], s[0]);
      CycleChord(Turn, s, n - 2);
      assert [s[0]] + s[n - 2..] == [s[0], s[n - 2], s[n - 1]];
      assert !OnEdge(s[0], s[n - 2]) by { CrossSwap(s[n - 2], s[0]); }
      TriangleWinding(s[0], s[n - 2], s[n - 1]);
    }
  }

  // ---------------------------------------------------------------- 32-bit coordinates

  predicate FitsInt32(n: int) { -0x8000_0000 <= n < 0x8000_0000 }

  /** Half the edge of a map is 17066.67 units: inside the map nothing the walk computes leaves 32 bits. */
  lemma MapCoordinatesFit(p: Point, q: Point, test: Point)
    requires -17067 <= p.x <= 17067 && -17067 <= p.y <= 17067
    requires -17067 <= q.x <= 17067 && -17067 <= q.y <= 17067
    requires -17067 <= test.x <= 17067 && -17067 <= test.y <= 17067
    ensures var a, b := Minus(p, test), Minus(q, test);
            && FitsInt32(a.x) && FitsInt32(a.y)
            && FitsInt32(a.x * b.y) && FitsInt32(a.y * b.x)
  {
    var a, b := Minus(p, test), Minus(q, test);
    ProductBound(a.x, b.y, 34134);
    ProductBound(a.y, b.x, 34134);
  }

  lemma ProductMonotone(a: int, b: int, c: int)
    requires a <= b && 0 <= c
    ensures a * c <= b * c
  {
  }

  lemma ProductBound(a: int, b: int, m: int)
    requires -m <= a <= m && -m <= b <= m
    ensures -(m * m) <= a * b <= m * m
  {
    if b < 0 {
      ProductMonotone(a, m, -b);
      ProductMonotone(-m, a, -b);
      ProductMonotone(-b, m, m);
      NegatedProduct(b, a);
      NegatedProduct(m, -b);
    } else {
      ProductMonotone(a, m, b);
      ProductMonotone(-m, a, b);
      ProductMonotone(b, m, m);
      NegatedProduct(m, b);
    }
  }
}
