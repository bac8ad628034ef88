/**
 * The line rasteriser behind the intensity profile windows: Bresenham's
 * integer algorithm from p1 to p2, and the sampling of an image along the
 * resulting points with Python's indexing rules.
 */
module Bresenham {
  import opened Wrappers
  import Pixels
  import PointOps

  /** A point `[x, y]` of the profile line. */
  datatype Point = Point(x: int, y: int)

  function Abs(v: int): nat
  {
    if v < 0 then -v else v
  }

  function Max(a: int, b: int): int
  {
    if a < b then b else a
  }

  /** The step direction along one axis: +1 towards a larger end, -1 otherwise. */
  function Sign(a: int, b: int): int
  {
    if a < b then 1 else -1
  }

  /** v lies between a and b, whichever is larger. */
  predicate Between(v: int, a: int, b: int)
  {
    (a <= v <= b) || (b <= v <= a)
  }

  /** p lies in the bounding box of p1 and p2. */
  predicate InBox(p: Point, p1: Point, p2: Point)
  {
    Between(p.x, p1.x, p2.x) && Between(p.y, p1.y, p2.y)
  }

  /**
   * q follows p on a line from p1 to p2: an 8-neighbour of p, reached by
   * moving x only by the x sign and y only by the y sign.
   */
  predicate Step(p: Point, q: Point, p1: Point, p2: Point)
  {
    && (q.x == p.x || q.x == p.x + Sign(p1.x, p2.x))
    && (q.y == p.y || q.y == p.y + Sign(p1.y, p2.y))
    && q != p
  }

  /** Both coordinates of consecutive points differ by at most one, and one of them differs. */
  lemma StepIsNeighbour(p: Point, q: Point, p1: Point, p2: Point)
    requires Step(p, q, p1, p2)
    ensures -1 <= q.x - p.x <= 1 && -1 <= q.y - p.y <= 1 && (q.x != p.x || q.y != p.y)
  {
  }

  /** A line from p1 to p2 as the rasteriser produces it. */
  ghost predicate IsLine(points: seq<Point>, p1: Point, p2: Point)
  {
    && |points| >= 1
    && points[0] == p1 && points[|points| - 1] == p2
    && (forall i :: 0 <= i < |points| - 1 ==> Step(points[i], points[i + 1], p1, p2))
    && (forall i :: 0 <= i < |points| ==> InBox(points[i], p1, p2))
  }

  /**
   * The points appended so far, followed by the current point cur, form the
   * beginning of a line from p1 to p2.
   */
  ghost predicate Trail(points: seq<Point>, cur: Point, p1: Point, p2: Point)
  {
    && (points == [] ==> cur == p1)
    && (points != [] ==> points[0] == p1 && Step(points[|points| - 1], cur, p1, p2))
    && (forall i :: 0 <= i < |points| - 1 ==> Step(points[i], points[i + 1], p1, p2))
    && (forall i :: 0 <= i < |points| ==> InBox(points[i], p1, p2))
  }

  /** Appending the current point and stepping to the next keeps the trail. */
  lemma TrailExtend(points: seq<Point>, cur: Point, next: Point, p1: Point, p2: Point)
    requires Trail(points, cur, p1, p2) && InBox(cur, p1, p2) && Step(cur, next, p1, p2)
    ensures Trail(points + [cur], next, p1, p2)
  {
  }

  /** A trail that has reached p2 is a line once p2 is appended. */
  lemma TrailComplete(points: seq<Point>, p1: Point, p2: Point)
    requires Trail(points, p2, p1, p2) && InBox(p2, p1, p2)
    ensures IsLine(points + [p2], p1, p2)
  {
  }

  /** The point reached from p1 after k x steps and l y steps towards p2. */
  function After(p1: Point, p2: Point, k: nat, l: nat): Point
  {
    Point(if p1.x < p2.x then p1.x + k else p1.x - k, if p1.y < p2.y then p1.y + l else p1.y - l)
  }

  /**
   * Within the step counts |dx| and |dy|, the reached point lies in the box,
   * and one more step on either axis or on both is a step of the line.
   */
  lemma AfterStep(p1: Point, p2: Point, k: nat, l: nat, k2: nat, l2: nat)
    requires k2 <= Abs(p2.x - p1.x) && l2 <= Abs(p2.y - p1.y)
    requires (k2 == k || k2 == k + 1) && (l2 == l || l2 == l + 1) && (k2 != k || l2 != l)
    ensures InBox(After(p1, p2, k, l), p1, p2)
    ensures Step(After(p1, p2, k, l), After(p1, p2, k2, l2), p1, p2)
  {
  }

  /** One x step moves the reached point by the x sign, one y step by the y sign. */
  lemma AfterNext(p1: Point, p2: Point, k: nat, l: nat)
    ensures After(p1, p2, k + 1, l) == Point(After(p1, p2, k, l).x + Sign(p1.x, p2.x), After(p1, p2, k, l).y)
    ensures After(p1, p2, k, l + 1) == Point(After(p1, p2, k, l).x, After(p1, p2, k, l).y + Sign(p1.y, p2.y))
  {
  }

  /** Once x has reached its end and y has not, the doubled error rules out an x step. */
  lemma XDone(k: nat, l: nat, dx: nat, dy: nat)
    requires k == dx && l < dy
    ensures 2 * (dx - dy + l * dx - k * dy) <= -(dy as int)
  {
    PointOps.MulMonotone(l + 1, dy, dx);
    Pixels.RowStep(l, dx);
    assert dy * dx == k * dy;
  }

  /** Once y has reached its end and x has not, the doubled error rules out a y step. */
  lemma YDone(k: nat, l: nat, dx: nat, dy: nat)
    requires l == dy && k < dx
    ensures 2 * (dx - dy + l * dx - k * dy) >= dx
  {
    PointOps.MulMonotone(k + 1, dx, dy);
    Pixels.RowStep(k, dy);
    assert dx * dy == l * dx;
  }

  /**
   * One iteration of the loop with k of dx x steps and l of dy y steps done
   * and the error term e == dx - dy + l*dx - k*dy: the doubled error allows
   * an x step only while x has not reached its end, a y step only while y
   * has not, and always at least one of the two.
   */
  lemma ErrorGuards(k: nat, l: nat, dx: nat, dy: nat, e: int)
    requires k <= dx && l <= dy && (k < dx || l < dy)
    requires e == dx - dy + l * dx - k * dy
    ensures 2 * e > -(dy as int) ==> k < dx
    ensures 2 * e < dx ==> l < dy
    ensures 2 * e > -(dy as int) || 2 * e < dx
  {
    if k == dx {
      XDone(k, l, dx, dy);
    }
    if l == dy {
      YDone(k, l, dx, dy);
    }
  }

  /** The error term after k x steps and l y steps. */
  function ErrorTerm(dx: nat, dy: nat, k: nat, l: nat): int
  {
    dx - dy + l * dx - k * dy
  }

  /**
   * The error term of the loop stays in a band where the longer axis (x
   * when dx >= dy, y when dy >= dx) takes a step on every iteration.
   */
  ghost predicate ErrorBounds(dx: nat, dy: nat, e: int)
  {
    && (dx >= dy && dx > 0 ==> -(dy as int) < 2 * e < 3 * dx - 2 * dy)
    && (dy >= dx && dy > 0 ==> 2 * dx - 3 * dy < 2 * e < dx)
  }

  /** The step count of the longer axis is never behind the other. */
  predicate Leads(dx: nat, dy: nat, k: nat, l: nat)
  {
    && (dx >= dy ==> l <= k)
    && (dy >= dx ==> k <= l)
  }

  /** One iteration's updates of the error term keep it in that band. */
  lemma ErrorBoundsStep(dx: nat, dy: nat, e: int)
    requires ErrorBounds(dx, dy, e) && (dx > 0 || dy > 0)
    ensures dx >= dy ==> 2 * e > -(dy as int)
    ensures dy >= dx ==> 2 * e < dx
    ensures ErrorBounds(dx, dy, e - (if 2 * e > -(dy as int) then dy else 0) + (if 2 * e < dx then dx else 0))
  {
  }

  /**
   * The loop's bookkeeping after n points: the error term stays in its band,
   * the longer axis leads, and n is the step count of the longer axis.
   */
  ghost predicate Counted(dx: nat, dy: nat, e: int, k: nat, l: nat, n: nat)
  {
    ErrorBounds(dx, dy, e) && Leads(dx, dy, k, l) && n == Max(k, l)
  }

  /**
   * One iteration of the loop from k x steps and l y steps with error e
   * after the points `points`: the step counts it reaches, the error it
   * leaves and the next point, after which the trail, extended by the
   * current point, is still the beginning of a line.
   */
  lemma Advance(p1: Point, p2: Point, dx: nat, dy: nat, points: seq<Point>, k: nat, l: nat, e: int)
    returns (k2: nat, l2: nat, e2: int)
    requires dx == Abs(p2.x - p1.x) && dy == Abs(p2.y - p1.y)
    requires k <= dx && l <= dy && (k < dx || l < dy)
    requires e == ErrorTerm(dx, dy, k, l) && Counted(dx, dy, e, k, l, |points|)
    requires Trail(points, After(p1, p2, k, l), p1, p2)
    ensures k2 == if 2 * e > -(dy as int) then k + 1 else k
    ensures l2 == if 2 * e < dx then l + 1 else l
    ensures k2 <= dx && l2 <= dy
    ensures e2 == e - (if k2 == k + 1 then dy else 0) + (if l2 == l + 1 then dx else 0)
    ensures e2 == ErrorTerm(dx, dy, k2, l2) && Counted(dx, dy, e2, k2, l2, |points| + 1)
    ensures After(p1, p2, k2, l2).x == After(p1, p2, k, l).x + (if k2 == k + 1 then Sign(p1.x, p2.x) else 0)
    ensures After(p1, p2, k2, l2).y == After(p1, p2, k, l).y + (if l2 == l + 1 then Sign(p1.y, p2.y) else 0)
    ensures Trail(points + [After(p1, p2, k, l)], After(p1, p2, k2, l2), p1, p2)
  {
    ErrorGuards(k, l, dx, dy, e);
    ErrorBoundsStep(dx, dy, e);
    k2 := if 2 * e > -(dy as int) then k + 1 else k;
    l2 := if 2 * e < dx then l + 1 else l;
    e2 := e - (if k2 == k + 1 then dy else 0) + (if l2 == l + 1 then dx else 0);
    Pixels.RowStep(k, dy);
    Pixels.RowStep(l, dx);
    AfterNext(p1, p2, k, l);
    AfterNext(p1, p2, k + 1, l);
    AfterStep(p1, p2, k, l, k2, l2);
    TrailExtend(points, After(p1, p2, k, l), After(p1, p2, k2, l2), p1, p2);
  }

  /**
   * `__calc_line_points`: the points from p1 to p2. The first is p1 and the
   * last p2, consecutive points are 8-neighbours moving towards p2, every
   * point lies in the bounding box of p1 and p2, there are exactly
   * max(|dx|, |dy|) + 1 of them (the longer axis steps every time), and
   * p1 == p2 gives just [p2].
   */
  method LinePoints(p1: Point, p2: Point) returns (linePoints: seq<Point>)
    ensures IsLine(linePoints, p1, p2)
    ensures |linePoints| == Max(Abs(p2.x - p1.x), Abs(p2.y - p1.y)) + 1
    ensures p1 == p2 ==> linePoints == [p2]
  {
    var x1, x2 := p1.x, p2.x;
    var y1, y2 := p1.y, p2.y;
    var deltaX := Abs(x2 - x1);
    var deltaY := Abs(y2 - y1);
    var signX := if x1 < x2 then 1 else -1;
    var signY := if y1 < y2 then 1 else -1;
    assert signX == Sign(p1.x, p2.x) && signY == Sign(p1.y, p2.y);
    var error := deltaX - deltaY;
    linePoints := [];
    // k x steps and l y steps so far
    ghost var k: nat, l: nat := 0, 0;
    while x1 != x2 || y1 != y2
      invariant k <= deltaX && l <= deltaY
      invariant x1 == After(p1, p2, k, l).x && y1 == After(p1, p2, k, l).y
      invariant error == ErrorTerm(deltaX, deltaY, k, l)
      invariant Counted(deltaX, deltaY, error, k, l, |linePoints|)
      invariant Trail(linePoints, After(p1, p2, k, l), p1, p2)
      decreases deltaX - k + deltaY - l
    {
      ghost var k2, l2, e2 := Advance(p1, p2, deltaX, deltaY, linePoints, k, l, error);
      linePoints := linePoints + [Point(x1, y1)];
      var error2 := error * 2;
      if error2 > -deltaY {
        error := error - deltaY;
        x1 := x1 + signX;
      }
      if error2 < deltaX {
        error := error + deltaX;
        y1 := y1 + signY;
      }
      assert error == e2;
      k, l := k2, l2;
    }
    assert k == deltaX && l == deltaY;
    TrailComplete(linePoints, p1, p2);
    linePoints := linePoints + [Point(x2, y2)];
  }

  /** Python indexing of a sequence of length n: negative indices count from the end. */
  function PyIndex(i: int, n: nat): (r: Option<nat>)
    ensures r.Some? <==> -(n as int) <= i < n
    ensures r.Some? ==> r.value < n && (r.value == i || r.value == i + n)
  {
    if 0 <= i < n then Some(i) else if -(n as int) <= i < 0 then Some(i + n) else None
  }

  /** `img_data[y][x]` of a single-channel image, or None where Python raises `IndexError`. */
  function SampleAt(img: array2<int>, p: Point): Option<int>
    reads img
  {
    match (PyIndex(p.y, img.Length0), PyIndex(p.x, img.Length1))
    case (Some(r), Some(c)) => Some(img[r, c])
    case _ => None
  }

  /**
   * The intensity list of `create_profile`: one sample per line point, in
   * order, read at row y and column x; None when some point's index raises.
   */
  function Intensities(img: array2<int>, points: seq<Point>): (r: Option<seq<int>>)
    reads img
    ensures r.Some? <==> forall i :: 0 <= i < |points| ==> SampleAt(img, points[i]).Some?
    ensures r.Some? ==> |r.value| == |points|
    ensures r.Some? ==> forall i :: 0 <= i < |points| ==> r.value[i] == SampleAt(img, points[i]).value
  {
    if points == [] then Some([])
    else
      match (SampleAt(img, points[0]), Intensities(img, points[1..]))
      case (Some(v), Some(rest)) => Some([v] + rest)
      case _ => None
  }

  /** A point inside the image is sampled at exactly that row and column. */
  predicate InImage(img: array2<int>, p: Point)
  {
    0 <= p.x < img.Length1 && 0 <= p.y < img.Length0
  }

  /**
   * Between two points inside the image, every line point is inside the
   * image as well, so the profile exists and holds `img[y, x]` at each
   * point of the line.
   */
  lemma ProfileInsideImage(img: array2<int>, points: seq<Point>, p1: Point, p2: Point)
    requires IsLine(points, p1, p2) && InImage(img, p1) && InImage(img, p2)
    ensures Intensities(img, points).Some?
    ensures forall i :: 0 <= i < |points| ==>
      InImage(img, points[i]) && Intensities(img, points).value[i] == img[points[i].y, points[i].x]
  {
    assert forall i :: 0 <= i < |points| ==> InImage(img, points[i]) by {
      forall i | 0 <= i < |points|
        ensures InImage(img, points[i])
      {
        assert InBox(points[i], p1, p2);
      }
    }
  }
}
