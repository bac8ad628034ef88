/**
 * The intensity profile window of the older application's analysis package: the profile line is
 * rasterised from the two clicked points, and the image is sampled at every
 * line point. The plot itself, and the weighting of colour pixels, are not
 * part of this model.
 */
module LegacyAnalyzeProfile {
  import opened Wrappers
  import opened Bresenham

  class IntensityProfile {
    var windowIsClosed: bool
    var linePoints: seq<Point>

    /** A new window is marked closed until its first profile. */
    constructor ()
      ensures windowIsClosed && linePoints == []
    {
      windowIsClosed := true;
      linePoints := [];
    }

    /** `__calc_line_points`: stores the rasterised line from p1 to p2. */
    method CalcLinePoints(p1: Point, p2: Point)
      modifies this`linePoints
      ensures IsLine(linePoints, p1, p2)
      ensures |linePoints| == Max(Abs(p2.x - p1.x), Abs(p2.y - p1.y)) + 1
      ensures p1 == p2 ==> linePoints == [p2]
    {
      linePoints := LinePoints(p1, p2);
    }

    /**
     * `create_profile` for a single-channel image: opens the window, stores
     * the line between the two points and reads one intensity per line
     * point at `imgData[y][x]`; between two points inside the image the
     * profile always exists.
     */
    method CreateProfile(points: seq<Point>, imgData: array2<int>) returns (intensities: Option<seq<int>>)
      requires |points| >= 2
      modifies this`windowIsClosed, this`linePoints
      ensures !windowIsClosed
      ensures IsLine(linePoints, points[0], points[1])
      ensures intensities == Intensities(imgData, linePoints)
      ensures InImage(imgData, points[0]) && InImage(imgData, points[1]) ==>
        (intensities.Some? && |intensities.value| == |linePoints| &&
         forall i :: 0 <= i < |linePoints| ==> intensities.value[i] == imgData[linePoints[i].y, linePoints[i].x])
    {
      if windowIsClosed {
        windowIsClosed := false;
      }
      CalcLinePoints(points[0], points[1]);
      intensities := Intensities(imgData, linePoints);
      if InImage(imgData, points[0]) && InImage(imgData, points[1]) {
        ProfileInsideImage(imgData, linePoints, points[0], points[1]);
      }
    }
  }
}
