/**
 * The manual two-image stitcher of the panorama tool. Feature detection,
 * matching, the homography and the perspective warp are OpenCV calls; the
 * model receives their results: the k=2 nearest-neighbour matches as pairs
 * of integer Hamming distances, the perspective transform as a function on
 * points, and the warped first image as a function from canvas position to
 * pixel. What remains is the ratio filter, the minimum-match gate, the
 * integer canvas bounds and the paste of the second image.
 */
module PanoramaStitcher {
  /** One neighbour found by the matcher: its Hamming distance and the keypoints it joins. */
  datatype Match = Match(distance: nat, queryIdx: nat, trainIdx: nat)

  /** The two nearest neighbours `knnMatch(k=2)` returns for one descriptor. */
  datatype Neighbours = Neighbours(best: Match, second: Match)

  /** `MIN_MATCH_COUNT`: a homography needs more good matches than this. */
  const MinMatchCount := 10

  /**
   * `m.distance < 0.6 * n.distance`. The distances are whole numbers, and
   * for whole numbers the comparison is 5 * best < 3 * second.
   */
  predicate Strong(p: Neighbours)
  {
    5 * p.best.distance < 3 * p.second.distance
  }

  /** The matches the ratio test keeps: the best neighbour of every strong pair, in order. */
  function RatioFilter(matches: seq<Neighbours>): seq<Match>
  {
    if matches == [] then [] else Kept(matches[0]) + RatioFilter(matches[1..])
  }

  /** What the ratio test keeps of one pair. */
  function Kept(p: Neighbours): (r: seq<Match>)
    ensures r == [] || r == [p.best]
  {
    if Strong(p) then [p.best] else []
  }

  /** Filtering a concatenation filters each part: the filter keeps the input's order. */
  lemma {:induction false} RatioFilterAppend(a: seq<Neighbours>, b: seq<Neighbours>)
    ensures RatioFilter(a + b) == RatioFilter(a) + RatioFilter(b)
  {
    if a == [] {
      assert a + b == b;
    } else {
      calc {
        RatioFilter(a + b);
        { assert (a + b)[0] == a[0] && (a + b)[1..] == a[1..] + b; }
        Kept(a[0]) + RatioFilter(a[1..] + b);
        { RatioFilterAppend(a[1..], b); }
        Kept(a[0]) + (RatioFilter(a[1..]) + RatioFilter(b));
        Kept(a[0]) + RatioFilter(a[1..]) + RatioFilter(b);
      }
    }
  }

  /**
   * A match is kept exactly when it is the best neighbour of a strong pair,
   * so every kept match is less than 0.6 of its second neighbour's distance,
   * and there are never more kept matches than pairs.
   */
  lemma {:induction false} RatioFilterKeepsStrong(matches: seq<Neighbours>)
    ensures |RatioFilter(matches)| <= |matches|
    ensures forall m :: m in RatioFilter(matches) <==>
      exists k :: 0 <= k < |matches| && Strong(matches[k]) && matches[k].best == m
  {
    if matches != [] {
      RatioFilterKeepsStrong(matches[1..]);
      forall m
        ensures m in RatioFilter(matches) <==>
          exists k :: 0 <= k < |matches| && Strong(matches[k]) && matches[k].best == m
      {
        if m in RatioFilter(matches[1..]) {
          var k :| 0 <= k < |matches[1..]| && Strong(matches[1..][k]) && matches[1..][k].best == m;
          assert matches[k + 1] == matches[1..][k];
        }
        if exists k :: 0 <= k < |matches| && Strong(matches[k]) && matches[k].best == m {
          var k :| 0 <= k < |matches| && Strong(matches[k]) && matches[k].best == m;
          if k > 0 {
            assert matches[1..][k - 1] == matches[k];
          }
        }
      }
    }
  }

  /** A point of the homography's plane. */
  datatype RealPoint = RealPoint(x: real, y: real)

  /** The corners of a rows x cols image in (x, y) order: (0,0), (0,rows), (cols,rows), (cols,0). */
  function Corners(rows: nat, cols: nat): (c: seq<RealPoint>)
    ensures |c| == 4 && c[0] == RealPoint(0.0, 0.0) && c[2] == RealPoint(cols as real, rows as real)
    ensures c[1].x == c[0].x && c[1].y == c[2].y && c[3].x == c[2].x && c[3].y == c[0].y
  {
    [RealPoint(0.0, 0.0), RealPoint(0.0, rows as real), RealPoint(cols as real, rows as real),
     RealPoint(cols as real, 0.0)]
  }

  /** The smallest x of the points. */
  function MinX(ps: seq<RealPoint>): real
    requires |ps| >= 1
  {
    if |ps| == 1 then ps[0].x else var m := MinX(ps[1..]); if ps[0].x <= m then ps[0].x else m
  }

  /** The smallest y of the points. */
  function MinY(ps: seq<RealPoint>): real
    requires |ps| >= 1
  {
    if |ps| == 1 then ps[0].y else var m := MinY(ps[1..]); if ps[0].y <= m then ps[0].y else m
  }

  /** The largest x of the points. */
  function MaxX(ps: seq<RealPoint>): real
    requires |ps| >= 1
  {
    if |ps| == 1 then ps[0].x else var m := MaxX(ps[1..]); if ps[0].x >= m then ps[0].x else m
  }

  /** The largest y of the points. */
  function MaxY(ps: seq<RealPoint>): real
    requires |ps| >= 1
  {
    if |ps| == 1 then ps[0].y else var m := MaxY(ps[1..]); if ps[0].y >= m then ps[0].y else m
  }

  /** The extremes bound every point: `points.min(axis=0)` and `points.max(axis=0)`. */
  lemma {:induction false} ExtremesBound(ps: seq<RealPoint>, k: nat)
    requires k < |ps|
    ensures MinX(ps) <= ps[k].x <= MaxX(ps) && MinY(ps) <= ps[k].y <= MaxY(ps)
  {
    if k > 0 {
      ExtremesBound(ps[1..], k - 1);
    }
  }

  /** `int32(v)` of a real: truncation toward zero. */
  function Trunc(r: real): (t: int)
    ensures r >= 0.0 ==> t as real <= r < t as real + 1.0
    ensures r < 0.0 ==> t as real - 1.0 < r <= t as real
  {
    if r >= 0.0 then r.Floor else -((-r).Floor)
  }

  /** The integer canvas of the stitched image: x_min, y_min, x_max, y_max. */
  datatype Canvas = Canvas(xMin: int, yMin: int, xMax: int, yMax: int)
  {
    function Width(): int { xMax - xMin }
    function Height(): int { yMax - yMin }
  }

  /** The bounds of `warp_images`: (min - 0.5) and (max + 0.5) truncated on each axis. */
  function CanvasBounds(ps: seq<RealPoint>): Canvas
    requires |ps| >= 1
  {
    Canvas(Trunc(MinX(ps) - 0.5), Trunc(MinY(ps) - 0.5), Trunc(MaxX(ps) + 0.5), Trunc(MaxY(ps) + 0.5))
  }

  /** The eight points of `warp_images`: image 2's corners, then image 1's transformed corners. */
  function CanvasPoints(rows1: nat, cols1: nat, rows2: nat, cols2: nat, transform: RealPoint -> RealPoint): (ps: seq<RealPoint>)
    ensures |ps| == 8
  {
    var c1 := Corners(rows1, cols1);
    Corners(rows2, cols2) + [transform(c1[0]), transform(c1[1]), transform(c1[2]), transform(c1[3])]
  }

  /**
   * Image 2's corners (0,0) and (cols2,rows2) are among the points, so the
   * translation (-x_min, -y_min) is non-negative and the canvas reaches at
   * least cols2 + tx across and rows2 + ty down: image 2 fits at the
   * translation.
   */
  lemma {:induction false} CanvasHoldsImage2(ps: seq<RealPoint>, rows2: nat, cols2: nat)
    requires |ps| >= 4 && ps[..4] == Corners(rows2, cols2)
    ensures CanvasBounds(ps).xMin <= 0 && CanvasBounds(ps).yMin <= 0
    ensures CanvasBounds(ps).Width() >= cols2 - CanvasBounds(ps).xMin
    ensures CanvasBounds(ps).Height() >= rows2 - CanvasBounds(ps).yMin
  {
    assert ps[0] == RealPoint(0.0, 0.0) && ps[2] == RealPoint(cols2 as real, rows2 as real) by {
      assert ps[0] == ps[..4][0] && ps[2] == ps[..4][2];
    }
    ExtremesBound(ps, 0);
    ExtremesBound(ps, 2);
  }

  /** The same for the eight points `warp_images` collects. */
  lemma WarpCanvasHoldsImage2(rows1: nat, cols1: nat, rows2: nat, cols2: nat, transform: RealPoint -> RealPoint)
    ensures var b := CanvasBounds(CanvasPoints(rows1, cols1, rows2, cols2, transform));
      b.xMin <= 0 && b.yMin <= 0 && b.Width() >= cols2 - b.xMin && b.Height() >= rows2 - b.yMin
  {
    var ps := CanvasPoints(rows1, cols1, rows2, cols2, transform);
    assert ps[..4] == Corners(rows2, cols2);
    CanvasHoldsImage2(ps, rows2, cols2);
  }

  /** The window of the canvas image 2 is pasted into. */
  predicate InWindow(i: int, j: int, ty: int, tx: int, rows: int, cols: int)
  {
    ty <= i < ty + rows && tx <= j < tx + cols
  }

  /**
   * `output_img[ty:rows2+ty, tx:cols2+tx] = image2`: the window takes image
   * 2's pixels, every other pixel keeps its value.
   */
  method Paste(canvas: array2<int>, image2: array2<int>, tx: nat, ty: nat)
    requires canvas != image2
    requires ty + image2.Length0 <= canvas.Length0 && tx + image2.Length1 <= canvas.Length1
    modifies canvas
    ensures forall i, j :: 0 <= i < canvas.Length0 && 0 <= j < canvas.Length1 ==>
      canvas[i, j] == if InWindow(i, j, ty, tx, image2.Length0, image2.Length1)
                      then image2[i - ty, j - tx] else old(canvas[i, j])
  {
    var r := 0;
    while r < image2.Length0
      invariant 0 <= r <= image2.Length0
      invariant forall i, j :: 0 <= i < canvas.Length0 && 0 <= j < canvas.Length1 ==>
        canvas[i, j] == if InWindow(i, j, ty, tx, r, image2.Length1)
                        then image2[i - ty, j - tx] else old(canvas[i, j])
    {
      var c := 0;
      while c < image2.Length1
        invariant 0 <= c <= image2.Length1
        invariant forall i, j :: 0 <= i < canvas.Length0 && 0 <= j < canvas.Length1 ==>
          canvas[i, j] == if InWindow(i, j, ty, tx, r, image2.Length1) || (i == ty + r && tx <= j < tx + c)
                          then image2[i - ty, j - tx] else old(canvas[i, j])
      {
        canvas[ty + r, tx + c] := image2[r, c];
        c := c + 1;
      }
      r := r + 1;
    }
  }

  /**
   * `warp_images`: the canvas spans the integer bounds of the eight points,
   * shows the warped image 1 (translated by (-x_min, -y_min)) and has
   * image 2 pasted at the translation, on top.
   */
  method WarpImages(rows1: nat, cols1: nat, image2: array2<int>,
                    transform: RealPoint -> RealPoint, warped: (int, int) -> int)
    returns (output: array2<int>)
    ensures var b := CanvasBounds(CanvasPoints(rows1, cols1, image2.Length0, image2.Length1, transform));
      && fresh(output) && output.Length0 == b.Height() && output.Length1 == b.Width()
      && forall i, j :: 0 <= i < output.Length0 && 0 <= j < output.Length1 ==>
           output[i, j] == if InWindow(i, j, -b.yMin, -b.xMin, image2.Length0, image2.Length1)
                           then image2[i + b.yMin, j + b.xMin] else warped(i, j)
  {
    var b := CanvasBounds(CanvasPoints(rows1, cols1, image2.Length0, image2.Length1, transform));
    WarpCanvasHoldsImage2(rows1, cols1, image2.Length0, image2.Length1, transform);
    output := PasteOnWarped(b.Height(), b.Width(), image2, -b.xMin, -b.yMin, warped);
  }

  /** A new height x width canvas of the warped image with image 2 pasted at (tx, ty). */
  method PasteOnWarped(height: nat, width: nat, image2: array2<int>, tx: nat, ty: nat, warped: (int, int) -> int)
    returns (output: array2<int>)
    requires ty + image2.Length0 <= height && tx + image2.Length1 <= width
    ensures fresh(output) && output.Length0 == height && output.Length1 == width
    ensures forall i, j :: 0 <= i < height && 0 <= j < width ==>
      output[i, j] == if InWindow(i, j, ty, tx, image2.Length0, image2.Length1)
                      then image2[i - ty, j - tx] else warped(i, j)
  {
    output := new int[height, width]((i, j) => warped(i, j));
    Paste(output, image2, tx, ty);
  }

  /** The status `stitch` returns for a number of good matches: 0 above the minimum, 1 otherwise. */
  function StitchStatus(goodCount: nat): (status: int)
    ensures status == 0 || status == 1
    ensures status == 0 <==> goodCount > MinMatchCount
  {
    if goodCount > MinMatchCount then 0 else 1
  }

  class Stitcher {
    /** The two images: `images[0]` is warped onto `images[1]`. */
    const images: seq<array2<int>>
    const nfeatures: int
    const details: bool
    var goodMatches: seq<Match>

    /** Only two images can be stitched; the match list starts empty. */
    constructor (images: seq<array2<int>>, nfeatures: int, details: bool)
      requires |images| == 2
      ensures this.images == images && this.nfeatures == nfeatures && this.details == details
      ensures Valid() && goodMatches == []
    {
      this.images := images;
      this.nfeatures := nfeatures;
      this.details := details;
      goodMatches := [];
    }

    ghost predicate Valid()
      reads this
    {
      |images| == 2
    }

    /**
     * `match_keypoints`: appends, in order, the best neighbour of every pair
     * that passes the ratio test.
     */
    method MatchKeypoints(matches: seq<Neighbours>)
      modifies this`goodMatches
      ensures goodMatches == old(goodMatches) + RatioFilter(matches)
    {
      var i := 0;
      while i < |matches|
        invariant 0 <= i <= |matches|
        invariant goodMatches == old(goodMatches) + RatioFilter(matches[..i])
      {
        assert matches[..i + 1] == matches[..i] + [matches[i]];
        RatioFilterAppend(matches[..i], [matches[i]]);
        assert RatioFilter([matches[i]]) == Kept(matches[i]) + RatioFilter([]);
        if 5 * matches[i].best.distance < 3 * matches[i].second.distance {
          goodMatches := goodMatches + [matches[i].best];
        }
        i := i + 1;
      }
      assert matches[..i] == matches;
    }

    /**
     * `stitch`: filters the matches, and with more than `MIN_MATCH_COUNT`
     * good matches in total returns status 0 with the warped canvas;
     * otherwise status 1 and no image. Exactly ten matches fail.
     */
    method Stitch(matches: seq<Neighbours>, transform: RealPoint -> RealPoint, warped: (int, int) -> int)
      returns (status: int, result: array2?<int>)
      requires Valid()
      modifies this`goodMatches
      ensures goodMatches == old(goodMatches) + RatioFilter(matches)
      ensures status == StitchStatus(|goodMatches|)
      ensures status == 1 <==> result == null
      ensures status == 0 ==> (
        var b := CanvasBounds(CanvasPoints(images[0].Length0, images[0].Length1,
                                           images[1].Length0, images[1].Length1, transform));
        && result != null && fresh(result)
        && result.Length0 == b.Height() && result.Length1 == b.Width()
        && forall i, j :: 0 <= i < result.Length0 && 0 <= j < result.Length1 ==>
             result[i, j] == if InWindow(i, j, -b.yMin, -b.xMin, images[1].Length0, images[1].Length1)
                             then images[1][i + b.yMin, j + b.xMin] else warped(i, j))
    {
      MatchKeypoints(matches);
      if |goodMatches| > MinMatchCount {
        result := WarpImages(images[0].Length0, images[0].Length1, images[1], transform, warped);
        status := 0;
      } else {
        status, result := 1, null;
      }
    }
  }
}
