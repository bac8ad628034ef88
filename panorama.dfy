/**
 * The panorama dialog: it takes the images of the right list in order,
 * stitches them either with the library stitcher or with the manual
 * two-image stitcher, optionally cuts the black border off the result and
 * keeps it as the new image. The library stitcher, the gray conversion and
 * the contour search are OpenCV calls, so their results are inputs: the
 * library's status and panorama, the gray value of a pixel, and the
 * bounding box of the largest outer contour of the thresholded image.
 */
module Panorama {
  import opened Wrappers
  import opened PanoramaStitcher
  import opened PanoramaLists

  const NeedMoreImages := "Need more input images to construct the panorama,\nor try to reverse the image order on the right list\nusing the 'Up' and 'Down' buttons"
  const HomographyFailed := "RANSAC homography estimation failed:\nYou may need more images or your images don't have enough distinguishing,\nunique texture/objects for keypoints to be accurately matched"
  const CameraFailed := "Failed to properly estimate camera intrinsics/extrinsics from the input images"
  const OnlyTwoImages := "The Manual mode stitches only two images"

  /** `ERROR_MESSAGES`: the warning shown for each failed status; there is one for 1 to 4 only. */
  function ErrorMessage(status: int): (m: Option<string>)
    ensures m.Some? <==> 1 <= status <= 4
  {
    if status == 1 then Some(NeedMoreImages)
    else if status == 2 then Some(HomographyFailed)
    else if status == 3 then Some(CameraFailed)
    else if status == 4 then Some(OnlyTwoImages)
    else None
  }

  /** The width of the black frame `copyMakeBorder` puts around the panorama. */
  const Border := 10

  /** Pixel (i, j) of the padded panorama: the original shifted by the frame, black in the frame. */
  function PaddedAt(img: array2<int>, i: int, j: int): int
    reads img
  {
    if InWindow(i, j, Border, Border, img.Length0, img.Length1) then img[i - Border, j - Border] else 0
  }

  /**
   * `copyMakeBorder(stitched, 10, 10, 10, 10, BORDER_CONSTANT, (0, 0, 0))`:
   * 20 rows and 20 columns larger, pixel (r, c) moved to (r+10, c+10) and a
   * black frame around it.
   */
  method Pad(img: array2<int>) returns (padded: array2<int>)
    ensures fresh(padded)
    ensures padded.Length0 == img.Length0 + 2 * Border && padded.Length1 == img.Length1 + 2 * Border
    ensures forall r, c :: 0 <= r < img.Length0 && 0 <= c < img.Length1 ==> padded[r + Border, c + Border] == img[r, c]
    ensures forall i, j :: 0 <= i < padded.Length0 && 0 <= j < padded.Length1 ==>
      padded[i, j] == PaddedAt(img, i, j)
    ensures forall i, j ::
      0 <= i < padded.Length0 && 0 <= j < padded.Length1 && !InWindow(i, j, Border, Border, img.Length0, img.Length1)
      ==> padded[i, j] == 0
  {
    padded := new int[img.Length0 + 2 * Border, img.Length1 + 2 * Border]((i, j) reads img => PaddedAt(img, i, j));
    forall r, c | 0 <= r < img.Length0 && 0 <= c < img.Length1
      ensures padded[r + Border, c + Border] == img[r, c]
    {
      assert InWindow(r + Border, c + Border, Border, Border, img.Length0, img.Length1);
    }
  }

  /**
   * `threshold(gray, 0, 255, THRESH_BINARY)` of the gray conversion: 255
   * where the gray value is above zero, 0 elsewhere.
   */
  method Binarise(img: array2<int>, gray: int -> int) returns (thresh: array2<int>)
    ensures fresh(thresh) && thresh.Length0 == img.Length0 && thresh.Length1 == img.Length1
    ensures forall i, j :: 0 <= i < img.Length0 && 0 <= j < img.Length1 ==>
      (thresh[i, j] == 255 <==> gray(img[i, j]) > 0) && (thresh[i, j] == 0 <==> gray(img[i, j]) <= 0)
  {
    thresh := new int[img.Length0, img.Length1]((i, j) reads img =>
      if 0 <= i < img.Length0 && 0 <= j < img.Length1 && gray(img[i, j]) > 0 then 255 else 0);
  }

  /** `boundingRect`: left column x, top row y, width w, height h. */
  datatype Rect = Rect(x: int, y: int, w: int, h: int)

  /** A filled rectangle of a mask, corners included: rows top..bottom, columns left..right. */
  datatype Box = Box(top: int, left: int, bottom: int, right: int)

  predicate Covers(b: Box, i: int, j: int)
  {
    b.top <= i <= b.bottom && b.left <= j <= b.right
  }

  predicate IsEmpty(b: Box)
  {
    b.top > b.bottom || b.left > b.right
  }

  /**
   * `rectangle(mask, (x, y), (x + w, y + h), 255, -1)`: OpenCV fills both
   * corners, so the mask is one pixel wider and taller than the box.
   */
  function MaskOf(r: Rect): (b: Box)
    ensures b.bottom - b.top == r.h && b.right - b.left == r.w
  {
    Box(r.y, r.x, r.y + r.h, r.x + r.w)
  }

  /** The box after k erosions: k pixels off every side. */
  function ShrinkN(b: Box, k: nat): Box
  {
    Box(b.top + k, b.left + k, b.bottom - k, b.right - k)
  }

  /**
   * `erode(mask, None)` of a filled box that keeps off the image edge: a
   * pixel stays set exactly when its whole 3x3 neighbourhood inside the
   * image is set, and that is the box with one pixel taken off every side.
   * Eroding only removes pixels.
   */
  lemma ErodeBox(b: Box, height: int, width: int, i: int, j: int)
    requires 1 <= b.top && b.bottom <= height - 2 && 1 <= b.left && b.right <= width - 2
    requires 0 <= i < height && 0 <= j < width
    ensures Covers(ShrinkN(b, 1), i, j) <==>
      forall a, c :: i - 1 <= a <= i + 1 && j - 1 <= c <= j + 1 && 0 <= a < height && 0 <= c < width ==> Covers(b, a, c)
    ensures Covers(ShrinkN(b, 1), i, j) ==> Covers(b, i, j)
  {
    if forall a, c :: i - 1 <= a <= i + 1 && j - 1 <= c <= j + 1 && 0 <= a < height && 0 <= c < width ==> Covers(b, a, c) {
      assert Covers(b, i, j);
      assert Covers(b, i - 1, j - 1) && Covers(b, i + 1, j + 1);
    }
  }

  /** Every pixel the box covers in the padded panorama has a gray value above zero. */
  ghost predicate Fits(b: Box, img: array2<int>, gray: int -> int)
    reads img
  {
    forall i, j :: 0 <= i < img.Length0 + 2 * Border && 0 <= j < img.Length1 + 2 * Border && Covers(b, i, j) ==>
      gray(PaddedAt(img, i, j)) > 0
  }

  /** `subtract` of two 8-bit images saturates at zero. */
  function SatSub(a: int, b: int): (d: int)
    ensures d >= 0 && d >= a - b
    ensures d == 0 <==> a <= b
  {
    if a - b < 0 then 0 else a - b
  }

  /** The mask value of a filled box. */
  function MaskValue(b: Box, i: int, j: int): int
  {
    if Covers(b, i, j) then 255 else 0
  }

  /**
   * `countNonZero(subtract(crop, thresh))`: the count is zero exactly when
   * the mask minus the thresholded image is zero everywhere.
   */
  method CountNonZeroSub(crop: Box, thresh: array2<int>) returns (n: nat)
    ensures n == 0 <==> forall i, j :: 0 <= i < thresh.Length0 && 0 <= j < thresh.Length1 ==>
      SatSub(MaskValue(crop, i, j), thresh[i, j]) == 0
  {
    n := 0;
    for i := 0 to thresh.Length0
      invariant n == 0 <==> forall a, c :: 0 <= a < i && 0 <= c < thresh.Length1 ==>
        SatSub(MaskValue(crop, a, c), thresh[a, c]) == 0
    {
      for j := 0 to thresh.Length1
        invariant n == 0 <==> forall a, c ::
          0 <= a < thresh.Length0 && 0 <= c < thresh.Length1 && (a < i || (a == i && c < j))
          ==> SatSub(MaskValue(crop, a, c), thresh[a, c]) == 0
      {
        if SatSub(MaskValue(crop, i, j), thresh[i, j]) != 0 {
          n := n + 1;
        }
      }
    }
  }

  /**
   * With a binary image, the saturated difference is zero everywhere
   * exactly when the box lies inside the white part, which is where the
   * gray value is above zero.
   */
  lemma SubEmptyIffFits(crop: Box, thresh: array2<int>, img: array2<int>, gray: int -> int)
    requires thresh.Length0 == img.Length0 + 2 * Border && thresh.Length1 == img.Length1 + 2 * Border
    requires forall i, j :: 0 <= i < thresh.Length0 && 0 <= j < thresh.Length1 ==>
      (thresh[i, j] == 255 <==> gray(PaddedAt(img, i, j)) > 0) && (thresh[i, j] == 0 <==> gray(PaddedAt(img, i, j)) <= 0)
    ensures (forall i, j :: 0 <= i < thresh.Length0 && 0 <= j < thresh.Length1 ==>
      SatSub(MaskValue(crop, i, j), thresh[i, j]) == 0) <==> Fits(crop, img, gray)
  {
    if !Fits(crop, img, gray) {
      var i, j :| 0 <= i < img.Length0 + 2 * Border && 0 <= j < img.Length1 + 2 * Border && Covers(crop, i, j) &&
        gray(PaddedAt(img, i, j)) <= 0;
      assert SatSub(MaskValue(crop, i, j), thresh[i, j]) != 0;
    }
  }

  /** Why `crop_borders` gives up: `max` of an empty contour list raises `ValueError`. */
  datatype CropError = NoContour

  /** The outline lies inside the black frame of the padded panorama. */
  predicate InsideBorder(r: Rect, height: int, width: int)
  {
    Border <= r.x && Border <= r.y && r.w >= 0 && r.h >= 0 &&
    r.x + r.w <= width + Border && r.y + r.h <= height + Border
  }

  /**
   * `crop_borders`. The outline's filled box is eroded, one pixel off every
   * side per step, until it fits inside the panorama's non-black part; the
   * loop always erodes at least once. The result is the padded panorama
   * under the final box. With no outline, or once the box has eroded away,
   * there is no contour and the crop fails. The ghost results name the
   * final box and the number of erosions: no smaller number of erosions
   * fits.
   */
  method CropBorders(stitched: array2<int>, gray: int -> int, outline: Option<Rect>)
    returns (r: Result<array2<int>, CropError>, ghost box: Box, ghost steps: nat)
    requires outline.Some? ==> InsideBorder(outline.value, stitched.Length0, stitched.Length1)
    ensures outline.None? ==> r == Err(NoContour)
    ensures outline.Some? ==> steps >= 1 && box == ShrinkN(MaskOf(outline.value), steps)
    ensures outline.Some? ==> forall k :: 1 <= k < steps ==> !Fits(ShrinkN(MaskOf(outline.value), k), stitched, gray)
    ensures outline.Some? ==> Fits(box, stitched, gray)
    ensures r.Ok? <==> outline.Some? && !IsEmpty(box)
    ensures r.Ok? ==> fresh(r.value) && InsidePadded(box, stitched)
    ensures r.Ok? ==> r.value.Length0 == box.bottom - box.top + 1 && r.value.Length1 == box.right - box.left + 1
    ensures r.Ok? ==> forall i, j :: 0 <= i < r.value.Length0 && 0 <= j < r.value.Length1 ==>
      r.value[i, j] == PaddedAt(stitched, box.top + i, box.left + j) && gray(r.value[i, j]) > 0
  {
    var padded, thresh := PadAndBinarise(stitched, gray);
    box, steps := Box(0, 0, -1, -1), 0;
    if outline.None? {
      return Err(NoContour), box, steps;
    }
    var crop: Box;
    crop, steps := ErodeUntilInside(MaskOf(outline.value), thresh, stitched, gray);
    box := crop;
    if IsEmpty(crop) {
      return Err(NoContour), box, steps;
    }
    var region := CutOut(padded, stitched, crop, gray);
    r := Ok(region);
  }

  /**
   * The loop of `crop_borders`: erode the mask until the saturated
   * difference with the binary image is empty, at least once. The number of
   * erosions is the first that fits.
   */
  method ErodeUntilInside(mask: Box, thresh: array2<int>, stitched: array2<int>, gray: int -> int)
    returns (crop: Box, ghost steps: nat)
    requires thresh.Length0 == stitched.Length0 + 2 * Border && thresh.Length1 == stitched.Length1 + 2 * Border
    requires forall i, j :: 0 <= i < thresh.Length0 && 0 <= j < thresh.Length1 ==>
      (thresh[i, j] == 255 <==> gray(PaddedAt(stitched, i, j)) > 0) &&
      (thresh[i, j] == 0 <==> gray(PaddedAt(stitched, i, j)) <= 0)
    ensures steps >= 1 && crop == ShrinkN(mask, steps) && Fits(crop, stitched, gray)
    ensures forall k :: 1 <= k < steps ==> !Fits(ShrinkN(mask, k), stitched, gray)
  {
    crop, steps := mask, 0;
    // `sub` starts as a copy of the mask; the loop runs at least once
    var subNonZero := true;
    while subNonZero
      invariant crop == ShrinkN(mask, steps)
      invariant forall k :: 1 <= k < steps ==> !Fits(ShrinkN(mask, k), stitched, gray)
      invariant subNonZero ==> steps == 0 || (!IsEmpty(crop) && !Fits(crop, stitched, gray))
      invariant !subNonZero ==> steps >= 1 && Fits(crop, stitched, gray)
      decreases if subNonZero then 1 else 0, if IsEmpty(crop) then 0 else crop.bottom - crop.top + 1
    {
      crop := ShrinkN(crop, 1);
      steps := steps + 1;
      var n := CountNonZeroSub(crop, thresh);
      SubEmptyIffFits(crop, thresh, stitched, gray);
      subNonZero := n > 0;
    }
  }

  /**
   * The final box of `crop_borders` for an outline: the outline's mask
   * eroded `steps` times, at least once, where `steps` is the first number
   * of erosions at which the box fits in the panorama's content.
   */
  ghost predicate FinalBox(outline: Rect, stitched: array2<int>, gray: int -> int, box: Box, steps: nat)
    reads stitched
  {
    && steps >= 1 && box == ShrinkN(MaskOf(outline), steps) && Fits(box, stitched, gray)
    && forall k :: 1 <= k < steps ==> !Fits(ShrinkN(MaskOf(outline), k), stitched, gray)
  }

  /** An outline has one final box: the erosion count is the least one that fits. */
  lemma FinalBoxUnique(outline: Rect, stitched: array2<int>, gray: int -> int, b1: Box, s1: nat, b2: Box, s2: nat)
    requires FinalBox(outline, stitched, gray, b1, s1) && FinalBox(outline, stitched, gray, b2, s2)
    ensures s1 == s2 && b1 == b2
  {
  }

  /**
   * `stitched[y:y + h, x:x + w]` for the bounding rectangle of the box: the
   * region is the padded panorama under the box, and none of it is black.
   */
  ghost predicate IsCutOut(region: array2<int>, stitched: array2<int>, box: Box, gray: int -> int)
    reads region, stitched
  {
    && region.Length0 == box.bottom - box.top + 1 && region.Length1 == box.right - box.left + 1
    && forall i, j :: 0 <= i < region.Length0 && 0 <= j < region.Length1 ==>
         region[i, j] == PaddedAt(stitched, box.top + i, box.left + j) && gray(region[i, j]) > 0
  }

  /**
   * `crop_borders` inside the dialog's `try ... except ValueError`: an
   * image exactly when the crop does not raise, that is, when there is an
   * outline and its final box (the ghost results) is not empty; the image
   * is then the cut-out of that box.
   */
  method TryCrop(stitched: array2<int>, gray: int -> int, outline: Option<Rect>)
    returns (pano: array2?<int>, ghost box: Box, ghost steps: nat)
    requires outline.Some? ==> InsideBorder(outline.value, stitched.Length0, stitched.Length1)
    ensures outline.Some? ==> FinalBox(outline.value, stitched, gray, box, steps)
    ensures pano != null <==> outline.Some? && !IsEmpty(box)
    ensures pano != null ==> fresh(pano) && IsCutOut(pano, stitched, box, gray)
  {
    var r;
    r, box, steps := CropBorders(stitched, gray, outline);
    pano := if r.Ok? then r.value else null;
  }

  /** The box lies inside the padded panorama. */
  predicate InsidePadded(b: Box, img: array2<int>)
    reads img
  {
    0 <= b.top && b.bottom < img.Length0 + 2 * Border && 0 <= b.left && b.right < img.Length1 + 2 * Border
  }

  /** The padded panorama and its binary image, in terms of the original. */
  method PadAndBinarise(stitched: array2<int>, gray: int -> int) returns (padded: array2<int>, thresh: array2<int>)
    ensures fresh(padded) && fresh(thresh)
    ensures padded.Length0 == thresh.Length0 == stitched.Length0 + 2 * Border
    ensures padded.Length1 == thresh.Length1 == stitched.Length1 + 2 * Border
    ensures forall i, j :: 0 <= i < padded.Length0 && 0 <= j < padded.Length1 ==>
      padded[i, j] == PaddedAt(stitched, i, j)
    ensures forall i, j :: 0 <= i < thresh.Length0 && 0 <= j < thresh.Length1 ==>
      (thresh[i, j] == 255 <==> gray(PaddedAt(stitched, i, j)) > 0) &&
      (thresh[i, j] == 0 <==> gray(PaddedAt(stitched, i, j)) <= 0)
  {
    padded := Pad(stitched);
    thresh := Binarise(padded, gray);
  }

  /**
   * `stitched[y:y + h, x:x + w].copy()` for the bounding rectangle of a
   * non-empty filled box: exactly the box's pixels, all non-black.
   */
  method CutOut(padded: array2<int>, stitched: array2<int>, crop: Box, gray: int -> int) returns (region: array2<int>)
    requires padded.Length0 == stitched.Length0 + 2 * Border && padded.Length1 == stitched.Length1 + 2 * Border
    requires forall i, j :: 0 <= i < padded.Length0 && 0 <= j < padded.Length1 ==>
      padded[i, j] == PaddedAt(stitched, i, j)
    requires !IsEmpty(crop) && InsidePadded(crop, stitched) && Fits(crop, stitched, gray)
    ensures fresh(region)
    ensures region.Length0 == crop.bottom - crop.top + 1 && region.Length1 == crop.right - crop.left + 1
    ensures forall i, j :: 0 <= i < region.Length0 && 0 <= j < region.Length1 ==>
      region[i, j] == PaddedAt(stitched, crop.top + i, crop.left + j) && gray(region[i, j]) > 0
  {
    var x, y, w, h := crop.left, crop.top, crop.right - crop.left + 1, crop.bottom - crop.top + 1;
    region := new int[h, w]((i, j) reads padded =>
      if 0 <= y + i < padded.Length0 && 0 <= x + j < padded.Length1 then padded[y + i, x + j] else 0);
    forall i, j | 0 <= i < h && 0 <= j < w
      ensures region[i, j] == PaddedAt(stitched, y + i, x + j) && gray(region[i, j]) > 0
    {
      assert Covers(crop, y + i, x + j);
    }
  }

  predicate IsSpace(c: char)
  {
    c == ' ' || c == '\t' || c == '\n' || c == '\r'
  }

  /** The text without its leading white space. */
  function TrimStart(s: string): (r: string)
    ensures |r| <= |s| && r == s[|s| - |r|..]
    ensures r == [] || !IsSpace(r[0])
    ensures forall k :: 0 <= k < |s| - |r| ==> IsSpace(s[k])
  {
    if s != [] && IsSpace(s[0]) then TrimStart(s[1..]) else s
  }

  /** The text without its trailing white space. */
  function TrimEnd(s: string): (r: string)
    ensures |r| <= |s| && r == s[..|r|]
    ensures r == [] || !IsSpace(r[|r| - 1])
    ensures forall k :: |r| <= k < |s| ==> IsSpace(s[k])
  {
    if s != [] && IsSpace(s[|s| - 1]) then TrimEnd(s[..|s| - 1]) else s
  }

  predicate AllSpace(s: string)
  {
    forall k :: 0 <= k < |s| ==> IsSpace(s[k])
  }

  /**
   * `str.strip()`: the text between its first and last non-space
   * characters; only white space is dropped at either end.
   */
  function Strip(s: string): (r: string)
    ensures r == [] || (!IsSpace(r[0]) && !IsSpace(r[|r| - 1]))
    ensures exists p, q :: s == p + r + q && AllSpace(p) && AllSpace(q)
  {
    var t := TrimStart(s);
    var r := TrimEnd(t);
    TrimmedParts(s, t, r);
    r
  }

  /** A white-space prefix dropped from s, then a white-space suffix, leave s's middle. */
  lemma TrimmedParts(s: string, t: string, r: string)
    requires |t| <= |s| && t == s[|s| - |t|..] && forall k :: 0 <= k < |s| - |t| ==> IsSpace(s[k])
    requires |r| <= |t| && r == t[..|r|] && forall k :: |r| <= k < |t| ==> IsSpace(t[k])
    ensures exists p, q :: s == p + r + q && AllSpace(p) && AllSpace(q)
  {
    var a := |s| - |t|;
    var p, q := s[..a], t[|r|..];
    assert s == p + t by {
      assert s == s[..a] + s[a..];
    }
    assert t == r + q by {
      assert t == t[..|r|] + t[|r|..];
    }
    assert AllSpace(p) by {
      forall k | 0 <= k < |p|
        ensures IsSpace(p[k])
      {
        assert p[k] == s[k];
      }
    }
    assert AllSpace(q) by {
      forall k | 0 <= k < |q|
        ensures IsSpace(q[k])
      {
        assert q[k] == t[|r| + k];
      }
    }
    assert p + (r + q) == p + r + q;
  }

  /** The Qt label text for a failed crop. */
  const CalculationError := "Calculation Error. Please, restart the application and try again."

  /** The number of features the manual stitcher asks the detector for. */
  const ManualFeatures := 2000

  /**
   * `stitch_manually`: any number of images but two gives status 4 and no
   * panorama, without building a stitcher; two images go to a fresh
   * stitcher, whose status is 0 or 1. Statuses 2 and 3 never come from
   * here.
   */
  method StitchManually(imagesData: seq<array2<int>>, matches: seq<Neighbours>,
                        transform: RealPoint -> RealPoint, warped: (int, int) -> int)
    returns (status: int, result: array2?<int>)
    ensures status == 4 <==> |imagesData| != 2
    ensures status == 0 || status == 1 || status == 4
    ensures status != 0 <==> result == null
    ensures |imagesData| == 2 ==> status == StitchStatus(|RatioFilter(matches)|)
    ensures status == 0 ==> fresh(result)
  {
    if |imagesData| != 2 {
      return 4, null;
    }
    var stitcher := new Stitcher(imagesData, ManualFeatures, false);
    status, result := stitcher.Stitch(matches, transform, warped);
  }

  class PanoramaDialog {
    /** The loaded images by name (`images.copy()`). */
    const images: map<string, array2<int>>
    const lists: ImageLists
    var panoName: string
    var panoData: array2?<int>
    var errorText: string
    var warning: Option<string>
    var accepted: bool

    /**
     * The dialog lists every image name on the left, in the dictionary's
     * order, names the panorama "panorama" and holds no panorama yet.
     */
    constructor (images: map<string, array2<int>>, names: seq<string>)
      requires forall n :: n in names <==> n in images
      ensures this.images == images && fresh(lists) && lists.left == names && lists.right == []
      ensures panoName == "panorama" && panoData == null
      ensures errorText == "" && warning == None && !accepted
    {
      this.images := images;
      lists := new ImageLists(names);
      panoName := "panorama";
      panoData := null;
      errorText := "";
      warning := None;
      accepted := false;
    }

    /**
     * `get_selected_images`: the images of the right list, in its order;
     * the names go back, in the same order, to the end of the left list
     * and the right list is left empty.
     */
    method GetSelectedImages() returns (imagesData: seq<array2<int>>)
      requires forall n :: n in lists.right ==> n in images
      modifies lists
      ensures lists.right == [] && lists.left == old(lists.left) + old(lists.right)
      ensures |imagesData| == |old(lists.right)|
      ensures forall k :: 0 <= k < |imagesData| ==> imagesData[k] == images[old(lists.right)[k]]
    {
      ghost var names, left0 := lists.right, lists.left;
      imagesData := [];
      var count := |lists.right|;
      for i := 0 to count
        invariant lists.right == names[i..]
        invariant lists.left == left0 + names[..i]
        invariant |imagesData| == i
        invariant forall k :: 0 <= k < i ==> imagesData[k] == images[names[k]]
      {
        var name := lists.right[0];
        assert names[..i + 1] == names[..i] + [name];
        lists.right := lists.right[1..];
        assert lists.right == names[i + 1..];
        imagesData := imagesData + [images[name]];
        lists.left := lists.left + [name];
      }
      assert names[..count] == names;
    }

    /**
     * The second half of `stitch_images`, after stitching: status 0 keeps
     * the panorama, cropped when asked, takes the stripped name and accepts
     * the dialog, unless the crop fails, which only sets the error text;
     * any other status only shows its message. The result says whether the
     * crop failed, which is when `crop_borders` raises: no outline, or an
     * empty final box (the ghost results). A cropped panorama is the
     * cut-out of the final box.
     */
    method ShowResult(status: int, stitched: array2?<int>, crop: bool, nameText: string,
                      gray: int -> int, outline: (int, int) -> Option<Rect>)
      returns (cropFailed: bool, ghost box: Box, ghost steps: nat)
      requires status == 0 ==> stitched != null
      requires forall h, w :: outline(h, w).Some? ==> InsideBorder(outline(h, w).value, h, w)
      modifies this`panoData, this`panoName, this`errorText, this`warning, this`accepted
      ensures cropFailed <==>
        status == 0 && crop && (outline(stitched.Length0, stitched.Length1).None? || IsEmpty(box))
      ensures status == 0 && crop && outline(stitched.Length0, stitched.Length1).Some? ==>
        FinalBox(outline(stitched.Length0, stitched.Length1).value, stitched, gray, box, steps)
      ensures accepted == (old(accepted) || (status == 0 && !cropFailed))
      ensures status == 0 && !cropFailed ==> panoData != null && panoName == Strip(nameText)
      ensures status == 0 && !cropFailed && !crop ==> panoData == stitched
      ensures status == 0 && !cropFailed && crop ==>
        panoData != null && fresh(panoData) && IsCutOut(panoData, stitched, box, gray)
      ensures !(status == 0 && !cropFailed) ==> panoData == old(panoData) && panoName == old(panoName)
      ensures errorText == if cropFailed then CalculationError else old(errorText)
      ensures warning == if status != 0 then ErrorMessage(status) else old(warning)
    {
      cropFailed, box, steps := false, Box(0, 0, -1, -1), 0;
      if status == 0 {
        var pano := stitched;
        if crop {
          var cropped;
          cropped, box, steps := TryCrop(stitched, gray, outline(stitched.Length0, stitched.Length1));
          if cropped == null {
            cropFailed := true;
            errorText := CalculationError;
            return;
          }
          pano := cropped;
        }
        panoData := pano;
        var name := Strip(nameText);
        panoName := name;
        accepted := true;
      } else {
        warning := ErrorMessage(status);
      }
    }

    /**
     * `stitch_images`. The selected images always leave the right list
     * first. Status 0 keeps the panorama (cropped when asked, unless the
     * crop fails, which only sets the error text), takes the stripped name
     * and accepts the dialog; any other status shows its message and
     * changes neither the panorama nor its name. The ghost results are the
     * stitching status, whether the crop failed, the stitched panorama and
     * the crop's final box, as in `ShowResult`.
     */
    method StitchImages(manual: bool, crop: bool, nameText: string,
                        matches: seq<Neighbours>, transform: RealPoint -> RealPoint, warped: (int, int) -> int,
                        libraryStatus: int, libraryPano: array2?<int>,
                        gray: int -> int, outline: (int, int) -> Option<Rect>)
      returns (ghost status: int, ghost cropFailed: bool, ghost stitched: array2?<int>, ghost box: Box, ghost steps: nat)
      requires forall n :: n in lists.right ==> n in images
      requires 0 <= libraryStatus <= 3 && (libraryStatus == 0 <==> libraryPano != null)
      requires forall h, w :: outline(h, w).Some? ==> InsideBorder(outline(h, w).value, h, w)
      modifies lists, this`panoData, this`panoName, this`errorText, this`warning, this`accepted
      ensures lists.right == [] && lists.left == old(lists.left) + old(lists.right)
      ensures manual ==> (status == 4 <==> |old(lists.right)| != 2) && (status == 0 || status == 1 || status == 4)
      ensures !manual ==> status == libraryStatus && stitched == libraryPano
      ensures manual && status == 0 ==> fresh(stitched)
      ensures status == 0 <==> stitched != null
      ensures cropFailed <==>
        status == 0 && crop && (outline(stitched.Length0, stitched.Length1).None? || IsEmpty(box))
      ensures status == 0 && crop && outline(stitched.Length0, stitched.Length1).Some? ==>
        FinalBox(outline(stitched.Length0, stitched.Length1).value, stitched, gray, box, steps)
      ensures accepted == (old(accepted) || (status == 0 && !cropFailed))
      ensures status == 0 && !cropFailed ==> panoData != null && panoName == Strip(nameText)
      ensures status == 0 && !cropFailed && !crop ==> panoData == stitched
      ensures status == 0 && !cropFailed && crop ==>
        panoData != null && fresh(panoData) && IsCutOut(panoData, stitched, box, gray)
      ensures !(status == 0 && !cropFailed) ==> panoData == old(panoData) && panoName == old(panoName)
      ensures errorText == if cropFailed then CalculationError else old(errorText)
      ensures warning == if status != 0 then ErrorMessage(status) else old(warning)
      ensures status != 0 ==> warning.Some?
    {
      var imagesData := GetSelectedImages();
      var code: int;
      var pano: array2?<int>;
      if manual {
        code, pano := StitchManually(imagesData, matches, transform, warped);
      } else {
        code, pano := libraryStatus, libraryPano;
      }
      status, stitched := code, pano;
      cropFailed, box, steps := ShowResult(code, pano, crop, nameText, gray, outline);
    }
  }
}
