/**
 * The normalisation dialog of the older application. Its stretch still
 * ignores the slider's lower bound: every image is stretched onto
 * [0, maxVal], which is the newer stretch with a lower bound of 0.
 */
module LegacyNormalize {
  import opened Pixels
  import opened PointOps
  import opened RangeSliderWidget
  import PointNormalize

  /** The older stretch: (p-mn)*maxVal/(mx-mn), truncated on the store. */
  function LegacyValue(p: int, mn: int, mx: int, maxVal: int): int
    requires mn < mx
  {
    ((p - mn) * maxVal) / (mx - mn)
  }

  /**
   * The older stretch is the newer one whatever the lower bound asked for
   * is taken to be 0: mn goes to 0, mx to maxVal, samples keep their order
   * and land in [0, maxVal].
   */
  lemma LegacyIsStretchFromZero(p: int, q: int, mn: int, mx: int, maxVal: int)
    requires mn <= p <= q <= mx && mn < mx && 0 <= maxVal
    ensures LegacyValue(p, mn, mx, maxVal) == PointNormalize.NormValue(p, mn, mx, 0, maxVal)
    ensures LegacyValue(mn, mn, mx, maxVal) == 0 && LegacyValue(mx, mn, mx, maxVal) == maxVal
    ensures 0 <= LegacyValue(p, mn, mx, maxVal) <= LegacyValue(q, mn, mx, maxVal) <= maxVal
  {
    PointNormalize.NormEndpoints(mn, mx, 0, maxVal);
    PointNormalize.NormMonotone(p, q, mn, mx, 0, maxVal);
    PointNormalize.NormInRange(p, mn, mx, 0, maxVal);
    PointNormalize.NormInRange(q, mn, mx, 0, maxVal);
  }

  class Normalize {
    const colorDepth: nat
    var imgData: array2<int>
    /** The parent's histogram, computed by the parent window. */
    const originalHist: seq<int>
    const rangeSlider: RangeSlider
    var newImgData: array2?<int>

    /** A non-constant image of samples in 0 .. cd-1 and a slider over 0 .. cd-1. */
    ghost predicate Valid()
      reads this, imgData, rangeSlider
    {
      && 1 <= imgData.Length0 && 1 <= imgData.Length1
      && InDepth(imgData, colorDepth)
      && ImgMin(imgData) < ImgMax(imgData)
      && rangeSlider.Valid()
      && rangeSlider.optionsMinimum == 0 && rangeSlider.optionsMaximum == colorDepth - 1
    }

    /**
     * Copies the parent's data, keeps the parent's histogram, creates the
     * slider with the image's minimum and maximum as limits and previews.
     */
    constructor (parentDepth: nat, parentData: array2<int>, parentHist: seq<int>)
      requires 1 <= parentData.Length0 && 1 <= parentData.Length1
      requires InDepth(parentData, parentDepth)
      requires ImgMin(parentData) < ImgMax(parentData)
      ensures Valid() && colorDepth == parentDepth && originalHist == parentHist
      ensures fresh(imgData) && SameSamples(imgData, parentData)
      ensures fresh(rangeSlider)
      ensures rangeSlider.leftLimit == ImgMin(parentData) && rangeSlider.rightLimit == ImgMax(parentData)
      ensures rangeSlider.firstPosition == 0 && rangeSlider.secondPosition == parentDepth - 1
      ensures newImgData != null && fresh(newImgData) && SameShape(newImgData, imgData)
      ensures forall i, j :: 0 <= i < imgData.Length0 && 0 <= j < imgData.Length1 ==>
        newImgData[i, j] == LegacyValue(imgData[i, j], ImgMin(imgData), ImgMax(imgData), rangeSlider.secondPosition)
    {
      colorDepth := parentDepth;
      originalHist := parentHist;
      var copy := Copy(parentData);
      imgData := copy;
      PointNormalize.SameSamplesSameBounds(parentData, copy);
      var slider := PointNormalize.LimitsSlider(parentDepth, parentData);
      rangeSlider := slider;
      newImgData := null;
      new;
      var _ := UpdatePreviewPlot();
    }

    /**
     * `normalize_histogram`: a copy stretched from the image's range onto
     * [0, maxVal]; `minVal` is accepted and not used.
     */
    method NormalizeHistogram(minVal: int, maxVal: int) returns (out: array2<int>)
      requires Valid() && 0 <= maxVal
      ensures fresh(out) && SameShape(out, imgData)
      ensures forall i, j :: 0 <= i < imgData.Length0 && 0 <= j < imgData.Length1 ==>
        out[i, j] == LegacyValue(imgData[i, j], ImgMin(imgData), ImgMax(imgData), maxVal)
      ensures forall i, j :: 0 <= i < out.Length0 && 0 <= j < out.Length1 ==> 0 <= out[i, j] <= maxVal
    {
      out := Copy(imgData);
      var imgMin := ImgMin(imgData);
      var imgMax := ImgMax(imgData);
      MapPixels(out, p => LegacyValue(p, imgMin, imgMax, maxVal));
      ImgMinIsMinimum(imgData);
      ImgMaxIsMaximum(imgData);
      forall i, j | 0 <= i < out.Length0 && 0 <= j < out.Length1
        ensures 0 <= out[i, j] <= maxVal
      {
        LegacyIsStretchFromZero(imgData[i, j], imgMax, imgMin, imgMax, maxVal);
      }
    }

    /**
     * `update_preview_plot`: stretches onto [0, second handle], computes the
     * new histogram and keeps the result for `accept_changes`.
     */
    method UpdatePreviewPlot() returns (newHist: seq<int>)
      requires Valid()
      modifies this`newImgData
      ensures newImgData != null && fresh(newImgData) && SameShape(newImgData, imgData)
      ensures forall i, j :: 0 <= i < imgData.Length0 && 0 <= j < imgData.Length1 ==>
        newImgData[i, j] == LegacyValue(imgData[i, j], ImgMin(imgData), ImgMax(imgData), rangeSlider.secondPosition)
      ensures |newHist| == colorDepth
      ensures forall v :: 0 <= v < colorDepth ==> newHist[v] == Count(newImgData, v)
      ensures forall v :: rangeSlider.secondPosition < v < colorDepth ==> newHist[v] == 0
    {
      var minVal := rangeSlider.firstPosition;
      var maxVal := rangeSlider.secondPosition;
      var img := NormalizeHistogram(minVal, maxVal);
      newHist := SingleHistogram(img, colorDepth);
      newImgData := img;
      forall v | maxVal < v < colorDepth
        ensures newHist[v] == 0
      {
        PointNormalize.CountOutside(img, v, 0, maxVal);
      }
    }

    /** `accept_changes`: the previewed data becomes the dialog's data. */
    method AcceptChanges()
      requires newImgData != null
      modifies this`imgData
      ensures imgData == old(newImgData)
    {
      imgData := newImgData;
    }
  }
}
