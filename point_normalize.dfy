/**
 * The histogram normalisation (contrast stretching) dialog: the image's own
 * sample range [mn, mx] is stretched linearly onto the range chosen with the
 * double slider, [lo, hi], and the stretched image's histogram is drawn over
 * the original one.
 */
module PointNormalize {
  import opened Pixels
  import opened PointOps
  import opened RangeSliderWidget

  /**
   * The stretched value of sample p: lo + (p-mn)*(hi-lo)/(mx-mn), truncated
   * when it is stored back into the integer image. The numerator is never
   * negative for a sample of the image, so Euclidean division is truncation.
   */
  function NormValue(p: int, mn: int, mx: int, lo: int, hi: int): int
    requires mn < mx
  {
    lo + ((p - mn) * (hi - lo)) / (mx - mn)
  }

  /** The image's minimum goes to the lower bound and its maximum to the upper bound. */
  lemma NormEndpoints(mn: int, mx: int, lo: int, hi: int)
    requires mn < mx && lo <= hi
    ensures NormValue(mn, mn, mx, lo, hi) == lo
    ensures NormValue(mx, mn, mx, lo, hi) == hi
  {
    var d := mx - mn;
    DivExact(hi - lo, d);
    assert (mx - mn) * (hi - lo) == (hi - lo) * d;
  }

  /** Stretching keeps the order of samples. */
  lemma NormMonotone(p: int, q: int, mn: int, mx: int, lo: int, hi: int)
    requires mn <= p <= q && mn < mx && lo <= hi
    ensures NormValue(p, mn, mx, lo, hi) <= NormValue(q, mn, mx, lo, hi)
  {
    MulMonotone(p - mn, q - mn, hi - lo);
    DivMonotone((p - mn) * (hi - lo), (q - mn) * (hi - lo), mx - mn);
  }

  /** Every sample of the image's range lands in [lo, hi]. */
  lemma NormInRange(p: int, mn: int, mx: int, lo: int, hi: int)
    requires mn <= p <= mx && mn < mx && lo <= hi
    ensures lo <= NormValue(p, mn, mx, lo, hi) <= hi
  {
    NormMonotone(p, mx, mn, mx, lo, hi);
    NormEndpoints(mn, mx, lo, hi);
    MulMonotone(0, p - mn, hi - lo);
  }

  class Normalize {
    const colorDepth: nat
    const imgData: array2<int>
    /** The histogram of the parent image, drawn under the preview's. */
    const originalHist: seq<int>
    const rangeSlider: RangeSlider
    var currentImgData: array2?<int>

    /**
     * The dialog invariant: a non-constant image of samples in 0 .. cd-1 and
     * a slider over 0 .. cd-1 whose range contains the image's range.
     */
    ghost predicate Valid()
      reads this, imgData, rangeSlider
    {
      && 1 <= imgData.Length0 && 1 <= imgData.Length1
      && InDepth(imgData, colorDepth)
      && ImgMin(imgData) < ImgMax(imgData)
      && rangeSlider.Valid()
      && rangeSlider.optionsMinimum == 0 && rangeSlider.optionsMaximum == colorDepth - 1
    }

    /**
     * Copies the parent's data, keeps its histogram, creates the slider with
     * the image's minimum and maximum as limits and previews the stretch onto
     * the whole range 0 .. cd-1. The slider refuses equal limits, so the
     * image must not be constant.
     */
    constructor (parentDepth: nat, parentData: array2<int>)
      requires 1 <= parentData.Length0 && 1 <= parentData.Length1
      requires InDepth(parentData, parentDepth)
      requires ImgMin(parentData) < ImgMax(parentData)
      ensures Valid() && colorDepth == parentDepth
      ensures fresh(imgData) && SameSamples(imgData, parentData)
      ensures |originalHist| == parentDepth
      ensures forall v :: 0 <= v < parentDepth ==> originalHist[v] == Count(parentData, v)
      ensures fresh(rangeSlider)
      ensures rangeSlider.leftLimit == ImgMin(parentData) && rangeSlider.rightLimit == ImgMax(parentData)
      ensures rangeSlider.firstPosition == 0 && rangeSlider.secondPosition == parentDepth - 1
      ensures currentImgData != null && fresh(currentImgData) && SameShape(currentImgData, imgData)
      ensures forall i, j :: 0 <= i < imgData.Length0 && 0 <= j < imgData.Length1 ==>
        currentImgData[i, j] == NormValue(imgData[i, j], ImgMin(imgData), ImgMax(imgData),
                                          rangeSlider.firstPosition, rangeSlider.secondPosition)
    {
      colorDepth := parentDepth;
      var hist := ValueCounts(parentData, parentDepth);
      originalHist := hist;
      var copy := Copy(parentData);
      imgData := copy;
      SameSamplesSameBounds(parentData, copy);
      var slider := LimitsSlider(parentDepth, parentData);
      rangeSlider := slider;
      currentImgData := null;
      new;
      var _ := UpdatePlotPreview();
    }

    /**
     * `normalize_histogram`: a copy in which every sample is stretched from
     * the image's range onto [minVal, maxVal]; the copy's samples stay in
     * that range, so in 0 .. cd-1 when the bounds are.
     */
    method NormalizeHistogram(minVal: int, maxVal: int) returns (out: array2<int>)
      requires Valid() && minVal <= maxVal
      ensures fresh(out) && SameShape(out, imgData)
      ensures forall i, j :: 0 <= i < imgData.Length0 && 0 <= j < imgData.Length1 ==>
        out[i, j] == NormValue(imgData[i, j], ImgMin(imgData), ImgMax(imgData), minVal, maxVal)
      ensures forall i, j :: 0 <= i < out.Length0 && 0 <= j < out.Length1 ==> minVal <= out[i, j] <= maxVal
    {
      out := Copy(imgData);
      var imgMin := ImgMin(imgData);
      var imgMax := ImgMax(imgData);
      MapPixels(out, p => NormValue(p, imgMin, imgMax, minVal, maxVal));
      ImgMinIsMinimum(imgData);
      ImgMaxIsMaximum(imgData);
      forall i, j | 0 <= i < out.Length0 && 0 <= j < out.Length1
        ensures minVal <= out[i, j] <= maxVal
      {
        NormInRange(imgData[i, j], imgMin, imgMax, minVal, maxVal);
      }
    }

    /**
     * `update_plot_preview`: stretches onto the range between the slider's
     * handles, computes the new histogram and keeps the stretched image as
     * the preview.
     */
    method UpdatePlotPreview() returns (newHist: seq<int>)
      requires Valid()
      modifies this`currentImgData
      ensures currentImgData != null && fresh(currentImgData) && SameShape(currentImgData, imgData)
      ensures forall i, j :: 0 <= i < imgData.Length0 && 0 <= j < imgData.Length1 ==>
        currentImgData[i, j] == NormValue(imgData[i, j], ImgMin(imgData), ImgMax(imgData),
                                          rangeSlider.firstPosition, rangeSlider.secondPosition)
      ensures |newHist| == colorDepth
      ensures forall v :: 0 <= v < colorDepth ==> newHist[v] == Count(currentImgData, v)
      ensures forall v :: 0 <= v < rangeSlider.firstPosition || rangeSlider.secondPosition < v < colorDepth ==>
        newHist[v] == 0
    {
      var minVal := rangeSlider.firstPosition;
      var maxVal := rangeSlider.secondPosition;
      var img := NormalizeHistogram(minVal, maxVal);
      newHist := SingleHistogram(img, colorDepth);
      currentImgData := img;
      forall v | 0 <= v < minVal || maxVal < v < colorDepth
        ensures newHist[v] == 0
      {
        CountOutside(img, v, minVal, maxVal);
      }
    }
  }

  /** The histogram of the parent image (`calc_histogram()['b']` of a single-channel image). */
  method ValueCounts(a: array2<int>, depth: nat) returns (hist: seq<int>)
    requires InDepth(a, depth)
    ensures |hist| == depth && forall v :: 0 <= v < depth ==> hist[v] == Count(a, v)
  {
    hist := SingleHistogram(a, depth);
  }

  /** The dialog's slider: limits at the image's minimum and maximum, handles at 0 and cd-1. */
  method LimitsSlider(depth: nat, a: array2<int>) returns (slider: RangeSlider)
    requires 1 <= a.Length0 && 1 <= a.Length1 && InDepth(a, depth) && ImgMin(a) < ImgMax(a)
    ensures fresh(slider) && slider.Valid()
    ensures slider.optionsMinimum == 0 && slider.optionsMaximum == depth - 1
    ensures slider.leftLimit == ImgMin(a) && slider.rightLimit == ImgMax(a)
    ensures slider.firstPosition == 0 && slider.secondPosition == depth - 1
  {
    ImgBoundsInDepth(a, depth);
    slider := new RangeSlider(depth, [ImgMin(a), ImgMax(a)]);
  }

  /** The image's minimum and maximum are samples, so they lie within the depth. */
  lemma ImgBoundsInDepth(a: array2<int>, depth: int)
    requires 1 <= a.Length0 && 1 <= a.Length1 && InDepth(a, depth)
    ensures 0 <= ImgMin(a) <= ImgMax(a) < depth
  {
    ImgMinIsMinimum(a);
    ImgMaxIsMaximum(a);
  }

  /** Arrays with the same shape and samples have the same minimum and maximum. */
  lemma SameSamplesSameBounds(a: array2<int>, b: array2<int>)
    requires 1 <= a.Length0 && 1 <= a.Length1 && SameSamples(a, b)
    ensures ImgMin(a) == ImgMin(b) && ImgMax(a) == ImgMax(b)
  {
    ImgMinIsMinimum(a);
    ImgMinIsMinimum(b);
    ImgMaxIsMaximum(a);
    ImgMaxIsMaximum(b);
  }

  /** A value outside the range of every sample is not counted. */
  lemma CountOutside(a: array2<int>, v: int, lo: int, hi: int)
    requires forall i, j :: 0 <= i < a.Length0 && 0 <= j < a.Length1 ==> lo <= a[i, j] <= hi
    requires v < lo || hi < v
    ensures Count(a, v) == 0
  {
    CountAbsent(a, v);
  }
}
