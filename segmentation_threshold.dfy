/**
 * The thresholding dialog of the segmentation menu: binary and to-zero
 * thresholds computed by the shared loops, adaptive thresholds whose block
 * size is first made odd, and Otsu's method for any other type. Adaptive and
 * Otsu thresholding are library calls, so their result images (and Otsu's
 * threshold value) are inputs of the model.
 */
module SegmentationThreshold {
  import opened PointOps

  /** The two adaptive methods of the library. */
  datatype AdaptiveMethod = AdaptiveMeanC | AdaptiveGaussianC

  /** Which computation a preview ran, with the arguments of an adaptive call. */
  datatype ThresholdRun = BinaryRun | ZeroRun | AdaptiveRun(kind: AdaptiveMethod, blockSize: int) | OtsuRun

  /** "Mean" selects the mean-C method; every other name selects the Gaussian one. */
  function AdaptiveMethodOf(methodName: string): (m: AdaptiveMethod)
    ensures m == AdaptiveMeanC <==> methodName == "Mean"
  {
    if methodName == "Mean" then AdaptiveMeanC else AdaptiveGaussianC
  }

  /** The block size after validation: an even size loses one, an odd one is kept. */
  function OddBlockSize(blockSize: int): int
  {
    if blockSize % 2 == 0 then blockSize - 1 else blockSize
  }

  /**
   * The validated block size is odd, equals the input when that is odd, and
   * for the slider range 3 .. 255 stays in 3 .. 255.
   */
  lemma OddBlockSizeInRange(blockSize: int)
    ensures OddBlockSize(blockSize) % 2 == 1
    ensures blockSize % 2 == 1 ==> OddBlockSize(blockSize) == blockSize
    ensures 3 <= blockSize <= 255 ==> 3 <= OddBlockSize(blockSize) <= 255
  {
  }

  class Threshold {
    const colorDepth: int
    const imgData: array2<int>
    var currentImgData: array2?<int>
    var sliderMinimum: int
    var sliderMaximum: int
    var sliderValue: int
    var sliderEnabled: bool

    /** Copies the parent's data and sets up the form for the first type, "Threshold Binary". */
    constructor (parentDepth: int, parentData: array2<int>)
      ensures colorDepth == parentDepth
      ensures fresh(imgData) && SameShape(imgData, parentData)
      ensures forall i, j :: 0 <= i < imgData.Length0 && 0 <= j < imgData.Length1 ==>
        imgData[i, j] == parentData[i, j]
      ensures sliderEnabled && sliderMinimum == 0 && sliderMaximum == parentDepth - 1
      ensures sliderValue == parentDepth / 2 - 1
      ensures currentImgData != null && fresh(currentImgData) && SameShape(currentImgData, imgData)
      ensures forall i, j :: 0 <= i < imgData.Length0 && 0 <= j < imgData.Length1 ==>
        currentImgData[i, j] == BinaryValue(imgData[i, j], sliderValue, colorDepth - 1)
    {
      colorDepth := parentDepth;
      var copy := Copy(parentData);
      imgData := copy;
      currentImgData := null;
      sliderMinimum := 0;
      sliderMaximum := parentDepth - 1;
      sliderValue := parentDepth / 2 - 1;
      sliderEnabled := true;
      new;
      var run := UpdateForm("Threshold Binary", imgData, imgData, 0);
    }

    /**
     * `update_form`: the slider becomes the threshold value 0 .. cd-1 for
     * the two threshold types, the block size 3 .. 255 at 127 for the two
     * adaptive types, and is disabled otherwise; then the preview runs.
     */
    method UpdateForm(thresholdType: string, libraryOutput: array2<int>, otsuOutput: array2<int>, otsuThresh: int)
      returns (run: ThresholdRun)
      modifies this`currentImgData, this`sliderMinimum, this`sliderMaximum, this`sliderValue, this`sliderEnabled
      ensures thresholdType in {"Threshold Binary", "Threshold Zero"} ==>
        sliderEnabled && sliderMinimum == 0 && sliderMaximum == colorDepth - 1
      ensures thresholdType == "Threshold Binary" ==> (run == BinaryRun && sliderValue == colorDepth / 2 - 1 &&
        currentImgData != null && fresh(currentImgData) && SameShape(currentImgData, imgData) &&
        forall i, j :: 0 <= i < imgData.Length0 && 0 <= j < imgData.Length1 ==>
          currentImgData[i, j] == BinaryValue(imgData[i, j], colorDepth / 2 - 1, colorDepth - 1))
      ensures thresholdType == "Threshold Zero" ==> (run == ZeroRun && sliderValue == colorDepth / 2 - 1 &&
        currentImgData != null && fresh(currentImgData) && SameShape(currentImgData, imgData) &&
        forall i, j :: 0 <= i < imgData.Length0 && 0 <= j < imgData.Length1 ==>
          currentImgData[i, j] == ZeroValue(imgData[i, j], colorDepth / 2 - 1))
      ensures thresholdType in {"Adaptive Mean Threshold", "Adaptive Gaussian Threshold"} ==>
        sliderEnabled && sliderMinimum == 3 && sliderMaximum == 255 && sliderValue == 127 &&
        run.AdaptiveRun? && run.blockSize == 127 && currentImgData == libraryOutput
      ensures thresholdType !in {"Threshold Binary", "Threshold Zero", "Adaptive Mean Threshold", "Adaptive Gaussian Threshold"} ==>
        !sliderEnabled && sliderMaximum == colorDepth - 1 && run == OtsuRun &&
        currentImgData == otsuOutput && sliderValue == otsuThresh
    {
      if thresholdType in {"Threshold Binary", "Threshold Zero"} {
        sliderEnabled := true;
        sliderMinimum := 0;
        sliderMaximum := colorDepth - 1;
        sliderValue := colorDepth / 2 - 1;
      } else if thresholdType in {"Adaptive Mean Threshold", "Adaptive Gaussian Threshold"} {
        sliderEnabled := true;
        sliderMinimum := 3;
        sliderMaximum := 255;
        sliderValue := 127;
      } else {
        sliderEnabled := false;
        sliderMaximum := colorDepth - 1;
      }
      run := UpdateImgPreview(thresholdType, libraryOutput, otsuOutput, otsuThresh);
    }

    /** `calc_threshold_binary`: cd-1 where the sample exceeds t, 0 elsewhere, on a copy. */
    method CalcThresholdBinary(threshValue: int) returns (out: array2<int>)
      ensures fresh(out) && SameShape(out, imgData)
      ensures forall i, j :: 0 <= i < imgData.Length0 && 0 <= j < imgData.Length1 ==>
        out[i, j] == BinaryValue(imgData[i, j], threshValue, colorDepth - 1)
    {
      out := ThresholdBinary(imgData, threshValue, colorDepth - 1);
    }

    /** `calc_threshold_zero`: samples below t become 0, the rest are kept, on a copy. */
    method CalcThresholdZero(threshValue: int) returns (out: array2<int>)
      ensures fresh(out) && SameShape(out, imgData)
      ensures forall i, j :: 0 <= i < imgData.Length0 && 0 <= j < imgData.Length1 ==>
        out[i, j] == ZeroValue(imgData[i, j], threshValue)
    {
      out := ThresholdZero(imgData, threshValue);
    }

    /**
     * The argument validation of `calc_adaptive_thresh`: an even block size
     * is lowered by one and written back to the slider; the method name picks
     * the library's adaptive method. The library call itself is not modelled.
     */
    method CalcAdaptiveThresh(methodName: string, blockSize: int) returns (m: AdaptiveMethod, size: int)
      modifies this`sliderValue
      ensures size == OddBlockSize(blockSize) && size % 2 == 1
      ensures blockSize % 2 == 0 ==> sliderValue == size
      ensures blockSize % 2 != 0 ==> sliderValue == old(sliderValue) && size == blockSize
      ensures m == AdaptiveMethodOf(methodName)
    {
      size := blockSize;
      if size % 2 == 0 {
        size := size - 1;
        sliderValue := size;
      }
      m := if methodName == "Mean" then AdaptiveMeanC else AdaptiveGaussianC;
    }

    /**
     * `update_img_preview`: the four named types run their computation at
     * the slider value; every other text falls through to Otsu's method,
     * which also moves the slider to the threshold it found.
     */
    method UpdateImgPreview(thresholdType: string, libraryOutput: array2<int>, otsuOutput: array2<int>, otsuThresh: int)
      returns (run: ThresholdRun)
      modifies this`currentImgData, this`sliderValue
      ensures currentImgData != null
      ensures thresholdType == "Threshold Binary" ==> (run == BinaryRun && fresh(currentImgData) &&
        SameShape(currentImgData, imgData) && sliderValue == old(sliderValue) &&
        forall i, j :: 0 <= i < imgData.Length0 && 0 <= j < imgData.Length1 ==>
          currentImgData[i, j] == BinaryValue(imgData[i, j], sliderValue, colorDepth - 1))
      ensures thresholdType == "Threshold Zero" ==> (run == ZeroRun && fresh(currentImgData) &&
        SameShape(currentImgData, imgData) && sliderValue == old(sliderValue) &&
        forall i, j :: 0 <= i < imgData.Length0 && 0 <= j < imgData.Length1 ==>
          currentImgData[i, j] == ZeroValue(imgData[i, j], sliderValue))
      ensures thresholdType == "Adaptive Mean Threshold" ==>
        run == AdaptiveRun(AdaptiveMeanC, OddBlockSize(old(sliderValue))) && currentImgData == libraryOutput
      ensures thresholdType == "Adaptive Gaussian Threshold" ==>
        run == AdaptiveRun(AdaptiveGaussianC, OddBlockSize(old(sliderValue))) && currentImgData == libraryOutput
      ensures run.AdaptiveRun? ==> sliderValue == OddBlockSize(old(sliderValue))
      ensures thresholdType !in {"Threshold Binary", "Threshold Zero", "Adaptive Mean Threshold", "Adaptive Gaussian Threshold"} ==>
        run == OtsuRun && currentImgData == otsuOutput && sliderValue == otsuThresh
    {
      var sliderAtStart := sliderValue;
      if thresholdType == "Threshold Binary" {
        currentImgData := CalcThresholdBinary(sliderAtStart);
        run := BinaryRun;
      } else if thresholdType == "Threshold Zero" {
        currentImgData := CalcThresholdZero(sliderAtStart);
        run := ZeroRun;
      } else if thresholdType == "Adaptive Mean Threshold" {
        var m, size := CalcAdaptiveThresh("Mean", sliderAtStart);
        currentImgData := libraryOutput;
        run := AdaptiveRun(m, size);
      } else if thresholdType == "Adaptive Gaussian Threshold" {
        var m, size := CalcAdaptiveThresh("Gaussian", sliderAtStart);
        currentImgData := libraryOutput;
        run := AdaptiveRun(m, size);
      } else {
        sliderValue := otsuThresh;
        currentImgData := otsuOutput;
        run := OtsuRun;
      }
    }
  }
}
