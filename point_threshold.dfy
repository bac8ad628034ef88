/**
 * The thresholding dialog of the point operations: a copy of the parent's
 * grayscale data, a threshold slider from 0 to cd-1, and a preview that is
 * the binary threshold when its radio button is checked and the threshold to
 * zero otherwise.
 */
module PointThreshold {
  import opened PointOps

  class Threshold {
    const colorDepth: int
    const imgData: array2<int>
    var currentImgData: array2?<int>
    var sliderMaximum: int
    var sliderValue: int

    /**
     * Copies the parent's data, sets the slider to 0 .. cd-1 at cd//2 - 1 and
     * shows the first preview; the binary radio button starts checked.
     */
    constructor (parentDepth: int, parentData: array2<int>)
      ensures colorDepth == parentDepth
      ensures fresh(imgData) && SameShape(imgData, parentData)
      ensures forall i, j :: 0 <= i < imgData.Length0 && 0 <= j < imgData.Length1 ==>
        imgData[i, j] == parentData[i, j]
      ensures sliderMaximum == parentDepth - 1 && sliderValue == parentDepth / 2 - 1
      ensures currentImgData != null && fresh(currentImgData) && SameShape(currentImgData, imgData)
      ensures forall i, j :: 0 <= i < imgData.Length0 && 0 <= j < imgData.Length1 ==>
        currentImgData[i, j] == BinaryValue(imgData[i, j], sliderValue, colorDepth - 1)
    {
      colorDepth := parentDepth;
      var copy := Copy(parentData);
      imgData := copy;
      currentImgData := null;
      sliderMaximum := parentDepth - 1;
      sliderValue := parentDepth / 2 - 1;
      new;
      UpdateImgPreview(sliderValue, true);
    }

    /** `calc_threshold_binary`: cd-1 where the sample exceeds t, 0 elsewhere, on a copy. */
    method CalcThresholdBinary(threshValue: int) returns (out: array2<int>)
      ensures fresh(out) && SameShape(out, imgData)
      ensures forall i, j :: 0 <= i < imgData.Length0 && 0 <= j < imgData.Length1 ==>
        out[i, j] == BinaryValue(imgData[i, j], threshValue, colorDepth - 1)
    {
      out := ThresholdBinary(imgData, threshValue, colorDepth - 1);
    }

    /** `calc_threshold_zero`: samples below t become 0, the rest are kept, on a copy. */
    method CalcThresholdZero(threshValue: int) returns (out: array2<int>)
      ensures fresh(out) && SameShape(out, imgData)
      ensures forall i, j :: 0 <= i < imgData.Length0 && 0 <= j < imgData.Length1 ==>
        out[i, j] == ZeroValue(imgData[i, j], threshValue)
    {
      out := ThresholdZero(imgData, threshValue);
    }

    /** `update_img_preview`: binary iff the binary radio button is checked, otherwise to zero. */
    method UpdateImgPreview(threshValue: int, binaryChecked: bool)
      modifies this`currentImgData
      ensures currentImgData != null && fresh(currentImgData) && SameShape(currentImgData, imgData)
      ensures binaryChecked ==> forall i, j :: 0 <= i < imgData.Length0 && 0 <= j < imgData.Length1 ==>
        currentImgData[i, j] == BinaryValue(imgData[i, j], threshValue, colorDepth - 1)
      ensures !binaryChecked ==> forall i, j :: 0 <= i < imgData.Length0 && 0 <= j < imgData.Length1 ==>
        currentImgData[i, j] == ZeroValue(imgData[i, j], threshValue)
    {
      if binaryChecked {
        currentImgData := CalcThresholdBinary(threshValue);
      } else {
        currentImgData := CalcThresholdZero(threshValue);
      }
    }
  }
}
