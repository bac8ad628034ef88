/**
 * The thresholding dialog of the older application. Its depth field is the
 * parent's depth minus one, and its binary output writes that field minus
 * one, so bright pixels become the parent's depth minus two.
 */
module LegacyThreshold {
  import opened PointOps

  class Threshold {
    var imgData: array2<int>
    var newImgData: array2?<int>
    const colorDepth: int
    var sliderMaximum: int
    var sliderValue: int

    /** Copies the parent's data, sets the slider to 0 .. depth-1 at (depth-1)//2 and previews. */
    constructor (parentDepth: int, parentData: array2<int>)
      ensures colorDepth == parentDepth - 1
      ensures fresh(imgData) && SameShape(imgData, parentData)
      ensures forall i, j :: 0 <= i < imgData.Length0 && 0 <= j < imgData.Length1 ==>
        imgData[i, j] == parentData[i, j]
      ensures sliderMaximum == parentDepth - 1 && sliderValue == (parentDepth - 1) / 2
      ensures newImgData != null && fresh(newImgData) && SameShape(newImgData, imgData)
      ensures forall i, j :: 0 <= i < imgData.Length0 && 0 <= j < imgData.Length1 ==>
        newImgData[i, j] == BinaryValue(imgData[i, j], sliderValue, parentDepth - 2)
    {
      var copy := Copy(parentData);
      imgData := copy;
      newImgData := null;
      colorDepth := parentDepth - 1;
      sliderMaximum := parentDepth - 1;
      sliderValue := (parentDepth - 1) / 2;
      new;
      UpdateImgPreview(sliderValue);
    }

    /**
     * `calc_threshold` on a copy: the high value is the field minus one, so
     * only 0 and the parent's depth minus two occur.
     */
    method CalcThreshold(threshValue: int) returns (out: array2<int>)
      ensures fresh(out) && SameShape(out, imgData)
      ensures forall i, j :: 0 <= i < imgData.Length0 && 0 <= j < imgData.Length1 ==>
        out[i, j] == BinaryValue(imgData[i, j], threshValue, colorDepth - 1)
      ensures forall i, j :: 0 <= i < imgData.Length0 && 0 <= j < imgData.Length1 ==>
        out[i, j] == 0 || out[i, j] == colorDepth - 1
    {
      out := ThresholdBinary(imgData, threshValue, colorDepth - 1);
    }

    /**
     * `update_img_preview`, run when the slider is released: thresholds at
     * the slider's current value, given as `threshValue`, and keeps the
     * result.
     */
    method UpdateImgPreview(threshValue: int)
      modifies this`newImgData
      ensures newImgData != null && fresh(newImgData) && SameShape(newImgData, imgData)
      ensures forall i, j :: 0 <= i < imgData.Length0 && 0 <= j < imgData.Length1 ==>
        newImgData[i, j] == BinaryValue(imgData[i, j], threshValue, colorDepth - 1)
    {
      newImgData := CalcThreshold(threshValue);
    }

    /** `accept_changes`: the previewed data becomes the dialog's data. */
    method AcceptChanges()
      requires newImgData != null
      modifies this`imgData
      ensures imgData == old(newImgData)
    {
      imgData := newImgData;
    }
  }
}
