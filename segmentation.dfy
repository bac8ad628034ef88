/**
 * The segmentation dialog: the same two threshold loops as the point
 * thresholding dialog, chosen by the text of a combo box that lists five
 * segmentation types. Only the two threshold types produce data; for the
 * others the preview raises because its result variable was never bound.
 */
module SegmentationDialog {
  import opened PointOps

  /** The texts of the segmentation-type combo box, in order. */
  const SegmentationTypes: seq<string> := ["Threshold Binary", "Threshold Zero", "Adaptive Mean Threshold",
                                          "Adaptive Gaussian Threshold", "Threshold Otsu Method"]

  class Segmentation {
    const colorDepth: int
    const imgData: array2<int>
    var currentImgData: array2?<int>
    var sliderMaximum: int
    var sliderValue: int

    /**
     * Copies the parent's data, sets the slider to 0 .. cd-1 at cd//2 - 1 and
     * shows the preview of the first combo entry, "Threshold Binary".
     */
    constructor (parentDepth: int, parentData: array2<int>)
      ensures colorDepth == parentDepth
      ensures fresh(imgData) && SameShape(imgData, parentData)
      ensures forall i, j :: 0 <= i < imgData.Length0 && 0 <= j < imgData.Length1 ==>
        imgData[i, j] == parentData[i, j]
      ensures sliderMaximum == parentDepth - 1 && sliderValue == parentDepth / 2 - 1
      ensures currentImgData != null && fresh(currentImgData) && SameShape(currentImgData, imgData)
      ensures forall i, j :: 0 <= i < imgData.Length0 && 0 <= j < imgData.Length1 ==>
        currentImgData[i, j] == BinaryValue(imgData[i, j], sliderValue, colorDepth - 1)
    {
      colorDepth := parentDepth;
      var copy := Copy(parentData);
      imgData := copy;
      currentImgData := null;
      sliderMaximum := parentDepth - 1;
      sliderValue := parentDepth / 2 - 1;
      new;
      var ok := UpdateImgPreview(SegmentationTypes[0], sliderValue);
    }

    /** `calc_threshold_binary`: cd-1 where the sample exceeds t, 0 elsewhere, on a copy. */
    method CalcThresholdBinary(threshValue: int) returns (out: array2<int>)
      ensures fresh(out) && SameShape(out, imgData)
      ensures forall i, j :: 0 <= i < imgData.Length0 && 0 <= j < imgData.Length1 ==>
        out[i, j] == BinaryValue(imgData[i, j], threshValue, colorDepth - 1)
    {
      out := ThresholdBinary(imgData, threshValue, colorDepth - 1);
    }

    /**
     * `calc_threshold_zero`: samples below t become 0, the rest are kept, on
     * a copy, so no non-negative sample increases.
     */
    method CalcThresholdZero(threshValue: int) returns (out: array2<int>)
      ensures fresh(out) && SameShape(out, imgData)
      ensures forall i, j :: 0 <= i < imgData.Length0 && 0 <= j < imgData.Length1 ==>
        out[i, j] == ZeroValue(imgData[i, j], threshValue)
      ensures forall i, j :: 0 <= i < imgData.Length0 && 0 <= j < imgData.Length1 && imgData[i, j] >= 0 ==>
        0 <= out[i, j] <= imgData[i, j]
    {
      out := ThresholdZero(imgData, threshValue);
    }

    /**
     * `update_img_preview`: "Threshold Binary" and "Threshold Zero" compute
     * their threshold; any other text fails (ok is false) before the preview
     * is replaced.
     */
    method UpdateImgPreview(segmentationType: string, threshValue: int) returns (ok: bool)
      modifies this`currentImgData
      ensures ok <==> segmentationType == "Threshold Binary" || segmentationType == "Threshold Zero"
      ensures !ok ==> currentImgData == old(currentImgData)
      ensures ok ==> currentImgData != null && fresh(currentImgData) && SameShape(currentImgData, imgData)
      ensures segmentationType == "Threshold Binary" ==>
        forall i, j :: 0 <= i < imgData.Length0 && 0 <= j < imgData.Length1 ==>
          currentImgData[i, j] == BinaryValue(imgData[i, j], threshValue, colorDepth - 1)
      ensures segmentationType == "Threshold Zero" ==>
        forall i, j :: 0 <= i < imgData.Length0 && 0 <= j < imgData.Length1 ==>
          currentImgData[i, j] == ZeroValue(imgData[i, j], threshValue)
    {
      if segmentationType == "Threshold Binary" {
        currentImgData := CalcThresholdBinary(threshValue);
        ok := true;
      } else if segmentationType == "Threshold Zero" {
        currentImgData := CalcThresholdZero(threshValue);
        ok := true;
      } else {
        ok := false;
      }
    }
  }
}
