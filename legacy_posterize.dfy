/**
 * The posterize dialog of the older application: a bins slider from 2 to
 * cd//2 - 1, a lookup table of `bins` levels, and its application to a copy
 * of the parent's grayscale data.
 */
module LegacyPosterize {
  import opened Pixels
  import opened PointOps

  class Posterize {
    const colorDepth: nat
    var imgData: array2<int>
    var newImgData: array2?<int>
    var sliderMinimum: int
    var sliderMaximum: int
    var sliderValue: int

    /** The dialog's copy holds valid samples of its depth. */
    ghost predicate Valid()
      reads this, imgData
    {
      InDepth(imgData, colorDepth)
    }

    /**
     * Copies the parent's data, sets the slider to 2 .. cd//2 - 1 at cd//16
     * and previews; cd//16 must be at least one bin.
     */
    constructor (parentDepth: nat, parentData: array2<int>)
      requires parentDepth >= 16 && InDepth(parentData, parentDepth)
      ensures Valid() && colorDepth == parentDepth
      ensures fresh(imgData) && SameShape(imgData, parentData)
      ensures forall i, j :: 0 <= i < imgData.Length0 && 0 <= j < imgData.Length1 ==>
        imgData[i, j] == parentData[i, j]
      ensures sliderMinimum == 2 && sliderMaximum == parentDepth / 2 - 1 && sliderValue == parentDepth / 16
      ensures newImgData != null && fresh(newImgData) && SameShape(newImgData, imgData)
      ensures forall i, j :: 0 <= i < imgData.Length0 && 0 <= j < imgData.Length1 ==>
        newImgData[i, j] == PosterizeLevel(imgData[i, j], colorDepth, sliderValue)
    {
      colorDepth := parentDepth;
      var copy := Copy(parentData);
      imgData := copy;
      newImgData := null;
      sliderMinimum := 2;
      sliderMaximum := parentDepth / 2 - 1;
      sliderValue := parentDepth / 16;
      new;
      UpdateImgPreview(sliderValue);
    }

    /** `__apply_lut`: a copy with every sample s replaced by `lut[s]`. */
    method ApplyLut(lut: seq<int>) returns (out: array2<int>)
      requires InDepth(imgData, |lut|)
      ensures fresh(out) && SameShape(out, imgData)
      ensures forall i, j :: 0 <= i < imgData.Length0 && 0 <= j < imgData.Length1 ==>
        out[i, j] == lut[imgData[i, j]]
    {
      out := ApplyLutCopy(imgData, lut);
    }

    /** `update_img_preview`: posterizes a copy with the slider's number of bins. */
    method UpdateImgPreview(binsNum: nat)
      requires Valid() && binsNum >= 1
      modifies this`newImgData
      ensures newImgData != null && fresh(newImgData) && SameShape(newImgData, imgData)
      ensures forall i, j :: 0 <= i < imgData.Length0 && 0 <= j < imgData.Length1 ==>
        newImgData[i, j] == PosterizeLevel(imgData[i, j], colorDepth, binsNum)
      ensures InDepth(newImgData, colorDepth)
    {
      var lut := PosterizeLut(colorDepth, binsNum);
      newImgData := ApplyLut(lut);
    }

    /** `accept_changes`: the previewed data becomes the dialog's data. */
    method AcceptChanges()
      requires newImgData != null
      modifies this`imgData
      ensures imgData == old(newImgData)
    {
      imgData := newImgData;
    }
  }
}
