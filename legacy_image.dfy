/**
 * The image of the older application: its histograms always have 256 bins,
 * so every sample must be below 256. A two-dimensional image gives one list
 * tagged "b", any other image three lists tagged "b", "g", "r".
 */
module LegacyImage {
  import opened Pixels
  import opened ImageModel

  /** The fixed bin count of the older histograms. */
  const Bins: nat := 256

  class Image {
    var img: ImageData

    constructor (img: ImageData)
      ensures this.img == img
    {
      this.img := img;
    }

    /** `__calc_single_histogram`: one list of 256 counters, tagged "b". */
    method CalcSingleHistogram() returns (histogram: seq<seq<int>>, tag: string)
      requires img.Gray? && InDepth(img.gray, Bins)
      ensures |histogram| == 1 && |histogram[0]| == Bins && tag == "b"
      ensures forall v :: 0 <= v < Bins ==> histogram[0][v] == Count(img.gray, v)
      ensures Sum(histogram[0]) == img.gray.Length0 * img.gray.Length1
    {
      var h := SingleHistogram(img.gray, Bins);
      histogram, tag := [h], "b";
    }

    /**
     * `__calc_triple_histogram`: three lists of 256 counters, channel i
     * counted into list i, tagged "b", "g", "r".
     */
    method CalcTripleHistogram() returns (histogramRgb: seq<seq<int>>, tags: seq<string>)
      requires img.Color? && img.color.Length2 <= 3 && InDepth3(img.color, Bins)
      ensures |histogramRgb| == 3 && tags == ["b", "g", "r"]
      ensures forall ch :: 0 <= ch < 3 ==> |histogramRgb[ch]| == Bins
      ensures forall ch, v :: 0 <= ch < img.color.Length2 && 0 <= v < Bins ==>
        histogramRgb[ch][v] == Count3(img.color, ch, v)
      ensures forall ch :: 0 <= ch < img.color.Length2 ==>
        Sum(histogramRgb[ch]) == img.color.Length0 * img.color.Length1
      ensures forall ch, v :: img.color.Length2 <= ch < 3 && 0 <= v < Bins ==> histogramRgb[ch][v] == 0
    {
      histogramRgb := TripleHistogram(img.color, Bins);
      tags := ["b", "g", "r"];
    }

    /** `calc_histogram`: the single histogram exactly for a two-dimensional image. */
    method CalcHistogram() returns (histogram: seq<seq<int>>, tags: seq<string>)
      requires match img
        case Gray(g) => InDepth(g, Bins)
        case Color(c) => c.Length2 <= 3 && InDepth3(c, Bins)
      ensures |img.Shape()| == 2 <==> tags == ["b"]
      ensures |img.Shape()| == 2 ==> |histogram| == 1
      ensures |img.Shape()| != 2 ==> |histogram| == 3 && tags == ["b", "g", "r"]
      ensures forall ch :: 0 <= ch < |histogram| ==> |histogram[ch]| == Bins
      ensures img.Gray? ==> forall v :: 0 <= v < Bins ==> histogram[0][v] == Count(img.gray, v)
      ensures img.Color? ==> forall ch, v :: 0 <= ch < img.color.Length2 && 0 <= v < Bins ==>
        histogram[ch][v] == Count3(img.color, ch, v)
    {
      if |img.Shape()| == 2 {
        var tag;
        histogram, tag := CalcSingleHistogram();
        tags := [tag];
      } else {
        histogram, tags := CalcTripleHistogram();
      }
    }
  }
}
