# A verified model of python-image-processing

python-image-processing is a desktop image editor. The model covers four parts of it.

- **The point operations on integer pixel buffers**, in both the current application and the older one:
  - histograms with one or three channels, and the cumulative histogram;
  - histogram equalisation and negation through look-up tables;
  - binary and to-zero thresholds;
  - posterisation;
  - linear normalisation (contrast stretching);
  - the double range slider of the normalisation dialog.
- **Two small algorithms.** One is the Bresenham line rasteriser behind the intensity profile windows, with the sampling of the image along the line. The other is the hand-written BMP reader of the older application.
- **The manual panorama pipeline.** It covers:
  - the ratio test over nearest-neighbour matches;
  - the minimum-match gate and its status code;
  - the canvas computed from the eight corner points, and the paste of the second image into it;
  - the pad, binarise and erode loop that crops the black border;
  - the mapping from status codes to error messages, and the publishing of the result;
  - the two image lists whose order decides the stitch order.

Images are `array2<int>` for grayscale and `array3<int>` for colour. Their samples are mathematical integers, with the explicit invariant `0 <= v < depth`.

The source code has two shapes, and the model keeps both:
- dialogs that copy an image and rewrite the copy in nested loops are classes whose methods allocate fresh arrays;
- `Image.__apply_lut` rewrites the image in place and carries a `modifies` clause.

The loops that several files share are defined once, in `Pixels` and `PointOps`:
- the histogram loops;
- the threshold loops;
- the look-up-table loops;
- the Bresenham loop.

Each source file then has its own module, whose class calls those loops. The histogram, threshold and look-up-table loops are proved against ghost specification functions such as `Count`, `BinaryValue`, `ZeroValue` and `PosterizeLevel`. The Bresenham loop is proved against the predicate `IsLine`. Lemmas state the properties of those functions.

Every result of OpenCV, NumPy's floating point and Qt enters the model as a parameter:
- the k-nearest-neighbour matches;
- the transformed corners;
- the warped canvas;
- the gray conversion;
- the contour's bounding box;
- the result of the library stitcher;
- the list rows selected in the user interface;
- the style's hit test.

## Model

| member | source | states |
|---|---|---|
| ImageModel.ColorDepthOfBytes | src/image/image.py:31-32 | the colour depth 2^(8·itemsize) is 256 for one-byte samples and 65536 for two-byte samples |
| ImageModel.Image.constructor | src/image/image.py:14-29 | the image keeps its data and item size, and its colour depth is 2^(8·itemsize) |
| ImageModel.Image.UpdateColorDepth | src/image/image.py:31-32 | the depth becomes 2^(8·itemsize); the data and the item size do not change |
| ImageModel.Image.IsGrayscale | src/image/image.py:102-111 | true exactly when the data is two-dimensional |
| ImageModel.Image.CalcHistogram | src/image/image.py:34-73 | a grayscale image gives one list of colour-depth bins, where bin v counts the pixels equal to v and the bins sum to rows·cols; a colour image gives three lists, where list ch counts channel ch and lists of missing channels stay zero |
| ImageModel.PrefixSumsMonotone | src/image/image.py:139-145 | for non-negative bins the cumulative histogram is non-decreasing |
| ImageModel.PrefixSumsLast | src/image/image.py:139-145 | the last cumulative entry is the sum of all bins, which is the pixel count |
| ImageModel.PrefixAtLeastBin | src/image/image.py:139-145 | each cumulative entry is at least its own bin |
| ImageModel.CumulativeSums | src/image/image.py:139-145 | the running-sum loop produces entry k = hist[0] + … + hist[k] |
| ImageModel.Image.CalcCumulativeHistogram | src/image/image.py:131-145 | the cumulative histogram of the first channel's histogram, with colour-depth entries |
| ImageModel.SeqMin | src/image/image.py:173-174 | the smallest cumulative value, which occurs in the sequence |
| ImageModel.SeqMax | src/image/image.py:175 | `sorted(set(cum))[-1]` is the largest value and occurs in the sequence |
| ImageModel.MinAbove | src/image/image.py:173-174 | the smallest value above a bound: None iff no value exceeds it, otherwise a value of the sequence that is at most every value above the bound |
| ImageModel.AsWrittenBounds | src/image/image.py:173-175 | index [1] fails iff the cumulative histogram is constant; the divisor is zero iff it takes exactly two distinct values; otherwise hist_min is the second-smallest distinct value (at most every value above the minimum, not the smallest positive one) and hist_max the largest |
| ImageModel.AsWrittenBlackTurnsWhite | src/image/image.py:173-180 | with cum = [2, 3, 4, …] the bounds as written are (3, 4), so black maps to 255 and grey 1 maps to 0, which reverses the order |
| ImageModel.IntendedBounds | src/image/image.py:172-175 | IndexError iff no cumulative value is positive; ZeroDivisionError iff some value is positive and all positive values are equal; otherwise lo < hi are the smallest and largest positive cumulative values |
| ImageModel.EqualizedInRange | src/image/image.py:179 | for lo <= c <= hi the entry \|c−lo\|·255 div (hi−lo) lies in 0..255; lo maps to 0 and hi to 255 |
| ImageModel.EqualizedMonotone | src/image/image.py:179 | equalised entries are non-decreasing in the cumulative value |
| ImageModel.IntendedLutInRange | src/image/image.py:172-180 | with the intended bounds, every positive cumulative entry maps into 0..255 and the look-up table is non-decreasing along the histogram |
| ImageModel.EqualizeLut | src/image/image.py:177-180 | the loop builds one table entry per cumulative entry, each the equalised value |
| ImageModel.AsWrittenLutInRange | src/image/image.py:173-180 | with the as-written bounds, every cumulative value above the minimum maps into 0..255 and in order |
| ImageModel.AsWrittenBlackWraps | src/image/image.py:173-180 | with cum = [100, 150, 151, …] the as-written bounds are (150, 151) and the black entry is 12750, which a uint8 store keeps as 206 |
| ImageModel.StoredAsUint8 | src/image/image.py:86 | each entry as a uint8 element stores it: in 0..255, congruent to the entry modulo 256, and unchanged when already in 0..255 |
| ImageModel.Image.EqualizeHistogram | src/image/image.py:160-182 | as written: on an error (IndexError, ZeroDivisionError) the image is unchanged; otherwise every pixel g becomes the equalised value of cum[g] under the as-written bounds, modulo 256 |
| ImageModel.IntendedTableOnImage | src/image/image.py:172-182 | every pixel value occurs, so its cumulative entry is positive and the intended table maps it into 0..255 |
| ImageModel.Image.EqualizeHistogramIntended | src/image/image.py:160-182 | with the bounds the comment describes: on an error the image is unchanged; otherwise every pixel g becomes the equalised value of cum[g], which lies in 0..255 |
| ImageModel.Image.ApplyLut | src/image/image.py:75-91 | in place, every sample s becomes lut[s] in every channel; requires every sample < \|lut\| |
| ImageModel.NegationInvolution | src/image/image.py:184-188 | the table cd−1−i has cd entries in 0..cd−1 and negating twice gives the value back |
| ImageModel.Image.Negation | src/image/image.py:184-188 | in place, every sample v becomes cd−1−v and stays within the depth |
| ImageModel.ImageWindow.constructor | src/image/image.py:234-267 | the window keeps the image data whose points it clamps |
| ImageModel.ImageWindow.ValidatePoint | src/image/image.py:269-295 | x is clamped into 0..cols−1 and y into 0..rows−1; a point already inside is unchanged; an image with no columns (rows) gives x = −1 (y = −1) |
| Pixels.SingleHistogram | src/image/image.py:45-52 | the nested counting loop gives `bins` counters, counter v being the number of pixels equal to v, summing to rows·cols; it is also `calc_histogram` of both normalisation dialogs (src/operations/point/normalize.py:37-54, python-image-processing/normalize.py:37-54) |
| Pixels.TripleHistogram | src/image/image.py:65-73 | three lists of `bins` counters; list ch counts channel ch and sums to rows·cols; lists of absent channels are zero |
| Pixels.SumIncrement | src/image/image.py:52 | incrementing one counter raises the total by one, so the counters sum to the number of pixels visited |
| Pixels.CountAbsent | src/image/image.py:45-52 | a value no pixel has is counted zero times |
| PointOps.Copy | src/operations/point/threshold.py:55 | `img_data.copy()` is a fresh array with the same shape and samples |
| PointOps.MapPixels | src/operations/point/threshold.py:57-59 | the row/column loop stores f(sample) into every cell and changes nothing else |
| PointOps.MapSamples | src/image/image.py:87-91 | the row/column/channel loop stores f(sample) into every sample of a colour image |
| PointOps.ThresholdBinary | src/operations/point/threshold.py:40-61 | a fresh copy where a sample above t becomes the high value and every other sample 0; only those two values occur; the input is unchanged |
| PointOps.ThresholdZero | src/operations/point/threshold.py:63-83 | a fresh copy where samples below t become 0 and all others are kept; the input is unchanged |
| PointOps.ZeroIdempotent | src/operations/point/threshold.py:78-81 | thresholding to zero twice with the same t equals doing it once |
| PointOps.ZeroNeverIncreases | src/operations/segmentation.py:94-97 | thresholding to zero never raises a non-negative sample |
| PointOps.ApplyLutCopy | src/operations/point/posterize.py:39-53 | a fresh copy with out[w][h] = lut[in[w][h]]; the input is unchanged |
| PointOps.PosterizeLut | src/operations/point/posterize.py:55-81 | `calc_posterize_lut` of both posterize dialogs (also python-image-processing/posterize.py:56-82): cd entries, where entry v is the posterize level of v, in 0..cd−1; non-decreasing; exactly `bins` distinct values |
| PointOps.PosterizeTable | src/operations/point/posterize.py:71-81 | a table of posterize levels stays in 0..cd−1, is non-decreasing and takes exactly `bins` distinct values for bins <= cd |
| PointOps.BinsFit | src/operations/point/posterize.py:71-79 | the first bins−1 bins of length cd div bins fit in the depth, leaving at least one bin length for the last |
| PointOps.PosterizeInRange | src/operations/point/posterize.py:71-81 | every posterize level lies in 0..cd−1 |
| PointOps.PosterizeMonotone | src/operations/point/posterize.py:71-81 | the posterize table is non-decreasing |
| PointOps.BinStartsMembers | src/operations/point/posterize.py:72-76 | the bin starts are exactly the multiples i·bl with i < n |
| PointOps.BinStartsCard | src/operations/point/posterize.py:72-76 | with bl > 0 there are exactly n bin starts |
| PointOps.LevelIsStart | src/operations/point/posterize.py:72-76 | a value below the last bin maps to the start of its bin |
| PointOps.StartIsLevel | src/operations/point/posterize.py:72-76 | every bin start is its own level |
| PointOps.PosterizeDistinct | src/operations/point/posterize.py:29-30 | for 1 <= bins <= cd the table takes exactly `bins` distinct values |
| PointOps.RowMinIsMinimum | src/operations/point/normalize.py:73-74 | the minimum of a row prefix is at most every sample there and is one of them |
| PointOps.RowsMinIsMinimum | src/operations/point/normalize.py:73-74 | the minimum of the first r rows is at most every sample there and is one of them |
| PointOps.RowMaxIsMaximum | src/operations/point/normalize.py:73-74 | the maximum of a row prefix is at least every sample there and is one of them |
| PointOps.RowsMaxIsMaximum | src/operations/point/normalize.py:73-74 | the maximum of the first r rows is at least every sample there and is one of them |
| PointOps.ImgMinIsMinimum | src/operations/point/normalize.py:73 | `min()` is a lower bound of the image that some pixel attains |
| PointOps.ImgMaxIsMaximum | src/operations/point/normalize.py:74 | `max()` is an upper bound of the image that some pixel attains |
| PointThreshold.Threshold.constructor | src/operations/point/threshold.py:10-38 | the dialog copies the parent's data, the slider runs 0..cd−1 starting at cd div 2 − 1, and the first preview is the binary threshold |
| PointThreshold.Threshold.CalcThresholdBinary | src/operations/point/threshold.py:40-61 | a fresh copy with cd−1 where the sample exceeds t and 0 elsewhere |
| PointThreshold.Threshold.CalcThresholdZero | src/operations/point/threshold.py:63-83 | a fresh copy where samples below t are 0 and the rest unchanged |
| PointThreshold.Threshold.UpdateImgPreview | src/operations/point/threshold.py:91-106 | the preview is the binary threshold iff the binary button is checked, otherwise to-zero |
| SegmentationDialog.Segmentation.constructor | src/operations/segmentation.py:11-39 | the dialog copies the parent's data, sets the slider to 0..cd−1 at cd div 2 − 1, and shows the "Threshold Binary" preview |
| SegmentationDialog.Segmentation.CalcThresholdBinary | src/operations/segmentation.py:56-77 | a fresh copy with cd−1 where the sample exceeds t and 0 elsewhere |
| SegmentationDialog.Segmentation.CalcThresholdZero | src/operations/segmentation.py:79-99 | a fresh copy where samples below t are 0 and the rest unchanged; no non-negative sample increases |
| SegmentationDialog.Segmentation.UpdateImgPreview | src/operations/segmentation.py:106-123 | "Threshold Binary" and "Threshold Zero" each set the preview to their result; any other type fails and leaves the preview unchanged |
| SegmentationThreshold.AdaptiveMethodOf | src/operations/segmentation/threshold.py:147 | "Mean" selects the mean-C method, and every other name the Gaussian method |
| SegmentationThreshold.OddBlockSizeInRange | src/operations/segmentation/threshold.py:137-138 | the validated block size is odd, equals the input when that is odd, and stays in 3..255 for inputs in 3..255 |
| SegmentationThreshold.Threshold.constructor | src/operations/segmentation/threshold.py:15-43 | the dialog copies the parent's data and sets up the form and the preview for "Threshold Binary" |
| SegmentationThreshold.Threshold.UpdateForm | src/operations/segmentation/threshold.py:55-77 | the slider becomes 0..cd−1 at cd/2−1 for the two threshold types, 3..255 at 127 for the two adaptive types, and is disabled otherwise; then the preview is the binary or to-zero threshold at cd/2−1, the library's adaptive result, or Otsu's result and threshold |
| SegmentationThreshold.Threshold.CalcThresholdBinary | src/operations/segmentation/threshold.py:79-100 | a fresh copy with cd−1 where the sample exceeds t and 0 elsewhere |
| SegmentationThreshold.Threshold.CalcThresholdZero | src/operations/segmentation/threshold.py:102-122 | a fresh copy where samples below t are 0 and the rest unchanged |
| SegmentationThreshold.Threshold.CalcAdaptiveThresh | src/operations/segmentation/threshold.py:124-149 | an even block size is lowered by one and written back to the slider; the method name picks the adaptive method |
| SegmentationThreshold.Threshold.UpdateImgPreview | src/operations/segmentation/threshold.py:166-189 | the four named types run their own computation at the slider value; any other type runs Otsu's method and moves the slider to Otsu's threshold |
| PointPosterize.Posterize.constructor | src/operations/point/posterize.py:10-37 | the dialog copies the parent's data, sets the slider to 2..cd div 2 − 1 at cd div 16, and previews |
| PointPosterize.Posterize.ApplyLut | src/operations/point/posterize.py:39-53 | a fresh copy with out[w][h] = lut[in[w][h]]; the dialog's data is unchanged |
| PointPosterize.Posterize.UpdateImgPreview | src/operations/point/posterize.py:89-101 | the preview is the posterised copy for the slider's number of bins |
| PointNormalize.NormEndpoints | src/operations/point/normalize.py:79 | the image's minimum maps to min_val and its maximum to max_val |
| PointNormalize.NormMonotone | src/operations/point/normalize.py:79 | the stretch is non-decreasing in the sample |
| PointNormalize.NormInRange | src/operations/point/normalize.py:79 | every sample of the image's range lands in [min_val, max_val] |
| PointNormalize.Normalize.constructor | src/operations/point/normalize.py:10-35 | copies the parent's data and histogram; the slider's limits are the image's minimum and maximum and its handles are at 0 and cd−1; the preview is the stretch onto 0..cd−1 |
| PointNormalize.Normalize.NormalizeHistogram | src/operations/point/normalize.py:56-81 | a fresh copy where each sample p becomes min_val + (p−mn)·(max_val−min_val) div (mx−mn), every result lying in [min_val, max_val] |
| PointNormalize.Normalize.UpdatePlotPreview | src/operations/point/normalize.py:93-111 | the preview is the stretch onto the slider's handles, and its histogram is zero outside [first, second] |
| PointNormalize.ValueCounts | src/operations/point/normalize.py:21 | the parent's histogram: one counter per sample value |
| PointNormalize.LimitsSlider | src/operations/point/normalize.py:25 | the slider is valid, its limits are the image's minimum and maximum, and its handles are at 0 and cd−1 |
| PointNormalize.ImgBoundsInDepth | src/operations/point/normalize.py:25 | the image's minimum and maximum lie within the depth, so the slider's limits fit its options |
| PointNormalize.SameSamplesSameBounds | src/operations/point/normalize.py:22 | the copy has the same minimum and maximum as the parent |
| PointNormalize.CountOutside | src/operations/point/normalize.py:101-104 | a value outside the range of every sample has count 0 |
| RangeSliderWidget.RangeSlider.constructor | src/widgets/range_slider.py:14-43 | requires limits[0] < limits[1]; the handles are at 0 and cd−1 and the options are 0..cd−1; the invariant first <= left < right <= second holds when the limits lie within 0..cd−1 |
| RangeSliderWidget.RangeSlider.MousePress | src/widgets/range_slider.py:120-131 | records which handles the hit test reported |
| RangeSliderWidget.RangeSlider.MouseMove | src/widgets/range_slider.py:133-160 | the first handle moves only to a value <= left_limit, and then the event ends; the second handle moves only to a value >= right_limit; at most one handle moves; the invariant is kept |
| RangeSliderWidget.RangeSlider.MouseRelease | src/widgets/range_slider.py:162-166 | `range_chagned` is emitted iff a handle was hit on press |
| LegacyThreshold.Threshold.constructor | python-image-processing/threshold.py:10-28 | the depth field is the parent's depth − 1; the slider runs 0..(parent depth − 1) and starts at (parent depth − 1) div 2; the first preview is computed |
| LegacyThreshold.Threshold.CalcThreshold | python-image-processing/threshold.py:34-41 | a fresh copy with the parent's depth − 2 where the sample exceeds t and 0 elsewhere; only those two values occur |
| LegacyThreshold.Threshold.UpdateImgPreview | python-image-processing/threshold.py:43-56 | the preview is the threshold at the slider's current value, passed in, with the high value the parent's depth − 2 |
| LegacyThreshold.Threshold.AcceptChanges | python-image-processing/threshold.py:58-60 | the previewed data becomes the dialog's data |
| LegacyPosterize.Posterize.constructor | python-image-processing/posterize.py:10-38 | the dialog copies the parent's data, sets the slider to 2..cd div 2 − 1 at cd div 16, and previews |
| LegacyPosterize.Posterize.ApplyLut | python-image-processing/posterize.py:40-54 | a fresh copy with out[w][h] = lut[in[w][h]]; the dialog's data is unchanged |
| LegacyPosterize.Posterize.UpdateImgPreview | python-image-processing/posterize.py:90-112 | the preview is the posterised copy for the slider's number of bins |
| LegacyPosterize.Posterize.AcceptChanges | python-image-processing/posterize.py:114-118 | the previewed data becomes the dialog's data |
| LegacyNormalize.LegacyIsStretchFromZero | python-image-processing/normalize.py:78-79 | (p−mn)·max_val div (mx−mn) is the newer stretch with min_val = 0: mn maps to 0 and mx to max_val, order is kept and results lie in [0, max_val] |
| LegacyNormalize.Normalize.constructor | python-image-processing/normalize.py:9-35 | copies the parent's data, keeps the parent's histogram, makes the image's minimum and maximum the slider's limits, and previews |
| LegacyNormalize.Normalize.NormalizeHistogram | python-image-processing/normalize.py:56-81 | a fresh copy stretched from the image's range onto [0, max_val]; min_val is ignored |
| LegacyNormalize.Normalize.UpdatePreviewPlot | python-image-processing/normalize.py:93-111 | the preview is the stretch onto [0, second handle], and its histogram is computed |
| LegacyNormalize.Normalize.AcceptChanges | python-image-processing/normalize.py:113-117 | the previewed data becomes the dialog's data |
| LegacyImage.Image.constructor | python-image-processing/image.py:3-4 | the image keeps its data |
| LegacyImage.Image.CalcSingleHistogram | python-image-processing/image.py:6-14 | one list of 256 counters, where counter v counts the pixels equal to v, summing to rows·cols, tagged "b"; requires samples < 256 |
| LegacyImage.Image.CalcTripleHistogram | python-image-processing/image.py:16-25 | three lists of 256 counters, each channel's list summing to rows·cols, tagged "b", "g", "r" |
| LegacyImage.Image.CalcHistogram | python-image-processing/image.py:27-31 | the single histogram tagged ["b"] exactly for a two-dimensional image, otherwise the triple histogram tagged ["b", "g", "r"] |
| Bresenham.StepIsNeighbour | src/image/analyze/intensity_profile.py:60-66 | consecutive line points are 8-neighbours: each coordinate changes by at most one, and at least one changes |
| Bresenham.AfterStep | src/image/analyze/intensity_profile.py:60-66 | within the step counts, each reached point lies in the bounding box, and the next one follows it as a line step |
| Bresenham.ErrorGuards | src/image/analyze/intensity_profile.py:60-66 | the doubled error allows an x step only while x has not reached its end, and a y step only while y has not; at least one step is always taken |
| Bresenham.LinePoints | src/image/analyze/intensity_profile.py:34-68 | the line starts at p1 and ends at p2; consecutive points are neighbours moving by sign_x and sign_y; all points lie in the bounding box; there are exactly max(\|dx\|, \|dy\|)+1 points; p1 == p2 gives [p2] |
| Bresenham.Advance | src/image/analyze/intensity_profile.py:57-66 | one iteration: the longer axis always steps, neither axis overshoots its end, the error stays in its band, and the next point is a step of the line |
| Bresenham.PyIndex | src/image/analyze/intensity_profile.py:94 | Python indexing: defined iff −n <= i < n, giving i or i+n |
| Bresenham.Intensities | src/image/analyze/intensity_profile.py:92-94 | one intensity per line point, in order, read at row y and column x; None iff some point's index raises |
| Bresenham.ProfileInsideImage | src/image/analyze/intensity_profile.py:92-94 | between two points inside the image every line point is inside, so the profile exists and holds img[y, x] |
| IntensityProfileWindow.IntensityProfile.constructor | src/image/analyze/intensity_profile.py:10-15 | a new window has no line points and is marked closed |
| IntensityProfileWindow.IntensityProfile.CalcLinePoints | src/image/analyze/intensity_profile.py:34-68 | stores a line from p1 to p2 with the properties of `Bresenham.LinePoints`: it runs from p1 to p2 in 8-neighbour steps and has exactly max(abs(dx), abs(dy)) + 1 points |
| IntensityProfileWindow.IntensityProfile.CreateProfile | src/image/analyze/intensity_profile.py:70-106 | opens the window, stores the line between the points, and returns one intensity per line point at img_data[y][x], which exists whenever both points are inside |
| LegacyIntensityProfile.IntensityProfile.constructor | python-image-processing/intensity_profile.py:9-11 | a new window has no line points and is marked closed |
| LegacyIntensityProfile.IntensityProfile.CalcLinePoints | python-image-processing/intensity_profile.py:18-43 | stores a line from p1 to p2 with the properties of `Bresenham.LinePoints`: it runs from p1 to p2 in 8-neighbour steps and has exactly max(abs(dx), abs(dy)) + 1 points |
| LegacyIntensityProfile.IntensityProfile.CreateProfile | python-image-processing/intensity_profile.py:45-64 | opens the window, stores the line, and returns one intensity per line point at image[y][x], which exists whenever both points are inside |
| LegacyAnalyzeProfile.IntensityProfile.constructor | python-image-processing/image/analyze/intensity_profile.py:10-14 | a new window has no line points and is marked closed |
| LegacyAnalyzeProfile.IntensityProfile.CalcLinePoints | python-image-processing/image/analyze/intensity_profile.py:28-62 | stores a line from p1 to p2 with the properties of `Bresenham.LinePoints`: it runs from p1 to p2 in 8-neighbour steps and has exactly max(abs(dx), abs(dy)) + 1 points |
| LegacyAnalyzeProfile.IntensityProfile.CreateProfile | python-image-processing/image/analyze/intensity_profile.py:64-101 | opens the window, stores the line, and returns one intensity per line point at img_data[y][x], which exists whenever both points are inside |
| Bmp.Slice | python-image-processing/image_bmp.py:55 | Python's `s[a:b]` for non-negative bounds: clamped to the sequence, empty when b <= a, and equal to s[a..b] when in range |
| Bmp.FromLittleEndian | python-image-processing/image_bmp.py:55 | `int.from_bytes(…, "little")`: below 256^n for n bytes |
| Bmp.ToLittleEndian | python-image-processing/image_bmp.py:55 | exactly n bytes, the inverse of `FromLittleEndian` (see `DecodeEncode`) |
| Bmp.DecodeEncode | python-image-processing/image_bmp.py:55 | decoding the n bytes of a value below 256^n gives the value back |
| Bmp.EncodeDecode | python-image-processing/image_bmp.py:55 | encoding a decoded byte string gives the same bytes back |
| Bmp.DataOffset | python-image-processing/image_bmp.py:52-55 | the unsigned little-endian value of bytes 10..13, below 2^32 |
| Bmp.Width | python-image-processing/image_bmp.py:62-65 | the unsigned little-endian value of bytes 18..21 |
| Bmp.Height | python-image-processing/image_bmp.py:67-70 | the unsigned little-endian value of bytes 22..25 |
| Bmp.BitsPerPixel | python-image-processing/image_bmp.py:57-60 | the unsigned little-endian value of bytes 28..29, below 2^16 |
| Bmp.ImageCompression | python-image-processing/image_bmp.py:72-75 | the unsigned little-endian value of bytes 30..33 |
| Bmp.ImageSize | python-image-processing/image_bmp.py:77-80 | the unsigned little-endian value of bytes 34..37 |
| Bmp.EncodeHeader | python-image-processing/image_bmp.py:52-80 | the encoded header is 54 bytes long, so the pixel data can start at offset 54 |
| Bmp.ReadEncodedHeader | python-image-processing/image_bmp.py:52-80 | every getter reads back the field written into the header, whatever follows it |
| Bmp.GetType | python-image-processing/image_bmp.py:14-29 | uint8 below 256, uint16 below 65536, otherwise uint32; the chosen type's range holds the value |
| Bmp.GetChannelsNum | python-image-processing/image_bmp.py:32-44 | 1 when bpp < 8, otherwise bpp div 8 |
| Bmp.GetColorTable | python-image-processing/image_bmp.py:82-89 | bytes 54 up to the data offset when bpp <= 8, otherwise the integer 0 |
| Bmp.GetRawPixelData | python-image-processing/image_bmp.py:91-94 | everything from the data offset on |
| Bmp.Padding | python-image-processing/image_bmp.py:110 | the padding `width & 3` is below 4 |
| Bmp.PaddingIsRowPadding | python-image-processing/image_bmp.py:110 | width mod 4 equals (4 − 3·width mod 4) mod 4, the padding of a 24-bit row to a 4-byte boundary |
| Bmp.Chunks | python-image-processing/image_bmp.py:114 | `reshape(count, n)` gives count chunks of n elements |
| Bmp.ChunkAt | python-image-processing/image_bmp.py:114 | chunk i is the slice i·n .. i·n+n |
| Bmp.Reverse | python-image-processing/image_bmp.py:119-123 | `flip(lines, 0)` / `reversed(lines)`: element i of the result is element n−1−i |
| Bmp.GetPixels | python-image-processing/image_bmp.py:96-125 | a non-zero compression field fails with a compression error before any pixel work, and a result exists only for compression 0 |
| Bmp.Decode | python-image-processing/image_bmp.py:113-125 | fails exactly where the reshapes or `max()` raise; otherwise row i is stored line height−1−i, whole for one channel, or its first width·channels bytes grouped into pixels |
| Bmp.Line | python-image-processing/image_bmp.py:114 | line k has \|data\| div height bytes |
| Bmp.SplitLines | python-image-processing/image_bmp.py:114 | `reshape(height, -1)` gives `height` equal lines |
| Bmp.LineIsSlice | python-image-processing/image_bmp.py:114 | line k is the k-th slice of \|data\| div height bytes |
| Bmp.GroupLines | python-image-processing/image_bmp.py:123 | every line grouped into `width` pixels of `channels` samples |
| Bmp.GroupLine | python-image-processing/image_bmp.py:123 | pixel j is bytes j·channels .. j·channels+channels of the line, and the padding is dropped |
| Bmp.Stride | python-image-processing/image_bmp.py:110-111 | a stored row is the pixel bytes padded up to a multiple of four |
| Bmp.ChunksOfFlatten | python-image-processing/image_bmp.py:114 | cutting n-byte rows laid end to end into chunks of n gives the rows back |
| Bmp.EncodedFileIsWellFormed | python-image-processing/image_bmp.py:52-94 | a file made of an encoded header, a palette reaching the data offset and the stored rows is laid out as the format prescribes |
| Bmp.StoredPixelBytes | python-image-processing/image_bmp.py:111-113 | the pixel bytes the reader takes from a well-formed file are its stored rows |
| Bmp.LinesOfFlatten | python-image-processing/image_bmp.py:114 | cutting the stored rows into `height` lines gives the rows back |
| Bmp.EightBitStrideFits | python-image-processing/image_bmp.py:110-111 | 8-bit rows fit in the three bytes a pixel the reader assumes |
| Bmp.TwentyFourBitStrideFits | python-image-processing/image_bmp.py:110-111 | 24-bit rows are exactly as long as the reader assumes |
| Bmp.DecodeStored24 | python-image-processing/image_bmp.py:123 | pixel j of row i is bytes 3j .. 3j+2 of stored row height−1−i |
| Bmp.TwentyFourBitDecodes | python-image-processing/image_bmp.py:96-125 | a well-formed 24-bit file decodes into height rows of width three-sample pixels, top row first, with the padding dropped |
| Bmp.DecodeStored8 | python-image-processing/image_bmp.py:119 | decoding 8-bit rows gives the stored rows, reversed |
| Bmp.EightBitKeepsPadding | python-image-processing/image_bmp.py:96-125 | a well-formed 8-bit file decodes into its whole stored rows, top first, so padding bytes stay in as extra columns |
| Bmp.ThirtyTwoBitRejected | python-image-processing/image_bmp.py:110-123 | a 32-bit file at least four pixels wide never decodes, because its lines are shorter than 4·width |
| Bmp.MaxByte | python-image-processing/image_bmp.py:115 | `data.max()` is an element of the data, at least every element |
| Bmp.PixelTypeIsUint8 | python-image-processing/image_bmp.py:115-125 | the decoded samples are bytes, so the chosen type is always uint8 |
| Bmp.NewImageBmp | python-image-processing/image_bmp.py:7-11 | the constructor keeps the bytes and their decoded pixels, and fails where `get_pixels` fails |
| PanoramaStitcher.Kept | src/panorama/stitcher.py:73-75 | a pair contributes either nothing or its best match |
| PanoramaStitcher.RatioFilterAppend | src/panorama/stitcher.py:73-75 | filtering a concatenation is concatenating the filtered parts, so the filter keeps the input order |
| PanoramaStitcher.RatioFilterKeepsStrong | src/panorama/stitcher.py:73-75 | the kept matches are at most the pairs; m is kept iff it is the best neighbour of a pair with 5·best < 3·second, the integer form of best < 0.6·second |
| PanoramaStitcher.Stitcher.constructor | src/panorama/stitcher.py:24-43 | requires exactly two images and starts with no good matches |
| PanoramaStitcher.Stitcher.MatchKeypoints | src/panorama/stitcher.py:63-87 | appends the ratio-filtered best matches, in order, to `good_matches` |
| PanoramaStitcher.StitchStatus | src/panorama/stitcher.py:141-154 | the status is 0 or 1, and 0 iff there are more than MIN_MATCH_COUNT = 10 good matches |
| PanoramaStitcher.Corners | src/panorama/stitcher.py:108-111 | the corners are (0,0), (0,rows), (cols,rows), (cols,0) |
| PanoramaStitcher.ExtremesBound | src/panorama/stitcher.py:115-116 | the minimum and maximum bound every point on each axis |
| PanoramaStitcher.Trunc | src/panorama/stitcher.py:115-116 | `astype(int32)` truncates toward zero |
| PanoramaStitcher.CanvasPoints | src/panorama/stitcher.py:111-113 | eight points: image 2's corners, then image 1's transformed corners |
| PanoramaStitcher.CanvasHoldsImage2 | src/panorama/stitcher.py:111-123 | with image 2's corners among the points, x_min, y_min <= 0, so the translation is non-negative, and the canvas is at least cols2 + tx wide and rows2 + ty high |
| PanoramaStitcher.WarpCanvasHoldsImage2 | src/panorama/stitcher.py:111-123 | the same bounds for the canvas computed from the images and the homography |
| PanoramaStitcher.Paste | src/panorama/stitcher.py:122-123 | after the paste, canvas[ty+r][tx+c] == image2[r][c] and every cell outside that window keeps its value |
| PanoramaStitcher.WarpImages | src/panorama/stitcher.py:90-125 | a fresh canvas of (x_max−x_min) × (y_max−y_min); the window at the translation holds image 2, and every other cell holds the warped image 1 |
| PanoramaStitcher.PasteOnWarped | src/panorama/stitcher.py:121-123 | a fresh canvas initialised from the warped image with image 2 pasted at the translation |
| PanoramaStitcher.Stitcher.Stitch | src/panorama/stitcher.py:127-154 | records the good matches; the status is StitchStatus of their count; status 1 iff no result; status 0 gives a fresh canvas of the computed size holding image 2 in its window and the warped image 1 elsewhere |
| PanoramaLists.RemoveAt | src/panorama/panorama_ui.py:130-131 | `takeItem(row)`: one element fewer, the others in order, the multiset without that element |
| PanoramaLists.InsertAt | src/panorama/panorama_ui.py:158-159 | `insertItem(row, x)`: x at row, the others shifted after it |
| PanoramaLists.ButtonStatus | src/panorama/panorama_ui.py:169-176 | Up is enabled iff a right row above the first is selected; Down iff a right row before the last is selected; Add and Remove iff their list has a selected row |
| PanoramaLists.ImageLists.constructor | src/panorama/panorama.py:41-46 | the left list holds the loaded names in order and the right list is empty |
| PanoramaLists.ImageLists.Add | src/panorama/panorama_ui.py:127-132 | the left item at the row moves to the end of the right list; the multiset of both lists is unchanged |
| PanoramaLists.ImageLists.Remove | src/panorama/panorama_ui.py:134-139 | the right item at the row moves to the end of the left list; the multiset of both lists is unchanged |
| PanoramaLists.ImageLists.AddAll | src/panorama/panorama_ui.py:141-145 | left becomes empty and right becomes old right ++ old left |
| PanoramaLists.ImageLists.RemoveAll | src/panorama/panorama_ui.py:147-151 | right becomes empty and left becomes old left ++ old right |
| PanoramaLists.ImageLists.Up | src/panorama/panorama_ui.py:153-159 | at row r > 0, swaps right[r−1] and right[r], leaves every other position alone and selects r−1 |
| PanoramaLists.ImageLists.Down | src/panorama/panorama_ui.py:161-167 | at row r < count−1, swaps right[r] and right[r+1], leaves every other position alone and selects r+1 |
| Panorama.ErrorMessage | src/panorama/panorama.py:16-25 | a message exists exactly for the statuses 1..4 |
| Panorama.Pad | src/panorama/panorama.py:77 | a fresh (h+20) × (w+20) image with pixel (r,c) at (r+10,c+10) and zero elsewhere |
| Panorama.Binarise | src/panorama/panorama.py:81-82 | a fresh image where a pixel is 255 iff its gray value is > 0, and 0 otherwise |
| Panorama.MaskOf | src/panorama/panorama.py:93-95 | the filled rectangle covers rows y..y+h and columns x..x+w inclusive |
| Panorama.ErodeBox | src/panorama/panorama.py:111 | with a one-pixel margin, the shrunk box covers a pixel iff the box covers its whole 3×3 neighbourhood, and shrinking only removes pixels |
| Panorama.SatSub | src/panorama/panorama.py:112 | saturating subtraction: never negative, at least a−b, and zero iff a <= b |
| Panorama.CountNonZeroSub | src/panorama/panorama.py:112 | the count is zero iff every saturated difference is zero |
| Panorama.SubEmptyIffFits | src/panorama/panorama.py:108-112 | the subtraction is empty exactly when the crop box lies inside the thresholded content |
| Panorama.ErodeUntilInside | src/panorama/panorama.py:102-112 | erodes at least once and stops at the first step count whose box fits inside the content |
| Panorama.PadAndBinarise | src/panorama/panorama.py:77-82 | the padded image and its threshold, as for `Pad` and `Binarise` |
| Panorama.CutOut | src/panorama/panorama.py:116-122 | a fresh region of the padded image with the box's dimensions, pixel (i,j) being padded[top+i, left+j] |
| Panorama.CropBorders | src/panorama/panorama.py:66-124 | no contour raises; otherwise the mask box is eroded at least once, to the first step count at which it fits in the content, and a non-empty box gives a fresh sub-rectangle of the padded image whose every pixel has gray > 0 |
| Panorama.FinalBoxUnique | src/panorama/panorama.py:104-118 | an outline has a single final box and a single erosion count |
| Panorama.TryCrop | src/panorama/panorama.py:195-200 | an image iff there is an outline and its final box is not empty, exactly the cases in which `crop_borders` does not raise; the image is fresh and is the padded panorama under that box, with no black pixel |
| Panorama.TrimStart | src/panorama/panorama.py:203 | a suffix of the text that starts with no whitespace; only whitespace is dropped |
| Panorama.TrimEnd | src/panorama/panorama.py:203 | a prefix of the text that ends with no whitespace; only whitespace is dropped |
| Panorama.Strip | src/panorama/panorama.py:203 | `str.strip()`: no whitespace at either end, and the text is that result between two runs of whitespace |
| Panorama.TrimmedParts | src/panorama/panorama.py:203 | trimming both ends leaves the text between two whitespace runs |
| Panorama.StitchManually | src/panorama/panorama.py:137-152 | status 4 and no result iff the count is not 2; otherwise the stitcher's status; only 0, 1 or 4 occur; a result exists iff the status is 0 |
| Panorama.PanoramaDialog.constructor | src/panorama/panorama.py:27-51 | the left list holds the loaded names and the right list is empty; no panorama, no error text, no warning, not accepted |
| Panorama.PanoramaDialog.GetSelectedImages | src/panorama/panorama.py:126-135 | returns the right list's images in order, empties the right list and appends its names to the left list in the same order |
| Panorama.PanoramaDialog.ShowResult | src/panorama/panorama.py:193-206 | the crop fails iff the status is 0, cropping is asked for, and there is no outline or the final box is empty; publishes the panorama and the stripped name only on status 0 without a crop failure, and a cropped panorama is the cut-out of the final box; a crop failure sets the calculation error; a non-zero status shows ERROR_MESSAGES[status] and leaves the panorama unchanged |
| Panorama.PanoramaDialog.StitchImages | src/panorama/panorama.py:166-206 | the lists move first, whatever the outcome; manual mode yields only 0, 1 or 4, with 4 iff the count is not 2; library mode passes its status and panorama through; a panorama exists iff the status is 0; the crop failure condition and the published panorama are as in `ShowResult` |

## Left out

- The Qt user interface is not part of this model: widget construction, painting, plots, tables, signal plumbing, `paintEvent` and `sizeHint`. The list rows selected in the two panorama lists, the style's hit test of the slider, and its pixel-to-value mapping are inputs.
- Qt's choice of the current row after `takeItem`, and the buttons' enabled state between clicks, are not modelled. `PanoramaLists.ImageLists.Up` and `Down` require that the button was enabled, which `PanoramaLists.ButtonStatus` states.
- The OpenCV feature pipeline enters as inputs:
  - ORB detection and `BFMatcher.knnMatch` become a sequence of (best, second) pairs with integer Hamming distances, so a pair always has two entries;
  - `findHomography`, `perspectiveTransform` and `warpPerspective` become a transform function on real points and a warped-image function;
  - a `None` homography is not modelled. In the source it only surfaces through the catch-all at src/panorama/panorama.py:189-191, and the model has no exceptions.
- The library stitcher (`stitch_default`) enters as its status 0..3 and its panorama.
- `cvtColor`, `findContours`, `contourArea` and `boundingRect` in `crop_borders` enter as a gray function and an optional bounding box of the largest contour. The erosion is modelled on that rectangle. A rectangle with a one-pixel margin is exactly what `ErodeBox` covers; a general silhouette is not modelled.
- The final contour of `crop_borders` is taken to be the box itself. The box is a filled rectangle, so its bounding rectangle is the box.
- The repository mixes versions here. src/operations/point/normalize.py:22 and src/operations/segmentation/threshold.py:31 read `parent.data`, while the `Image` class of src/image/image.py defines only `img_data`, which src/operations/point/threshold.py:26 reads. As the source stands, those two dialogs would raise `AttributeError` when an `Image` window opens them. All three dialogs here take the parent's `img_data` samples as a parameter, and the model does not capture that error.
- `Panorama.CountNonZeroSub` states only whether the count is zero, not the exact count. The source only compares it with zero.
- `Panorama.Strip` treats only space, tab, newline and carriage return as whitespace, not every Unicode whitespace character that `str.strip` removes.
- Panorama pixels are one integer each; the three colour channels of a panorama pixel are not modelled separately.
- Float32 corner coordinates are reals, so float rounding and int32 overflow of the canvas bounds are not modelled.
- Keypoints and descriptors stored by `detect_keypoints`, and the debug `imshow`/`waitKey` windows, are left out: they are library results and GUI I/O.
- Adaptive thresholding, Otsu's method, smoothing, edge detection, sharpening, convolution, watershed, vector properties, SVM classification and morphology are library calls, floating-point code or stubs. Adaptive and Otsu results are inputs of `SegmentationThreshold.Threshold.UpdateImgPreview`.
- The colour intensity profile weights the channels by 0.24, 0.69 and 0.07 in floating point. Only the single-channel profile is modelled.
- NumPy's fixed-width dtypes are not modelled: samples are mathematical integers with explicit depth bounds. The one store that can leave the 8-bit range, in equalisation, is written out modulo 256. Under NumPy 1.x the normalisation arithmetic is promoted to int64, so its intermediate products do not overflow.
- ImageModel.Image.EqualizeHistogram: stores each table entry modulo 256, as NumPy 1.x's uint8 element assignment wraps; NumPy 2 raises OverflowError there instead, which is not modelled.
- True division before `int(...)` is modelled as truncating division of a non-negative numerator, so float rounding of the quotient is not modelled.
- `PointNormalize.Normalize.constructor` and `LegacyNormalize.Normalize.constructor` require a non-constant image. The slider's assert on its limits rejects a constant one.
- The histogram of the parent window that the older normalisation dialog receives enters as a parameter. The older application's own range slider is not part of this model; the older dialog uses `RangeSliderWidget`.
- `ImageModel.Image.CalcHistogram` and `LegacyImage.Image.CalcTripleHistogram` cover images of at most three channels, because the source's three lists fail on a fourth.
- `RangeSliderWidget.RangeSlider.constructor` sets both hit-test results to "no handle". In the source, `_first_sc` and `_second_sc` exist only after the first mouse press, so a move or release before any press raises `AttributeError`. The model does not capture that error.
- `Bmp.Padding` is written as `width % 4`; for a non-negative width this is the same as `width & 3`.
- File reading through `open` and `imread` is I/O and is not modelled. Only the BMP byte decoder is.
- Renaming, the histogram window and QImage conversion are user-interface code and are not modelled.

## Findings

| source | as written | input that shows it | evidently intended | confidence | as-written member | corrected member |
|---|---|---|---|---|---|---|
| src/image/image.py:173-175 | `hist_min = sorted(set(cum))[1]` takes the second-smallest distinct cumulative value | a histogram with 2 black pixels, 1 pixel of grey 1 and 1 pixel of grey 2, so cum = [2, 3, 4, 4, …]. hist_min becomes 3, and the look-up table maps black to \|2−3\|·255 div 1 = 255 and grey 1 to 0 | per the comment at line 172, exclude only zero as a minimum: hist_min is the smallest positive cumulative value, so the table is non-decreasing and maps into 0..255 | not executed | ImageModel.AsWrittenBounds, ImageModel.AsWrittenBlackTurnsWhite, ImageModel.Image.EqualizeHistogram | ImageModel.IntendedBounds, ImageModel.IntendedLutInRange, ImageModel.Image.EqualizeHistogramIntended |
