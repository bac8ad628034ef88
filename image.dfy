/**
 * The image object of the application: its samples, its colour depth, its
 * histograms and the lookup-table operations it applies to itself in place
 * (negation and histogram equalisation), plus the point clamping of its
 * window.
 */
module ImageModel {
  import opened Wrappers
  import opened Pixels
  import opened PointOps

  /** The image's sample array: 2-D for grayscale, 3-D (rows, columns, channels) for colour. */
  datatype ImageData = Gray(gray: array2<int>) | Color(color: array3<int>)
  {
    /** `img_data.shape`. */
    function Shape(): (s: seq<nat>)
      ensures 2 <= |s| <= 3
    {
      if Gray? then [gray.Length0, gray.Length1] else [color.Length0, color.Length1, color.Length2]
    }

    /** The array that holds the samples. */
    function Frame(): set<object>
    {
      if Gray? then {gray} else {color}
    }
  }

  /** 2 to the power e. */
  function Pow2(e: nat): (p: nat)
    ensures p >= 1
  {
    if e == 0 then 1 else 2 * Pow2(e - 1)
  }

  /** `2**(8 * itemsize)`: the number of values a sample of that many bytes holds. */
  function ColorDepth(itemSize: nat): nat
  {
    Pow2(8 * itemSize)
  }

  /** One-byte samples have depth 256, two-byte samples depth 65536. */
  lemma ColorDepthOfBytes()
    ensures ColorDepth(1) == 256 && ColorDepth(2) == 65536
  {
  }

  /** Bin v of a single-channel histogram with n bins counts the pixels equal to v. */
  ghost function GrayCounts(a: array2<int>, n: nat): (h: seq<int>)
    reads a
    ensures |h| == n
  {
    seq(n, v reads a => Count(a, v))
  }

  /** Bin v of channel ch's histogram with n bins counts the pixels whose channel ch equals v. */
  ghost function ColorCounts(a: array3<int>, ch: nat, n: nat): (h: seq<int>)
    reads a
    requires ch < a.Length2
    ensures |h| == n
  {
    seq(n, v reads a => Count3(a, ch, v))
  }

  /** Entry k of the cumulative histogram: the sum of bins 0 .. k. */
  function PrefixSums(h: seq<int>): (p: seq<int>)
    ensures |p| == |h|
  {
    seq(|h|, k requires 0 <= k < |h| => Sum(h[..k + 1]))
  }

  /** One more bin adds that bin's count. */
  lemma PrefixStep(h: seq<int>, k: nat)
    requires k + 1 < |h|
    ensures Sum(h[..k + 2]) == Sum(h[..k + 1]) + h[k + 1]
  {
    assert h[..k + 2][..k + 1] == h[..k + 1];
  }

  /** With non-negative bins the cumulative histogram is non-decreasing. */
  lemma {:induction false} PrefixSumsMonotone(h: seq<int>, j: nat, k: nat)
    requires forall v :: 0 <= v < |h| ==> h[v] >= 0
    requires j <= k < |h|
    ensures PrefixSums(h)[j] <= PrefixSums(h)[k]
    decreases k - j
  {
    if j < k {
      PrefixSumsMonotone(h, j, k - 1);
      PrefixStep(h, k - 1);
    }
  }

  /** The last cumulative entry is the sum of all bins. */
  lemma PrefixSumsLast(h: seq<int>)
    requires |h| >= 1
    ensures PrefixSums(h)[|h| - 1] == Sum(h)
  {
    assert h[..|h|] == h;
  }

  /** With non-negative bins every cumulative entry is at least the bin itself. */
  lemma PrefixAtLeastBin(h: seq<int>, k: nat)
    requires forall v :: 0 <= v < |h| ==> h[v] >= 0
    requires k < |h|
    ensures PrefixSums(h)[k] >= h[k]
  {
    assert h[..k + 1][..k] == h[..k];
    SumNonNegative(h[..k]);
  }

  /**
   * The cumulative-histogram loop: starts with `[hist[0]]` and appends
   * `last + bin` for every further bin.
   */
  method CumulativeSums(hist: seq<int>) returns (cum: seq<int>)
    requires |hist| >= 1
    ensures cum == PrefixSums(hist)
  {
    cum := [hist[0]];
    assert hist[..1] == [hist[0]];
    assert Sum([hist[0]]) == Sum([]) + hist[0];
    var i := 1;
    while i < |hist|
      invariant 1 <= i <= |hist|
      invariant |cum| == i
      invariant forall k :: 0 <= k < i ==> cum[k] == Sum(hist[..k + 1])
    {
      PrefixStep(hist, i - 1);
      cum := cum + [cum[i - 1] + hist[i]];
      i := i + 1;
    }
  }

  /** Smallest entry of a non-empty sequence. */
  function SeqMin(s: seq<int>): (m: int)
    requires |s| >= 1
    ensures m in s
    ensures forall k :: 0 <= k < |s| ==> m <= s[k]
  {
    if |s| == 1 then s[0]
    else
      var rest := SeqMin(s[..|s| - 1]);
      assert rest in s;
      if s[|s| - 1] < rest then s[|s| - 1] else rest
  }

  /** Largest entry of a non-empty sequence. */
  function SeqMax(s: seq<int>): (m: int)
    requires |s| >= 1
    ensures m in s
    ensures forall k :: 0 <= k < |s| ==> s[k] <= m
  {
    if |s| == 1 then s[0]
    else
      var rest := SeqMax(s[..|s| - 1]);
      assert rest in s;
      if s[|s| - 1] > rest then s[|s| - 1] else rest
  }

  /** The smallest entry strictly above m, if any entry is above m. */
  function MinAbove(s: seq<int>, m: int): (r: Option<int>)
    ensures r.None? <==> forall k :: 0 <= k < |s| ==> s[k] <= m
    ensures r.Some? ==> r.value in s && r.value > m
    ensures r.Some? ==> forall k :: 0 <= k < |s| && s[k] > m ==> r.value <= s[k]
  {
    if s == [] then None
    else
      var rest := MinAbove(s[..|s| - 1], m);
      var last := s[|s| - 1];
      assert rest.Some? ==> rest.value in s;
      if last <= m then rest
      else if rest.None? || last < rest.value then Some(last)
      else rest
  }

  /** The exceptions equalisation can raise: an empty index, or a zero divisor. */
  datatype EqualizeError = IndexOutOfRange | DivisionByZero

  /**
   * The bounds as the equalisation code computes them: `sorted(set(cum))`
   * has the distinct values in increasing order; index 1 is the smallest
   * value above the minimum (IndexError when there is none) and index -1
   * the maximum; equal bounds would divide by zero.
   */
  function AsWrittenBounds(cum: seq<int>): (r: Result<(int, int), EqualizeError>)
    requires |cum| >= 1
    ensures r == Err(IndexOutOfRange) <==> forall k :: 0 <= k < |cum| ==> cum[k] == cum[0]
    ensures r == Err(DivisionByZero) <==>
      (exists k :: 0 <= k < |cum| && cum[k] != cum[0]) &&
      (forall k :: 0 <= k < |cum| ==> cum[k] == SeqMin(cum) || cum[k] == SeqMax(cum))
    ensures r.Ok? ==> SeqMin(cum) < r.value.0 < r.value.1 && r.value.0 in cum && r.value.1 == SeqMax(cum)
    ensures r.Ok? ==> forall k :: 0 <= k < |cum| && cum[k] > SeqMin(cum) ==> r.value.0 <= cum[k]
  {
    match MinAbove(cum, SeqMin(cum))
    case None => Err(IndexOutOfRange)
    case Some(lo) =>
      var hi := SeqMax(cum);
      if lo == hi then Err(DivisionByZero) else Ok((lo, hi))
  }

  /**
   * The bounds the comment of the equalisation code describes: the minimum
   * excluding zero, i.e. the smallest positive cumulative value, and the
   * maximum.
   */
  function IntendedBounds(cum: seq<int>): (r: Result<(int, int), EqualizeError>)
    requires |cum| >= 1
    ensures r == Err(IndexOutOfRange) <==> forall k :: 0 <= k < |cum| ==> cum[k] <= 0
    ensures r == Err(DivisionByZero) <==>
      (exists k :: 0 <= k < |cum| && cum[k] > 0) &&
      (forall k :: 0 <= k < |cum| && cum[k] > 0 ==> cum[k] == SeqMax(cum))
    ensures r.Ok? ==> 0 < r.value.0 < r.value.1 && r.value.0 in cum && r.value.1 in cum
    ensures r.Ok? ==> forall k :: 0 <= k < |cum| && cum[k] > 0 ==> r.value.0 <= cum[k] <= r.value.1
  {
    match MinAbove(cum, 0)
    case None => Err(IndexOutOfRange)
    case Some(lo) =>
      var hi := SeqMax(cum);
      if lo == hi then Err(DivisionByZero) else Ok((lo, hi))
  }

  function Abs(x: int): nat
  {
    if x < 0 then -x else x
  }

  /**
   * `abs(int(((c - lo) * 255) / (hi - lo)))`: the true quotient truncated
   * toward zero and made positive, which is |c - lo| * 255 div (hi - lo).
   */
  function EqualizedValue(c: int, lo: int, hi: int): int
    requires lo < hi
  {
    Abs(c - lo) * 255 / (hi - lo)
  }

  /** Between the bounds the equalised value lies in 0 .. 255, from 0 at lo to 255 at hi. */
  lemma EqualizedInRange(c: int, lo: int, hi: int)
    requires lo <= c <= hi && lo < hi
    ensures 0 <= EqualizedValue(c, lo, hi) <= 255
    ensures EqualizedValue(lo, lo, hi) == 0 && EqualizedValue(hi, lo, hi) == 255
  {
    var d := hi - lo;
    MulMonotone(0, c - lo, 255);
    MulMonotone(c - lo, d, 255);
    assert Abs(c - lo) * 255 == (c - lo) * 255;
    DivMonotone((c - lo) * 255, d * 255, d);
    DivExact(255, d);
    assert d * 255 == 255 * d;
    assert Abs(hi - lo) * 255 == d * 255;
    assert Abs(lo - lo) * 255 == 0;
  }

  /** Between the bounds the equalised value is non-decreasing. */
  lemma EqualizedMonotone(c1: int, c2: int, lo: int, hi: int)
    requires lo <= c1 <= c2 && lo < hi
    ensures EqualizedValue(c1, lo, hi) <= EqualizedValue(c2, lo, hi)
  {
    MulMonotone(c1 - lo, c2 - lo, 255);
    DivMonotone((c1 - lo) * 255, (c2 - lo) * 255, hi - lo);
  }

  /**
   * With the intended bounds, every level that occurs in the image (a
   * positive cumulative value) is equalised into 0 .. 255, order is kept,
   * and the lowest and highest levels become 0 and 255.
   */
  lemma IntendedLutInRange(cum: seq<int>)
    requires |cum| >= 1 && IntendedBounds(cum).Ok?
    ensures var (lo, hi) := IntendedBounds(cum).value;
      forall k :: 0 <= k < |cum| && cum[k] > 0 ==> 0 <= EqualizedValue(cum[k], lo, hi) <= 255
    ensures var (lo, hi) := IntendedBounds(cum).value;
      forall j, k :: 0 <= j < |cum| && 0 <= k < |cum| && 0 < cum[j] <= cum[k] ==>
        EqualizedValue(cum[j], lo, hi) <= EqualizedValue(cum[k], lo, hi)
    ensures var (lo, hi) := IntendedBounds(cum).value;
      EqualizedValue(lo, lo, hi) == 0 && EqualizedValue(hi, lo, hi) == 255
  {
    var (lo, hi) := IntendedBounds(cum).value;
    forall k | 0 <= k < |cum| && cum[k] > 0
      ensures 0 <= EqualizedValue(cum[k], lo, hi) <= 255
    {
      EqualizedInRange(cum[k], lo, hi);
    }
    forall j, k | 0 <= j < |cum| && 0 <= k < |cum| && 0 < cum[j] <= cum[k]
      ensures EqualizedValue(cum[j], lo, hi) <= EqualizedValue(cum[k], lo, hi)
    {
      EqualizedMonotone(cum[j], cum[k], lo, hi);
    }
    EqualizedInRange(lo, lo, hi);
  }

  /**
   * The as-written bounds on the 8-bit cumulative histogram of the 2x2 image
   * with two black pixels and one pixel each of values 1 and 2: the lower
   * bound skips the black level, black is mapped to 255 and value 1 to 0, so
   * the darkest pixels become the brightest.
   */
  lemma AsWrittenBlackTurnsWhite(cum: seq<int>)
    requires |cum| == 256 && cum[0] == 2 && cum[1] == 3
    requires forall k :: 2 <= k < 256 ==> cum[k] == 4
    ensures AsWrittenBounds(cum) == Ok((3, 4))
    ensures EqualizedValue(cum[0], 3, 4) == 255 && EqualizedValue(cum[1], 3, 4) == 0
    ensures EqualizedValue(cum[0], 3, 4) > EqualizedValue(cum[1], 3, 4) && cum[0] < cum[1]
  {
    var m := SeqMin(cum);
    assert m == 2 by {
      assert m <= cum[0];
    }
    var lo := MinAbove(cum, m);
    assert cum[1] > m;
    assert lo == Some(3) by {
      assert lo.value <= cum[1];
    }
    var hi := SeqMax(cum);
    assert hi == 4 by {
      assert hi >= cum[2];
    }
  }

  /**
   * With the as-written bounds, every cumulative value above the minimum is
   * equalised into 0 .. 255 and in order; only the entries equal to the
   * minimum can leave that range.
   */
  lemma AsWrittenLutInRange(cum: seq<int>)
    requires |cum| >= 1 && AsWrittenBounds(cum).Ok?
    ensures var (lo, hi) := AsWrittenBounds(cum).value;
      forall k :: 0 <= k < |cum| && cum[k] > SeqMin(cum) ==> 0 <= EqualizedValue(cum[k], lo, hi) <= 255
    ensures var (lo, hi) := AsWrittenBounds(cum).value;
      forall j, k :: 0 <= j < |cum| && 0 <= k < |cum| && SeqMin(cum) < cum[j] <= cum[k] ==>
        EqualizedValue(cum[j], lo, hi) <= EqualizedValue(cum[k], lo, hi)
  {
    var (lo, hi) := AsWrittenBounds(cum).value;
    forall k | 0 <= k < |cum| && cum[k] > SeqMin(cum)
      ensures 0 <= EqualizedValue(cum[k], lo, hi) <= 255
    {
      EqualizedInRange(cum[k], lo, hi);
    }
    forall j, k | 0 <= j < |cum| && 0 <= k < |cum| && SeqMin(cum) < cum[j] <= cum[k]
      ensures EqualizedValue(cum[j], lo, hi) <= EqualizedValue(cum[k], lo, hi)
    {
      EqualizedMonotone(cum[j], cum[k], lo, hi);
    }
  }

  /**
   * With 100 black pixels, 50 of grey 1 and one of grey 2, the as-written
   * bounds are (150, 151): the black entry is 50 * 255 = 12750, beyond the
   * 8-bit range, and the uint8 store keeps 12750 mod 256 = 206.
   */
  lemma AsWrittenBlackWraps(cum: seq<int>)
    requires |cum| == 256 && cum[0] == 100 && cum[1] == 150
    requires forall k :: 2 <= k < 256 ==> cum[k] == 151
    ensures AsWrittenBounds(cum) == Ok((150, 151))
    ensures EqualizedValue(cum[0], 150, 151) == 12750 && 12750 % 256 == 206
  {
    var m := SeqMin(cum);
    assert m == 100 by {
      assert m <= cum[0];
    }
    var lo := MinAbove(cum, m);
    assert cum[1] > m;
    assert lo == Some(150) by {
      assert lo.value <= cum[1];
    }
    var hi := SeqMax(cum);
    assert hi == 151 by {
      assert hi >= cum[2];
    }
  }

  /** The table as uint8 stores leave it: every entry reduced modulo 256. */
  function StoredAsUint8(lut: seq<int>): (s: seq<int>)
    ensures |s| == |lut|
    ensures forall k :: 0 <= k < |lut| ==> 0 <= s[k] < 256 && (s[k] - lut[k]) % 256 == 0
    ensures forall k :: 0 <= k < |lut| && 0 <= lut[k] < 256 ==> s[k] == lut[k]
  {
    seq(|lut|, k requires 0 <= k < |lut| => lut[k] % 256)
  }

  /**
   * Every sample of a grayscale image occurs, so its cumulative entry is
   * positive and the intended table maps it into 0 .. 255.
   */
  lemma IntendedTableOnImage(g: array2<int>, cd: nat, lut: seq<int>)
    requires InDepth(g, cd) && cd >= 1
    requires IntendedBounds(PrefixSums(GrayCounts(g, cd))).Ok?
    requires var cum := PrefixSums(GrayCounts(g, cd));
      var (lo, hi) := IntendedBounds(cum).value;
      |lut| == cd && forall k :: 0 <= k < cd ==> lut[k] == EqualizedValue(cum[k], lo, hi)
    ensures forall i, j :: 0 <= i < g.Length0 && 0 <= j < g.Length1 ==> 0 <= lut[g[i, j]] <= 255
  {
    var counts := GrayCounts(g, cd);
    IntendedLutInRange(PrefixSums(counts));
    forall i, j | 0 <= i < g.Length0 && 0 <= j < g.Length1
      ensures 0 <= lut[g[i, j]] <= 255
    {
      RowsCountPresent(g, g.Length0, i, j);
      PrefixAtLeastBin(counts, g[i, j]);
    }
  }

  /** The equalisation loop: one table entry per cumulative value, in order. */
  method EqualizeLut(cum: seq<int>, lo: int, hi: int) returns (lut: seq<int>)
    requires lo < hi
    ensures |lut| == |cum|
    ensures forall k :: 0 <= k < |cum| ==> lut[k] == EqualizedValue(cum[k], lo, hi)
  {
    lut := [];
    var i := 0;
    while i < |cum|
      invariant 0 <= i <= |cum|
      invariant |lut| == i
      invariant forall k :: 0 <= k < i ==> lut[k] == EqualizedValue(cum[k], lo, hi)
    {
      lut := lut + [Abs(cum[i] - lo) * 255 / (hi - lo)];
      i := i + 1;
    }
  }

  /** The negation table: `color_depth - i - 1` for every i below the depth. */
  function NegationLut(cd: nat): seq<int>
  {
    seq(cd, i => cd - i - 1)
  }

  /** The negation table maps 0 .. cd-1 onto itself, and looking up twice gives back the sample. */
  lemma NegationInvolution(cd: nat, v: int)
    requires 0 <= v < cd
    ensures |NegationLut(cd)| == cd
    ensures 0 <= NegationLut(cd)[v] < cd
    ensures NegationLut(cd)[NegationLut(cd)[v]] == v
  {
  }

  /** An image: its sample array, the dtype's item size in bytes, and its colour depth. */
  class Image {
    var data: ImageData
    var itemSize: nat
    var colorDepth: nat

    /** Every sample fits the depth of the dtype; colour images have at most three channels. */
    ghost predicate Valid()
      reads this, data.Frame()
    {
      itemSize >= 1 && colorDepth == ColorDepth(itemSize) &&
      match data
      case Gray(g) => InDepth(g, colorDepth)
      case Color(c) => c.Length2 <= 3 && InDepth3(c, colorDepth)
    }

    /** Every sample is a valid index of a table of n entries. */
    ghost predicate SamplesBelow(n: nat)
      reads this, data.Frame()
    {
      match data
      case Gray(g) => InDepth(g, n)
      case Color(c) => InDepth3(c, n)
    }

    constructor (data: ImageData, itemSize: nat)
      requires itemSize >= 1
      requires match data
        case Gray(g) => InDepth(g, ColorDepth(itemSize))
        case Color(c) => c.Length2 <= 3 && InDepth3(c, ColorDepth(itemSize))
      ensures Valid() && this.data == data && this.itemSize == itemSize
    {
      this.data := data;
      this.itemSize := itemSize;
      new;
      UpdateColorDepth();
    }

    /** `__update_color_depth`: the depth follows the dtype's item size. */
    method UpdateColorDepth()
      modifies this
      ensures colorDepth == ColorDepth(itemSize)
      ensures data == old(data) && itemSize == old(itemSize)
    {
      colorDepth := Pow2(8 * itemSize);
    }

    /** `is_grayscale`: the shape has two dimensions exactly for single-channel data. */
    function IsGrayscale(): (b: bool)
      reads this
      ensures b <==> data.Gray?
    {
      |data.Shape()| == 2
    }

    /** The bins of the first (or only) channel, the list the source keys as 'b'. */
    ghost function FirstChannelCounts(): (h: seq<int>)
      reads this, data.Frame()
      ensures |h| == colorDepth
    {
      match data
      case Gray(g) => GrayCounts(g, colorDepth)
      case Color(c) => if c.Length2 > 0 then ColorCounts(c, 0, colorDepth) else seq(colorDepth, _ => 0)
    }

    /**
     * `calc_histogram`: one list of `color_depth` bins for grayscale data,
     * three for colour data; bin v of list ch counts the samples of channel
     * ch equal to v, so each list sums to the pixel count.
     */
    method CalcHistogram() returns (hist: seq<seq<int>>)
      requires Valid()
      ensures data.Gray? ==> hist == [GrayCounts(data.gray, colorDepth)]
      ensures data.Gray? ==> Sum(hist[0]) == data.gray.Length0 * data.gray.Length1
      ensures data.Color? ==> |hist| == 3 && forall ch :: 0 <= ch < 3 ==> |hist[ch]| == colorDepth
      ensures data.Color? ==> forall ch :: 0 <= ch < data.color.Length2 ==>
        hist[ch] == ColorCounts(data.color, ch, colorDepth) &&
        Sum(hist[ch]) == data.color.Length0 * data.color.Length1
      ensures data.Color? ==> forall ch :: data.color.Length2 <= ch < 3 ==> hist[ch] == seq(colorDepth, _ => 0)
      ensures hist[0] == FirstChannelCounts()
    {
      if IsGrayscale() {
        var h := SingleHistogram(data.gray, colorDepth);
        assert h == GrayCounts(data.gray, colorDepth);
        hist := [h];
      } else {
        hist := TripleHistogram(data.color, colorDepth);
        forall ch | 0 <= ch < data.color.Length2
          ensures hist[ch] == ColorCounts(data.color, ch, colorDepth)
        {
          assert forall v :: 0 <= v < colorDepth ==> hist[ch][v] == ColorCounts(data.color, ch, colorDepth)[v];
        }
        forall ch | data.color.Length2 <= ch < 3
          ensures hist[ch] == seq(colorDepth, _ => 0)
        {
          assert forall v :: 0 <= v < colorDepth ==> hist[ch][v] == 0;
        }
      }
    }

    /** `calc_cumulative_histogram`: the prefix sums of the first channel's bins. */
    method CalcCumulativeHistogram() returns (cum: seq<int>)
      requires Valid()
      ensures cum == PrefixSums(FirstChannelCounts())
      ensures |cum| == colorDepth
    {
      var hist := CalcHistogram();
      cum := CumulativeSums(hist[0]);
    }

    /**
     * `__apply_lut`: every sample s is replaced in place by `lut[s]`; every
     * sample must index the table.
     */
    method ApplyLut(lut: seq<int>)
      requires SamplesBelow(|lut|)
      modifies data.Frame()
      ensures data.Gray? ==> forall i, j :: 0 <= i < data.gray.Length0 && 0 <= j < data.gray.Length1 ==>
        data.gray[i, j] == lut[old(data.gray[i, j])]
      ensures data.Color? ==> forall i, j, k ::
        0 <= i < data.color.Length0 && 0 <= j < data.color.Length1 && 0 <= k < data.color.Length2 ==>
        data.color[i, j, k] == lut[old(data.color[i, j, k])]
    {
      if IsGrayscale() {
        MapPixels(data.gray, p => LookUp(lut, p));
      } else {
        MapSamples(data.color, p => LookUp(lut, p));
      }
    }

    /** `negation`: every sample s becomes cd-1-s, which keeps the image valid. */
    method Negation()
      requires Valid()
      modifies data.Frame()
      ensures Valid()
      ensures data.Gray? ==> forall i, j :: 0 <= i < data.gray.Length0 && 0 <= j < data.gray.Length1 ==>
        data.gray[i, j] == colorDepth - 1 - old(data.gray[i, j])
      ensures data.Color? ==> forall i, j, k ::
        0 <= i < data.color.Length0 && 0 <= j < data.color.Length1 && 0 <= k < data.color.Length2 ==>
        data.color[i, j, k] == colorDepth - 1 - old(data.color[i, j, k])
    {
      var lut := NegationLut(colorDepth);
      ApplyLut(lut);
    }

    /**
     * `equalize_histogram` as written, which the program runs on 8-bit
     * grayscale images only: the bounds are the second-smallest distinct
     * and the largest cumulative values. On success every sample v becomes
     * the equalised value of its cumulative entry modulo 256, as the uint8
     * store wraps it (entries above the minimum need no wrap, by
     * AsWrittenLutInRange); on an error nothing changes.
     */
    method EqualizeHistogram() returns (err: Option<EqualizeError>)
      requires Valid() && IsGrayscale() && colorDepth == 256
      modifies data.Frame()
      ensures Valid()
      ensures var cum := old(PrefixSums(FirstChannelCounts()));
        match AsWrittenBounds(cum)
        case Err(e) => err == Some(e) && unchanged(data.gray)
        case Ok((lo, hi)) => (err.None? &&
          forall i, j :: 0 <= i < data.gray.Length0 && 0 <= j < data.gray.Length1 ==>
            data.gray[i, j] == EqualizedValue(cum[old(data.gray[i, j])], lo, hi) % 256)
    {
      var cum := CalcCumulativeHistogram();
      var bounds := AsWrittenBounds(cum);
      if bounds.Err? {
        return Some(bounds.error);
      }
      var (lo, hi) := bounds.value;
      var lut := EqualizeLut(cum, lo, hi);
      ApplyLut(StoredAsUint8(lut));
      return None;
    }

    /**
     * `equalize_histogram` with the lower bound its comment describes (the
     * smallest positive cumulative value): on success every sample v becomes
     * the equalised value of its cumulative entry, which lies in 0 .. 255,
     * so no store wraps; on an error nothing changes.
     */
    method EqualizeHistogramIntended() returns (err: Option<EqualizeError>)
      requires Valid() && IsGrayscale() && colorDepth == 256
      modifies data.Frame()
      ensures Valid()
      ensures var cum := old(PrefixSums(FirstChannelCounts()));
        match IntendedBounds(cum)
        case Err(e) => err == Some(e) && unchanged(data.gray)
        case Ok((lo, hi)) => (err.None? &&
          forall i, j :: 0 <= i < data.gray.Length0 && 0 <= j < data.gray.Length1 ==>
            data.gray[i, j] == EqualizedValue(cum[old(data.gray[i, j])], lo, hi))
    {
      var cum := CalcCumulativeHistogram();
      var bounds := IntendedBounds(cum);
      if bounds.Err? {
        return Some(bounds.error);
      }
      var (lo, hi) := bounds.value;
      var lut := EqualizeLut(cum, lo, hi);
      IntendedTableOnImage(data.gray, colorDepth, lut);
      ApplyLut(lut);
      return None;
    }
  }

  /** The image window: the clamping of a chosen point into the image. */
  class ImageWindow {
    var imgData: ImageData

    constructor (imgData: ImageData)
      ensures this.imgData == imgData
    {
      this.imgData := imgData;
    }

    /**
     * `__validate_point`: x is clamped into 0 .. cols-1 and y into
     * 0 .. rows-1; a point already inside is returned unchanged. The checks
     * run in the source's order, so an image with no columns (rows) gives -1.
     */
    method ValidatePoint(x: int, y: int) returns (px: int, py: int)
      ensures var cols: int := imgData.Shape()[1];
        (cols >= 1 ==> 0 <= px < cols) && (0 <= x < cols ==> px == x) &&
        (x < 0 && cols >= 1 ==> px == 0) && (x >= cols ==> px == cols - 1) &&
        (cols == 0 ==> px == -1)
      ensures var rows: int := imgData.Shape()[0];
        (rows >= 1 ==> 0 <= py < rows) && (0 <= y < rows ==> py == y) &&
        (y < 0 && rows >= 1 ==> py == 0) && (y >= rows ==> py == rows - 1) &&
        (rows == 0 ==> py == -1)
    {
      px, py := x, y;
      if px < 0 {
        px := 0;
      }
      if py < 0 {
        py := 0;
      }
      var imgWidth := imgData.Shape()[1] as int - 1;
      if px > imgWidth {
        px := imgWidth;
      }
      var imgHeight := imgData.Shape()[0] as int - 1;
      if py > imgHeight {
        py := imgHeight;
      }
    }
  }
}
