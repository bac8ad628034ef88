/**
 * The per-pixel loops of the point operations: copying an image, rewriting
 * every sample through a function, thresholds, lookup tables (posterize,
 * negation), and the linear stretch of normalisation.
 *
 * Every dialog of the program works on `img_data.copy()` and rewrites the
 * copy in a nested loop over rows and columns; `Copy` and `MapPixels` are
 * that copy and that loop, and each operation fixes the function applied to
 * a sample.
 */
module PointOps {
  import opened Pixels

  /** Both arrays have the same rows and columns. */
  predicate SameShape(a: array2<int>, b: array2<int>)
  {
    a.Length0 == b.Length0 && a.Length1 == b.Length1
  }

  /** Both arrays have the same shape and the same sample in every cell. */
  ghost predicate SameSamples(a: array2<int>, b: array2<int>)
    reads a, b
  {
    SameShape(a, b) && forall i, j :: 0 <= i < a.Length0 && 0 <= j < a.Length1 ==> a[i, j] == b[i, j]
  }

  /** `ndarray.copy()`: a new array with the same shape and samples. */
  method Copy(img: array2<int>) returns (out: array2<int>)
    ensures fresh(out) && SameShape(out, img)
    ensures forall i, j :: 0 <= i < img.Length0 && 0 <= j < img.Length1 ==> out[i, j] == img[i, j]
  {
    out := new int[img.Length0, img.Length1]((i, j) reads img =>
      if 0 <= i < img.Length0 && 0 <= j < img.Length1 then img[i, j] else 0);
  }

  /** The nested row/column loop that stores f(sample) back into every cell. */
  method MapPixels(a: array2<int>, f: int -> int)
    modifies a
    ensures forall i, j :: 0 <= i < a.Length0 && 0 <= j < a.Length1 ==> a[i, j] == f(old(a[i, j]))
  {
    var w := 0;
    while w < a.Length0
      invariant 0 <= w <= a.Length0
      invariant forall i, j :: 0 <= i < w && 0 <= j < a.Length1 ==> a[i, j] == f(old(a[i, j]))
      invariant forall i, j :: w <= i < a.Length0 && 0 <= j < a.Length1 ==> a[i, j] == old(a[i, j])
    {
      var h := 0;
      while h < a.Length1
        invariant 0 <= h <= a.Length1
        invariant forall i, j :: 0 <= i < w && 0 <= j < a.Length1 ==> a[i, j] == f(old(a[i, j]))
        invariant forall j :: 0 <= j < h ==> a[w, j] == f(old(a[w, j]))
        invariant forall i, j :: w < i < a.Length0 && 0 <= j < a.Length1 ==> a[i, j] == old(a[i, j])
        invariant forall j :: h <= j < a.Length1 ==> a[w, j] == old(a[w, j])
      {
        a[w, h] := f(a[w, h]);
        h := h + 1;
      }
      w := w + 1;
    }
  }

  /** The same loop over a colour image: rows, columns, then channels. */
  method MapSamples(a: array3<int>, f: int -> int)
    modifies a
    ensures forall i, j, k :: 0 <= i < a.Length0 && 0 <= j < a.Length1 && 0 <= k < a.Length2 ==>
      a[i, j, k] == f(old(a[i, j, k]))
  {
    var w := 0;
    while w < a.Length0
      invariant 0 <= w <= a.Length0
      invariant forall i, j, k :: 0 <= i < w && 0 <= j < a.Length1 && 0 <= k < a.Length2 ==>
        a[i, j, k] == f(old(a[i, j, k]))
      invariant forall i, j, k :: w <= i < a.Length0 && 0 <= j < a.Length1 && 0 <= k < a.Length2 ==>
        a[i, j, k] == old(a[i, j, k])
    {
      var h := 0;
      while h < a.Length1
        invariant 0 <= h <= a.Length1
        invariant forall i, j, k :: 0 <= i < w && 0 <= j < a.Length1 && 0 <= k < a.Length2 ==>
          a[i, j, k] == f(old(a[i, j, k]))
        invariant forall j, k :: 0 <= j < h && 0 <= k < a.Length2 ==> a[w, j, k] == f(old(a[w, j, k]))
        invariant forall j, k :: h <= j < a.Length1 && 0 <= k < a.Length2 ==> a[w, j, k] == old(a[w, j, k])
        invariant forall i, j, k :: w < i < a.Length0 && 0 <= j < a.Length1 && 0 <= k < a.Length2 ==>
          a[i, j, k] == old(a[i, j, k])
      {
        var i := 0;
        while i < a.Length2
          invariant 0 <= i <= a.Length2
          invariant forall i', j, k :: 0 <= i' < w && 0 <= j < a.Length1 && 0 <= k < a.Length2 ==>
            a[i', j, k] == f(old(a[i', j, k]))
          invariant forall j, k :: 0 <= j < h && 0 <= k < a.Length2 ==> a[w, j, k] == f(old(a[w, j, k]))
          invariant forall k :: 0 <= k < i ==> a[w, h, k] == f(old(a[w, h, k]))
          invariant forall k :: i <= k < a.Length2 ==> a[w, h, k] == old(a[w, h, k])
          invariant forall j, k :: h < j < a.Length1 && 0 <= k < a.Length2 ==> a[w, j, k] == old(a[w, j, k])
          invariant forall i', j, k :: w < i' < a.Length0 && 0 <= j < a.Length1 && 0 <= k < a.Length2 ==>
            a[i', j, k] == old(a[i', j, k])
        {
          a[w, h, i] := f(a[w, h, i]);
          i := i + 1;
        }
        h := h + 1;
      }
      w := w + 1;
    }
  }

  /** Binary threshold of one sample: the high value above t, zero otherwise. */
  function BinaryValue(p: int, t: int, high: int): int
  {
    if p > t then high else 0
  }

  /** Threshold to zero of one sample: zero below t, unchanged otherwise. */
  function ZeroValue(p: int, t: int): int
  {
    if p < t then 0 else p
  }

  /** Threshold to zero is idempotent for a fixed t. */
  lemma ZeroIdempotent(p: int, t: int)
    ensures ZeroValue(ZeroValue(p, t), t) == ZeroValue(p, t)
  {
  }

  /** Threshold to zero never raises a non-negative sample. */
  lemma ZeroNeverIncreases(p: int, t: int)
    requires 0 <= p
    ensures 0 <= ZeroValue(p, t) <= p
  {
  }

  /**
   * The binary-threshold loop on a copy: every output sample is `high` when
   * the input sample exceeds t and 0 otherwise, so only those two values
   * occur; the input is not touched.
   */
  method ThresholdBinary(img: array2<int>, t: int, high: int) returns (out: array2<int>)
    ensures fresh(out) && SameShape(out, img)
    ensures forall i, j :: 0 <= i < img.Length0 && 0 <= j < img.Length1 ==>
      out[i, j] == BinaryValue(img[i, j], t, high)
    ensures forall i, j :: 0 <= i < img.Length0 && 0 <= j < img.Length1 ==>
      (out[i, j] == high || out[i, j] == 0) && (out[i, j] == high <== img[i, j] > t)
  {
    out := Copy(img);
    MapPixels(out, p => BinaryValue(p, t, high));
  }

  /**
   * The threshold-to-zero loop on a copy: samples below t become 0,
   * all others are kept; the input is not touched.
   */
  method ThresholdZero(img: array2<int>, t: int) returns (out: array2<int>)
    ensures fresh(out) && SameShape(out, img)
    ensures forall i, j :: 0 <= i < img.Length0 && 0 <= j < img.Length1 ==>
      out[i, j] == ZeroValue(img[i, j], t)
  {
    out := Copy(img);
    MapPixels(out, p => ZeroValue(p, t));
  }

  /** Looks a sample up in a table; samples outside the table are kept (never used). */
  function LookUp(lut: seq<int>, p: int): int
  {
    if 0 <= p < |lut| then lut[p] else p
  }

  /** `lut[img[w][h]]` for every cell of a copy of img. */
  method ApplyLutCopy(img: array2<int>, lut: seq<int>) returns (out: array2<int>)
    requires InDepth(img, |lut|)
    ensures fresh(out) && SameShape(out, img)
    ensures forall i, j :: 0 <= i < img.Length0 && 0 <= j < img.Length1 ==> out[i, j] == lut[img[i, j]]
  {
    out := Copy(img);
    MapPixels(out, p => LookUp(lut, p));
  }

  /** Bin length of posterisation: `color_depth // bins_num`. */
  function BinLength(cd: nat, bins: nat): nat
    requires bins >= 1
  {
    cd / bins
  }

  /**
   * The posterize level of sample v: the lower end of its bin for the first
   * bins-1 bins, the maximum value cd-1 for the last (longer) bin. When
   * bins > cd the bin length is 0 and every sample falls in the last bin.
   */
  function PosterizeLevel(v: nat, cd: nat, bins: nat): int
    requires bins >= 1
  {
    var bl := BinLength(cd, bins);
    if bl > 0 && v < (bins - 1) * bl then (v / bl) * bl else cd - 1
  }

  /** The first bins-1 bins fit in the depth with at least one bin length to spare. */
  lemma BinsFit(cd: nat, bins: nat)
    requires bins >= 1
    ensures (bins - 1) * BinLength(cd, bins) + BinLength(cd, bins) <= cd
  {
    var bl := BinLength(cd, bins);
    assert bins * bl <= cd;
    assert (bins - 1) * bl + bl == bins * bl;
  }

  /** Euclidean division pins a sample to its bin. */
  lemma DivBlock(v: int, i: nat, bl: int)
    requires bl >= 1 && i * bl <= v < i * bl + bl
    ensures v / bl == i
  {
    var q := v / bl;
    assert v == q * bl + v % bl;
    assert (q - i) * bl == q * bl - i * bl;
    assert -bl < (q - i) * bl < bl;
    if q - i >= 1 {
      MulMonotone(1, q - i, bl);
    } else if q - i <= -1 {
      MulMonotone(q - i, -1, bl);
    }
  }

  /** Every multiple of the bin length is its own quotient times bl. */
  lemma DivExact(i: nat, bl: nat)
    requires bl >= 1
    ensures (i * bl) / bl == i
  {
    DivBlock(i * bl, i, bl);
  }

  /**
   * `calc_posterize_lut`, shared by both posterize dialogs: its `extend`
   * loop appends bins-1 runs of bl copies of `i * bl`, then
   * `cd - (bins-1)*bl` copies of cd-1. The table has cd entries, entry v the
   * posterize level of v; it is non-decreasing, stays in 0 .. cd-1, and for
   * 1 <= bins <= cd takes exactly `bins` distinct values.
   */
  method PosterizeLut(cd: nat, bins: nat) returns (lut: seq<int>)
    requires bins >= 1
    ensures |lut| == cd
    ensures forall v :: 0 <= v < cd ==> lut[v] == PosterizeLevel(v, cd, bins)
    ensures forall v :: 0 <= v < cd ==> 0 <= lut[v] < cd
    ensures forall u, v :: 0 <= u <= v < cd ==> lut[u] <= lut[v]
    ensures bins <= cd ==> |set v | 0 <= v < cd :: lut[v]| == bins
  {
    lut := [];
    var bl := cd / bins;
    var range := seq(bins, i => i * bl);
    BinsFit(cd, bins);
    var i := 0;
    while i < bins - 1
      invariant 0 <= i <= bins - 1
      invariant |lut| == i * bl
      invariant bl > 0 ==> forall v :: 0 <= v < |lut| ==> lut[v] == (v / bl) * bl
    {
      assert (i + 1) * bl == i * bl + bl;
      forall v | i * bl <= v < i * bl + bl
        ensures v / bl == i
      {
        DivBlock(v, i, bl);
      }
      lut := lut + seq(bl, _ => range[i]);
      i := i + 1;
    }
    lut := lut + seq(cd - range[bins - 1], _ => cd - 1);
    PosterizeTable(lut, cd, bins);
  }

  /**
   * A table of the posterize levels of 0 .. cd-1 stays in 0 .. cd-1, is
   * non-decreasing, and for bins <= cd takes exactly `bins` distinct values.
   */
  lemma PosterizeTable(lut: seq<int>, cd: nat, bins: nat)
    requires bins >= 1 && |lut| == cd
    requires forall v :: 0 <= v < cd ==> lut[v] == PosterizeLevel(v, cd, bins)
    ensures forall v :: 0 <= v < cd ==> 0 <= lut[v] < cd
    ensures forall u, v :: 0 <= u <= v < cd ==> lut[u] <= lut[v]
    ensures bins <= cd ==> |set v | 0 <= v < cd :: lut[v]| == bins
  {
    forall v | 0 <= v < cd
      ensures 0 <= lut[v] < cd
    {
      PosterizeInRange(v, cd, bins);
    }
    forall u, v | 0 <= u <= v < cd
      ensures lut[u] <= lut[v]
    {
      PosterizeMonotone(u, v, cd, bins);
    }
    if bins <= cd {
      assert (set v | 0 <= v < cd :: lut[v]) == PosterizeLevels(cd, bins);
      PosterizeDistinct(cd, bins);
    }
  }

  /** Every posterize level lies in 0 .. cd-1. */
  lemma PosterizeInRange(v: nat, cd: nat, bins: nat)
    requires bins >= 1 && v < cd
    ensures 0 <= PosterizeLevel(v, cd, bins) <= cd - 1
  {
    var bl := BinLength(cd, bins);
    if bl > 0 && v < (bins - 1) * bl {
      var q := v / bl;
      assert q * bl + v % bl == v && 0 <= v % bl;
      MulMonotone(0, q, bl);
    }
  }

  /** The posterize table is non-decreasing. */
  lemma PosterizeMonotone(u: nat, v: nat, cd: nat, bins: nat)
    requires bins >= 1 && u <= v < cd
    ensures PosterizeLevel(u, cd, bins) <= PosterizeLevel(v, cd, bins)
  {
    var bl := BinLength(cd, bins);
    PosterizeInRange(u, cd, bins);
    if bl > 0 && v < (bins - 1) * bl {
      DivMonotone(u, v, bl);
      MulMonotone(u / bl, v / bl, bl);
    }
  }

  /** Euclidean division by a positive number keeps order. */
  lemma DivMonotone(u: nat, v: nat, bl: nat)
    requires u <= v && bl >= 1
    ensures u / bl <= v / bl
  {
    var qu, qv := u / bl, v / bl;
    assert qu * bl <= u;
    assert v < qv * bl + bl == (qv + 1) * bl;
    MulCancel(qu, qv + 1, bl);
  }

  /** A positive factor can be cancelled from a strict inequality. */
  lemma MulCancel(a: int, b: int, c: int)
    requires c >= 1 && a * c < b * c
    ensures a < b
  {
    if a >= b {
      MulMonotone(b, a, c);
    }
  }

  /** Multiplication by a non-negative factor keeps order. */
  lemma MulMonotone(a: int, b: int, c: nat)
    requires a <= b
    ensures a * c <= b * c
  {
    assert b * c - a * c == (b - a) * c;
  }

  /** The starts of the first n bins: 0, bl, 2*bl, ..., (n-1)*bl. */
  function BinStarts(n: nat, bl: nat): set<int>
  {
    if n == 0 then {} else BinStarts(n - 1, bl) + {(n - 1) * bl}
  }

  /** The bin starts are exactly the multiples i*bl with i < n. */
  lemma {:induction false} BinStartsMembers(n: nat, bl: nat, x: int)
    requires bl >= 1
    ensures x in BinStarts(n, bl) <==> exists i :: 0 <= i < n && x == i * bl
  {
    if n > 0 {
      BinStartsMembers(n - 1, bl, x);
    }
  }

  /** With a positive bin length the first n bin starts are n distinct values below n*bl. */
  lemma {:induction false} BinStartsCard(n: nat, bl: nat)
    requires bl >= 1
    ensures |BinStarts(n, bl)| == n
    ensures forall x :: x in BinStarts(n, bl) ==> 0 <= x < n * bl
  {
    if n > 0 {
      BinStartsCard(n - 1, bl);
      assert (n - 1) * bl + bl == n * bl;
      assert (n - 1) * bl !in BinStarts(n - 1, bl);
    }
  }

  /** The set of values the posterize table takes. */
  function PosterizeLevels(cd: nat, bins: nat): set<int>
    requires bins >= 1
  {
    set v: nat | v < cd :: PosterizeLevel(v, cd, bins)
  }

  /** A level below the last bin is one of the bin starts. */
  lemma LevelIsStart(v: nat, cd: nat, bins: nat)
    requires bins >= 1 && BinLength(cd, bins) > 0 && v < (bins - 1) * BinLength(cd, bins)
    ensures PosterizeLevel(v, cd, bins) in BinStarts(bins - 1, BinLength(cd, bins))
  {
    var bl := BinLength(cd, bins);
    var i := v / bl;
    assert i * bl <= v;
    assert i < bins - 1 by {
      if i >= bins - 1 {
        MulMonotone(bins - 1, i, bl);
      }
    }
    assert PosterizeLevel(v, cd, bins) == i * bl;
    BinStartsMembers(bins - 1, bl, i * bl);
    assert 0 <= i < bins - 1 && i * bl == i * bl;  // the witness of the membership
  }

  /** Every bin start is the level of itself. */
  lemma StartIsLevel(x: int, cd: nat, bins: nat)
    requires bins >= 1 && BinLength(cd, bins) > 0 && x in BinStarts(bins - 1, BinLength(cd, bins))
    ensures 0 <= x < cd && PosterizeLevel(x, cd, bins) == x
  {
    var bl := BinLength(cd, bins);
    BinStartsMembers(bins - 1, bl, x);
    BinStartsCard(bins - 1, bl);
    BinsFit(cd, bins);
    var i :| 0 <= i < bins - 1 && x == i * bl;
    DivExact(i, bl);
  }

  /** With 1 <= bins <= cd the posterize table takes exactly `bins` distinct values. */
  lemma PosterizeDistinct(cd: nat, bins: nat)
    requires 1 <= bins <= cd
    ensures |PosterizeLevels(cd, bins)| == bins
  {
    var bl := BinLength(cd, bins);
    assert bl >= 1 by {
      assert bins * 1 <= cd;
    }
    BinsFit(cd, bins);
    var starts := BinStarts(bins - 1, bl);
    BinStartsCard(bins - 1, bl);
    forall x | x in PosterizeLevels(cd, bins)
      ensures x in starts + {cd - 1}
    {
      var v: nat :| v < cd && x == PosterizeLevel(v, cd, bins);
      if v < (bins - 1) * bl {
        LevelIsStart(v, cd, bins);
      }
    }
    forall x | x in starts + {cd - 1}
      ensures x in PosterizeLevels(cd, bins)
    {
      if x in starts {
        StartIsLevel(x, cd, bins);
      } else {
        assert PosterizeLevel(cd - 1, cd, bins) == cd - 1;
      }
    }
    assert PosterizeLevels(cd, bins) == starts + {cd - 1};
    assert cd - 1 !in starts;
  }

  /** Smallest sample of row i among columns 0 .. c-1. */
  function RowMin(a: array2<int>, i: nat, c: nat): int
    reads a
    requires i < a.Length0 && 1 <= c <= a.Length1
  {
    if c == 1 then a[i, 0]
    else
      var rest := RowMin(a, i, c - 1);
      if a[i, c - 1] < rest then a[i, c - 1] else rest
  }

  /** Smallest sample of rows 0 .. r-1. */
  function RowsMin(a: array2<int>, r: nat): int
    reads a
    requires 1 <= r <= a.Length0 && 1 <= a.Length1
  {
    if r == 1 then RowMin(a, 0, a.Length1)
    else
      var rest := RowsMin(a, r - 1);
      var row := RowMin(a, r - 1, a.Length1);
      if row < rest then row else rest
  }

  /** Largest sample of row i among columns 0 .. c-1. */
  function RowMax(a: array2<int>, i: nat, c: nat): int
    reads a
    requires i < a.Length0 && 1 <= c <= a.Length1
  {
    if c == 1 then a[i, 0]
    else
      var rest := RowMax(a, i, c - 1);
      if a[i, c - 1] > rest then a[i, c - 1] else rest
  }

  /** Largest sample of rows 0 .. r-1. */
  function RowsMax(a: array2<int>, r: nat): int
    reads a
    requires 1 <= r <= a.Length0 && 1 <= a.Length1
  {
    if r == 1 then RowMax(a, 0, a.Length1)
    else
      var rest := RowsMax(a, r - 1);
      var row := RowMax(a, r - 1, a.Length1);
      if row > rest then row else rest
  }

  /** `ndarray.min()` of a non-empty single-channel image. */
  function ImgMin(a: array2<int>): int
    reads a
    requires 1 <= a.Length0 && 1 <= a.Length1
  {
    RowsMin(a, a.Length0)
  }

  /** `ndarray.max()` of a non-empty single-channel image. */
  function ImgMax(a: array2<int>): int
    reads a
    requires 1 <= a.Length0 && 1 <= a.Length1
  {
    RowsMax(a, a.Length0)
  }

  /** The row minimum is below every sample of the row prefix and is one of them. */
  lemma {:induction false} RowMinIsMinimum(a: array2<int>, i: nat, c: nat)
    requires i < a.Length0 && 1 <= c <= a.Length1
    ensures forall j :: 0 <= j < c ==> RowMin(a, i, c) <= a[i, j]
    ensures exists j :: 0 <= j < c && RowMin(a, i, c) == a[i, j]
  {
    if c > 1 {
      RowMinIsMinimum(a, i, c - 1);
    } else {
      assert RowMin(a, i, c) == a[i, 0];
    }
  }

  /** The minimum of a row prefix is below every sample there and is one of them. */
  lemma {:induction false} RowsMinIsMinimum(a: array2<int>, r: nat)
    requires 1 <= r <= a.Length0 && 1 <= a.Length1
    ensures forall i, j :: 0 <= i < r && 0 <= j < a.Length1 ==> RowsMin(a, r) <= a[i, j]
    ensures exists i, j :: 0 <= i < r && 0 <= j < a.Length1 && RowsMin(a, r) == a[i, j]
  {
    RowMinIsMinimum(a, r - 1, a.Length1);
    if r > 1 {
      RowsMinIsMinimum(a, r - 1);
    }
  }

  /** The row maximum is above every sample of the row prefix and is one of them. */
  lemma {:induction false} RowMaxIsMaximum(a: array2<int>, i: nat, c: nat)
    requires i < a.Length0 && 1 <= c <= a.Length1
    ensures forall j :: 0 <= j < c ==> a[i, j] <= RowMax(a, i, c)
    ensures exists j :: 0 <= j < c && RowMax(a, i, c) == a[i, j]
  {
    if c > 1 {
      RowMaxIsMaximum(a, i, c - 1);
    } else {
      assert RowMax(a, i, c) == a[i, 0];
    }
  }

  /** The maximum of a row prefix is above every sample there and is one of them. */
  lemma {:induction false} RowsMaxIsMaximum(a: array2<int>, r: nat)
    requires 1 <= r <= a.Length0 && 1 <= a.Length1
    ensures forall i, j :: 0 <= i < r && 0 <= j < a.Length1 ==> a[i, j] <= RowsMax(a, r)
    ensures exists i, j :: 0 <= i < r && 0 <= j < a.Length1 && RowsMax(a, r) == a[i, j]
  {
    RowMaxIsMaximum(a, r - 1, a.Length1);
    if r > 1 {
      RowsMaxIsMaximum(a, r - 1);
    }
  }

  /** `min()` is a lower bound of the image that some pixel attains. */
  lemma ImgMinIsMinimum(a: array2<int>)
    requires 1 <= a.Length0 && 1 <= a.Length1
    ensures forall i, j :: 0 <= i < a.Length0 && 0 <= j < a.Length1 ==> ImgMin(a) <= a[i, j]
    ensures exists i, j :: 0 <= i < a.Length0 && 0 <= j < a.Length1 && ImgMin(a) == a[i, j]
  {
    RowsMinIsMinimum(a, a.Length0);
  }

  /** `max()` is an upper bound of the image that some pixel attains. */
  lemma ImgMaxIsMaximum(a: array2<int>)
    requires 1 <= a.Length0 && 1 <= a.Length1
    ensures forall i, j :: 0 <= i < a.Length0 && 0 <= j < a.Length1 ==> a[i, j] <= ImgMax(a)
    ensures exists i, j :: 0 <= i < a.Length0 && 0 <= j < a.Length1 && ImgMax(a) == a[i, j]
  {
    RowsMaxIsMaximum(a, a.Length0);
  }
}
