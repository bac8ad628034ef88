/**
 * Integer pixel buffers and the histogram loops every point operation shares.
 *
 * A single-channel image is an `array2<int>` indexed [row, column]; a colour
 * image is an `array3<int>` indexed [row, column, channel]. Samples are
 * mathematical integers; `InDepth` states the range the image's dtype gives
 * them (0 .. depth-1).
 */
module Pixels {

  /** Sum of a sequence, taken from the back so that prefixes unfold directly. */
  function Sum(s: seq<int>): int
  {
    if s == [] then 0 else Sum(s[..|s| - 1]) + s[|s| - 1]
  }

  /** Incrementing one cell raises the sum by exactly one. */
  lemma {:induction false} SumIncrement(s: seq<int>, k: nat)
    requires k < |s|
    ensures Sum(s[k := s[k] + 1]) == Sum(s) + 1
  {
    var t := s[k := s[k] + 1];
    if k == |s| - 1 {
      assert t[..|t| - 1] == s[..|s| - 1];
    } else {
      assert t[..|t| - 1] == s[..|s| - 1][k := s[k] + 1];
      SumIncrement(s[..|s| - 1], k);
    }
  }

  /** A sequence of zeros sums to zero. */
  lemma {:induction false} SumZeros(n: nat)
    ensures Sum(seq(n, _ => 0)) == 0
  {
    if n > 0 {
      assert seq(n, _ => 0)[..n - 1] == seq(n - 1, _ => 0);
      SumZeros(n - 1);
    }
  }

  /** One more row of c cells: (w + 1) * c == w * c + c. */
  lemma RowStep(w: nat, c: nat)
    ensures (w + 1) * c == w * c + c
  {
  }

  /** Every sample of a single-channel image lies in 0 .. depth-1. */
  ghost predicate InDepth(a: array2<int>, depth: int)
    reads a
  {
    forall i, j :: 0 <= i < a.Length0 && 0 <= j < a.Length1 ==> 0 <= a[i, j] < depth
  }

  /** Every sample of a colour image lies in 0 .. depth-1. */
  ghost predicate InDepth3(a: array3<int>, depth: int)
    reads a
  {
    forall i, j, k :: 0 <= i < a.Length0 && 0 <= j < a.Length1 && 0 <= k < a.Length2 ==>
      0 <= a[i, j, k] < depth
  }

  /** Number of samples equal to v in row i, columns 0 .. c-1. */
  ghost function RowCount(a: array2<int>, i: nat, c: nat, v: int): (n: nat)
    reads a
    requires i < a.Length0 && c <= a.Length1
    ensures n <= c
  {
    if c == 0 then 0 else RowCount(a, i, c - 1, v) + (if a[i, c - 1] == v then 1 else 0)
  }

  /** Number of samples equal to v in rows 0 .. r-1. */
  ghost function RowsCount(a: array2<int>, r: nat, v: int): (n: nat)
    reads a
    requires r <= a.Length0
    ensures n <= r * a.Length1
  {
    if r == 0 then 0 else RowsCount(a, r - 1, v) + RowCount(a, r - 1, a.Length1, v)
  }

  /** Number of pixels of a single-channel image equal to v. */
  ghost function Count(a: array2<int>, v: int): nat
    reads a
  {
    RowsCount(a, a.Length0, v)
  }

  /** Number of samples of channel ch equal to v in row i, columns 0 .. c-1. */
  ghost function RowCount3(a: array3<int>, ch: nat, i: nat, c: nat, v: int): (n: nat)
    reads a
    requires ch < a.Length2 && i < a.Length0 && c <= a.Length1
    ensures n <= c
  {
    if c == 0 then 0 else RowCount3(a, ch, i, c - 1, v) + (if a[i, c - 1, ch] == v then 1 else 0)
  }

  /** Number of samples of channel ch equal to v in rows 0 .. r-1. */
  ghost function RowsCount3(a: array3<int>, ch: nat, r: nat, v: int): (n: nat)
    reads a
    requires ch < a.Length2 && r <= a.Length0
    ensures n <= r * a.Length1
  {
    if r == 0 then 0 else RowsCount3(a, ch, r - 1, v) + RowCount3(a, ch, r - 1, a.Length1, v)
  }

  /** Number of pixels of a colour image whose channel ch equals v. */
  ghost function Count3(a: array3<int>, ch: nat, v: int): nat
    reads a
    requires ch < a.Length2
  {
    RowsCount3(a, ch, a.Length0, v)
  }

  /**
   * The single-channel histogram loop: `bins` counters, one increment per
   * pixel at the counter named by the pixel's value.
   */
  method SingleHistogram(a: array2<int>, bins: nat) returns (hist: seq<int>)
    requires InDepth(a, bins)
    ensures |hist| == bins
    ensures forall v :: 0 <= v < bins ==> hist[v] == Count(a, v)
    ensures Sum(hist) == a.Length0 * a.Length1
  {
    hist := seq(bins, _ => 0);
    SumZeros(bins);
    var w := 0;
    while w < a.Length0
      invariant 0 <= w <= a.Length0
      invariant |hist| == bins
      invariant forall v :: 0 <= v < bins ==> hist[v] == RowsCount(a, w, v)
      invariant Sum(hist) == w * a.Length1
    {
      hist := CountRow(a, w, hist);
      RowStep(w, a.Length1);
      w := w + 1;
    }
  }

  /** The inner loop of `SingleHistogram`: counts the pixels of row w into hist. */
  method CountRow(a: array2<int>, w: nat, hist0: seq<int>) returns (hist: seq<int>)
    requires w < a.Length0
    requires InDepth(a, |hist0|)
    ensures |hist| == |hist0|
    ensures forall v :: 0 <= v < |hist0| ==> hist[v] == hist0[v] + RowCount(a, w, a.Length1, v)
    ensures Sum(hist) == Sum(hist0) + a.Length1
  {
    hist := hist0;
    var h := 0;
    while h < a.Length1
      invariant 0 <= h <= a.Length1
      invariant |hist| == |hist0|
      invariant forall v :: 0 <= v < |hist0| ==> hist[v] == hist0[v] + RowCount(a, w, h, v)
      invariant Sum(hist) == Sum(hist0) + h
    {
      var pixel := a[w, h];
      SumIncrement(hist, pixel);
      hist := hist[pixel := hist[pixel] + 1];
      h := h + 1;
    }
  }

  /**
   * The three-channel histogram loop. Channel ch of the image feeds list ch;
   * the source has three lists, so an image with more than three channels
   * would fail on the fourth and is excluded. Lists of channels the image
   * does not have stay zero.
   */
  method TripleHistogram(a: array3<int>, bins: nat) returns (hist: seq<seq<int>>)
    requires a.Length2 <= 3
    requires InDepth3(a, bins)
    ensures |hist| == 3
    ensures forall ch :: 0 <= ch < 3 ==> |hist[ch]| == bins
    ensures forall ch, v :: 0 <= ch < a.Length2 && 0 <= v < bins ==> hist[ch][v] == Count3(a, ch, v)
    ensures forall ch :: 0 <= ch < a.Length2 ==> Sum(hist[ch]) == a.Length0 * a.Length1
    ensures forall ch, v :: a.Length2 <= ch < 3 && 0 <= v < bins ==> hist[ch][v] == 0
  {
    var zeros := seq(bins, _ => 0);
    SumZeros(bins);
    hist := [zeros, zeros, zeros];
    var w := 0;
    while w < a.Length0
      invariant 0 <= w <= a.Length0
      invariant |hist| == 3
      invariant forall ch :: 0 <= ch < 3 ==> |hist[ch]| == bins
      invariant forall ch, v :: 0 <= ch < a.Length2 && 0 <= v < bins ==> hist[ch][v] == RowsCount3(a, ch, w, v)
      invariant forall ch :: 0 <= ch < a.Length2 ==> Sum(hist[ch]) == w * a.Length1
      invariant forall ch :: a.Length2 <= ch < 3 ==> hist[ch] == zeros
    {
      hist := CountRow3(a, w, hist);
      RowStep(w, a.Length1);
      w := w + 1;
    }
  }

  /** The middle loop of `TripleHistogram`: counts row w into the three lists. */
  method CountRow3(a: array3<int>, w: nat, hist0: seq<seq<int>>) returns (hist: seq<seq<int>>)
    requires w < a.Length0 && a.Length2 <= |hist0|
    requires forall ch :: 0 <= ch < a.Length2 ==> InDepth3(a, |hist0[ch]|)
    ensures |hist| == |hist0|
    ensures forall ch :: 0 <= ch < |hist0| ==> |hist[ch]| == |hist0[ch]|
    ensures forall ch, v :: 0 <= ch < a.Length2 && 0 <= v < |hist0[ch]| ==>
      hist[ch][v] == hist0[ch][v] + RowCount3(a, ch, w, a.Length1, v)
    ensures forall ch :: 0 <= ch < a.Length2 ==> Sum(hist[ch]) == Sum(hist0[ch]) + a.Length1
    ensures forall ch :: a.Length2 <= ch < |hist0| ==> hist[ch] == hist0[ch]
  {
    hist := hist0;
    var h := 0;
    while h < a.Length1
      invariant 0 <= h <= a.Length1
      invariant |hist| == |hist0|
      invariant forall ch :: 0 <= ch < |hist0| ==> |hist[ch]| == |hist0[ch]|
      invariant forall ch, v :: 0 <= ch < a.Length2 && 0 <= v < |hist0[ch]| ==>
        hist[ch][v] == hist0[ch][v] + RowCount3(a, ch, w, h, v)
      invariant forall ch :: 0 <= ch < a.Length2 ==> Sum(hist[ch]) == Sum(hist0[ch]) + h
      invariant forall ch :: a.Length2 <= ch < |hist0| ==> hist[ch] == hist0[ch]
    {
      hist := CountPixel3(a, w, h, hist);
      forall ch, v | 0 <= ch < a.Length2
        ensures RowCount3(a, ch, w, h + 1, v) == RowCount3(a, ch, w, h, v) + (if a[w, h, ch] == v then 1 else 0)
      {
      }
      h := h + 1;
    }
  }

  /** The inner loop of `TripleHistogram`: counts each channel of pixel (w, h). */
  method CountPixel3(a: array3<int>, w: nat, h: nat, hist0: seq<seq<int>>) returns (hist: seq<seq<int>>)
    requires w < a.Length0 && h < a.Length1 && a.Length2 <= |hist0|
    requires forall ch :: 0 <= ch < a.Length2 ==> InDepth3(a, |hist0[ch]|)
    ensures |hist| == |hist0|
    ensures forall ch :: 0 <= ch < |hist0| ==> |hist[ch]| == |hist0[ch]|
    ensures forall ch, v :: 0 <= ch < a.Length2 && 0 <= v < |hist0[ch]| ==>
      hist[ch][v] == hist0[ch][v] + (if a[w, h, ch] == v then 1 else 0)
    ensures forall ch :: 0 <= ch < a.Length2 ==> Sum(hist[ch]) == Sum(hist0[ch]) + 1
    ensures forall ch :: a.Length2 <= ch < |hist0| ==> hist[ch] == hist0[ch]
  {
    hist := hist0;
    var i := 0;
    while i < a.Length2
      invariant 0 <= i <= a.Length2
      invariant |hist| == |hist0|
      invariant forall ch :: 0 <= ch < |hist0| ==> |hist[ch]| == |hist0[ch]|
      invariant forall ch, v :: 0 <= ch < i && 0 <= v < |hist0[ch]| ==>
        hist[ch][v] == hist0[ch][v] + (if a[w, h, ch] == v then 1 else 0)
      invariant forall ch :: 0 <= ch < i ==> Sum(hist[ch]) == Sum(hist0[ch]) + 1
      invariant forall ch :: i <= ch < |hist0| ==> hist[ch] == hist0[ch]
    {
      var pixel := a[w, h, i];
      SumIncrement(hist[i], pixel);
      hist := hist[i := hist[i][pixel := hist[i][pixel] + 1]];
      i := i + 1;
    }
  }

  /** A sum of non-negative entries is non-negative. */
  lemma {:induction false} SumNonNegative(s: seq<int>)
    requires forall k :: 0 <= k < |s| ==> s[k] >= 0
    ensures Sum(s) >= 0
  {
    if s != [] {
      SumNonNegative(s[..|s| - 1]);
    }
  }

  /** A value that occurs in row i among columns 0 .. c-1 is counted there. */
  lemma {:induction false} RowCountPresent(a: array2<int>, i: nat, c: nat, j: nat)
    requires i < a.Length0 && j < c <= a.Length1
    ensures RowCount(a, i, c, a[i, j]) >= 1
  {
    if j < c - 1 {
      RowCountPresent(a, i, c - 1, j);
    }
  }

  /** A value that occurs among rows 0 .. r-1 is counted there. */
  lemma {:induction false} RowsCountPresent(a: array2<int>, r: nat, i: nat, j: nat)
    requires i < r <= a.Length0 && j < a.Length1
    ensures RowsCount(a, r, a[i, j]) >= 1
  {
    if i < r - 1 {
      RowsCountPresent(a, r - 1, i, j);
    } else {
      RowCountPresent(a, i, a.Length1, j);
    }
  }

  /** A value that occurs nowhere in row i among columns 0 .. c-1 is not counted there. */
  lemma {:induction false} RowCountAbsent(a: array2<int>, i: nat, c: nat, v: int)
    requires i < a.Length0 && c <= a.Length1
    requires forall j :: 0 <= j < c ==> a[i, j] != v
    ensures RowCount(a, i, c, v) == 0
  {
    if c > 0 {
      RowCountAbsent(a, i, c - 1, v);
    }
  }

  /** A value that occurs nowhere among rows 0 .. r-1 is not counted there. */
  lemma {:induction false} RowsCountAbsent(a: array2<int>, r: nat, v: int)
    requires r <= a.Length0
    requires forall i, j :: 0 <= i < r && 0 <= j < a.Length1 ==> a[i, j] != v
    ensures RowsCount(a, r, v) == 0
  {
    if r > 0 {
      RowsCountAbsent(a, r - 1, v);
      RowCountAbsent(a, r - 1, a.Length1, v);
    }
  }

  /** A value that occurs nowhere in the image has count 0. */
  lemma CountAbsent(a: array2<int>, v: int)
    requires forall i, j :: 0 <= i < a.Length0 && 0 <= j < a.Length1 ==> a[i, j] != v
    ensures Count(a, v) == 0
  {
    RowsCountAbsent(a, a.Length0, v);
  }
}
