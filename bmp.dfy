/**
 * The BMP reader of the older application, as pure functions of the file's
 * bytes. Header fields are unsigned little-endian integers read at fixed
 * offsets of the BITMAPFILEHEADER (the pixel data offset at byte 10) and the
 * BITMAPINFOHEADER (width at 18, height at 22, bits per pixel at 28,
 * compression at 30, image size at 34). The pixel array is cut into
 * `height` lines, stored bottom-up; the reader reverses them and, for
 * multi-channel images, groups each line's first `width * channels` bytes
 * into pixels. Slicing follows Python: bounds past the end are clamped.
 */
module Bmp {
  import opened Wrappers
  import opened Pixels
  import opened PointOps

  type byte = x: int | 0 <= x < 256

  /** 256 to the power n. */
  function Pow256(n: nat): nat
  {
    if n == 0 then 1 else 256 * Pow256(n - 1)
  }

  /** `s[a:b]` for non-negative bounds: clamped to the sequence, empty when b <= a. */
  function Slice(s: seq<byte>, a: nat, b: nat): (r: seq<byte>)
    ensures a <= b <= |s| ==> |r| == b - a
    ensures |r| <= |s| && (a <= b ==> |r| <= b - a) && (b <= a ==> r == [])
    ensures |r| > 0 ==> a + |r| <= |s| && a + |r| <= b
    ensures forall i :: 0 <= i < |r| ==> a + i < |s| && r[i] == s[a + i]
  {
    var hi := if b <= |s| then b else |s|;
    if a < hi then s[a..hi] else []
  }

  /** `int.from_bytes(bs, byteorder="little")`: byte i weighs 256^i. */
  function FromLittleEndian(bs: seq<byte>): (v: nat)
    ensures v < Pow256(|bs|)
  {
    if bs == [] then 0 else bs[0] as int + 256 * FromLittleEndian(bs[1..])
  }

  /** The n little-endian bytes of v (the inverse of `FromLittleEndian`). */
  function ToLittleEndian(v: nat, n: nat): (bs: seq<byte>)
    ensures |bs| == n
  {
    if n == 0 then [] else [v % 256] + ToLittleEndian(v / 256, n - 1)
  }

  /** Decoding the n bytes of a value below 256^n gives the value back. */
  lemma {:induction false} DecodeEncode(v: nat, n: nat)
    requires v < Pow256(n)
    ensures FromLittleEndian(ToLittleEndian(v, n)) == v
  {
    if n > 0 {
      var bs := ToLittleEndian(v, n);
      assert bs[1..] == ToLittleEndian(v / 256, n - 1);
      DecodeEncode(v / 256, n - 1);
    }
  }

  /** Encoding a decoded byte string gives the same bytes back. */
  lemma {:induction false} EncodeDecode(bs: seq<byte>)
    ensures ToLittleEndian(FromLittleEndian(bs), |bs|) == bs
  {
    if bs != [] {
      var v := FromLittleEndian(bs);
      assert v % 256 == bs[0] && v / 256 == FromLittleEndian(bs[1..]);
      EncodeDecode(bs[1..]);
    }
  }

  /** The value of four little-endian bytes. */
  function Le4(b0: int, b1: int, b2: int, b3: int): int
  {
    b0 + 256 * b1 + 65536 * b2 + 16777216 * b3
  }

  /** The value of two little-endian bytes. */
  function Le2(b0: int, b1: int): int
  {
    b0 + 256 * b1
  }

  /** The 4-byte field at pos, written out; four bytes hold values below 2^32. */
  lemma Field4(raw: seq<byte>, pos: nat)
    ensures Pow256(4) == 0x1_0000_0000
    ensures pos + 4 <= |raw| ==>
      FromLittleEndian(Slice(raw, pos, pos + 4)) == Le4(raw[pos], raw[pos + 1], raw[pos + 2], raw[pos + 3])
  {
    assert Pow256(2) == 0x1_0000;
    if pos + 4 <= |raw| {
      var s := Slice(raw, pos, pos + 4);
      assert s == [raw[pos], raw[pos + 1], raw[pos + 2], raw[pos + 3]];
      assert FromLittleEndian(s[3..]) == raw[pos + 3] by {
        assert s[3..][1..] == [];
      }
      assert FromLittleEndian(s[2..]) == raw[pos + 2] + 256 * FromLittleEndian(s[3..]) by {
        assert s[2..][1..] == s[3..];
      }
      assert FromLittleEndian(s[1..]) == raw[pos + 1] + 256 * FromLittleEndian(s[2..]) by {
        assert s[1..][1..] == s[2..];
      }
    }
  }

  /** The 2-byte field at pos, written out; two bytes hold values below 2^16. */
  lemma Field2(raw: seq<byte>, pos: nat)
    ensures Pow256(2) == 0x1_0000
    ensures pos + 2 <= |raw| ==> FromLittleEndian(Slice(raw, pos, pos + 2)) == Le2(raw[pos], raw[pos + 1])
  {
    if pos + 2 <= |raw| {
      var s := Slice(raw, pos, pos + 2);
      assert s == [raw[pos], raw[pos + 1]];
      assert s[1..][1..] == [];
    }
  }

  /** `get_data_offset`: bytes 10 .. 13 (`bfOffBits`). */
  function DataOffset(raw: seq<byte>): (v: nat)
    ensures v < 0x1_0000_0000
    ensures |raw| >= 14 ==> v == Le4(raw[10], raw[11], raw[12], raw[13])
  {
    Field4(raw, 10);
    FromLittleEndian(Slice(raw, 10, 14))
  }

  /** `get_width`: bytes 18 .. 21 (`biWidth`). */
  function Width(raw: seq<byte>): (v: nat)
    ensures v < 0x1_0000_0000
    ensures |raw| >= 22 ==> v == Le4(raw[18], raw[19], raw[20], raw[21])
  {
    Field4(raw, 18);
    FromLittleEndian(Slice(raw, 18, 22))
  }

  /** `get_height`: bytes 22 .. 25 (`biHeight`), read unsigned. */
  function Height(raw: seq<byte>): (v: nat)
    ensures v < 0x1_0000_0000
    ensures |raw| >= 26 ==> v == Le4(raw[22], raw[23], raw[24], raw[25])
  {
    Field4(raw, 22);
    FromLittleEndian(Slice(raw, 22, 26))
  }

  /** `get_bits_per_pixel`: bytes 28 .. 29 (`biBitCount`). */
  function BitsPerPixel(raw: seq<byte>): (v: nat)
    ensures v < 0x1_0000
    ensures |raw| >= 30 ==> v == Le2(raw[28], raw[29])
  {
    Field2(raw, 28);
    FromLittleEndian(Slice(raw, 28, 30))
  }

  /** `get_image_compression`: bytes 30 .. 33 (`biCompression`, 0 is BI_RGB). */
  function ImageCompression(raw: seq<byte>): (v: nat)
    ensures v < 0x1_0000_0000
    ensures |raw| >= 34 ==> v == Le4(raw[30], raw[31], raw[32], raw[33])
  {
    Field4(raw, 30);
    FromLittleEndian(Slice(raw, 30, 34))
  }

  /** `get_image_size`: bytes 34 .. 37 (`biSizeImage`). */
  function ImageSize(raw: seq<byte>): (v: nat)
    ensures v < 0x1_0000_0000
    ensures |raw| >= 38 ==> v == Le4(raw[34], raw[35], raw[36], raw[37])
  {
    Field4(raw, 34);
    FromLittleEndian(Slice(raw, 34, 38))
  }

  /** The header fields the reader uses, for building a file. */
  datatype Header = Header(fileSize: nat, dataOffset: nat, width: nat, height: nat,
                           bitsPerPixel: nat, compression: nat, imageSize: nat)
  {
    ghost predicate Valid()
    {
      && fileSize < 0x1_0000_0000 && dataOffset < 0x1_0000_0000
      && width < 0x1_0000_0000 && height < 0x1_0000_0000
      && bitsPerPixel < 0x1_0000 && compression < 0x1_0000_0000 && imageSize < 0x1_0000_0000
    }
  }

  /**
   * The 54 header bytes of a file: "BM", the file size, two reserved words,
   * the data offset, then a 40-byte BITMAPINFOHEADER with one plane and
   * zero resolution and palette counts.
   */
  function EncodeHeader(h: Header): (bs: seq<byte>)
    ensures |bs| == 54
  {
    [66, 77] + ToLittleEndian(h.fileSize, 4) + ToLittleEndian(0, 4) + ToLittleEndian(h.dataOffset, 4)
    + ToLittleEndian(40, 4) + ToLittleEndian(h.width, 4) + ToLittleEndian(h.height, 4)
    + ToLittleEndian(1, 2) + ToLittleEndian(h.bitsPerPixel, 2)
    + ToLittleEndian(h.compression, 4) + ToLittleEndian(h.imageSize, 4) + ToLittleEndian(0, 16)
  }

  /** A file whose first bytes are `pre` and the n bytes of v reads v back at offset |pre|. */
  lemma ReadAt(f: seq<byte>, pre: seq<byte>, v: nat, n: nat)
    requires v < Pow256(n) && |pre| + n <= |f|
    requires f[..|pre| + n] == pre + ToLittleEndian(v, n)
    ensures FromLittleEndian(Slice(f, |pre|, |pre| + n)) == v
  {
    assert Slice(f, |pre|, |pre| + n) == ToLittleEndian(v, n);
    DecodeEncode(v, n);
  }

  /** Every getter reads back the field written into the header, whatever follows it. */
  lemma ReadEncodedHeader(h: Header, rest: seq<byte>)
    requires h.Valid()
    ensures DataOffset(EncodeHeader(h) + rest) == h.dataOffset
    ensures Width(EncodeHeader(h) + rest) == h.width
    ensures Height(EncodeHeader(h) + rest) == h.height
    ensures BitsPerPixel(EncodeHeader(h) + rest) == h.bitsPerPixel
    ensures ImageCompression(EncodeHeader(h) + rest) == h.compression
    ensures ImageSize(EncodeHeader(h) + rest) == h.imageSize
  {
    Field4([], 0);
    Field2([], 0);
    var f := EncodeHeader(h) + rest;
    var p0 := [66, 77] + ToLittleEndian(h.fileSize, 4) + ToLittleEndian(0, 4);
    var p1 := p0 + ToLittleEndian(h.dataOffset, 4) + ToLittleEndian(40, 4);
    var p2 := p1 + ToLittleEndian(h.width, 4);
    var p3 := p2 + ToLittleEndian(h.height, 4) + ToLittleEndian(1, 2);
    var p4 := p3 + ToLittleEndian(h.bitsPerPixel, 2);
    var p5 := p4 + ToLittleEndian(h.compression, 4);
    var p6 := p5 + ToLittleEndian(h.imageSize, 4);
    assert f == p6 + ToLittleEndian(0, 16) + rest;
    assert f[..38] == p6;
    assert p6[..34] == p5;
    assert p5[..30] == p4;
    assert p4[..28] == p3;
    assert p3[..26] == p2 + ToLittleEndian(h.height, 4);
    assert p2[..18] == p1;
    assert p1[..14] == p0 + ToLittleEndian(h.dataOffset, 4);
    ReadAt(f, p0, h.dataOffset, 4);
    ReadAt(f, p1, h.width, 4);
    ReadAt(f, p2, h.height, 4);
    ReadAt(f, p3, h.bitsPerPixel, 2);
    ReadAt(f, p4, h.compression, 4);
    ReadAt(f, p5, h.imageSize, 4);
  }

  /** The dtype names `get_type` chooses from. */
  datatype Dtype = Uint8 | Uint16 | Uint32

  /** One more than the largest value of a dtype. */
  function Limit(t: Dtype): nat
  {
    match t
    case Uint8 => 0x100
    case Uint16 => 0x1_0000
    case Uint32 => 0x1_0000_0000
  }

  /**
   * `get_type`: the smallest of uint8, uint16, uint32 whose range holds a
   * non-negative maximum below 2^32.
   */
  function GetType(maxPixelValue: int): (t: Dtype)
    ensures 0 <= maxPixelValue < 0x1_0000_0000 ==> maxPixelValue < Limit(t)
    ensures t == Uint16 ==> maxPixelValue >= Limit(Uint8)
    ensures t == Uint32 ==> maxPixelValue >= Limit(Uint16)
  {
    if maxPixelValue < 256 then Uint8
    else if maxPixelValue < 65536 then Uint16
    else Uint32
  }

  /** `get_channels_num`: one channel below 8 bits per pixel, otherwise one per whole byte. */
  function GetChannelsNum(bitsPerPixel: nat): (c: nat)
    ensures c >= 1
    ensures bitsPerPixel < 8 ==> c == 1
    ensures bitsPerPixel >= 8 ==> 8 * c <= bitsPerPixel < 8 * c + 8
  {
    if bitsPerPixel < 8 then 1 else bitsPerPixel / 8
  }

  /** What `get_color_table` returns: the palette bytes, or the integer 0. */
  datatype ColorTable = Table(bytes: seq<byte>) | NoTable

  /** `get_color_table`: bytes 54 up to the data offset for 8 bits per pixel or fewer. */
  function GetColorTable(raw: seq<byte>): (t: ColorTable)
    ensures t.Table? <==> BitsPerPixel(raw) <= 8
    ensures t.Table? ==> |t.bytes| <= |raw|
    ensures t.Table? ==> forall i :: 0 <= i < |t.bytes| ==>
      54 + i < DataOffset(raw) && 54 + i < |raw| && t.bytes[i] == raw[54 + i]
    ensures t.Table? && 54 <= DataOffset(raw) <= |raw| ==> |t.bytes| == DataOffset(raw) - 54
  {
    if BitsPerPixel(raw) <= 8 then Table(Slice(raw, 54, DataOffset(raw))) else NoTable
  }

  /** `get_raw_pixel_data`: everything from the data offset on. */
  function GetRawPixelData(raw: seq<byte>): (d: seq<byte>)
    ensures DataOffset(raw) <= |raw| ==> |d| == |raw| - DataOffset(raw)
    ensures forall i :: 0 <= i < |d| ==> DataOffset(raw) + i < |raw| && d[i] == raw[DataOffset(raw) + i]
  {
    Slice(raw, DataOffset(raw), |raw|)
  }

  /**
   * `width & 3`: for a non-negative width the mask keeps its two low bits,
   * that is width mod 4.
   */
  function Padding(width: nat): (p: nat)
    ensures p < 4
  {
    width % 4
  }

  /**
   * The mask is the number of bytes that pad a 24-bit row of `width` pixels
   * to a multiple of four.
   */
  lemma PaddingIsRowPadding(width: nat)
    ensures Padding(width) == (4 - (3 * width) % 4) % 4
    ensures (3 * width + Padding(width)) % 4 == 0
  {
    var q, r := width / 4, width % 4;
    assert 3 * width == 4 * (3 * q) + 3 * r;
    if r == 0 {
      DivBlock(3 * width, 3 * q, 4);
    } else if r == 1 {
      DivBlock(3 * width, 3 * q, 4);
      DivBlock(3 * width + 1, 3 * q + 1, 4);
    } else if r == 2 {
      DivBlock(3 * width, 3 * q + 1, 4);
      DivBlock(3 * width + 2, 3 * q + 2, 4);
    } else {
      DivBlock(3 * width, 3 * q + 2, 4);
      DivBlock(3 * width + 3, 3 * q + 3, 4);
    }
  }

  /** `reshape(count, n)` of a sequence of count * n elements: consecutive chunks of n. */
  function Chunks(s: seq<byte>, n: nat, count: nat): (r: seq<seq<byte>>)
    requires |s| == count * n
    ensures |r| == count
    ensures forall i :: 0 <= i < |r| ==> |r[i]| == n
  {
    if count == 0 then []
    else
      RowStep(count - 1, n);
      [s[..n]] + Chunks(s[n..], n, count - 1)
  }

  /** Chunk i is the slice i*n .. i*n+n of the sequence. */
  lemma {:induction false} ChunkAt(s: seq<byte>, n: nat, count: nat, i: nat)
    requires |s| == count * n && i < count
    ensures i * n + n <= |s| && Chunks(s, n, count)[i] == s[i * n..i * n + n]
  {
    RowStep(count - 1, n);
    RowStep(i, n);
    MulMonotone(i + 1, count, n);
    if i > 0 {
      ChunkAt(s[n..], n, count - 1, i - 1);
      RowStep(i - 1, n);
      var j := (i - 1) * n;
      assert j + n == i * n;
      assert Chunks(s, n, count)[i] == Chunks(s[n..], n, count - 1)[i - 1];
      assert s[n..][j..j + n] == s[j + n..j + n + n];
    } else {
      assert i * n == 0;
    }
  }

  /** The reverse of a sequence: `flip(lines, 0)`, `reversed(lines)`. */
  function Reverse<T>(s: seq<T>): (r: seq<T>)
    ensures |r| == |s| && forall i :: 0 <= i < |s| ==> r[i] == s[|s| - 1 - i]
  {
    if s == [] then [] else Reverse(s[1..]) + [s[0]]
  }

  /** The decoded pixel array: rows of samples, or rows of pixels of channel samples. */
  datatype PixelArray = Gray(rows: seq<seq<byte>>) | Multi(pixels: seq<seq<seq<byte>>>)

  /** Why `get_pixels` raises. */
  datatype BmpError =
    | Compressed     // the compression assertion fails
    | ReshapeFailed  // the data does not split into `height` equal lines
    | EmptyData      // `max()` of an empty array
    | LineTooShort   // a line is shorter than width * channels

  /** `data_end - data_start` of `get_pixels`: three bytes a pixel plus the padding per line. */
  function DataLength(width: nat, height: nat): nat
  {
    width * height * 3 + height * Padding(width)
  }

  /** The pixel bytes `get_pixels` reads. */
  function PixelBytes(raw: seq<byte>): seq<byte>
  {
    var start := DataOffset(raw);
    Slice(raw, start, start + DataLength(Width(raw), Height(raw)))
  }

  /**
   * `get_pixels`: rejects compressed data, then decodes the pixel bytes
   * with the header's width, height and channel count.
   */
  function GetPixels(raw: seq<byte>): (r: Result<PixelArray, BmpError>)
    ensures ImageCompression(raw) != 0 ==> r == Err(Compressed)
    ensures r.Ok? ==> ImageCompression(raw) == 0
  {
    if ImageCompression(raw) != 0 then Err(Compressed)
    else Decode(PixelBytes(raw), Width(raw), Height(raw), GetChannelsNum(BitsPerPixel(raw)))
  }

  /**
   * The decoding half of `get_pixels`: cuts the data into `height` lines,
   * then returns the lines bottom-up reversed for one channel, or each
   * reversed line's first `width * channels` bytes grouped into pixels of
   * `channels` samples. It fails exactly where the reshapes or `max()` raise.
   */
  function Decode(data: seq<byte>, width: nat, height: nat, channels: nat): (r: Result<PixelArray, BmpError>)
    requires channels >= 1
    ensures height == 0 || |data| % height != 0 <==> r == Err(ReshapeFailed)
    ensures height >= 1 && |data| == 0 <==> r == Err(EmptyData)
    ensures r == Err(LineTooShort) <==>
      height >= 1 && |data| >= 1 && |data| % height == 0 && channels > 1 && |data| / height < width * channels
    ensures r.Ok? <==>
      height >= 1 && |data| >= 1 && |data| % height == 0 && (channels == 1 || width * channels <= |data| / height)
    ensures r.Ok? ==> (r.value.Gray? <==> channels == 1)
    ensures r.Ok? && r.value.Gray? ==> |r.value.rows| == height && forall i :: 0 <= i < height ==>
      r.value.rows[i] == Line(data, height, height - 1 - i)
    ensures r.Ok? && r.value.Multi? ==> |r.value.pixels| == height && forall i :: 0 <= i < height ==>
      width * channels <= |data| / height &&
      r.value.pixels[i] == GroupLine(Line(data, height, height - 1 - i), width, channels)
  {
    if height == 0 || |data| % height != 0 then Err(ReshapeFailed)
    else if |data| == 0 then Err(EmptyData)
    else
      var lineLength := |data| / height;
      var lines := SplitLines(data, height);
      if channels == 1 then Ok(Gray(Reverse(lines)))
      else if lineLength < width * channels then Err(LineTooShort)
      else Ok(Multi(GroupLines(Reverse(lines), lineLength, width, channels)))
  }

  /** Line k of the pixel bytes cut into `height` lines of equal length (line 0 is stored first). */
  function Line(data: seq<byte>, height: nat, k: nat): (line: seq<byte>)
    requires height >= 1 && k < height && |data| % height == 0
    ensures |line| == |data| / height
  {
    SplitLines(data, height)[k]
  }

  /** `data.reshape(height, -1)` when the length is a multiple of the height: `height` equal lines. */
  function SplitLines(data: seq<byte>, height: nat): (lines: seq<seq<byte>>)
    requires height >= 1 && |data| % height == 0
    ensures |lines| == height && forall i :: 0 <= i < height ==> |lines[i]| == |data| / height
  {
    var lineLength := |data| / height;
    assert |data| == height * lineLength;
    Chunks(data, lineLength, height)
  }

  /** Line k is the k-th slice of |data| / height bytes. */
  lemma LineIsSlice(data: seq<byte>, height: nat, k: nat)
    requires height >= 1 && k < height && |data| % height == 0
    ensures var n := |data| / height; k * n + n <= |data| && Line(data, height, k) == data[k * n..k * n + n]
  {
    var n := |data| / height;
    assert |data| == height * n;
    ChunkAt(data, n, height, k);
  }

  /** Every line of `lineLength` bytes grouped into `width` pixels of `channels` samples. */
  function GroupLines(lines: seq<seq<byte>>, lineLength: nat, width: nat, channels: nat): (px: seq<seq<seq<byte>>>)
    requires width * channels <= lineLength
    requires forall i :: 0 <= i < |lines| ==> |lines[i]| == lineLength
    ensures |px| == |lines| && forall i :: 0 <= i < |lines| ==> px[i] == GroupLine(lines[i], width, channels)
  {
    seq(|lines|, i requires 0 <= i < |lines| => GroupLine(lines[i], width, channels))
  }

  /** `line[:width*channels].reshape(width, channels)`: pixel j is the j-th run of `channels` bytes. */
  function GroupLine(line: seq<byte>, width: nat, channels: nat): (px: seq<seq<byte>>)
    requires width * channels <= |line|
    ensures |px| == width
    ensures forall j :: 0 <= j < width ==>
      j * channels + channels <= |line| && px[j] == line[j * channels..j * channels + channels]
  {
    var px := Chunks(line[..width * channels], channels, width);
    forall j | 0 <= j < width
      ensures j * channels + channels <= |line| && px[j] == line[j * channels..j * channels + channels]
    {
      ChunkAt(line[..width * channels], channels, width, j);
    }
    px
  }

  /** The length of a stored BMP row of `width` pixels of `bytesPerPixel` bytes, padded to a multiple of four. */
  function Stride(width: nat, bytesPerPixel: nat): (n: nat)
    ensures n % 4 == 0 && width * bytesPerPixel <= n < width * bytesPerPixel + 4
  {
    width * bytesPerPixel + (4 - (width * bytesPerPixel) % 4) % 4
  }

  /** The stored rows one after another. */
  function Flatten(rows: seq<seq<byte>>): (s: seq<byte>)
  {
    if rows == [] then [] else rows[0] + Flatten(rows[1..])
  }

  /** Cutting rows of n bytes laid one after another into chunks of n gives the rows back. */
  lemma {:induction false} ChunksOfFlatten(rows: seq<seq<byte>>, n: nat)
    requires forall k :: 0 <= k < |rows| ==> |rows[k]| == n
    ensures |Flatten(rows)| == |rows| * n && Chunks(Flatten(rows), n, |rows|) == rows
  {
    if rows != [] {
      ChunksOfFlatten(rows[1..], n);
      RowStep(|rows| - 1, n);
      assert Flatten(rows)[..n] == rows[0] && Flatten(rows)[n..] == Flatten(rows[1..]);
    }
  }

  /**
   * An uncompressed file laid out as the format prescribes: from the data
   * offset on, `height` stored rows of `Stride` bytes each, the bottom row
   * first.
   */
  ghost predicate WellFormed(raw: seq<byte>, width: nat, height: nat, stored: seq<seq<byte>>, bytesPerPixel: nat)
  {
    && ImageCompression(raw) == 0 && BitsPerPixel(raw) == 8 * bytesPerPixel
    && Width(raw) == width >= 1 && Height(raw) == height >= 1
    && DataOffset(raw) <= |raw| && raw[DataOffset(raw)..] == Flatten(stored)
    && |stored| == height
    && forall k :: 0 <= k < |stored| ==> |stored[k]| == Stride(width, bytesPerPixel)
  }

  /**
   * A file made of an encoded header, a palette reaching the data offset and
   * the stored rows is well formed.
   */
  lemma EncodedFileIsWellFormed(hd: Header, table: seq<byte>, stored: seq<seq<byte>>, bytesPerPixel: nat)
    requires hd.Valid() && hd.dataOffset == 54 + |table| && hd.compression == 0
    requires hd.bitsPerPixel == 8 * bytesPerPixel && hd.width >= 1 && hd.height >= 1 && |stored| == hd.height
    requires forall k :: 0 <= k < |stored| ==> |stored[k]| == Stride(hd.width, bytesPerPixel)
    ensures WellFormed(EncodeHeader(hd) + table + Flatten(stored), hd.width, hd.height, stored, bytesPerPixel)
  {
    var raw := EncodeHeader(hd) + table + Flatten(stored);
    assert raw == EncodeHeader(hd) + (table + Flatten(stored));
    ReadEncodedHeader(hd, table + Flatten(stored));
    assert raw[hd.dataOffset..] == Flatten(stored);
  }

  /** The reader's pixel bytes of a well-formed file whose rows fit the length it computes are the stored rows. */
  lemma StoredPixelBytes(raw: seq<byte>, width: nat, height: nat, stored: seq<seq<byte>>, bytesPerPixel: nat)
    requires WellFormed(raw, width, height, stored, bytesPerPixel)
    requires height * Stride(width, bytesPerPixel) <= DataLength(width, height)
    ensures PixelBytes(raw) == Flatten(stored)
  {
    ChunksOfFlatten(stored, Stride(width, bytesPerPixel));
  }

  /** Cutting stored rows laid one after another into `height` lines gives the rows back. */
  lemma LinesOfFlatten(stored: seq<seq<byte>>, height: nat, st: nat)
    requires height >= 1 && |stored| == height && forall k :: 0 <= k < height ==> |stored[k]| == st
    ensures |Flatten(stored)| == st * height
    ensures |Flatten(stored)| % height == 0 && |Flatten(stored)| / height == st
    ensures forall k :: 0 <= k < height ==> Line(Flatten(stored), height, k) == stored[k]
  {
    ChunksOfFlatten(stored, st);
    ModExact(st, height);
  }

  /** A multiple of bl splits into exactly i blocks of bl with nothing left. */
  lemma ModExact(i: nat, bl: nat)
    requires bl >= 1
    ensures (i * bl) / bl == i && (i * bl) % bl == 0
  {
    DivExact(i, bl);
    var x := i * bl;
    assert x == (x / bl) * bl + x % bl;
  }

  /** Rows of an 8-bit file fit in the three bytes a pixel the reader expects. */
  lemma EightBitStrideFits(w: nat, h: nat)
    requires w >= 1
    ensures h * Stride(w, 1) <= DataLength(w, h)
    ensures w % 4 != 0 ==> Stride(w, 1) > w
  {
    assert Stride(w, 1) <= 3 * w + Padding(w);
    MulMonotone(Stride(w, 1), 3 * w + Padding(w), h);
    assert DataLength(w, h) == (3 * w + Padding(w)) * h;
  }

  /** Rows of a 24-bit file are exactly as long as the reader expects. */
  lemma TwentyFourBitStrideFits(w: nat, h: nat)
    ensures Stride(w, 3) == 3 * w + Padding(w)
    ensures h * Stride(w, 3) == DataLength(w, h)
  {
    PaddingIsRowPadding(w);
    var p := Padding(w);
    assert DataLength(w, h) == w * h * 3 + h * p;
    assert h * (3 * w + p) == h * (3 * w) + h * p;
  }

  /** Decoding 24-bit stored rows: pixel j of row i is bytes 3j .. 3j+2 of stored row height-1-i. */
  lemma DecodeStored24(stored: seq<seq<byte>>, width: nat, height: nat, st: nat)
    requires height >= 1 && width >= 1 && |stored| == height && 3 * width <= st
    requires forall k :: 0 <= k < height ==> |stored[k]| == st
    ensures Decode(Flatten(stored), width, height, 3).Ok? && Decode(Flatten(stored), width, height, 3).value.Multi?
    ensures var px := Decode(Flatten(stored), width, height, 3).value.pixels;
      |px| == height && forall i, j :: 0 <= i < height && 0 <= j < width ==>
        |px[i]| == width && 3 * j + 3 <= |stored[height - 1 - i]| &&
        px[i][j] == stored[height - 1 - i][3 * j..3 * j + 3]
  {
    LinesOfFlatten(stored, height, st);
    MulMonotone(1, st, height);
    var px := Decode(Flatten(stored), width, height, 3).value.pixels;
    forall i, j | 0 <= i < height && 0 <= j < width
      ensures |px[i]| == width && 3 * j + 3 <= |stored[height - 1 - i]| &&
        px[i][j] == stored[height - 1 - i][3 * j..3 * j + 3]
    {
      assert px[i] == GroupLine(stored[height - 1 - i], width, 3);
    }
  }

  /**
   * A well-formed 24-bit file decodes into `height` rows of `width` pixels
   * of three samples each, the top row first: pixel j of row i holds the
   * bytes 3j .. 3j+2 of stored row height-1-i, and the padding is dropped.
   */
  lemma TwentyFourBitDecodes(raw: seq<byte>, width: nat, height: nat, stored: seq<seq<byte>>)
    requires WellFormed(raw, width, height, stored, 3)
    ensures GetPixels(raw).Ok? && GetPixels(raw).value.Multi?
    ensures var px := GetPixels(raw).value.pixels;
      |px| == height && forall i, j :: 0 <= i < height && 0 <= j < width ==>
        |px[i]| == width && 3 * j + 3 <= |stored[height - 1 - i]| &&
        px[i][j] == stored[height - 1 - i][3 * j..3 * j + 3]
  {
    TwentyFourBitStrideFits(width, height);
    StoredPixelBytes(raw, width, height, stored, 3);
    assert GetChannelsNum(24) == 3;
    assert GetPixels(raw) == Decode(Flatten(stored), width, height, 3);
    DecodeStored24(stored, width, height, Stride(width, 3));
  }

  /** Decoding 8-bit stored rows gives the whole stored rows, reversed. */
  lemma DecodeStored8(stored: seq<seq<byte>>, width: nat, height: nat, st: nat)
    requires height >= 1 && st >= 1 && |stored| == height
    requires forall k :: 0 <= k < height ==> |stored[k]| == st
    ensures Decode(Flatten(stored), width, height, 1) == Ok(Gray(Reverse(stored)))
  {
    LinesOfFlatten(stored, height, st);
    MulMonotone(1, st, height);
    var rows := Decode(Flatten(stored), width, height, 1).value.rows;
    forall i | 0 <= i < height
      ensures rows[i] == Reverse(stored)[i]
    {
      assert rows[i] == stored[height - 1 - i];
    }
    assert rows == Reverse(stored);
  }

  /**
   * A well-formed 8-bit file decodes into its stored rows, the top row
   * first, each one whole: when the width is not a multiple of four the
   * padding bytes stay in as extra columns.
   */
  lemma EightBitKeepsPadding(raw: seq<byte>, width: nat, height: nat, stored: seq<seq<byte>>)
    requires WellFormed(raw, width, height, stored, 1)
    ensures GetPixels(raw) == Ok(Gray(Reverse(stored)))
    ensures width % 4 != 0 ==> forall i :: 0 <= i < height ==> |GetPixels(raw).value.rows[i]| > width
  {
    EightBitStrideFits(width, height);
    StoredPixelBytes(raw, width, height, stored, 1);
    assert GetChannelsNum(8) == 1;
    assert GetPixels(raw) == Decode(Flatten(stored), width, height, 1);
    DecodeStored8(stored, width, height, Stride(width, 1));
  }

  /**
   * A 32-bit file at least four pixels wide never decodes: every line holds
   * at most 3 * width + 3 bytes, fewer than the 4 * width it is cut to.
   */
  lemma ThirtyTwoBitRejected(raw: seq<byte>)
    requires ImageCompression(raw) == 0 && BitsPerPixel(raw) == 32 && Width(raw) >= 4
    ensures GetPixels(raw).Err?
  {
    var w, h, data := Width(raw), Height(raw), PixelBytes(raw);
    if h >= 1 && |data| % h == 0 {
      assert |data| <= DataLength(w, h);
      LineBound(|data|, h, w);
      assert GetChannelsNum(32) == 4;
    }
  }

  /** The reader's lines are at most 3 * width + padding bytes long. */
  lemma LineBound(len: nat, h: nat, w: nat)
    requires h >= 1 && len % h == 0 && len <= DataLength(w, h)
    ensures len / h <= 3 * w + Padding(w)
  {
    var lineLength, m := len / h, 3 * w + Padding(w);
    assert len == lineLength * h;
    assert DataLength(w, h) == m * h;
    RowStep(m, h);
    MulCancel(lineLength, m + 1, h);
  }

  /** The largest byte of a non-empty sequence (`data.max()`). */
  function MaxByte(s: seq<byte>): (m: byte)
    requires |s| >= 1
    ensures m in s && forall i :: 0 <= i < |s| ==> s[i] <= m
  {
    if |s| == 1 then s[0]
    else
      var rest := MaxByte(s[1..]);
      if s[0] >= rest then s[0] else rest
  }

  /**
   * The decoded samples are bytes, so the type `get_pixels` casts them to
   * is always uint8 and the cast changes no value.
   */
  lemma PixelTypeIsUint8(data: seq<byte>)
    requires |data| >= 1
    ensures GetType(MaxByte(data)) == Uint8
    ensures forall i :: 0 <= i < |data| ==> data[i] < Limit(GetType(MaxByte(data)))
  {
  }

  /** An `ImageBmp`: the file's bytes and the pixels decoded once when it is built. */
  datatype ImageBmp = ImageBmp(raw: seq<byte>, pixels: PixelArray)

  /** The constructor: stores the bytes and decodes them; it raises where `get_pixels` does. */
  function NewImageBmp(raw: seq<byte>): (r: Result<ImageBmp, BmpError>)
    ensures r.Ok? <==> GetPixels(raw).Ok?
    ensures r.Ok? ==> r.value.raw == raw && r.value.pixels == GetPixels(raw).value
    ensures r.Err? ==> r.error == GetPixels(raw).error
  {
    match GetPixels(raw)
    case Ok(pixels) => Ok(ImageBmp(raw, pixels))
    case Err(e) => Err(e)
  }
}
