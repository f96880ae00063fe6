/**
 * The Cairo bitmap target of piet-common (piet-common/src/cairo_back.rs):
 * reading the rendered pixels back out of a Cairo image surface.
 *
 * A Cairo ARGB32 surface stores each pixel as a native-endian 32-bit word,
 * which on a little-endian host is the bytes blue, green, red, alpha
 * (premultiplied), and pads each row to `stride` bytes. Extraction
 * produces the `RgbaPremul` layout: rows packed with no padding, each pixel
 * red, green, blue, alpha. The surface is given as the buffer `get_data`
 * yields together with the dimensions and stride Cairo reports.
 */
module CairoBack {
  import opened PietTypes

  /** A Cairo ARGB32 image surface: pixel dimensions, row stride in bytes, and its bytes. */
  datatype ImageSurface = ImageSurface(width: nat, height: nat, stride: nat, data: seq<u8>)
  {
    /**
     * What Cairo guarantees of a surface: a row holds at least `width`
     * pixels, and the buffer reaches at least to the end of the last row's pixels.
     */
    predicate Valid()
    {
      stride >= width * 4 && (height > 0 ==> |data| >= (height - 1) * stride + width * 4)
    }
  }

  /** The byte within a native pixel that holds output channel `c` (0 red, 1 green, 2 blue, 3 alpha). */
  function NativeChannel(c: nat): (k: nat)
    requires c < 4
    ensures k < 4
    ensures c == 3 ==> k == 3
  {
    if c == 0 then 2 else if c == 1 then 1 else if c == 2 then 0 else 3
  }

  /** Where channel `c` of pixel `(x, y)` goes in the packed output. */
  function DstIndex(width: nat, y: nat, x: nat, c: nat): nat
  {
    y * width * 4 + x * 4 + c
  }

  /** Where channel `c` of pixel `(x, y)` is read from in the native buffer. */
  function SrcIndex(stride: nat, y: nat, x: nat, c: nat): nat
    requires c < 4
  {
    y * stride + x * 4 + NativeChannel(c)
  }

  /** Byte `k` of row `y` in a buffer whose rows are `stride` bytes apart. */
  function RowByte(stride: nat, y: nat, k: nat): nat
  {
    y * stride + k
  }

  // ---------------------------------------------------------------------
  // Arithmetic on indices

  lemma MulMonotone(a: nat, b: nat, k: nat)
    requires a <= b
    ensures a * k <= b * k
  {
  }

  /** The pixels of row `y < height` end no later than the pixels of the last row. */
  lemma RowEndInBounds(s: ImageSurface, y: nat, x: nat)
    requires s.Valid() && y < s.height && x <= s.width
    ensures RowByte(s.stride, y, x * 4) <= (s.height - 1) * s.stride + s.width * 4 <= |s.data|
  {
    MulMonotone(y, s.height - 1, s.stride);
  }

  /** Every byte the extraction reads lies in the pixel part of the buffer. */
  lemma ReadIndexInBounds(s: ImageSurface, y: nat, x: nat, c: nat)
    requires s.Valid() && y < s.height && x < s.width && c < 4
    ensures SrcIndex(s.stride, y, x, c) < (s.height - 1) * s.stride + s.width * 4
  {
    RowEndInBounds(s, y, x + 1);
  }

  /** Every byte the extraction writes lies in the `width * height * 4` output. */
  lemma WriteIndexInBounds(width: nat, height: nat, y: nat, x: nat, c: nat)
    requires y < height && x < width && c < 4
    ensures DstIndex(width, y, x, c) < width * height * 4
  {
    MulMonotone(y + 1, height, width * 4);
    assert (y + 1) * (width * 4) == y * width * 4 + width * 4;
    assert height * (width * 4) == width * height * 4;
  }

  /** Row `y` of the output, `width * 4` bytes from `y * width * 4`, ends within the output. */
  lemma RowFitsOutput(width: nat, height: nat, y: nat)
    requires y < height
    ensures y * width * 4 + width * 4 == (y + 1) * width * 4 <= width * height * 4
  {
    MulMonotone(y + 1, height, width * 4);
  }

  /** Distinct pixels and channels go to distinct output bytes: no output byte is written twice. */
  lemma DstIndexInjective(width: nat, y1: nat, x1: nat, c1: nat, y2: nat, x2: nat, c2: nat)
    requires x1 < width && x2 < width && c1 < 4 && c2 < 4
    requires DstIndex(width, y1, x1, c1) == DstIndex(width, y2, x2, c2)
    ensures y1 == y2 && x1 == x2 && c1 == c2
  {
    var p1, p2 := y1 * width + x1, y2 * width + x2;
    assert DstIndex(width, y1, x1, c1) == 4 * p1 + c1;
    assert DstIndex(width, y2, x2, c2) == 4 * p2 + c2;
    assert p1 == p2 && c1 == c2;
    if y1 < y2 {
      MulMonotone(y1 + 1, y2, width);
      assert false;
    } else if y2 < y1 {
      MulMonotone(y2 + 1, y1, width);
      assert false;
    }
  }

  /** Pixel row, column and channel of output byte `i`. */
  function PixelOf(width: nat, i: nat): (nat, nat, nat)
    requires width > 0
  {
    ((i / 4) / width, (i / 4) % width, i % 4)
  }

  /** Every output byte is the destination of some pixel channel: none keeps its initial zero. */
  lemma DstIndexCovers(width: nat, height: nat, i: nat)
    requires i < width * height * 4
    ensures width > 0
    ensures var (y, x, c) := PixelOf(width, i);
      y < height && x < width && c < 4 && DstIndex(width, y, x, c) == i
  {
    var q := i / 4;
    var y, x, c := q / width, q % width, i % 4;
    assert i == 4 * q + c;
    assert q == y * width + x;
    assert DstIndex(width, y, x, c) == 4 * (y * width + x) + c;
    if y >= height {
      MulMonotone(height, y, width);
    }
  }

  // ---------------------------------------------------------------------
  // The specification of extraction

  /** One native B, G, R, A pixel starting at `o`, reordered to R, G, B, A. */
  function RgbaOfNative(data: seq<u8>, o: nat): (px: seq<u8>)
    requires o + 4 <= |data|
    ensures |px| == 4
    ensures px[3] == data[o + 3]
  {
    [data[o + 2], data[o + 1], data[o], data[o + 3]]
  }

  /** The first `n` pixels of the row starting at byte `off`, converted. */
  function RowPixels(data: seq<u8>, off: nat, n: nat): seq<u8>
    requires off + n * 4 <= |data|
    decreases n
  {
    if n == 0 then [] else RowPixels(data, off, n - 1) + RgbaOfNative(data, off + (n - 1) * 4)
  }

  /** The first `y` rows, converted and packed without padding. */
  function Rows(s: ImageSurface, y: nat): seq<u8>
    requires s.Valid() && y <= s.height
  {
    if y == 0 then []
    else
      RowEndInBounds(s, y - 1, s.width);
      Rows(s, y - 1) + RowPixels(s.data, RowByte(s.stride, y - 1, 0), s.width)
  }

  /** The `RgbaPremul` image of a surface: what `get_raw_pixels` returns. */
  function RgbaPixels(s: ImageSurface): seq<u8>
    requires s.Valid()
  {
    Rows(s, s.height)
  }

  lemma {:induction false} RowPixelsAt(data: seq<u8>, off: nat, n: nat, x: nat, c: nat)
    requires off + n * 4 <= |data| && x < n && c < 4
    ensures |RowPixels(data, off, n)| == 4 * n
    ensures RowPixels(data, off, n)[4 * x + c] == data[off + 4 * x + NativeChannel(c)]
  {
    if x < n - 1 {
      RowPixelsAt(data, off, n - 1, x, c);
    } else if n > 1 {
      RowPixelsAt(data, off, n - 1, 0, 0);
    }
  }

  lemma {:induction false} RowPixelsLength(data: seq<u8>, off: nat, n: nat)
    requires off + n * 4 <= |data|
    ensures |RowPixels(data, off, n)| == 4 * n
  {
    if n > 0 {
      RowPixelsAt(data, off, n, 0, 0);
    }
  }

  lemma {:induction false} RowsLength(s: ImageSurface, y: nat)
    requires s.Valid() && y <= s.height
    ensures |Rows(s, y)| == y * s.width * 4
  {
    if y > 0 {
      RowsLength(s, y - 1);
      RowEndInBounds(s, y - 1, s.width);
      RowPixelsLength(s.data, RowByte(s.stride, y - 1, 0), s.width);
      assert (y - 1) * s.width * 4 + 4 * s.width == y * s.width * 4;
    }
  }

  /** Rows before the last are a prefix: appending a row leaves earlier bytes in place. */
  lemma RowsPrefix(s: ImageSurface, rows: nat, i: nat)
    requires s.Valid() && 0 < rows <= s.height && i < |Rows(s, rows - 1)|
    ensures i < |Rows(s, rows)| && Rows(s, rows)[i] == Rows(s, rows - 1)[i]
  {
  }

  /** The last of the first `rows` rows is that row's converted pixels. */
  lemma RowsLast(s: ImageSurface, rows: nat, x: nat, c: nat)
    requires s.Valid() && 0 < rows <= s.height && x < s.width && c < 4
    ensures DstIndex(s.width, rows - 1, x, c) < |Rows(s, rows)|
    ensures SrcIndex(s.stride, rows - 1, x, c) < |s.data|
    ensures Rows(s, rows)[DstIndex(s.width, rows - 1, x, c)] == s.data[SrcIndex(s.stride, rows - 1, x, c)]
  {
    ReadIndexInBounds(s, rows - 1, x, c);
    var y := rows - 1;
    var prev := Rows(s, y);
    RowsLength(s, y);
    RowEndInBounds(s, y, s.width);
    var off := RowByte(s.stride, y, 0);
    var row := RowPixels(s.data, off, s.width);
    RowPixelsAt(s.data, off, s.width, x, c);
    assert Rows(s, rows) == prev + row;
    assert DstIndex(s.width, y, x, c) == |prev| + (4 * x + c);
    assert SrcIndex(s.stride, y, x, c) == off + 4 * x + NativeChannel(c);
  }

  lemma {:induction false} RowsAt(s: ImageSurface, rows: nat, y: nat, x: nat, c: nat)
    requires s.Valid() && rows <= s.height && y < rows && x < s.width && c < 4
    ensures DstIndex(s.width, y, x, c) < |Rows(s, rows)|
    ensures SrcIndex(s.stride, y, x, c) < |s.data|
    ensures Rows(s, rows)[DstIndex(s.width, y, x, c)] == s.data[SrcIndex(s.stride, y, x, c)]
  {
    if y < rows - 1 {
      RowsAt(s, rows - 1, y, x, c);
      RowsPrefix(s, rows, DstIndex(s.width, y, x, c));
    } else {
      RowsLast(s, rows, x, c);
    }
  }

  /** The `RgbaPremul` image has exactly `width * height * 4` bytes, whatever the stride. */
  lemma RgbaPixelsLength(s: ImageSurface)
    requires s.Valid()
    ensures |RgbaPixels(s)| == s.width * s.height * 4
  {
    RowsLength(s, s.height);
    assert s.height * s.width * 4 == s.width * s.height * 4;
  }

  /**
   * Channel `c` of pixel `(x, y)` of the `RgbaPremul` image is the byte at
   * native offset `y * stride + x * 4` holding that channel: bytes 0 and 2
   * swapped, green and alpha in place.
   */
  lemma RgbaPixelsAt(s: ImageSurface, y: nat, x: nat, c: nat)
    requires s.Valid() && y < s.height && x < s.width && c < 4
    ensures DstIndex(s.width, y, x, c) < |RgbaPixels(s)|
    ensures SrcIndex(s.stride, y, x, c) < |s.data|
    ensures RgbaPixels(s)[DstIndex(s.width, y, x, c)] == s.data[SrcIndex(s.stride, y, x, c)]
  {
    RowsAt(s, s.height, y, x, c);
  }

  /** `RgbaPixelsAt` for every pixel and channel at once. */
  lemma RgbaPixelsLayout(s: ImageSurface)
    requires s.Valid()
    ensures |RgbaPixels(s)| == s.width * s.height * 4
    ensures forall y: nat, x: nat, c: nat | y < s.height && x < s.width && c < 4 ::
      DstIndex(s.width, y, x, c) < |RgbaPixels(s)| && SrcIndex(s.stride, y, x, c) < |s.data| &&
      RgbaPixels(s)[DstIndex(s.width, y, x, c)] == s.data[SrcIndex(s.stride, y, x, c)]
  {
    RgbaPixelsLength(s);
    forall y: nat, x: nat, c: nat | y < s.height && x < s.width && c < 4
      ensures DstIndex(s.width, y, x, c) < |RgbaPixels(s)| && SrcIndex(s.stride, y, x, c) < |s.data|
      ensures RgbaPixels(s)[DstIndex(s.width, y, x, c)] == s.data[SrcIndex(s.stride, y, x, c)]
    {
      RgbaPixelsAt(s, y, x, c);
    }
  }

  /** Every output byte is a byte read from the native buffer: none is left as the initial fill. */
  lemma EveryByteFromSource(s: ImageSurface, i: nat)
    requires s.Valid() && i < |RgbaPixels(s)|
    ensures s.width > 0
    ensures var (y, x, c) := PixelOf(s.width, i);
      y < s.height && x < s.width && c < 4 && SrcIndex(s.stride, y, x, c) < |s.data| &&
      RgbaPixels(s)[i] == s.data[SrcIndex(s.stride, y, x, c)]
  {
    RgbaPixelsLength(s);
    DstIndexCovers(s.width, s.height, i);
    var (y, x, c) := PixelOf(s.width, i);
    RgbaPixelsAt(s, y, x, c);
  }

  /** Two surfaces of the same shape whose pixel bytes agree; row padding may differ. */
  predicate SamePixels(s1: ImageSurface, s2: ImageSurface)
  {
    s1.width == s2.width && s1.height == s2.height && s1.stride == s2.stride &&
    forall y: nat, k: nat | y < s1.height && k < s1.width * 4 ::
      RowByte(s1.stride, y, k) < |s1.data| && RowByte(s2.stride, y, k) < |s2.data| &&
      s1.data[RowByte(s1.stride, y, k)] == s2.data[RowByte(s2.stride, y, k)]
  }

  lemma {:induction false} RowPaddingIgnored(s1: ImageSurface, s2: ImageSurface, y: nat, n: nat)
    requires s1.Valid() && s2.Valid() && SamePixels(s1, s2)
    requires y < s1.height && n <= s1.width
    ensures RowByte(s1.stride, y, 0) + n * 4 <= |s1.data|
    ensures RowByte(s2.stride, y, 0) + n * 4 <= |s2.data|
    ensures RowPixels(s1.data, RowByte(s1.stride, y, 0), n) == RowPixels(s2.data, RowByte(s2.stride, y, 0), n)
  {
    RowEndInBounds(s1, y, n);
    RowEndInBounds(s2, y, n);
    if n > 0 {
      RowPaddingIgnored(s1, s2, y, n - 1);
      var o := RowByte(s1.stride, y, 0) + (n - 1) * 4;
      assert RowByte(s1.stride, y, (n - 1) * 4) == o;
      assert RowByte(s1.stride, y, (n - 1) * 4 + 1) == o + 1;
      assert RowByte(s1.stride, y, (n - 1) * 4 + 2) == o + 2;
      assert RowByte(s1.stride, y, (n - 1) * 4 + 3) == o + 3;
    }
  }

  /** Row padding bytes are never read: changing them does not change the extracted image. */
  lemma {:induction false} PaddingIgnored(s1: ImageSurface, s2: ImageSurface, rows: nat)
    requires s1.Valid() && s2.Valid() && SamePixels(s1, s2) && rows <= s1.height
    ensures Rows(s1, rows) == Rows(s2, rows)
  {
    if rows > 0 {
      PaddingIgnored(s1, s2, rows - 1);
      RowPaddingIgnored(s1, s2, rows - 1, s1.width);
    }
  }

  lemma ConcatAssoc(a: seq<u8>, b: seq<u8>, c: seq<u8>)
    ensures (a + b) + c == a + (b + c)
  {
  }

  /**
   * The inner `for x` loop of `get_raw_pixels`: converts the `width` pixels
   * of the native row at `srcOff` into the output at `dstOff`, leaving the
   * rows already written in front of it as they were.
   */
  method CopyRow(rawData: array<u8>, buf: seq<u8>, srcOff: nat, dstOff: nat, width: nat)
    requires srcOff + width * 4 <= |buf| && dstOff + width * 4 <= rawData.Length
    modifies rawData
    ensures rawData[..dstOff + width * 4] == old(rawData[..dstOff]) + RowPixels(buf, srcOff, width)
    ensures rawData[dstOff + width * 4..] == old(rawData[dstOff + width * 4..])
  {
    for x := 0 to width
      invariant rawData[..dstOff + x * 4] == old(rawData[..dstOff]) + RowPixels(buf, srcOff, x)
      invariant rawData[dstOff + x * 4..] == old(rawData[dstOff + x * 4..])
    {
      var prefix := rawData[..dstOff + x * 4];
      rawData[dstOff + x * 4 + 0] := buf[srcOff + x * 4 + 2];
      rawData[dstOff + x * 4 + 1] := buf[srcOff + x * 4 + 1];
      rawData[dstOff + x * 4 + 2] := buf[srcOff + x * 4 + 0];
      rawData[dstOff + x * 4 + 3] := buf[srcOff + x * 4 + 3];
      var px := RgbaOfNative(buf, srcOff + x * 4);
      assert rawData[..dstOff + (x + 1) * 4] == prefix + px;
      ConcatAssoc(old(rawData[..dstOff]), RowPixels(buf, srcOff, x), px);
    }
  }

  /** One pass of the outer loop: row `y` of the surface lands right after rows `0..y`. */
  method CopySurfaceRow(rawData: array<u8>, s: ImageSurface, y: nat)
    requires s.Valid() && y < s.height && rawData.Length == s.width * s.height * 4
    requires Rows(s, y) <= rawData[..]
    modifies rawData
    ensures Rows(s, y + 1) <= rawData[..]
    ensures rawData[|Rows(s, y + 1)|..] == old(rawData[|Rows(s, y + 1)|..])
  {
    RowsLength(s, y);
    RowFitsOutput(s.width, s.height, y);
    RowEndInBounds(s, y, s.width);
    var dstOff := y * s.width * 4;
    assert rawData[..dstOff] == Rows(s, y);
    CopyRow(rawData, s.data, RowByte(s.stride, y, 0), dstOff, s.width);
    assert rawData[..dstOff + s.width * 4] == Rows(s, y + 1);
    RowsLength(s, y + 1);
  }

  // ---------------------------------------------------------------------
  // The bitmap target

  /**
   * The body of `get_raw_pixels` past the format check: a zeroed buffer of
   * `width * height * 4` bytes, filled row by row from the surface data.
   */
  method CopyPixels(s: ImageSurface) returns (rawData: array<u8>)
    requires s.Valid()
    ensures fresh(rawData)
    ensures rawData[..] == RgbaPixels(s)
  {
    rawData := new u8[s.width * s.height * 4](_ => 0);
    for y := 0 to s.height
      invariant Rows(s, y) <= rawData[..]
    {
      CopySurfaceRow(rawData, s, y);
    }
    RgbaPixelsLength(s);
  }

  /**
   * `BitmapTarget`: owns the Cairo surface that drawing renders into. The
   * Cairo drawing context it also holds is not modelled.
   */
  class BitmapTarget {
    var surface: ImageSurface

    predicate Valid()
      reads this
    {
      surface.Valid()
    }

    constructor (surface: ImageSurface)
      requires surface.Valid()
      ensures Valid() && this.surface == surface
    {
      this.surface := surface;
    }

    /**
     * `get_raw_pixels`: any format but `RgbaPremul` is refused before the
     * surface is touched; otherwise the surface's pixels are copied row by
     * row into a fresh, tightly packed buffer, reordered to R, G, B, A.
     */
    method GetRawPixels(fmt: ImageFormat) returns (r: Result<seq<u8>>)
      requires Valid()
      ensures fmt != RgbaPremul ==> r == Err(NotSupported)
      ensures fmt == RgbaPremul ==> r == Ok(RgbaPixels(surface))
      ensures r.Ok? ==> |r.value| == surface.width * surface.height * 4
      ensures r.Ok? ==> forall y: nat, x: nat, c: nat | y < surface.height && x < surface.width && c < 4 ::
        DstIndex(surface.width, y, x, c) < |r.value| && SrcIndex(surface.stride, y, x, c) < |surface.data| &&
        r.value[DstIndex(surface.width, y, x, c)] == surface.data[SrcIndex(surface.stride, y, x, c)]
    {
      if fmt != RgbaPremul {
        return Err(NotSupported);
      }
      var rawData := CopyPixels(surface);
      r := Ok(rawData[..]);
      RgbaPixelsLayout(surface);
    }

    /** `into_raw_pixels`: the consuming form, with the same result as `get_raw_pixels`. */
    method IntoRawPixels(fmt: ImageFormat) returns (r: Result<seq<u8>>)
      requires Valid()
      ensures fmt != RgbaPremul ==> r == Err(NotSupported)
      ensures fmt == RgbaPremul ==> r == Ok(RgbaPixels(surface))
    {
      r := GetRawPixels(fmt);
    }

    /** `save_to_file` without the `png` feature: always fails with `MissingFeature`. */
    method SaveToFile(path: string) returns (r: Result<()>)
      ensures r == Err(MissingFeature)
    {
      r := Err(MissingFeature);
    }
  }
}
