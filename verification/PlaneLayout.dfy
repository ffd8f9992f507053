/** Where the planes of a two-plane image lie in the buffer that was allocated for it. */
module PlaneLayout {

  newtype uint32 = x: int | 0 <= x < 0x1_0000_0000
  newtype int32 = x: int | -0x8000_0000 <= x < 0x8000_0000

  datatype Padding = Padding(width: int, height: int, plane: int)

  datatype Layout = Layout(stride: int, scanline: int, lumaLength: int, chromaScanline: int, chromaLength: int,
                           frameLength: int)

  datatype Soc = QCOM | MTK

  /** The next multiple of the padding. */
  function Pad(size: int, padding: int): int
    requires padding > 0
  {
    (size + padding - 1) / padding * padding
  }

  /** The bytes of so many lines. */
  function Area(stride: int, lines: int): int { stride * lines }

  /** The sizes computed for a luma and a chroma plane, in unbounded arithmetic. The chroma plane's number of
      lines is padded with the plane padding. */
  function LayoutOf(width: nat, height: nat, p: Padding): Layout
    requires p.width > 0 && p.height > 0 && p.plane > 0
  {
    var stride, scanline := Pad(width, p.width), Pad(height, p.height);
    var luma := Pad(Area(stride, scanline), p.plane);
    var lines := Pad(scanline / 2, p.plane);
    var chroma := Pad(Area(stride, lines), p.plane);
    Layout(stride, scanline, luma, lines, chroma, Pad(luma + chroma, 4096))
  }

  /** What the buffer manager assumes when it allocates. */
  const BUFFER_PADDING := Padding(64, 64, 64)

  /** What an image assumes when it places its planes. */
  function ImagePadding(soc: Soc): Padding {
    if soc.MTK? then Padding(64, 1, 1) else Padding(64, 64, 64)
  }

  /** Small enough for the machine's 32-bit arithmetic. */
  predicate Fits(width: nat, height: nat) {
    width + 64 < 0x8000_0000 && height + 64 < 0x8000_0000
    && LayoutOf(width, height, BUFFER_PADDING).frameLength < 0x8000_0000 - 4096
  }

  lemma PadBounds(size: int, padding: int)
    requires padding > 0
    ensures size <= Pad(size, padding) < size + padding
  {
    var x := size + padding - 1;
    assert x == x / padding * padding + x % padding;
  }

  lemma PadOne(size: int)
    ensures Pad(size, 1) == size
  {
  }

  lemma AreaGrows(stride: int, a: int, b: int)
    requires stride >= 0 && a <= b
    ensures Area(stride, a) <= Area(stride, b)
  {
  }

  lemma AreaNext(stride: int, row: int)
    ensures Area(stride, row + 1) == Area(stride, row) + stride
    ensures stride >= 0 && row >= 0 ==> Area(stride, row) >= 0
  {
  }

  /** The stride holds a row of pairs of chroma bytes. */
  lemma EvenStride(width: nat)
    ensures 2 * ((width + 1) / 2) <= Pad(width, 64)
  {
    var k := (width + 63) / 64;
    assert Pad(width, 64) == 64 * k;
    PadBounds(width, 64);
    hide Pad;
    EvenBound(width, 32 * k);
  }

  lemma EvenBound(width: nat, half: int)
    requires width <= 2 * half
    ensures 2 * ((width + 1) / 2) <= 2 * half
  {
  }

  /** The placement never needs more than the allocation assumed. */
  lemma PlacedWithin(width: nat, height: nat, soc: Soc)
    ensures var image, buffer := LayoutOf(width, height, ImagePadding(soc)), LayoutOf(width, height, BUFFER_PADDING);
            && image.stride == buffer.stride && image.scanline <= buffer.scanline
            && image.lumaLength <= buffer.lumaLength && image.chromaScanline <= buffer.chromaScanline
            && image.chromaLength <= buffer.chromaLength
  {
    hide Pad;
    hide Area;
    var buffer := LayoutOf(width, height, BUFFER_PADDING);
    PadBounds(width, 64);
    PadBounds(height, 64);
    AreaGrows(buffer.stride, height, buffer.scanline);
    PadBounds(Area(buffer.stride, buffer.scanline), 64);
    PadBounds(buffer.scanline / 2, 64);
    AreaGrows(buffer.stride, height / 2, buffer.chromaScanline);
    PadBounds(Area(buffer.stride, buffer.chromaScanline), 64);
    PadOne(height);
    PadOne(Area(buffer.stride, height));
    PadOne(height / 2);
    PadOne(Area(buffer.stride, height / 2));
  }

  /** What the layout is: strides, lines and planes padded as little as the padding asks for, one behind the other; the
      number of chroma lines is half that of the luma lines, padded like a plane. */
  lemma LeastPadded(width: nat, height: nat, p: Padding)
    requires p.width > 0 && p.height > 0 && p.plane > 0
    ensures var l := LayoutOf(width, height, p);
            && LeastMultiple(width, p.width, l.stride) && LeastMultiple(height, p.height, l.scanline)
            && LeastMultiple(l.stride * l.scanline, p.plane, l.lumaLength)
            && LeastMultiple(l.scanline / 2, p.plane, l.chromaScanline)
            && LeastMultiple(l.stride * l.chromaScanline, p.plane, l.chromaLength)
            && LeastMultiple(l.lumaLength + l.chromaLength, 4096, l.frameLength)
  {
    var l := LayoutOf(width, height, p);
    PadIsLeast(width, p.width);
    PadIsLeast(height, p.height);
    PadIsLeast(Area(l.stride, l.scanline), p.plane);
    PadIsLeast(l.scanline / 2, p.plane);
    PadIsLeast(Area(l.stride, l.chromaScanline), p.plane);
    PadIsLeast(l.lumaLength + l.chromaLength, 4096);
    hide Pad;
    hide LeastMultiple;
  }

  ghost predicate LeastMultiple(size: int, unit: int, padded: int) {
    (exists k :: padded == k * unit) && size <= padded < size + unit
  }

  lemma PadIsLeast(size: int, padding: int)
    requires padding > 0
    ensures LeastMultiple(size, padding, Pad(size, padding))
  {
    PadBounds(size, padding);
    var k := (size + padding - 1) / padding;
    assert Pad(size, padding) == k * padding;
  }

  /** On one chip images are placed as their buffers are allocated, on the other without any gap between the planes. */
  lemma PlacedPerChip(width: nat, height: nat)
    ensures LayoutOf(width, height, ImagePadding(QCOM)) == LayoutOf(width, height, Padding(64, 64, 64))
    ensures var l := LayoutOf(width, height, ImagePadding(MTK));
            l.scanline == height && l.lumaLength == l.stride * height && l.chromaLength == l.stride * (height / 2)
  {
    var l := LayoutOf(width, height, ImagePadding(MTK));
    PadOne(height);
    PadOne(Area(l.stride, height));
    PadOne(height / 2);
    PadOne(Area(l.stride, height / 2));
    hide Pad;
  }

  /** Every luma row ends before the chroma plane starts, and every chroma row ends within the buffer. */
  lemma RowsInside(width: nat, height: nat, soc: Soc, row: nat)
    ensures var image, buffer := LayoutOf(width, height, ImagePadding(soc)), LayoutOf(width, height, BUFFER_PADDING);
            && (row < height ==> Area(image.stride, row) + width <= image.lumaLength)
            && (row < height / 2 ==> image.lumaLength + Area(image.stride, row) + 2 * ((width + 1) / 2)
                                     <= image.lumaLength + image.chromaLength)
            && image.lumaLength + image.chromaLength <= buffer.frameLength
  {
    hide Pad;
    hide Area;
    var p := ImagePadding(soc);
    var image, buffer := LayoutOf(width, height, p), LayoutOf(width, height, BUFFER_PADDING);
    PlacedWithin(width, height, soc);
    PadBounds(buffer.lumaLength + buffer.chromaLength, 4096);
    PadBounds(width, 64);
    EvenStride(width);
    PadBounds(height, p.height);
    PadBounds(Area(image.stride, image.scanline), p.plane);
    PadBounds(image.scanline / 2, p.plane);
    PadBounds(Area(image.stride, image.chromaScanline), p.plane);
    AreaNext(image.stride, row);
    if row < height {
      AreaGrows(image.stride, row + 1, image.scanline);
    }
    if row < height / 2 {
      AreaGrows(image.stride, row + 1, image.chromaScanline);
    }
  }

  /** The computation in 32-bit arithmetic: for images that fit, nothing wraps. */
  method CalcOffset(width: uint32, height: uint32, soc: Soc, allocating: bool) returns (r: Layout)
    requires Fits(width as int, height as int)
    ensures r == LayoutOf(width as int, height as int, if allocating then BUFFER_PADDING else ImagePadding(soc))
  {
    var p := if allocating then BUFFER_PADDING else ImagePadding(soc);
    Machine(width as int, height as int, p, soc);
    hide Pad;
    var stride := PadInt32(width as int32, p.width as int32);
    var scanline := PadInt32(height as int32, p.height as int32);
    var luma := PadInt32(stride * scanline, p.plane as int32);
    var lines := PadInt32(scanline / 2, p.plane as int32);
    var chroma := PadInt32(stride * lines, p.plane as int32);
    var frame := PadInt32(luma + chroma, 4096);
    r := Layout(stride as int, scanline as int, luma as int, lines as int, chroma as int, frame as int);
  }

  method PadInt32(size: int32, padding: int32) returns (r: int32)
    requires size >= 0 && padding > 0 && size as int + padding as int <= 0x7FFF_FFFF
    ensures r as int == Pad(size as int, padding as int)
  {
    PadBounds(size as int, padding as int);
    r := (size + padding - 1) / padding * padding;
  }

  /** No intermediate value leaves the 32-bit range. */
  lemma Machine(width: nat, height: nat, p: Padding, soc: Soc)
    requires Fits(width, height) && (p == BUFFER_PADDING || p == ImagePadding(soc))
    ensures var l := LayoutOf(width, height, p);
            && width + 64 < 0x8000_0000 && height + 64 < 0x8000_0000
            && 0 <= l.stride < 0x8000_0000 && 0 <= l.scanline < 0x8000_0000 && l.scanline / 2 + 64 < 0x8000_0000
            && 0 <= Area(l.stride, l.scanline) && Area(l.stride, l.scanline) + 64 < 0x8000_0000
            && 0 <= l.chromaScanline < 0x8000_0000
            && 0 <= Area(l.stride, l.chromaScanline) && Area(l.stride, l.chromaScanline) + 64 < 0x8000_0000
            && 0 <= l.lumaLength && 0 <= l.chromaLength && l.lumaLength + l.chromaLength + 4096 < 0x8000_0000
  {
    hide Pad;
    hide Area;
    var l, buffer := LayoutOf(width, height, p), LayoutOf(width, height, BUFFER_PADDING);
    PlacedWithin(width, height, soc);
    PadBounds(width, 64);
    PadBounds(height, p.height);
    PadBounds(height, 64);
    PadBounds(l.scanline / 2, p.plane);
    PadBounds(Area(l.stride, l.scanline), p.plane);
    PadBounds(Area(l.stride, l.chromaScanline), p.plane);
    PadBounds(buffer.lumaLength + buffer.chromaLength, 4096);
    AreaNext(l.stride, l.scanline);
    AreaNext(l.stride, l.chromaScanline);
  }

  // ----- Implementation-defined formats -----

  /** They are placed with a wider padding than the buffer is allocated with. */
  const WIDE_PADDING := Padding(512, 512, 512)

  predicate Whole64(size: int) { size % 64 == 0 }

  predicate Whole512(size: int) { size % 512 == 0 }

  predicate Whole1024(size: int) { size % 1024 == 0 }

  predicate Whole4096(size: int) { size % 4096 == 0 }

  lemma Pad64(size: int)
    ensures Whole64(Pad(size, 64)) && (Whole64(size) ==> Pad(size, 64) == size)
  {
  }

  lemma Pad512(size: int)
    ensures Whole512(Pad(size, 512)) && (Whole512(size) ==> Pad(size, 512) == size)
  {
  }

  lemma Pad4096(size: int)
    requires Whole4096(size)
    ensures Pad(size, 4096) == size
  {
  }

  lemma Area64(stride: int, lines: int)
    requires Whole64(lines)
    ensures Whole64(Area(stride, lines))
  {
    var k := lines / 64;
    assert stride * (64 * k) == 64 * (stride * k);
  }

  lemma Area512(stride: int, lines: int)
    requires Whole512(lines)
    ensures Whole512(Area(stride, lines))
  {
    var k := lines / 512;
    assert stride * (512 * k) == 512 * (stride * k);
  }

  lemma AreaOfBlocks(stride: int, lines: int)
    requires Whole64(stride) && Whole64(lines)
    ensures Whole4096(Area(stride, lines))
  {
    var a, b := stride / 64, lines / 64;
    assert stride * lines == (64 * a) * (64 * b) == 4096 * (a * b);
  }

  lemma SumOfBlocks(a: int, b: int)
    requires Whole64(a) && Whole64(b)
    ensures Whole64(a + b)
  {
  }

  lemma AreaAdds(stride: int, a: int, b: int)
    ensures Area(stride, a) + Area(stride, b) == Area(stride, a + b)
  {
  }

  /** Both planes together: stride and lines are whole blocks already. */
  lemma NarrowPlanes(width: nat, height: nat)
    ensures var l := LayoutOf(width, height, BUFFER_PADDING);
            l.frameLength == l.lumaLength + l.chromaLength == Area(l.stride, l.scanline + l.chromaScanline)
  {
    hide Pad;
    hide Area;
    hide Whole64;
    hide Whole4096;
    var l := LayoutOf(width, height, BUFFER_PADDING);
    Pad64(width);
    Pad64(height);
    Pad64(l.scanline / 2);
    Area64(l.stride, l.scanline);
    Area64(l.stride, l.chromaScanline);
    Pad64(Area(l.stride, l.scanline));
    Pad64(Area(l.stride, l.chromaScanline));
    AreaAdds(l.stride, l.scanline, l.chromaScanline);
    SumOfBlocks(l.scanline, l.chromaScanline);
    AreaOfBlocks(l.stride, l.scanline + l.chromaScanline);
    Pad4096(l.lumaLength + l.chromaLength);
  }

  lemma WidePlanes(width: nat, height: nat)
    ensures var l := LayoutOf(width, height, WIDE_PADDING);
            l.lumaLength + l.chromaLength == Area(l.stride, l.scanline + l.chromaScanline)
  {
    hide Pad;
    hide Area;
    hide Whole512;
    var l := LayoutOf(width, height, WIDE_PADDING);
    Pad512(height);
    Pad512(l.scanline / 2);
    Area512(l.stride, l.scanline);
    Area512(l.stride, l.chromaScanline);
    Pad512(Area(l.stride, l.scanline));
    Pad512(Area(l.stride, l.chromaScanline));
    AreaAdds(l.stride, l.scanline, l.chromaScanline);
  }

  /** Padded sizes in blocks of 64, and of 512. */
  lemma InBlocks(size: nat)
    ensures var a := (size + 63) / 64; Pad(size, 64) == 64 * a && Pad(size, 512) == 512 * ((a + 7) / 8)
  {
  }

  lemma HalfInBlocks(a: nat)
    ensures Pad(64 * a / 2, 64) == 64 * ((a + 1) / 2) && Pad(512 * a / 2, 512) == 512 * ((a + 1) / 2)
  {
  }

  lemma CompareBlocks(a: nat)
    ensures 64 * a <= 512 * ((a + 7) / 8) && (64 * a == 512 * ((a + 7) / 8) <==> Whole512(64 * a))
  {
  }

  lemma CompareHalves(a: nat, b: nat)
    requires b == (a + 7) / 8
    ensures 64 * a + 64 * ((a + 1) / 2) <= 512 * b + 512 * ((b + 1) / 2)
    ensures 64 * a + 64 * ((a + 1) / 2) == 512 * b + 512 * ((b + 1) / 2) <==> Whole1024(64 * a)
  {
    HalfBlocks(a, b);
    SixteenthBlocks(a);
    hide Whole1024;
  }

  lemma HalfBlocks(a: nat, b: nat)
    requires b == (a + 7) / 8
    ensures a + (a + 1) / 2 <= 8 * (b + (b + 1) / 2)
    ensures a + (a + 1) / 2 == 8 * (b + (b + 1) / 2) <==> a % 16 == 0
  {
  }

  lemma SixteenthBlocks(a: nat)
    ensures Whole1024(64 * a) <==> a % 16 == 0
  {
  }

  /** The wide padding makes no less than the narrow one, and the same exactly of whole blocks. */
  lemma WidePad(size: nat)
    ensures Pad(size, 64) <= Pad(size, 512)
    ensures Pad(size, 64) == Pad(size, 512) <==> Whole512(Pad(size, 64))
  {
    InBlocks(size);
    hide Pad;
    hide Whole512;
    CompareBlocks((size + 63) / 64);
  }

  lemma WideLines(height: nat)
    ensures var narrow, wide := Pad(height, 64), Pad(height, 512);
            && narrow + Pad(narrow / 2, 64) <= wide + Pad(wide / 2, 512)
            && (narrow + Pad(narrow / 2, 64) == wide + Pad(wide / 2, 512) <==> Whole1024(narrow))
  {
    InBlocks(height);
    var a := (height + 63) / 64;
    var b := (a + 7) / 8;
    HalfInBlocks(a);
    HalfInBlocks(b);
    hide Pad;
    hide Whole1024;
    CompareHalves(a, b);
  }

  lemma AreaCompare(a: nat, b: nat, x: nat, y: nat)
    requires a <= x && b <= y
    ensures Area(x, y) <= Area(a, b) <==> (x == 0 || y == 0) || (a == x && b == y)
  {
    if x > 0 && y > 0 && !(a == x && b == y) {
      if a < x {
        assert a * b <= a * y <= (x - 1) * y < x * y;
      } else {
        assert a * b <= a * (y - 1) < x * y;
      }
    } else if x == 0 || y == 0 {
      assert x * y == 0 && a * b == 0;
    }
  }

  /** The planes of an image of such a format lie in the buffer if and only if the width fills up blocks of 512, and
      the height blocks of 1024, but for less than 64. */
  lemma WidePlanesExactly(width: nat, height: nat)
    ensures var image, buffer := LayoutOf(width, height, WIDE_PADDING), LayoutOf(width, height, BUFFER_PADDING);
            image.lumaLength + image.chromaLength <= buffer.frameLength
            <==> width == 0 || height == 0 || (Whole512(Pad(width, 64)) && Whole1024(Pad(height, 64)))
  {
    var image, buffer := LayoutOf(width, height, WIDE_PADDING), LayoutOf(width, height, BUFFER_PADDING);
    WidePlanes(width, height);
    NarrowPlanes(width, height);
    WidePad(width);
    WideLines(height);
    PadBounds(width, 512);
    PadBounds(height, 512);
    PadBounds(width, 64);
    PadBounds(height, 64);
    PadBounds(image.scanline / 2, 512);
    PadBounds(buffer.scanline / 2, 64);
    hide Pad;
    hide Area;
    hide Whole512;
    hide Whole1024;
    AreaCompare(buffer.stride, buffer.scanline + buffer.chromaScanline, image.stride, image.scanline + image.chromaScanline);
  }

  /** Where the last byte of a chroma row lies. */
  function ChromaEnd(width: nat, l: Layout, row: nat): int {
    l.lumaLength + Area(l.stride, row) + 2 * ((width + 1) / 2)
  }

  ghost predicate RowsWithin(width: nat, height: nat, l: Layout, size: int) {
    && (forall row: nat :: row < height ==> Area(l.stride, row) + width <= size)
    && (forall row: nat :: row < height / 2 ==> ChromaEnd(width, l, row) <= size)
  }

  lemma LastChroma(width: nat, height: nat, l: Layout, size: int)
    requires l.stride >= 0 && height >= 2 && ChromaEnd(width, l, height / 2 - 1) <= size
    ensures forall row: nat :: row < height / 2 ==> ChromaEnd(width, l, row) <= size
    ensures l.lumaLength <= size
  {
    hide Area;
    forall row: nat | row < height / 2 ensures ChromaEnd(width, l, row) <= size {
      AreaGrows(l.stride, row, height / 2 - 1);
    }
    AreaNext(l.stride, height / 2 - 1);
  }

  lemma LumaRows(width: nat, height: nat, l: Layout)
    requires width <= l.stride && height <= l.scanline && Area(l.stride, l.scanline) <= l.lumaLength
    ensures forall row: nat :: row < height ==> Area(l.stride, row) + width <= l.lumaLength
  {
    hide Area;
    forall row: nat | row < height ensures Area(l.stride, row) + width <= l.lumaLength {
      AreaNext(l.stride, row);
      AreaGrows(l.stride, row + 1, l.scanline);
    }
  }

  lemma WidePlacement(width: nat, height: nat)
    ensures var l := LayoutOf(width, height, WIDE_PADDING);
            width <= l.stride && height <= l.scanline && Area(l.stride, l.scanline) <= l.lumaLength
  {
    var l := LayoutOf(width, height, WIDE_PADDING);
    PadBounds(width, 512);
    PadBounds(height, 512);
    PadBounds(Area(l.stride, l.scanline), 512);
    hide Pad;
    hide Area;
  }

  /** The rows themselves stay inside if and only if there is no chroma row or the last one ends inside. */
  lemma WideRowsExactly(width: nat, height: nat)
    ensures var image, frame := LayoutOf(width, height, WIDE_PADDING), LayoutOf(width, height, BUFFER_PADDING).frameLength;
            RowsWithin(width, height, image, frame) <==> height < 2 || ChromaEnd(width, image, height / 2 - 1) <= frame
  {
    var image, frame := LayoutOf(width, height, WIDE_PADDING), LayoutOf(width, height, BUFFER_PADDING).frameLength;
    WidePlacement(width, height);
    LumaRows(width, height, image);
    if height == 1 {
      OneRow(width);
    } else if height >= 2 && ChromaEnd(width, image, height / 2 - 1) <= frame {
      LastChroma(width, height, image, frame);
    }
    hide LayoutOf;
    hide ChromaEnd;
    hide Area;
  }

  lemma OneRow(width: nat)
    ensures Area(LayoutOf(width, 1, WIDE_PADDING).stride, 0) + width <= LayoutOf(width, 1, BUFFER_PADDING).frameLength
  {
    RowsInside(width, 1, QCOM, 0);
    var image := LayoutOf(width, 1, ImagePadding(QCOM));
    PadBounds(Area(image.stride, image.chromaScanline), 64);
    PadBounds(image.scanline / 2, 64);
    PadBounds(width, 64);
    PadBounds(1, 64);
    hide Pad;
    AreaNext(image.stride, image.chromaScanline);
  }

  /** An ordinary size at which they do not. */
  lemma WideRowsLeave()
    ensures ChromaEnd(640, LayoutOf(640, 480, WIDE_PADDING), 239) > LayoutOf(640, 480, BUFFER_PADDING).frameLength
  {
  }
}
