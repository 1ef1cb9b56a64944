/**
 * Images shown in the terminal grid: cutting one cell-sized RGBA tile out of
 * a rasterized image, and the pool that hands out image ids.
 */
module Images {

  /** One byte of pixel data. */
  newtype uint8 = x: int | 0 <= x < 256

  /** The pixel formats an image can be uploaded in. */
  datatype ImageFormat = RGB | RGBA | PNG

  /** A width and a height, in pixels. */
  datatype ImageSize = ImageSize(width: nat, height: nat)
  {
    /** The number of pixels. */
    function Area(): nat
    {
      width * height
    }
  }

  /** A grid position: line and column, both signed as in the terminal. */
  datatype CellLocation = CellLocation(line: int, column: int)

  /** A colour with red, green, blue and alpha channels. */
  datatype RGBAColor = RGBAColor(red: uint8, green: uint8, blue: uint8, alpha: uint8)

  /** An uploaded image: its id, format, row-major pixel bytes and size. */
  datatype Image = Image(id: nat, format: ImageFormat, data: seq<uint8>, size: ImageSize)

  /** An image laid out over grid cells of a given pixel size, padded with a default colour. */
  datatype RasterizedImage = RasterizedImage(image: Image, defaultColor: RGBAColor, cellSize: ImageSize)

  function Min(a: int, b: int): (r: int)
    ensures r <= a && r <= b && (r == a || r == b)
  {
    if a < b then a else b
  }

  /** Channel k (0 red, 1 green, 2 blue, 3 alpha) of a colour. */
  function ColorByte(c: RGBAColor, k: nat): uint8
  {
    if k == 0 then c.red else if k == 1 then c.green else if k == 2 then c.blue else c.alpha
  }

  // ---------------------------------------------------------------------------
  // The tile geometry

  /** Pixel column of the tile's left edge in the image: a whole number of cell widths. */
  function XOffset(ri: RasterizedImage, pos: CellLocation): (r: int)
    ensures pos.column >= 0 ==> r >= 0
  {
    pos.column * ri.cellSize.width
  }

  /** Pixel line of the tile's top edge in the image: a whole number of cell heights. */
  function YOffset(ri: RasterizedImage, pos: CellLocation): (r: int)
    ensures pos.line >= 0 ==> r >= 0
  {
    pos.line * ri.cellSize.height
  }

  /** How many pixel columns of the tile the image covers. */
  function AvailableWidth(ri: RasterizedImage, pos: CellLocation): (r: int)
    ensures r <= ri.cellSize.width && r <= ri.image.size.width - XOffset(ri, pos)
    ensures r == ri.cellSize.width || r == ri.image.size.width - XOffset(ri, pos)
  {
    Min(ri.image.size.width - XOffset(ri, pos), ri.cellSize.width)
  }

  /** How many pixel lines of the tile the image covers. */
  function AvailableHeight(ri: RasterizedImage, pos: CellLocation): (r: int)
    ensures r <= ri.cellSize.height && r <= ri.image.size.height - YOffset(ri, pos)
    ensures r == ri.cellSize.height || r == ri.image.size.height - YOffset(ri, pos)
  {
    Min(ri.image.size.height - YOffset(ri, pos), ri.cellSize.height)
  }

  /**
   * What the model of `fragment` asks of its caller: a position at or right of
   * and below the image origin, a tile that starts inside the image, and
   * 4 bytes of pixel data for every pixel of the image. This is stronger than
   * what the code needs. The code's reads also stay inside the data for RGB
   * data that still holds the last byte the tile reads, and for a negative
   * column on a line after the first, which reads the previous image row.
   * A negative line
   * reads before the data, and so does a negative column on line 0. Negative
   * available extents make the fills write past the tile.
   */
  predicate FragmentRequires(ri: RasterizedImage, pos: CellLocation)
  {
    && pos.line >= 0 && pos.column >= 0
    && AvailableWidth(ri, pos) >= 0 && AvailableHeight(ri, pos) >= 0
    && |ri.image.data| >= ri.image.size.Area() * 4
  }

  /** Pixel index of the source byte for tile pixel (y, x), channel k. */
  function SourceIndex(ri: RasterizedImage, pos: CellLocation, y: int, x: int, k: int): int
  {
    ((YOffset(ri, pos) + y) * ri.image.size.width + XOffset(ri, pos) + x) * 4 + k
  }

  /** Channel k of tile pixel (y, x): the image's byte where the image covers it, the default colour elsewhere. */
  function PixelByte(ri: RasterizedImage, pos: CellLocation, y: nat, x: nat, k: nat): uint8
    requires FragmentRequires(ri, pos)
    requires x < ri.cellSize.width && k < 4
  {
    if y < AvailableHeight(ri, pos) && x < AvailableWidth(ri, pos) then
      SourceInImage(ri, pos, y, x, k);
      ri.image.data[SourceIndex(ri, pos, y, x, k)]
    else
      ColorByte(ri.defaultColor, k)
  }

  /** Byte i of the tile, read as channel i % 4 of row-major pixel i / 4. */
  function FragmentByte(ri: RasterizedImage, pos: CellLocation, i: nat): uint8
    requires FragmentRequires(ri, pos)
    requires i < ri.cellSize.Area() * 4
  {
    var cw := ri.cellSize.width;
    assert cw != 0;
    PixelByte(ri, pos, (i / 4) / cw, (i / 4) % cw, i % 4)
  }

  // ---------------------------------------------------------------------------
  // Index arithmetic

  /** Euclidean division is determined by a quotient and a remainder in range. */
  lemma DivModUnique(n: int, d: int, q: int, r: int)
    requires d > 0 && 0 <= r < d && n == q * d + r
    ensures n / d == q && n % d == r
  {
    var q', r' := n / d, n % d;
    assert n == q' * d + r';
    if q' > q {
      MulMonotone(q + 1, q', d);
    } else if q' < q {
      MulMonotone(q' + 1, q, d);
    }
  }

  lemma MulMonotone(a: int, b: int, d: int)
    requires a <= b && d >= 0
    ensures a * d <= b * d
  {
    assert b * d - a * d == (b - a) * d;
  }

  /** Byte (y * w + x) * 4 + k decomposes back into pixel (y, x) and channel k. */
  lemma PixelIndex(w: nat, y: nat, x: nat, k: nat)
    requires x < w && k < 4
    ensures ((y * w + x) * 4 + k) / 4 == y * w + x && ((y * w + x) * 4 + k) % 4 == k
    ensures (y * w + x) / w == y && (y * w + x) % w == x
  {
    DivModUnique((y * w + x) * 4 + k, 4, y * w + x, k);
    DivModUnique(y * w + x, w, y, x);
  }

  /** Pixel (y, x) of a w by h tile lies inside its bytes. */
  lemma PixelInTile(w: nat, h: nat, y: nat, x: nat, k: nat)
    requires y < h && x < w && k < 4
    ensures (y * w + x) * 4 + k < w * h * 4
  {
    MulMonotone(y + 1, h, w);
    assert (y + 1) * w == y * w + w;
  }

  /** The source byte of a covered pixel lies inside the image data. */
  lemma SourceInImage(ri: RasterizedImage, pos: CellLocation, y: nat, x: nat, k: nat)
    requires FragmentRequires(ri, pos)
    requires y < AvailableHeight(ri, pos) && x < AvailableWidth(ri, pos) && k < 4
    ensures 0 <= SourceIndex(ri, pos, y, x, k) < |ri.image.data|
  {
    var w, h := ri.image.size.width, ri.image.size.height;
    var yy, xx := YOffset(ri, pos) + y, XOffset(ri, pos) + x;
    assert 0 <= YOffset(ri, pos) && 0 <= XOffset(ri, pos);
    assert yy < h && xx < w;
    PixelInTile(w, h, yy, xx, k);
  }

  /** Byte i of the tile at pixel index p, channel k (p == y * w + x). */
  lemma FragmentByteAt(ri: RasterizedImage, pos: CellLocation, y: nat, x: nat, k: nat)
    requires FragmentRequires(ri, pos)
    requires y < ri.cellSize.height && x < ri.cellSize.width && k < 4
    ensures (y * ri.cellSize.width + x) * 4 + k < ri.cellSize.Area() * 4
    ensures FragmentByte(ri, pos, (y * ri.cellSize.width + x) * 4 + k) == PixelByte(ri, pos, y, x, k)
  {
    PixelInTile(ri.cellSize.width, ri.cellSize.height, y, x, k);
    PixelIndex(ri.cellSize.width, y, x, k);
  }

  // ---------------------------------------------------------------------------
  // RasterizedImage::fragment

  /**
   * The RGBA tile of the cell at `pos`: cellSize.Area() * 4 bytes, row by row,
   * each row the covered image pixels followed by default-colour padding on
   * the right, then default-colour rows below the image.
   */
  method Fragment(ri: RasterizedImage, pos: CellLocation) returns (frag: seq<uint8>)
    requires FragmentRequires(ri, pos)
    ensures |frag| == ri.cellSize.Area() * 4
    ensures forall i :: 0 <= i < |frag| ==> frag[i] == FragmentByte(ri, pos, i)
  {
    var cw, ch := ri.cellSize.width, ri.cellSize.height;
    var fragData := new uint8[ri.cellSize.Area() * 4];
    var availableHeight := Min(ri.image.size.height - pos.line * ch, ch);
    var target := 0;
    var y := 0;
    while y < availableHeight
      invariant 0 <= y <= availableHeight
      invariant target == y * cw * 4
      invariant Filled(ri, pos, fragData[..], target)
    {
      target := FillRow(ri, pos, fragData, y, target);
      y := y + 1;
    }
    assert availableHeight == AvailableHeight(ri, pos);
    FillBottom(ri, pos, fragData, target);
    frag := fragData[..];
  }

  /** The lines below the covered ones, written from `target` on: the default colour up to the tile's end. */
  method FillBottom(ri: RasterizedImage, pos: CellLocation, fragData: array<uint8>, target: nat)
    requires FragmentRequires(ri, pos)
    requires target == AvailableHeight(ri, pos) * ri.cellSize.width * 4
    requires Filled(ri, pos, fragData[..], target)
    modifies fragData
    ensures Filled(ri, pos, fragData[..], ri.cellSize.Area() * 4)
  {
    var cw, ch := ri.cellSize.width, ri.cellSize.height;
    var p := AvailableHeight(ri, pos) * cw;
    MulMonotone(AvailableHeight(ri, pos), ch, cw);
    assert ri.cellSize.Area() == ch * cw;
    var next := target;
    while p < ri.cellSize.Area()
      invariant AvailableHeight(ri, pos) * cw <= p <= ri.cellSize.Area()
      invariant next == p * 4
      invariant Filled(ri, pos, fragData[..], next)
    {
      BottomPixel(ri, pos, p);
      PutDefault(ri, pos, fragData, next);
      next := next + 4;
      p := p + 1;
    }
  }

  /**
   * One covered line of the tile, written from `target` on: the covered
   * image bytes of line y, then the default colour up to the tile's width.
   */
  method FillRow(ri: RasterizedImage, pos: CellLocation, fragData: array<uint8>, y: nat, target: nat) returns (next: nat)
    requires FragmentRequires(ri, pos)
    requires y < AvailableHeight(ri, pos)
    requires target == y * ri.cellSize.width * 4
    requires Filled(ri, pos, fragData[..], target)
    modifies fragData
    ensures next == (y + 1) * ri.cellSize.width * 4
    ensures Filled(ri, pos, fragData[..], next)
  {
    var cw := ri.cellSize.width;
    var imgW := ri.image.size.width;
    var xOffset, yOffset := pos.column * cw, pos.line * ri.cellSize.height;
    var availableWidth := Min(imgW - xOffset, cw);
    var startOffset := ((yOffset + y) * imgW + xOffset) * 4;
    next := target;
    var j := 0;
    while j < availableWidth * 4
      invariant 0 <= j <= availableWidth * 4
      invariant next == y * cw * 4 + j
      invariant Filled(ri, pos, fragData[..], next)
    {
      CopiedByte(ri, pos, y, j, next);
      Put(ri, pos, fragData, next, ri.image.data[startOffset + j]);
      next := next + 1;
      j := j + 1;
    }
    var x := availableWidth;
    while x < cw
      invariant availableWidth <= x <= cw
      invariant next == y * cw * 4 + x * 4
      invariant Filled(ri, pos, fragData[..], next)
    {
      PaddedPixel(ri, pos, y, x);
      PutDefault(ri, pos, fragData, next);
      next := next + 4;
      x := x + 1;
    }
    assert (y + 1) * cw * 4 == y * cw * 4 + cw * 4;
  }

  /** The first n bytes of s are those of the tile. */
  ghost predicate Filled(ri: RasterizedImage, pos: CellLocation, s: seq<uint8>, n: nat)
    requires FragmentRequires(ri, pos)
  {
    && n <= |s| && |s| == ri.cellSize.Area() * 4
    && forall i :: 0 <= i < n ==> s[i] == FragmentByte(ri, pos, i)
  }

  /** Store the tile's next byte v at `target`, as `*target++ = v` does. */
  method Put(ri: RasterizedImage, pos: CellLocation, a: array<uint8>, target: nat, v: uint8)
    requires FragmentRequires(ri, pos)
    requires Filled(ri, pos, a[..], target) && target < a.Length
    requires v == FragmentByte(ri, pos, target)
    modifies a
    ensures Filled(ri, pos, a[..], target + 1)
    ensures a[..] == old(a[..])[target := v]
  {
    a[target] := v;
  }

  /** Store the default colour in RGBA order at `target` .. `target + 3`. */
  method PutDefault(ri: RasterizedImage, pos: CellLocation, a: array<uint8>, target: nat)
    requires FragmentRequires(ri, pos)
    requires Filled(ri, pos, a[..], target) && DefaultPixelAt(ri, pos, target)
    modifies a
    ensures Filled(ri, pos, a[..], target + 4)
  {
    var c := ri.defaultColor;
    Put(ri, pos, a, target, c.red);
    Put(ri, pos, a, target + 1, c.green);
    Put(ri, pos, a, target + 2, c.blue);
    Put(ri, pos, a, target + 3, c.alpha);
  }

  /** Byte j of a covered line's copied run is the matching byte of the image. */
  lemma CopiedByte(ri: RasterizedImage, pos: CellLocation, y: nat, j: nat, t: nat)
    requires FragmentRequires(ri, pos)
    requires y < AvailableHeight(ri, pos) && j < AvailableWidth(ri, pos) * 4
    requires t == y * ri.cellSize.width * 4 + j
    ensures t < ri.cellSize.Area() * 4
    ensures 0 <= ((YOffset(ri, pos) + y) * ri.image.size.width + XOffset(ri, pos)) * 4 + j < |ri.image.data|
    ensures FragmentByte(ri, pos, t) == ri.image.data[((YOffset(ri, pos) + y) * ri.image.size.width + XOffset(ri, pos)) * 4 + j]
  {
    var x, k := j / 4, j % 4;
    assert j == x * 4 + k;
    FragmentByteAt(ri, pos, y, x, k);
    assert t == (y * ri.cellSize.width + x) * 4 + k;
    SourceInImage(ri, pos, y, x, k);
  }

  /** The four bytes from t on hold the default colour in RGBA order. */
  predicate DefaultPixelAt(ri: RasterizedImage, pos: CellLocation, t: nat)
    requires FragmentRequires(ri, pos)
  {
    && t + 3 < ri.cellSize.Area() * 4
    && FragmentByte(ri, pos, t) == ri.defaultColor.red
    && FragmentByte(ri, pos, t + 1) == ri.defaultColor.green
    && FragmentByte(ri, pos, t + 2) == ri.defaultColor.blue
    && FragmentByte(ri, pos, t + 3) == ri.defaultColor.alpha
  }

  /** A covered line's pixel right of the covered columns is the default colour. */
  lemma PaddedPixel(ri: RasterizedImage, pos: CellLocation, y: nat, x: nat)
    requires FragmentRequires(ri, pos)
    requires y < AvailableHeight(ri, pos) && AvailableWidth(ri, pos) <= x < ri.cellSize.width
    ensures DefaultPixelAt(ri, pos, y * ri.cellSize.width * 4 + x * 4)
  {
    FragmentByteAt(ri, pos, y, x, 0);
    FragmentByteAt(ri, pos, y, x, 1);
    FragmentByteAt(ri, pos, y, x, 2);
    FragmentByteAt(ri, pos, y, x, 3);
  }

  /** A tile pixel at or after the first uncovered line is printed in the default colour. */
  lemma BottomPixel(ri: RasterizedImage, pos: CellLocation, p: nat)
    requires FragmentRequires(ri, pos)
    requires AvailableHeight(ri, pos) * ri.cellSize.width <= p < ri.cellSize.Area()
    ensures DefaultPixelAt(ri, pos, p * 4)
  {
    var cw := ri.cellSize.width;
    assert cw != 0;
    var y, x := p / cw, p % cw;
    assert p == y * cw + x;
    if y < AvailableHeight(ri, pos) {
      MulMonotone(y + 1, AvailableHeight(ri, pos), cw);
    }
    PixelIndex(cw, y, x, 0);
    PixelIndex(cw, y, x, 1);
    PixelIndex(cw, y, x, 2);
    PixelIndex(cw, y, x, 3);
  }

  // ---------------------------------------------------------------------------
  // What the tile holds, pixel by pixel

  /** Inside the covered region, tile pixel (y, x) is image pixel (yOffset + y, xOffset + x). */
  lemma FragmentCopiesCoveredPixels(ri: RasterizedImage, pos: CellLocation, frag: seq<uint8>, y: nat, x: nat, k: nat)
    requires FragmentRequires(ri, pos)
    requires |frag| == ri.cellSize.Area() * 4
    requires forall i :: 0 <= i < |frag| ==> frag[i] == FragmentByte(ri, pos, i)
    requires y < AvailableHeight(ri, pos) && x < AvailableWidth(ri, pos) && k < 4
    ensures 0 <= SourceIndex(ri, pos, y, x, k) < |ri.image.data|
    ensures (y * ri.cellSize.width + x) * 4 + k < |frag|
    ensures frag[(y * ri.cellSize.width + x) * 4 + k] == ri.image.data[SourceIndex(ri, pos, y, x, k)]
  {
    SourceInImage(ri, pos, y, x, k);
    FragmentByteAt(ri, pos, y, x, k);
  }

  /** On covered lines, the pixels right of the covered columns are the default colour, in RGBA order. */
  lemma FragmentPadsRight(ri: RasterizedImage, pos: CellLocation, frag: seq<uint8>, y: nat, x: nat, k: nat)
    requires FragmentRequires(ri, pos)
    requires |frag| == ri.cellSize.Area() * 4
    requires forall i :: 0 <= i < |frag| ==> frag[i] == FragmentByte(ri, pos, i)
    requires y < AvailableHeight(ri, pos) && AvailableWidth(ri, pos) <= x < ri.cellSize.width && k < 4
    ensures (y * ri.cellSize.width + x) * 4 + k < |frag|
    ensures frag[(y * ri.cellSize.width + x) * 4 + k] == ColorByte(ri.defaultColor, k)
  {
    FragmentByteAt(ri, pos, y, x, k);
  }

  /** Every pixel from the first uncovered line on is the default colour, in RGBA order. */
  lemma FragmentPadsBottom(ri: RasterizedImage, pos: CellLocation, frag: seq<uint8>, p: nat, k: nat)
    requires FragmentRequires(ri, pos)
    requires |frag| == ri.cellSize.Area() * 4
    requires forall i :: 0 <= i < |frag| ==> frag[i] == FragmentByte(ri, pos, i)
    requires AvailableHeight(ri, pos) * ri.cellSize.width <= p < ri.cellSize.Area() && k < 4
    ensures p * 4 + k < |frag|
    ensures frag[p * 4 + k] == ColorByte(ri.defaultColor, k)
  {
    BottomPixel(ri, pos, p);
    assert k == 0 || k == 1 || k == 2 || k == 3;
  }

  // ---------------------------------------------------------------------------
  // ImagePool::create

  /** The pool's id counter: each created image takes the next id. */
  class ImagePool {
    var nextImageId: nat

    constructor (nextImageId: nat)
      ensures this.nextImageId == nextImageId
    {
      this.nextImageId := nextImageId;
    }

    /** A new image with the counter's id, the given format, size and data; the counter moves on by one. */
    method Create(format: ImageFormat, size: ImageSize, data: seq<uint8>) returns (image: Image)
      modifies this
      ensures image == Image(old(nextImageId), format, data, size)
      ensures nextImageId == old(nextImageId) + 1
    {
      var id := nextImageId;
      nextImageId := nextImageId + 1;
      image := Image(id, format, data, size);
    }
  }

  /** A client: successive creations get consecutive, hence distinct, ids. */
  method ConsecutiveIdsClient(format: ImageFormat, size: ImageSize, data: seq<uint8>)
  {
    var pool := new ImagePool(7);
    var a := pool.Create(format, size, data);
    var b := pool.Create(format, size, data);
    var c := pool.Create(RGBA, ImageSize(1, 1), [0, 0, 0, 255]);
    assert a.id == 7 && b.id == 8 && c.id == 9 && pool.nextImageId == 10;
    assert a != b;
  }
}
