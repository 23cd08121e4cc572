/** `bmp_frame` of `xtask/src/icon.rs`: the headerless bitmap an `.ico` entry holds. */
module BmpFrame {
  import opened Bytes

  datatype Pixel = Pixel(r: Byte, g: Byte, b: Byte, a: Byte)

  /** `rows[y][x]` is the pixel at (x, y), row 0 on top. */
  datatype Image = Image(width: nat, height: nat, rows: seq<seq<Pixel>>)

  predicate IsImage(img: Image) {
    |img.rows| == img.height && forall y :: 0 <= y < img.height ==> |img.rows[y]| == img.width
  }

  function GetPixel(img: Image, x: nat, y: nat): Pixel
    requires IsImage(img) && x < img.width && y < img.height
  {
    img.rows[y][x]
  }

  /** Bytes per row of the one-bit mask: whole 32-bit words. */
  function MaskStride(width: nat): nat { (width + 31) / 32 * 4 }

  /** Both header fields are 32-bit words. */
  predicate HasDimensions(img: Image) { img.width < U32 && img.height * 2 < U32 }

  // ---------- The layout ----------

  function Header(width: nat, height: nat): (s: seq<Byte>)
    requires width < U32 && height * 2 < U32
    ensures |s| == 40
  {
    LE(40) + LE(width) + LE(height * 2) + LE16(1) + LE16(32) + Zeros(24)
  }

  function Bgra(p: Pixel): seq<Byte> { [p.b, p.g, p.r, p.a] }

  /** The first `n` pixels of row `y`. */
  function Row(img: Image, y: nat, n: nat): (s: seq<Byte>)
    requires IsImage(img) && y < img.height && n <= img.width
    ensures |s| == n * 4
  {
    if n == 0 then [] else Row(img, y, n - 1) + Bgra(GetPixel(img, n - 1, y))
  }

  /** The size of `n` rows, added up row by row. */
  function RowsSize(n: nat, row: nat): nat { if n == 0 then 0 else RowsSize(n - 1, row) + row }

  lemma {:induction false} RowsSizeIsProduct(n: nat, row: nat)
    ensures RowsSize(n, row) == n * row
    decreases n
  {
    if n > 0 {
      RowsSizeIsProduct(n - 1, row);
      assert n * row == (n - 1) * row + row;
    }
  }

  /** The bottom `n` rows, lowest first. */
  function Plane(img: Image, n: nat): (s: seq<Byte>)
    requires IsImage(img) && n <= img.height
    ensures |s| == RowsSize(n, img.width * 4)
  {
    if n == 0 then [] else Plane(img, n - 1) + Row(img, img.height - n, img.width)
  }

  function Mask(img: Image): seq<Byte> { Zeros(RowsSize(img.height, MaskStride(img.width))) }

  function Frame(img: Image): seq<Byte>
    requires IsImage(img) && HasDimensions(img)
  {
    Header(img.width, img.height) + Plane(img, img.height) + Mask(img)
  }

  method WriteHeader(width: nat, height: nat) returns (out: seq<Byte>)
    requires width < U32 && height * 2 < U32
    ensures out == Header(width, height)
  {
    out := LE(40);
    out := out + LE(width);
    out := out + LE(height * 2);
    out := out + LE16(1);
    out := out + LE16(32);
    ghost var head := out;
    out := out + LE(0);
    out := out + LE(0);
    out := out + LE(0);
    out := out + LE(0);
    out := out + LE(0);
    out := out + LE(0);
    assert out == head + Zeros(24);
  }

  /** The sizes the program computes in 32 bits do not overflow. */
  predicate Fits(img: Image) {
    img.width * img.height * 4 < U32 && MaskStride(img.width) * img.height < U32
  }

  method ColourPlane(img: Image) returns (out: seq<Byte>)
    requires IsImage(img)
    ensures out == Plane(img, img.height)
  {
    out := [];
    for y := img.height downto 0
      invariant out == Plane(img, img.height - y)
    {
      var row: seq<Byte> := [];
      for x := 0 to img.width
        invariant row == Row(img, y, x)
      {
        row := row + Bgra(GetPixel(img, x, y));
      }
      out := out + row;
    }
  }

  method BmpFrame(img: Image) returns (out: seq<Byte>)
    requires IsImage(img) && HasDimensions(img) && Fits(img)
    ensures out == Frame(img)
  {
    var header := WriteHeader(img.width, img.height);
    var plane := ColourPlane(img);
    RowsSizeIsProduct(img.height, MaskStride(img.width));
    var stride := MaskStride(img.width);
    out := header + plane + Zeros(img.height * stride);
  }

  // ---------- Reading it back ----------

  function PixelOffset(width: nat, height: nat, x: nat, y: nat): nat
    requires y < height
  {
    40 + ((height - 1 - y) * width + x) * 4
  }

  function DecodePixel(s: seq<Byte>, at: nat): Pixel
    requires at + 4 <= |s|
  {
    Pixel(s[at + 2], s[at + 1], s[at], s[at + 3])
  }

  lemma {:induction false} RowPixel(img: Image, y: nat, n: nat, x: nat)
    requires IsImage(img) && y < img.height && x < n <= img.width
    ensures Row(img, y, n)[x * 4..x * 4 + 4] == Bgra(GetPixel(img, x, y))
    decreases n
  {
    if x < n - 1 {
      RowPixel(img, y, n - 1, x);
      assert Row(img, y, n)[x * 4..x * 4 + 4] == Row(img, y, n - 1)[x * 4..x * 4 + 4];
    }
  }

  /** Row `k` from the bottom starts after `k` whole rows. */
  lemma {:induction false} PlaneRow(img: Image, n: nat, k: nat)
    requires IsImage(img) && k < n <= img.height
    ensures var start := RowsSize(k, img.width * 4);
            start + img.width * 4 <= |Plane(img, n)| &&
            Plane(img, n)[start..start + img.width * 4] == Row(img, img.height - 1 - k, img.width)
    decreases n
  {
    var start := RowsSize(k, img.width * 4);
    if k < n - 1 {
      PlaneRow(img, n - 1, k);
      assert Plane(img, n)[start..start + img.width * 4] == Plane(img, n - 1)[start..start + img.width * 4];
    }
  }

  lemma PlanePixel(img: Image, x: nat, y: nat)
    requires IsImage(img) && x < img.width && y < img.height
    ensures var at := RowsSize(img.height - 1 - y, img.width * 4) + x * 4;
            at + 4 <= |Plane(img, img.height)| && DecodePixel(Plane(img, img.height), at) == GetPixel(img, x, y)
  {
    var row, k := img.width * 4, img.height - 1 - y;
    PlaneRow(img, img.height, k);
    RowPixel(img, y, img.width, x);
    PixelOfRow(Plane(img, img.height), RowsSize(k, row), row, x * 4, GetPixel(img, x, y));
  }

  lemma OffsetIs(w: nat, h: nat, x: nat, y: nat)
    requires y < h
    ensures PixelOffset(w, h, x, y) == 40 + (RowsSize(h - 1 - y, w * 4) + x * 4)
  {
    RowsSizeIsProduct(h - 1 - y, w * 4);
  }

  /** Every pixel is read back from its place in the bottom-up plane. */
  lemma PixelReadsBack(img: Image, x: nat, y: nat)
    requires IsImage(img) && HasDimensions(img) && x < img.width && y < img.height
    ensures var at := PixelOffset(img.width, img.height, x, y);
            at + 4 <= |Frame(img)| && DecodePixel(Frame(img), at) == GetPixel(img, x, y)
  {
    var at := RowsSize(img.height - 1 - y, img.width * 4) + x * 4;
    PlanePixel(img, x, y);
    OffsetIs(img.width, img.height, x, y);
    FramePixel(img, at);
  }

  lemma FramePixel(img: Image, at: nat)
    requires IsImage(img) && HasDimensions(img) && at + 4 <= |Plane(img, img.height)|
    ensures 40 + at + 4 <= |Frame(img)| && DecodePixel(Frame(img), 40 + at) == DecodePixel(Plane(img, img.height), at)
  {
    PixelOfPlane(Header(img.width, img.height), Plane(img, img.height), Mask(img), at);
  }

  lemma PixelOfRow(plane: seq<Byte>, start: nat, length: nat, at: nat, p: Pixel)
    requires start + length <= |plane| && at + 4 <= length
    requires plane[start..start + length][at..at + 4] == Bgra(p)
    ensures DecodePixel(plane, start + at) == p
  {
    var s := plane[start..start + length][at..at + 4];
    assert s[0] == plane[start + at] && s[1] == plane[start + at + 1];
    assert s[2] == plane[start + at + 2] && s[3] == plane[start + at + 3];
  }

  lemma PixelOfPlane(header: seq<Byte>, plane: seq<Byte>, mask: seq<Byte>, at: nat)
    requires at + 4 <= |plane|
    ensures DecodePixel(header + plane + mask, |header| + at) == DecodePixel(plane, at)
  {
  }

  lemma HeaderFields(width: nat, height: nat)
    requires width < U32 && height * 2 < U32
    ensures var h := Header(width, height);
            && ReadLE(h, 0) == 40 && ReadLE(h, 4) == width && ReadLE(h, 8) == 2 * height
            && h[12..16] == [1, 0, 32, 0] && forall i :: 16 <= i < 40 ==> h[i] == 0
  {
    var h := Header(width, height);
    assert h[0..4] == LE(40)[0..4];
    assert h[4..8] == LE(width)[0..4];
    assert h[8..12] == LE(height * 2)[0..4];
    ReadSame(h, 0, LE(40), 0);
    ReadSame(h, 4, LE(width), 0);
    ReadSame(h, 8, LE(height * 2), 0);
  }

  lemma ReadFront(h: seq<Byte>, rest: seq<Byte>)
    requires |h| == 40
    ensures ReadLE(h + rest, 0) == ReadLE(h, 0) && ReadLE(h + rest, 4) == ReadLE(h, 4) && ReadLE(h + rest, 8) == ReadLE(h, 8)
  {
  }

  /** The header, read at the offsets of a BITMAPINFOHEADER: twice the height, one plane, 32 bits. */
  lemma HeaderReadsBack(img: Image)
    requires IsImage(img) && HasDimensions(img)
    ensures var s := Frame(img);
            && |s| >= 40 && ReadLE(s, 0) == 40 && ReadLE(s, 4) == img.width && ReadLE(s, 8) == 2 * img.height
            && s[12..16] == [1, 0, 32, 0] && forall i :: 16 <= i < 40 ==> s[i] == 0
  {
    var h, plane, mask := Header(img.width, img.height), Plane(img, img.height), Mask(img);
    HeaderFields(img.width, img.height);
    assert h + plane + mask == h + (plane + mask);
    ReadFront(h, plane + mask);
    assert (h + (plane + mask))[12..16] == h[12..16];
  }

  /** After header and plane, nothing but zeros: transparency is the alpha channel's. */
  lemma MaskIsZero(img: Image)
    requires IsImage(img) && HasDimensions(img)
    ensures var s := Frame(img);
            && |s| == 40 + |Plane(img, img.height)| + |Mask(img)|
            && forall i :: 40 + |Plane(img, img.height)| <= i < |s| ==> s[i] == 0
  {
    ZeroTail(Header(img.width, img.height) + Plane(img, img.height), |Mask(img)|);
  }

  lemma ZeroTail(front: seq<Byte>, n: nat)
    ensures forall i :: |front| <= i < |front + Zeros(n)| ==> (front + Zeros(n))[i] == 0
  {
  }

  /** The sizes of the two planes, and with the header of the whole frame. */
  lemma FrameSize(img: Image)
    requires IsImage(img) && HasDimensions(img)
    ensures |Plane(img, img.height)| == 4 * img.width * img.height
    ensures |Mask(img)| == MaskStride(img.width) * img.height
    ensures |Frame(img)| == 40 + 4 * img.width * img.height + MaskStride(img.width) * img.height
  {
    RowsSizeIsProduct(img.height, img.width * 4);
    RowsSizeIsProduct(img.height, MaskStride(img.width));
    SizeOfParts(Header(img.width, img.height), Plane(img, img.height), Mask(img));
    ProductsCommute(img.width, img.height, MaskStride(img.width));
  }

  lemma SizeOfParts(a: seq<Byte>, b: seq<Byte>, c: seq<Byte>)
    ensures |a + b + c| == |a| + |b| + |c|
  {
  }

  lemma ProductsCommute(w: nat, h: nat, stride: nat)
    ensures h * (w * 4) == 4 * w * h && h * stride == stride * h
  {
  }

  /** The stride is the least multiple of four bytes with a bit for each pixel of a row. */
  lemma StrideIsLeast(width: nat)
    ensures MaskStride(width) % 4 == 0 && MaskStride(width) * 8 >= width
    ensures forall stride: nat :: stride % 4 == 0 && stride * 8 >= width ==> MaskStride(width) <= stride
  {
    forall stride: nat | stride % 4 == 0 && stride * 8 >= width
      ensures MaskStride(width) <= stride
    {
      assert stride == stride / 4 * 4;
    }
  }
}
