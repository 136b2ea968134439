/** Sampling the canonical buffer and the geometry of one frame: each
    terminal cell is either a blank letterbox border cell or an upper-half
    block whose foreground and background are two vertically adjacent
    samples. Zoom is fixed at 1 here, so a logical coordinate is a source
    pixel coordinate. */
module Sampling {
  import opened Normalize

  /** A row-major index of an in-bounds coordinate stays inside the buffer. */
  lemma RowMajorIndex(x: nat, y: nat, w: nat, h: nat)
    requires x < w && y < h
    ensures y * w + x < w * h
  {
    assert y * w + x < (y + 1) * w;
    assert (y + 1) * w <= h * w;
  }

  /** `Image::pixel`: bounds-checked lookup, black off the image. */
  function PixelAt(img: Image, x: nat, y: nat): (p: Pixel)
    requires img.Valid()
    ensures x >= img.width || y >= img.height ==> p == Black
    ensures x < img.width && y < img.height ==>
              y * img.width + x < |img.pixels| && p == img.pixels[y * img.width + x]
  {
    if x >= img.width || y >= img.height then Black
    else
      RowMajorIndex(x, y, img.width, img.height);
      img.pixels[y * img.width + x]
  }

  /** `x as usize` for a non-integral value: truncation toward zero, and
      negative values saturate to 0. */
  function AsUsize(x: real): (n: nat)
    ensures x >= 0.0 ==> n as real <= x < n as real + 1.0
    ensures x < 0.0 ==> n == 0
  {
    if x < 0.0 then 0 else x.Floor
  }

  /** `Image::size`: the image's extent at a zoom, truncated to whole pixels. */
  function Size(width: nat, height: nat, zoom: real): (s: (nat, nat))
    ensures zoom == 1.0 ==> s == (width, height)
    ensures zoom >= 0.0 ==> s.0 as real <= width as real * zoom && s.1 as real <= height as real * zoom
    ensures zoom >= 0.0 ==> width as real * zoom < s.0 as real + 1.0 && height as real * zoom < s.1 as real + 1.0
  {
    (AsUsize(width as real * zoom), AsUsize(height as real * zoom))
  }

  /** Every stored pixel is found again at its row-major coordinate, so the
      lookup reads back exactly what the constructors pushed. */
  lemma LookupInverse(img: Image, i: nat)
    requires img.Valid() && i < |img.pixels|
    ensures img.width > 0
    ensures i % img.width < img.width && i / img.width < img.height
    ensures PixelAt(img, i % img.width, i / img.width) == img.pixels[i]
  {
  }

  /** The two logical positions a terminal cell shows, or none. */
  datatype Cell = Blank | Half(upper: (nat, nat), lower: (nat, nat))

  /** Whether a cell shows logical position `p`. */
  predicate Shows(c: Cell, p: (nat, nat))
  {
    c.Half? && (c.upper == p || c.lower == p)
  }

  /** The geometry of `draw` for the cell at column `x`, row `y`. */
  function CellAt(x: nat, y: nat, pos: (nat, nat), offset: (nat, nat)): (c: Cell)
    ensures c.Blank? <==> x < offset.0 || y < offset.1
    ensures c.Half? ==> c.upper.0 + offset.0 == x + pos.0
    ensures c.Half? ==> c.upper.1 + 2 * offset.1 == 2 * y + pos.1
    ensures c.Half? ==> c.lower == (c.upper.0, c.upper.1 + 1)
  {
    if x < offset.0 || y < offset.1 then Blank
    else
      var lx := (x - offset.0) + pos.0;
      var ly := (y - offset.1) * 2 + pos.1;
      Half((lx, ly), (lx, ly + 1))
  }

  /** A logical position is shown by a cell exactly when it lies right of and
      below the pan position, and then by exactly one cell: the one in its
      column and in the row holding its pair of logical rows. */
  lemma ShownByExactlyOneCell(x: nat, y: nat, p: (nat, nat), pos: (nat, nat), offset: (nat, nat))
    ensures Shows(CellAt(x, y, pos, offset), p) <==>
              p.0 >= pos.0 && p.1 >= pos.1 &&
              x == p.0 - pos.0 + offset.0 && y == (p.1 - pos.1) / 2 + offset.1
  {
  }

  /** What the terminal shows in one cell: a space on black, or the
      upper-half block glyph coloured by two samples. */
  datatype Glyph = Space | UpperHalfBlock(fg: Pixel, bg: Pixel)

  function Shade(img: Image, c: Cell): Glyph
    requires img.Valid()
  {
    match c
    case Blank => Space
    case Half(u, l) => UpperHalfBlock(PixelAt(img, u.0, u.1), PixelAt(img, l.0, l.1))
  }

  lemma MulMono(a: nat, b: nat, h: nat)
    requires a <= b
    ensures a * h <= b * h
  {
  }

  /** Division by `h` undoes the column-major index `x * h + y`. */
  lemma ColumnMajorIndex(x: nat, y: nat, h: nat)
    requires y < h
    ensures (x * h + y) / h == x && (x * h + y) % h == y
  {
    var k := x * h + y;
    var q, r := k / h, k % h;
    assert k == q * h + r && 0 <= r < h;
    if q > x {
      MulMono(x + 1, q, h);
      assert false;
    } else if q < x {
      MulMono(q + 1, x, h);
      assert false;
    }
  }

  lemma ColumnMajorBound(x: nat, y: nat, w: nat, h: nat)
    requires x < w && y < h
    ensures x * h + y < w * h
  {
    assert x * h + y < (x + 1) * h;
    assert (x + 1) * h <= w * h;
  }

  /** The first `n` cells of a frame, in the order `draw` queues them:
      cell `k` is column `k / theight`, row `k % theight`. */
  ghost predicate FramePrefix(frame: seq<Glyph>, img: Image, pos: (nat, nat), offset: (nat, nat), theight: nat)
    requires img.Valid()
  {
    (theight == 0 ==> frame == []) &&
    (theight > 0 ==> forall k :: 0 <= k < |frame| ==>
                       frame[k] == Shade(img, CellAt(k / theight, k % theight, pos, offset)))
  }

  lemma FramePrefixPush(frame: seq<Glyph>, g: Glyph, img: Image, pos: (nat, nat), offset: (nat, nat),
                        x: nat, y: nat, theight: nat)
    requires img.Valid() && y < theight && |frame| == x * theight + y
    requires FramePrefix(frame, img, pos, offset, theight)
    requires g == Shade(img, CellAt(x, y, pos, offset))
    ensures FramePrefix(frame + [g], img, pos, offset, theight)
  {
    ColumnMajorIndex(x, y, theight);
    var f := frame + [g];
    forall k | 0 <= k < |f|
      ensures f[k] == Shade(img, CellAt(k / theight, k % theight, pos, offset))
    {
      if k < |frame| {
        assert f[k] == frame[k];
      }
    }
  }

  /** Every cell of the terminal has its glyph at its column-major position
      in a complete frame. */
  lemma FrameCellAt(frame: seq<Glyph>, img: Image, pos: (nat, nat), offset: (nat, nat),
                    x: nat, y: nat, twidth: nat, theight: nat)
    requires img.Valid() && |frame| == twidth * theight
    requires FramePrefix(frame, img, pos, offset, theight)
    requires x < twidth && y < theight
    ensures x * theight + y < |frame|
    ensures frame[x * theight + y] == Shade(img, CellAt(x, y, pos, offset))
  {
    ColumnMajorBound(x, y, twidth, theight);
    ColumnMajorIndex(x, y, theight);
  }

  lemma NextColumn(x: nat, h: nat)
    ensures (x + 1) * h == x * h + h
  {
  }

  /** `Image::draw` at zoom 1: the cells of a `twidth` by `theight` terminal,
      in the order they are queued (column by column, top to bottom). Each
      cell is written exactly once. */
  method Draw(img: Image, pos: (nat, nat), offset: (nat, nat), twidth: nat, theight: nat)
    returns (frame: seq<Glyph>)
    requires img.Valid()
    ensures |frame| == twidth * theight
    ensures theight > 0 ==> forall k :: 0 <= k < |frame| ==>
              frame[k] == Shade(img, CellAt(k / theight, k % theight, pos, offset))
  {
    frame := [];
    for x := 0 to twidth
      invariant |frame| == x * theight
      invariant FramePrefix(frame, img, pos, offset, theight)
    {
      for y := 0 to theight
        invariant |frame| == x * theight + y
        invariant FramePrefix(frame, img, pos, offset, theight)
      {
        var g: Glyph;
        if x < offset.0 || y < offset.1 {
          g := Space;
        } else {
          var pix1 := PixelAt(img, (x - offset.0) + pos.0, (y - offset.1) * 2 + pos.1);
          var pix2 := PixelAt(img, (x - offset.0) + pos.0, (y - offset.1) * 2 + pos.1 + 1);
          g := UpperHalfBlock(pix1, pix2);
        }
        FramePrefixPush(frame, g, img, pos, offset, x, y, theight);
        frame := frame + [g];
      }
      NextColumn(x, theight);
    }
  }

  /** A 2x2 image of red, green / blue, white fills one terminal row of two
      cells: red over blue, then green over white. */
  lemma TwoByTwoFrame(img: Image)
    requires img == Image([Pixel(255, 0, 0), Pixel(0, 255, 0), Pixel(0, 0, 255), Pixel(255, 255, 255)], 2, 2)
    ensures img.Valid()
    ensures Shade(img, CellAt(0, 0, (0, 0), (0, 0))) == UpperHalfBlock(Pixel(255, 0, 0), Pixel(0, 0, 255))
    ensures Shade(img, CellAt(1, 0, (0, 0), (0, 0))) == UpperHalfBlock(Pixel(0, 255, 0), Pixel(255, 255, 255))
  {
    assert img.Valid();
    var p00, p10, p01, p11 := PixelAt(img, 0, 0), PixelAt(img, 1, 0), PixelAt(img, 0, 1), PixelAt(img, 1, 1);
    assert p00 == img.pixels[0];
    assert p10 == img.pixels[1];
    assert p01 == img.pixels[2];
    assert p11 == img.pixels[3];
  }
}
