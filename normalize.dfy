/** Pixel normalisation: every supported decoded raster is flattened into a
    row-major sequence of 8-bit RGB pixels, compositing alpha over black with
    integer truncation and reducing 16-bit channels to their high byte. */
module Normalize {

  /** An unsigned 8-bit channel value (`u8`). */
  type Byte = x: int | 0 <= x < 0x100
  /** An unsigned 16-bit channel value (`u16`). */
  type Word = x: int | 0 <= x < 0x1_0000

  const U32_MODULUS: int := 0x1_0000_0000

  datatype Pixel = Pixel(r: Byte, g: Byte, b: Byte)

  /** `Pixel::default()`, also the colour of everything outside the image. */
  const Black: Pixel := Pixel(0, 0, 0)

  /** The canonical buffer: row-major pixels plus the raster's dimensions. */
  datatype Image = Image(pixels: seq<Pixel>, width: nat, height: nat)
  {
    predicate Valid() { |pixels| == width * height }
  }

  /** A decoded raster of one encoding, as the decoder hands it over: its
      dimensions and its pixels in row-major order. */
  datatype ImageBuffer<P> = ImageBuffer(width: nat, height: nat, data: seq<P>)
  {
    predicate WellFormed() { |data| == width * height }
  }

  /** The decoder's tagged raster. `Other` stands for every encoding the
      dispatcher does not list. */
  datatype DynamicImage =
    | ImageLuma8(luma8: ImageBuffer<Byte>)
    | ImageLumaA8(lumaA8: ImageBuffer<(Byte, Byte)>)
    | ImageRgb8(rgb8: ImageBuffer<(Byte, Byte, Byte)>)
    | ImageRgba8(rgba8: ImageBuffer<(Byte, Byte, Byte, Byte)>)
    | ImageLuma16(luma16: ImageBuffer<Word>)
    | ImageLumaA16(lumaA16: ImageBuffer<(Word, Word)>)
    | ImageRgb16(rgb16: ImageBuffer<(Word, Word, Word)>)
    | ImageRgba16(rgba16: ImageBuffer<(Word, Word, Word, Word)>)
    | ImageRgb32F(rgb32f: ImageBuffer<(real, real, real)>)
    | ImageRgba32F(rgba32f: ImageBuffer<(real, real, real, real)>)
    | Other

  datatype Error = Unimplemented

  datatype Result<T> = Ok(value: T) | Err(error: Error)

  // ---------------------------------------------------------------------
  // Machine integer operations

  /** `x as u8`: keeps the low eight bits. */
  function AsU8(x: nat): Byte { x % 0x100 }

  /** `x as u16`: keeps the low sixteen bits. */
  function AsU16(x: nat): Word { x % 0x1_0000 }

  /** `(a as u32) * (b as u32)` with 32-bit wrap-around. */
  function MulU32(a: nat, b: nat): nat { (a * b) % U32_MODULUS }

  lemma ProductBound(a: nat, b: nat, n: nat)
    requires a <= n && b <= n
    ensures a * b <= n * n
  {
    assert a * b <= n * b;
    assert n * b <= n * n;
  }

  /** A product of two channel values fits in 32 bits, so the `u32`
      multiplication is exact. */
  lemma NoWrap(a: nat, b: nat, n: nat)
    requires a <= n && b <= n && n <= 0xFFFF
    ensures a * b <= n * n < U32_MODULUS
    ensures MulU32(a, b) == a * b
  {
    ProductBound(a, b, n);
    ProductBound(n, n, 0xFFFF);
  }

  /** Scaling by a fraction alpha/max never exceeds the value itself. */
  lemma ScaledBelow(v: nat, a: nat, max: nat)
    requires 0 < max && a <= max
    ensures v * a / max <= v
    ensures a == 0 ==> v * a / max == 0
    ensures a == max ==> v * a / max == v
  {
    assert v * a <= v * max;
    assert (v * max) / max == v;
  }

  // ---------------------------------------------------------------------
  // Channel helpers

  /** Composite an 8-bit channel over black. The 32-bit product cannot wrap
      and the final `as u8` cannot truncate, so the result is exactly the
      truncated quotient, and never brighter than the channel. */
  function ApplyAlpha(value: Byte, alpha: Byte): (r: Byte)
    ensures r == value * alpha / 255
    ensures r <= value
    ensures alpha == 0 ==> r == 0
    ensures alpha == 255 ==> r == value
  {
    NoWrap(value, alpha, 255);
    ScaledBelow(value, alpha, 255);
    AsU8(MulU32(value, alpha) / 255)
  }

  /** Composite a 16-bit channel over black. 65535 * 65535 < 2^32, so the
      `u32` product is exact and the `as u16` cast is lossless. */
  function ApplyAlpha16(value: Word, alpha: Word): (r: Word)
    ensures value * alpha < U32_MODULUS
    ensures r == value * alpha / 65535
    ensures r <= value
    ensures alpha == 0 ==> r == 0
    ensures alpha == 0xFFFF ==> r == value
  {
    NoWrap(value, alpha, 0xFFFF);
    ScaledBelow(value, alpha, 0xFFFF);
    AsU16(MulU32(value, alpha) / 65535)
  }

  /** `(value >> 8) as u8`: the high byte of a 16-bit channel, rounded down. */
  function U16ToU8(value: Word): (r: Byte)
    ensures r * 256 <= value < r * 256 + 256
  {
    AsU8(value / 0x100)
  }

  /** `(value * 255.0)` clamped to [0, 255] and truncated toward zero. */
  function F32ToU8(value: real): (r: Byte)
    ensures value <= 0.0 ==> r == 0
    ensures value >= 1.0 ==> r == 255
    ensures 0.0 <= value <= 1.0 ==> r as real <= value * 255.0 < r as real + 1.0
  {
    var scaled := value * 255.0;
    if scaled < 0.0 then 0
    else if scaled > 255.0 then 255
    else scaled.Floor
  }

  // ---------------------------------------------------------------------
  // Per-pixel conversions, one per encoding

  function Gray8Pixel(v: Byte): (p: Pixel)
    ensures p.r == p.g == p.b == v
    ensures p == Rgb8Pixel((v, v, v))
  {
    Pixel(v, v, v)
  }

  function GrayAlpha8Pixel(la: (Byte, Byte)): (p: Pixel)
    ensures p.r == p.g == p.b <= la.0
    ensures p.r == la.0 * la.1 / 255
    ensures la.1 == 0 ==> p == Black
    ensures la.1 == 255 ==> p == Gray8Pixel(la.0)
  {
    var v := ApplyAlpha(la.0, la.1);
    Pixel(v, v, v)
  }

  function Rgb8Pixel(c: (Byte, Byte, Byte)): (p: Pixel)
    ensures (p.r, p.g, p.b) == c
  {
    Pixel(c.0, c.1, c.2)
  }

  function Rgba8Pixel(c: (Byte, Byte, Byte, Byte)): (p: Pixel)
    ensures p.r <= c.0 && p.g <= c.1 && p.b <= c.2
    ensures p.r == c.0 * c.3 / 255 && p.g == c.1 * c.3 / 255 && p.b == c.2 * c.3 / 255
    ensures c.3 == 0 ==> p == Black
    ensures c.3 == 255 ==> p == Rgb8Pixel((c.0, c.1, c.2))
  {
    Pixel(ApplyAlpha(c.0, c.3), ApplyAlpha(c.1, c.3), ApplyAlpha(c.2, c.3))
  }

  function Gray16Pixel(v: Word): (p: Pixel)
    ensures p.r == p.g == p.b
    ensures p == Rgb16Pixel((v, v, v))
    ensures p.r * 256 <= v < p.r * 256 + 256
  {
    var b := U16ToU8(v);
    Pixel(b, b, b)
  }

  function GrayAlpha16Pixel(la: (Word, Word)): (p: Pixel)
    ensures p.r == p.g == p.b
    ensures p.r * 256 <= la.0
    ensures p.r == la.0 * la.1 / 65535 / 256
    ensures la.1 == 0 ==> p == Black
    ensures la.1 == 0xFFFF ==> p == Gray16Pixel(la.0)
  {
    var v := U16ToU8(ApplyAlpha16(la.0, la.1));
    Pixel(v, v, v)
  }

  function Rgb16Pixel(c: (Word, Word, Word)): (p: Pixel)
    ensures p.r * 256 <= c.0 < p.r * 256 + 256
    ensures p.g * 256 <= c.1 < p.g * 256 + 256
    ensures p.b * 256 <= c.2 < p.b * 256 + 256
  {
    Pixel(U16ToU8(c.0), U16ToU8(c.1), U16ToU8(c.2))
  }

  function Rgba16Pixel(c: (Word, Word, Word, Word)): (p: Pixel)
    ensures p.r * 256 <= c.0 && p.g * 256 <= c.1 && p.b * 256 <= c.2
    ensures p.r == c.0 * c.3 / 65535 / 256 && p.g == c.1 * c.3 / 65535 / 256 && p.b == c.2 * c.3 / 65535 / 256
    ensures c.3 == 0 ==> p == Black
    ensures c.3 == 0xFFFF ==> p == Rgb16Pixel((c.0, c.1, c.2))
  {
    Pixel(U16ToU8(ApplyAlpha16(c.0, c.3)),
          U16ToU8(ApplyAlpha16(c.1, c.3)),
          U16ToU8(ApplyAlpha16(c.2, c.3)))
  }

  function Rgb32FPixel(c: (real, real, real)): (p: Pixel)
    ensures c.0 <= 0.0 ==> p.r == 0
    ensures c.0 >= 1.0 ==> p.r == 255
    ensures c.1 <= 0.0 ==> p.g == 0
    ensures c.1 >= 1.0 ==> p.g == 255
    ensures c.2 <= 0.0 ==> p.b == 0
    ensures c.2 >= 1.0 ==> p.b == 255
    ensures 0.0 <= c.0 <= 1.0 ==> p.r as real <= c.0 * 255.0 < p.r as real + 1.0
    ensures 0.0 <= c.1 <= 1.0 ==> p.g as real <= c.1 * 255.0 < p.g as real + 1.0
    ensures 0.0 <= c.2 <= 1.0 ==> p.b as real <= c.2 * 255.0 < p.b as real + 1.0
  {
    Pixel(F32ToU8(c.0), F32ToU8(c.1), F32ToU8(c.2))
  }

  /** Each colour channel is multiplied by alpha before the 0..255 scaling. */
  function Rgba32FPixel(c: (real, real, real, real)): (p: Pixel)
    ensures c.3 == 0.0 ==> p == Black
    ensures p == Rgb32FPixel((c.0 * c.3, c.1 * c.3, c.2 * c.3))
    ensures c.3 == 1.0 ==> p == Rgb32FPixel((c.0, c.1, c.2))
  {
    Pixel(F32ToU8(c.0 * c.3), F32ToU8(c.1 * c.3), F32ToU8(c.2 * c.3))
  }

  /** The pixel the float RGBA loop pushes is the per-pixel conversion. */
  lemma PremultipliedPixel(c: (real, real, real, real), p: Pixel)
    requires p == Pixel(F32ToU8(c.0 * c.3), F32ToU8(c.1 * c.3), F32ToU8(c.2 * c.3))
    ensures p == Rgba32FPixel(c)
  {
  }

  // ---------------------------------------------------------------------
  // The per-encoding constructors: one output pixel pushed per input pixel

  method NewGray8(im: ImageBuffer<Byte>) returns (img: Image)
    ensures img.width == im.width && img.height == im.height
    ensures |img.pixels| == |im.data|
    ensures forall i :: 0 <= i < |im.data| ==> img.pixels[i] == Gray8Pixel(im.data[i])
  {
    var pixels: seq<Pixel> := [];
    for i := 0 to |im.data|
      invariant |pixels| == i
      invariant forall k :: 0 <= k < i ==> pixels[k] == Gray8Pixel(im.data[k])
    {
      var v := im.data[i];
      pixels := pixels + [Pixel(v, v, v)];
    }
    img := Image(pixels, im.width, im.height);
  }

  method NewGrayAlpha8(im: ImageBuffer<(Byte, Byte)>) returns (img: Image)
    ensures img.width == im.width && img.height == im.height
    ensures |img.pixels| == |im.data|
    ensures forall i :: 0 <= i < |im.data| ==> img.pixels[i] == GrayAlpha8Pixel(im.data[i])
  {
    var pixels: seq<Pixel> := [];
    for i := 0 to |im.data|
      invariant |pixels| == i
      invariant forall k :: 0 <= k < i ==> pixels[k] == GrayAlpha8Pixel(im.data[k])
    {
      var v := ApplyAlpha(im.data[i].0, im.data[i].1);
      pixels := pixels + [Pixel(v, v, v)];
    }
    img := Image(pixels, im.width, im.height);
  }

  method NewRgb8(im: ImageBuffer<(Byte, Byte, Byte)>) returns (img: Image)
    ensures img.width == im.width && img.height == im.height
    ensures |img.pixels| == |im.data|
    ensures forall i :: 0 <= i < |im.data| ==> img.pixels[i] == Rgb8Pixel(im.data[i])
  {
    var pixels: seq<Pixel> := [];
    for i := 0 to |im.data|
      invariant |pixels| == i
      invariant forall k :: 0 <= k < i ==> pixels[k] == Rgb8Pixel(im.data[k])
    {
      var c := im.data[i];
      pixels := pixels + [Pixel(c.0, c.1, c.2)];
    }
    img := Image(pixels, im.width, im.height);
  }

  method NewRgba8(im: ImageBuffer<(Byte, Byte, Byte, Byte)>) returns (img: Image)
    ensures img.width == im.width && img.height == im.height
    ensures |img.pixels| == |im.data|
    ensures forall i :: 0 <= i < |im.data| ==> img.pixels[i] == Rgba8Pixel(im.data[i])
  {
    var pixels: seq<Pixel> := [];
    for i := 0 to |im.data|
      invariant |pixels| == i
      invariant forall k :: 0 <= k < i ==> pixels[k] == Rgba8Pixel(im.data[k])
    {
      var c := im.data[i];
      pixels := pixels + [Pixel(ApplyAlpha(c.0, c.3), ApplyAlpha(c.1, c.3), ApplyAlpha(c.2, c.3))];
    }
    img := Image(pixels, im.width, im.height);
  }

  method NewGray16(im: ImageBuffer<Word>) returns (img: Image)
    ensures img.width == im.width && img.height == im.height
    ensures |img.pixels| == |im.data|
    ensures forall i :: 0 <= i < |im.data| ==> img.pixels[i] == Gray16Pixel(im.data[i])
  {
    var pixels: seq<Pixel> := [];
    for i := 0 to |im.data|
      invariant |pixels| == i
      invariant forall k :: 0 <= k < i ==> pixels[k] == Gray16Pixel(im.data[k])
    {
      var v := U16ToU8(im.data[i]);
      pixels := pixels + [Pixel(v, v, v)];
    }
    img := Image(pixels, im.width, im.height);
  }

  method NewGrayAlpha16(im: ImageBuffer<(Word, Word)>) returns (img: Image)
    ensures img.width == im.width && img.height == im.height
    ensures |img.pixels| == |im.data|
    ensures forall i :: 0 <= i < |im.data| ==> img.pixels[i] == GrayAlpha16Pixel(im.data[i])
  {
    var pixels: seq<Pixel> := [];
    for i := 0 to |im.data|
      invariant |pixels| == i
      invariant forall k :: 0 <= k < i ==> pixels[k] == GrayAlpha16Pixel(im.data[k])
    {
      var v := U16ToU8(ApplyAlpha16(im.data[i].0, im.data[i].1));
      pixels := pixels + [Pixel(v, v, v)];
    }
    img := Image(pixels, im.width, im.height);
  }

  method NewRgb16(im: ImageBuffer<(Word, Word, Word)>) returns (img: Image)
    ensures img.width == im.width && img.height == im.height
    ensures |img.pixels| == |im.data|
    ensures forall i :: 0 <= i < |im.data| ==> img.pixels[i] == Rgb16Pixel(im.data[i])
  {
    var pixels: seq<Pixel> := [];
    for i := 0 to |im.data|
      invariant |pixels| == i
      invariant forall k :: 0 <= k < i ==> pixels[k] == Rgb16Pixel(im.data[k])
    {
      var c := im.data[i];
      pixels := pixels + [Pixel(U16ToU8(c.0), U16ToU8(c.1), U16ToU8(c.2))];
    }
    img := Image(pixels, im.width, im.height);
  }

  method NewRgba16(im: ImageBuffer<(Word, Word, Word, Word)>) returns (img: Image)
    ensures img.width == im.width && img.height == im.height
    ensures |img.pixels| == |im.data|
    ensures forall i :: 0 <= i < |im.data| ==> img.pixels[i] == Rgba16Pixel(im.data[i])
  {
    var pixels: seq<Pixel> := [];
    for i := 0 to |im.data|
      invariant |pixels| == i
      invariant forall k :: 0 <= k < i ==> pixels[k] == Rgba16Pixel(im.data[k])
    {
      var c := im.data[i];
      pixels := pixels + [Pixel(U16ToU8(ApplyAlpha16(c.0, c.3)),
                                U16ToU8(ApplyAlpha16(c.1, c.3)),
                                U16ToU8(ApplyAlpha16(c.2, c.3)))];
    }
    img := Image(pixels, im.width, im.height);
  }

  method NewRgb32F(im: ImageBuffer<(real, real, real)>) returns (img: Image)
    ensures img.width == im.width && img.height == im.height
    ensures |img.pixels| == |im.data|
    ensures forall i :: 0 <= i < |im.data| ==> img.pixels[i] == Rgb32FPixel(im.data[i])
  {
    var pixels: seq<Pixel> := [];
    for i := 0 to |im.data|
      invariant |pixels| == i
      invariant forall k :: 0 <= k < i ==> pixels[k] == Rgb32FPixel(im.data[k])
    {
      var c := im.data[i];
      pixels := pixels + [Pixel(F32ToU8(c.0), F32ToU8(c.1), F32ToU8(c.2))];
    }
    img := Image(pixels, im.width, im.height);
  }

  method NewRgba32F(im: ImageBuffer<(real, real, real, real)>) returns (img: Image)
    ensures img.width == im.width && img.height == im.height
    ensures |img.pixels| == |im.data|
    ensures forall i :: 0 <= i < |im.data| ==> img.pixels[i] == Rgba32FPixel(im.data[i])
  {
    var pixels: seq<Pixel> := [];
    for i := 0 to |im.data|
      invariant |pixels| == i
      invariant forall k :: 0 <= k < i ==> pixels[k] == Rgba32FPixel(im.data[k])
    {
      var c := im.data[i];
      var r, g, b, a := c.0, c.1, c.2, c.3;
      var p := Pixel(F32ToU8(r * a), F32ToU8(g * a), F32ToU8(b * a));
      PremultipliedPixel(c, p);
      pixels := pixels + [p];
    }
    img := Image(pixels, im.width, im.height);
  }

  // ---------------------------------------------------------------------
  // Dispatch by encoding

  /** The number of input pixels of a raster (0 for an unlisted encoding). */
  function PixelCount(im: DynamicImage): nat
  {
    match im
    case ImageLuma8(b) => |b.data|
    case ImageLumaA8(b) => |b.data|
    case ImageRgb8(b) => |b.data|
    case ImageRgba8(b) => |b.data|
    case ImageLuma16(b) => |b.data|
    case ImageLumaA16(b) => |b.data|
    case ImageRgb16(b) => |b.data|
    case ImageRgba16(b) => |b.data|
    case ImageRgb32F(b) => |b.data|
    case ImageRgba32F(b) => |b.data|
    case Other => 0
  }

  /** The canonical pixel that input pixel `i` of a raster becomes. */
  function ConvertedPixel(im: DynamicImage, i: nat): Pixel
    requires i < PixelCount(im)
  {
    match im
    case ImageLuma8(b) => Gray8Pixel(b.data[i])
    case ImageLumaA8(b) => GrayAlpha8Pixel(b.data[i])
    case ImageRgb8(b) => Rgb8Pixel(b.data[i])
    case ImageRgba8(b) => Rgba8Pixel(b.data[i])
    case ImageLuma16(b) => Gray16Pixel(b.data[i])
    case ImageLumaA16(b) => GrayAlpha16Pixel(b.data[i])
    case ImageRgb16(b) => Rgb16Pixel(b.data[i])
    case ImageRgba16(b) => Rgba16Pixel(b.data[i])
    case ImageRgb32F(b) => Rgb32FPixel(b.data[i])
    case ImageRgba32F(b) => Rgba32FPixel(b.data[i])
  }

  /** The raster's width and height ((0, 0) for an unlisted encoding). */
  function Dimensions(im: DynamicImage): (nat, nat)
  {
    match im
    case ImageLuma8(b) => (b.width, b.height)
    case ImageLumaA8(b) => (b.width, b.height)
    case ImageRgb8(b) => (b.width, b.height)
    case ImageRgba8(b) => (b.width, b.height)
    case ImageLuma16(b) => (b.width, b.height)
    case ImageLumaA16(b) => (b.width, b.height)
    case ImageRgb16(b) => (b.width, b.height)
    case ImageRgba16(b) => (b.width, b.height)
    case ImageRgb32F(b) => (b.width, b.height)
    case ImageRgba32F(b) => (b.width, b.height)
    case Other => (0, 0)
  }

  /** The decoder's guarantee that a raster holds width * height pixels. */
  predicate WellFormed(im: DynamicImage)
  {
    match im
    case ImageLuma8(b) => b.WellFormed()
    case ImageLumaA8(b) => b.WellFormed()
    case ImageRgb8(b) => b.WellFormed()
    case ImageRgba8(b) => b.WellFormed()
    case ImageLuma16(b) => b.WellFormed()
    case ImageLumaA16(b) => b.WellFormed()
    case ImageRgb16(b) => b.WellFormed()
    case ImageRgba16(b) => b.WellFormed()
    case ImageRgb32F(b) => b.WellFormed()
    case ImageRgba32F(b) => b.WellFormed()
    case Other => true
  }

  /** `Image::new`: pick the constructor for the raster's encoding; any
      encoding not listed is an explicit error instead of a panic. */
  method New(im: DynamicImage) returns (res: Result<Image>)
    ensures res.Err? <==> im.Other?
    ensures res.Ok? ==> (res.value.width, res.value.height) == Dimensions(im)
    ensures res.Ok? ==> |res.value.pixels| == PixelCount(im)
    ensures res.Ok? ==> forall i :: 0 <= i < PixelCount(im) ==> res.value.pixels[i] == ConvertedPixel(im, i)
    ensures res.Ok? && WellFormed(im) ==> res.value.Valid()
  {
    var img: Image;
    match im {
      case ImageLuma8(b) => img := NewGray8(b);
      case ImageLumaA8(b) => img := NewGrayAlpha8(b);
      case ImageRgb8(b) => img := NewRgb8(b);
      case ImageRgba8(b) => img := NewRgba8(b);
      case ImageLuma16(b) => img := NewGray16(b);
      case ImageLumaA16(b) => img := NewGrayAlpha16(b);
      case ImageRgb16(b) => img := NewRgb16(b);
      case ImageRgba16(b) => img := NewRgba16(b);
      case ImageRgb32F(b) => img := NewRgb32F(b);
      case ImageRgba32F(b) => img := NewRgba32F(b);
      case Other => return Err(Unimplemented);
    }
    res := Ok(img);
  }

  // ---------------------------------------------------------------------
  // Properties of the conversions

  /** The three worked values of the high-byte reduction. */
  lemma HighByteExamples()
    ensures U16ToU8(0xFFFF) == 0xFF
    ensures U16ToU8(0x0100) == 0x01
    ensures U16ToU8(0x00FF) == 0x00
  {
  }

  /** Fully transparent input is black whatever its colour, in every
      encoding that carries alpha. */
  lemma TransparentIsBlack(im: DynamicImage, i: nat)
    requires i < PixelCount(im)
    requires im.ImageLumaA8? ==> im.lumaA8.data[i].1 == 0
    requires im.ImageRgba8? ==> im.rgba8.data[i].3 == 0
    requires im.ImageLumaA16? ==> im.lumaA16.data[i].1 == 0
    requires im.ImageRgba16? ==> im.rgba16.data[i].3 == 0
    requires im.ImageRgba32F? ==> im.rgba32f.data[i].3 == 0.0
    requires im.ImageLumaA8? || im.ImageRgba8? || im.ImageLumaA16? || im.ImageRgba16? || im.ImageRgba32F?
    ensures ConvertedPixel(im, i) == Black
  {
  }
}
