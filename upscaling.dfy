/**
 * The size arithmetic of `RedditImage.__init__`: whether a small image is
 * upscaled, the size it is resized to, and the pixel size of the title font.
 * Python's `500 / width` and `ceil` are computed exactly, with integer
 * ceiling division.
 */
module Upscaling {
  import opened Results

  /** `image.size`: width and height in pixels. */
  datatype Size = Size(width: nat, height: nat)

  /** `RedditImage.min_size` */
  const MinSize: nat := 500

  /** `RedditImage.font_scale_factor` */
  const FontScaleFactor: nat := 16

  /**
   * `image.size < (min_size, min_size)`: Python compares the two tuples
   * element by element, so the height only matters when the width is exactly
   * `MinSize`.
   */
  predicate NeedsUpscale(s: Size)
  {
    s.width < MinSize || (s.width == MinSize && s.height < MinSize)
  }

  /** The dimension the upscale factor divides by: the width if it is the smaller, else the height. */
  function Base(s: Size): nat
  {
    if s.width < s.height then s.width else s.height
  }

  /** `ceil(a / b)` for exact rationals. */
  function CeilDiv(a: nat, b: nat): (q: nat)
    requires b > 0
    ensures q * b >= a && q * b < a + b
  {
    var q := (a + b - 1) / b;
    assert a + b - 1 == q * b + (a + b - 1) % b;
    q
  }

  /** The images the constructor accepts: `min_size / base` raises ZeroDivisionError on a zero base. */
  predicate Preparable(s: Size)
  {
    !NeedsUpscale(s) || (s.width > 0 && s.height > 0)
  }

  /** `factor = min_size / base` raised a zero base to ZeroDivisionError. */
  datatype UpscaleError = ZeroDivision

  /** The image after the constructor's resize step, and whether it was resized. */
  datatype Prepared = Prepared(size: Size, upscaled: bool)

  /**
   * The resize step of `__init__`: an image that compares below `(500, 500)`
   * is resized by `500 / base` in both dimensions, rounded up; any other image
   * is kept as it is.
   */
  function Upscale(s: Size): (r: Result<Prepared, UpscaleError>)
    ensures r.Success? <==> Preparable(s)
    ensures r.Success? ==> (r.value.upscaled <==> NeedsUpscale(s))
    ensures !NeedsUpscale(s) ==> r == Success(Prepared(s, false))
    ensures r.Success? && r.value.upscaled ==>
      var t := r.value.size;
      (if s.width < s.height then t.width == MinSize else t.height == MinSize)
      && t.width >= MinSize && t.height >= MinSize
      && t.width >= s.width && t.height >= s.height
  {
    if !NeedsUpscale(s) then Success(Prepared(s, false))
    else
      var base := Base(s);
      if base == 0 then Failure(ZeroDivision)
      else
        var t := Size(CeilDiv(s.width * MinSize, base), CeilDiv(s.height * MinSize, base));
        UpscaleBounds(s);
        Success(Prepared(t, true))
  }

  /** Cancelling a positive factor on both sides of `<=`. */
  lemma CancelFactor(c: int, q: int, b: nat)
    requires b > 0 && c * b <= q * b
    ensures c <= q
  {
    assert (q - c) * b == q * b - c * b;
  }

  /** Scaling `x` by `MinSize / base` gives exactly `MinSize` for the base and at least `MinSize` for a larger side. */
  lemma ScaleBase(x: nat, base: nat)
    requires 0 < base <= x
    ensures CeilDiv(x * MinSize, base) >= MinSize
    ensures x == base ==> CeilDiv(x * MinSize, base) == MinSize
  {
    ScaleAtLeast(x, base);
    if x == base {
      ScaleExact(base);
    }
  }

  lemma ScaleAtLeast(x: nat, base: nat)
    requires 0 < base <= x
    ensures CeilDiv(x * MinSize, base) >= MinSize
  {
    var q := CeilDiv(x * MinSize, base);
    assert MinSize * base <= x * MinSize;
    CancelFactor(MinSize, q, base);
  }

  lemma ScaleExact(base: nat)
    requires 0 < base
    ensures CeilDiv(base * MinSize, base) == MinSize
  {
    var q := CeilDiv(base * MinSize, base);
    assert base * MinSize == MinSize * base;
    CancelFactor(MinSize, q, base);
    assert (MinSize + 1) * base == MinSize * base + base;
    if q > MinSize {
      MulMono(MinSize + 1, q, base);
      assert false;
    }
  }

  /** Multiplying by a natural number keeps `<=`. */
  lemma MulMono(c: nat, q: nat, b: nat)
    requires c <= q
    ensures c * b <= q * b
  {
    var k: nat := q - c;
    assert q * b == c * b + k * b;
  }

  /** A factor of at least one never shrinks a side. */
  lemma ScaleGrows(x: nat, base: nat)
    requires 0 < base <= MinSize
    ensures CeilDiv(x * MinSize, base) >= x
  {
    var q := CeilDiv(x * MinSize, base);
    assert x * base <= x * MinSize;
    CancelFactor(x, q, base);
  }

  lemma UpscaleBounds(s: Size)
    requires NeedsUpscale(s) && Base(s) > 0
    ensures var base := Base(s);
      var t := Size(CeilDiv(s.width * MinSize, base), CeilDiv(s.height * MinSize, base));
      (if s.width < s.height then t.width == MinSize else t.height == MinSize)
      && t.width >= MinSize && t.height >= MinSize
      && t.width >= s.width && t.height >= s.height
  {
    var base := Base(s);
    ScaleBase(s.width, base);
    ScaleBase(s.height, base);
    ScaleGrows(s.width, base);
    ScaleGrows(s.height, base);
  }

  /** `self._width // self.font_scale_factor` */
  function FontSize(width: nat): (n: nat)
    ensures n * FontScaleFactor <= width < (n + 1) * FontScaleFactor
  {
    width / FontScaleFactor
  }

  /** After the resize step every image that was upscaled is at least `MinSize` wide, so its title font is at least 31 pixels. */
  lemma UpscaledFont(s: Size)
    requires Upscale(s).Success? && Upscale(s).value.upscaled
    ensures FontSize(Upscale(s).value.size.width) >= MinSize / FontScaleFactor
  {
  }

  /** A wide but short image, 800 by 300, compares above `(500, 500)` and is not upscaled, although its height is below 500. */
  lemma WideShortNotUpscaled(s: Size)
    requires s == Size(800, 300)
    ensures Upscale(s) == Success(Prepared(s, false))
  {
  }

  /** A 500 by 499 image compares below `(500, 500)`: its height is the base and becomes 500, and its width rounds up to 502. */
  lemma AlmostSquareUpscaled(s: Size)
    requires s == Size(500, 499)
    ensures Upscale(s) == Success(Prepared(Size(502, 500), true))
  {
    assert Base(s) == 499;
    assert CeilDiv(500 * MinSize, 499) == 502 by {
      var q := CeilDiv(500 * MinSize, 499);
      assert q * 499 >= 250000 && q * 499 < 250499;
      CancelFactor(502, q, 499);
      CancelFactor(q + 1, 503, 499);
    }
  }
}
