/**
 * The text renderer of src/text.rs: a label is rasterised in black,
 * thresholded to binary alpha, pasted once at (1, 1) as a shadow, recoloured
 * and pasted again at (0, 0) as the foreground.
 *
 * The font and its glyph layout belong to the imaging library; the model
 * receives the layout's dimensions and the pixels the rasteriser leaves on a
 * transparent canvas (`glyphs(x, y)`).
 */
module Text {
  import opened Pixels
  import opened Canvas

  /** The alpha cutoff `render` passes to `alpha_threshold` on every call. */
  const PIXELATION_CUTOFF: U8 := 140

  /** The threshold applied to one pixel by `alpha_threshold`. */
  function Threshold(p: Rgba, cutoff: U8): (q: Rgba)
    ensures BinaryAlpha(q)
    ensures q.r == p.r && q.g == p.g && q.b == p.b
    ensures q.a == 0 <==> p.a <= cutoff
  {
    if p.a <= cutoff then p.(a := 0) else p.(a := 255)
  }

  /** Thresholding a thresholded pixel changes nothing. */
  lemma ThresholdIdempotent(p: Rgba, cutoff: U8)
    ensures Threshold(Threshold(p, cutoff), cutoff) == Threshold(p, cutoff)
  {
  }

  /**
   * `alpha_threshold`: every pixel whose alpha is at most `cutoff` becomes
   * fully transparent, every other one fully opaque; colours are kept.
   */
  method AlphaThreshold(image: Image, cutoff: U8)
    modifies image
    ensures forall x, y :: 0 <= x < image.Length0 && 0 <= y < image.Length1 ==>
      image[x, y] == Threshold(old(image[x, y]), cutoff)
    ensures forall x, y :: 0 <= x < image.Length0 && 0 <= y < image.Length1 ==> BinaryAlpha(image[x, y])
  {
    MapInPlace(image, (x, y, p) => Threshold(p, cutoff));
  }

  /** The recolouring closure of `render`, applied to one pixel. */
  function Recolour(p: Rgba, color: Rgba): (q: Rgba)
    ensures q.a == p.a
    ensures p == TRANSPARENT ==> q == p
    ensures p != TRANSPARENT ==> q.r == color.r && q.g == color.g && q.b == color.b
  {
    if p != TRANSPARENT then p.(r := color.r, g := color.g, b := color.b) else p
  }

  /** The size of the image `render` returns for a layout of the given size. */
  function LabelSize(layout: Dims): (d: Dims)
    requires layout.width < U32_LIMIT - 1 && layout.height < U32_LIMIT - 1
    ensures d.width == layout.width + 1 && d.height == layout.height + 1
  {
    Dims(layout.width + 1, layout.height + 1)
  }

  /**
   * The pixel at `(x, y)` of a rendered label, composed as `render` composes
   * it: the thresholded stamp merged at (1, 1) over transparency, then the
   * recoloured stamp merged at (0, 0) over that.
   */
  function LabelPixel(glyphs: (nat, nat) -> Rgba, color: Rgba, x: nat, y: nat): Rgba {
    var shadow := if 1 <= x && 1 <= y then Merge(TRANSPARENT, Threshold(glyphs(x - 1, y - 1), PIXELATION_CUTOFF)) else TRANSPARENT;
    Merge(shadow, Recolour(Threshold(glyphs(x, y), PIXELATION_CUTOFF), color))
  }

  /**
   * What a label pixel is: the requested colour, opaque, where the glyph is
   * opaque after thresholding; otherwise the shadow (the glyph one pixel up
   * and left, made opaque) where that is opaque; otherwise transparent.
   */
  lemma LabelPixelForegroundOverShadow(glyphs: (nat, nat) -> Rgba, color: Rgba, x: nat, y: nat)
    ensures glyphs(x, y).a > PIXELATION_CUTOFF ==>
      LabelPixel(glyphs, color, x, y) == Rgba(color.r, color.g, color.b, 255)
    ensures glyphs(x, y).a <= PIXELATION_CUTOFF && 1 <= x && 1 <= y && glyphs(x - 1, y - 1).a > PIXELATION_CUTOFF ==>
      LabelPixel(glyphs, color, x, y) == glyphs(x - 1, y - 1).(a := 255)
    ensures glyphs(x, y).a <= PIXELATION_CUTOFF && !(1 <= x && 1 <= y && glyphs(x - 1, y - 1).a > PIXELATION_CUTOFF) ==>
      LabelPixel(glyphs, color, x, y) == TRANSPARENT
  {
  }

  /**
   * `TextRenderer::render`: draws a label whose glyph layout has the given
   * size into an image one pixel wider and taller, with the shadow and the
   * foreground as `LabelPixel` describes.
   */
  method Render(layout: Dims, glyphs: (nat, nat) -> Rgba, color: Rgba) returns (textImage: Image)
    requires layout.width < U32_LIMIT - 1 && layout.height < U32_LIMIT - 1
    ensures fresh(textImage)
    ensures textImage.Length0 == LabelSize(layout).width && textImage.Length1 == LabelSize(layout).height
    ensures forall x, y :: 0 <= x < textImage.Length0 && 0 <= y < textImage.Length1 ==>
      textImage[x, y] == LabelPixel(glyphs, color, x, y)
  {
    var textWidth, textHeight := layout.width + 1, layout.height + 1;
    var template := NewImage(textWidth, textHeight, TRANSPARENT);
    textImage := NewImage(textWidth, textHeight, TRANSPARENT);
    // drawing the layout: the rasteriser's output replaces the transparent fill
    MapInPlace(template, (x: nat, y: nat, p: Rgba) => glyphs(x, y));
    AlphaThreshold(template, PIXELATION_CUTOFF);
    Paste(textImage, template, 1, 1);
    MapInPlace(template, (x, y, p) => Recolour(p, color));
    Paste(textImage, template, 0, 0);
  }
}
