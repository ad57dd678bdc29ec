/**
 * The image primitives the program borrows from its imaging library:
 * pixel buffers (`Image::new`, `map_in_place`, the merge `Paste`) and, for
 * the tile and board layers whose pixels are not modelled, a composition
 * that records which image was pasted where.
 *
 * An image is a two-dimensional array indexed `[x, y]`: `Length0` is the
 * width and `Length1` the height.
 */
module Canvas {
  import opened Pixels

  type Image = array2<Rgba>

  /** `Image::new(width, height, fill)`. */
  method NewImage(width: nat, height: nat, fill: Rgba) returns (image: Image)
    ensures fresh(image)
    ensures image.Length0 == width && image.Length1 == height
    ensures forall x, y :: 0 <= x < width && 0 <= y < height ==> image[x, y] == fill
  {
    image := new Rgba[width, height]((x, y) => fill);
  }

  /** `map_in_place`: replaces every pixel `p` at `(x, y)` by `f(x, y, p)`. */
  method MapInPlace(image: Image, f: (nat, nat, Rgba) -> Rgba)
    modifies image
    ensures forall x, y :: 0 <= x < image.Length0 && 0 <= y < image.Length1 ==>
      image[x, y] == f(x, y, old(image[x, y]))
  {
    var y := 0;
    while y < image.Length1
      invariant 0 <= y <= image.Length1
      invariant forall i, j :: 0 <= i < image.Length0 && 0 <= j < y ==> image[i, j] == f(i, j, old(image[i, j]))
      invariant forall i, j :: 0 <= i < image.Length0 && y <= j < image.Length1 ==> image[i, j] == old(image[i, j])
    {
      var x := 0;
      while x < image.Length0
        invariant 0 <= x <= image.Length0
        invariant forall i, j :: 0 <= i < image.Length0 && 0 <= j < y ==> image[i, j] == f(i, j, old(image[i, j]))
        invariant forall i :: 0 <= i < x ==> image[i, y] == f(i, y, old(image[i, y]))
        invariant forall i, j :: 0 <= i < image.Length0 && y <= j < image.Length1 && (j > y || i >= x) ==> image[i, j] == old(image[i, j])
      {
        image[x, y] := f(x, y, image[x, y]);
        x := x + 1;
      }
      y := y + 1;
    }
  }

  /** Whether `(x, y)` of the destination is covered by `src` pasted at `(ox, oy)`. */
  predicate Covers(src: Image, ox: nat, oy: nat, x: nat, y: nat) {
    ox <= x < ox + src.Length0 && oy <= y < oy + src.Length1
  }

  /**
   * A merge `Paste` of `src` onto `dst` at `(ox, oy)`, for a source whose
   * alphas are all 0 or 255; the part of `src` outside `dst` is clipped.
   */
  method Paste(dst: Image, src: Image, ox: nat, oy: nat)
    requires dst != src
    requires forall x, y :: 0 <= x < src.Length0 && 0 <= y < src.Length1 ==> BinaryAlpha(src[x, y])
    modifies dst
    ensures forall x, y :: 0 <= x < dst.Length0 && 0 <= y < dst.Length1 ==>
      dst[x, y] == if Covers(src, ox, oy, x, y) then Merge(old(dst[x, y]), src[x - ox, y - oy]) else old(dst[x, y])
  {
    var y := 0;
    while y < dst.Length1
      invariant 0 <= y <= dst.Length1
      invariant forall i, j :: 0 <= i < dst.Length0 && 0 <= j < y ==>
        dst[i, j] == if Covers(src, ox, oy, i, j) then Merge(old(dst[i, j]), src[i - ox, j - oy]) else old(dst[i, j])
      invariant forall i, j :: 0 <= i < dst.Length0 && y <= j < dst.Length1 ==> dst[i, j] == old(dst[i, j])
    {
      var x := 0;
      while x < dst.Length0
        invariant 0 <= x <= dst.Length0
        invariant forall i, j :: 0 <= i < dst.Length0 && 0 <= j < y ==>
          dst[i, j] == if Covers(src, ox, oy, i, j) then Merge(old(dst[i, j]), src[i - ox, j - oy]) else old(dst[i, j])
        invariant forall i :: 0 <= i < x ==>
          dst[i, y] == if Covers(src, ox, oy, i, y) then Merge(old(dst[i, y]), src[i - ox, y - oy]) else old(dst[i, y])
        invariant forall i, j :: 0 <= i < dst.Length0 && y <= j < dst.Length1 && (j > y || i >= x) ==> dst[i, j] == old(dst[i, j])
      {
        if Covers(src, ox, oy, x, y) {
          dst[x, y] := Merge(dst[x, y], src[x - ox, y - oy]);
        }
        x := x + 1;
      }
      y := y + 1;
    }
  }

  /** Where an image was pasted, how large it is, and what it shows. */
  datatype Placement<+L> = Placement(x: int, y: int, width: int, height: int, layer: L)

  /**
   * An output image whose pixels are not modelled: its size, the image it
   * starts from, and the images drawn onto it with the merge overlay, in
   * drawing order (later entries are drawn over earlier ones).
   */
  class Composition<L> {
    const width: nat
    const height: nat
    /** The image the composition starts from. */
    const base: L
    var layers: seq<Placement<L>>

    constructor (width: nat, height: nat, base: L)
      ensures this.width == width && this.height == height && this.base == base
      ensures layers == []
    {
      this.width := width;
      this.height := height;
      this.base := base;
      layers := [];
    }

    /** `image.draw(&Paste { position: (p.x, p.y), .. })`. */
    method Draw(p: Placement<L>)
      modifies this
      ensures layers == old(layers) + [p]
    {
      layers := layers + [p];
    }
  }
}
