/**
 * Machine integer ranges, RGBA pixels and the colour constants of
 * src/palette.rs.
 */
module Pixels {

  const U8_LIMIT: int := 0x100
  const U32_LIMIT: int := 0x1_0000_0000
  const USIZE_LIMIT: int := 0x1_0000_0000_0000_0000

  type U8 = x: int | 0 <= x < U8_LIMIT
  type U32 = x: int | 0 <= x < U32_LIMIT
  /** `usize` on a 64-bit target. */
  type USize = x: int | 0 <= x < USIZE_LIMIT

  /** Rust's `n as u32` on a `usize`: keeps the low 32 bits. */
  function AsU32(n: USize): (r: U32)
    ensures n < U32_LIMIT ==> r == n
    ensures r <= n
  {
    n % U32_LIMIT
  }

  datatype Rgba = Rgba(r: U8, g: U8, b: U8, a: U8)

  /** Width and height of an image. */
  datatype Dims = Dims(width: U32, height: U32)

  const BLACK: Rgba := Rgba(0, 0, 0, 255)
  const TRANSPARENT: Rgba := Rgba(0, 0, 0, 0)
  const YELLOW: Rgba := Rgba(255, 255, 0, 255)
  const ORANGE: Rgba := Rgba(255, 144, 0, 255)
  const GREEN: Rgba := Rgba(0, 255, 28, 255)

  /** A pixel that is either fully transparent or fully opaque. */
  predicate BinaryAlpha(p: Rgba) {
    p.a == 0 || p.a == 255
  }

  /**
   * The merge overlay of one source pixel onto one destination pixel, for a
   * source whose alpha is 0 or 255: an opaque source replaces the
   * destination, a transparent one leaves it as it was.
   */
  function Merge(dst: Rgba, src: Rgba): (out: Rgba)
    requires BinaryAlpha(src)
    ensures out == (if src.a == 0 then dst else src)
  {
    if src.a == 255 then src else dst
  }
}
