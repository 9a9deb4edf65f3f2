/**
 A stand-in for the engine's `Texture2D`: a `width x height` texture whose raw
 texel data is one row-major array of pixels, row `y` occupying the indices
 `y * width .. y * width + width - 1`.
 */
module Texture {

  /** One RGBA32 pixel, four 8-bit channels. */
  datatype Color32 = Color32(r: bv8, g: bv8, b: bv8, a: bv8)

  const Transparent: Color32 := Color32(0, 0, 0, 0)

  class Texture<T> {
    const width: nat
    const height: nat
    /** The raw texel data: the array `GetRawTextureData` hands out. */
    const texels: array<T>

    /** The raw data holds exactly one pixel per coordinate. */
    ghost predicate Valid() {
      texels.Length == width * height
    }

    /** A new texture with every pixel set to `blank`. */
    constructor (width: nat, height: nat, blank: T)
      ensures Valid() && fresh(texels)
      ensures this.width == width && this.height == height
      ensures forall i :: 0 <= i < texels.Length ==> texels[i] == blank
    {
      this.width := width;
      this.height := height;
      texels := new T[width * height](_ => blank);
    }
  }
}
