/** The pixel data the transform works on: an RGB image as width, height and
    its pixels in row-major order, as `Image.getdata()` yields them. */
module Images {

  /** One RGB pixel. The channels are unbounded integers because the shift
      stage accepts any integers; decoded RGB images hold values in [0, 255]. */
  datatype Pixel = Pixel(r: int, g: int, b: int)

  predicate InRange(p: Pixel) {
    0 <= p.r < 256 && 0 <= p.g < 256 && 0 <= p.b < 256
  }

  predicate AllInRange(pixels: seq<Pixel>) {
    forall k :: 0 <= k < |pixels| ==> InRange(pixels[k])
  }

  datatype Image = Image(width: nat, height: nat, pixels: seq<Pixel>)

  /** An image as decoded by the imaging library: one 8-bit RGB pixel per position. */
  predicate Decoded(image: Image) {
    |image.pixels| == image.width * image.height && AllInRange(image.pixels)
  }
}
