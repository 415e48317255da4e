/** The OpenCV calls the image processor makes, as abstract functions.
    Nothing of their internals is modelled: a resize or a warp yields some sample at every position of
    the output shape it was asked for, contour tracing yields some contours, and a drawing call paints
    some set of pixels. */
module OpenCv {
  import opened Images

  /** A polygon as `cv2.findContours` returns it. */
  type Contour = seq<Pixel>

  /** A 2×3 affine matrix `[[m00, m01, m02], [m10, m11, m12]]`. */
  datatype Affine = Affine(m00: real, m01: real, m02: real, m10: real, m11: real, m12: real)

  /** What one drawing call draws. */
  datatype Figure =
    | Contours(contours: seq<Contour>, thickness: nat)               // cv2.drawContours(img, cs, -1, colour, thickness)
    | Disc(center: Pixel, radius: nat)                                // cv2.circle(img, center, radius, colour, -1)
    | Segment(tail: Pixel, head: Pixel, thickness: nat)              // cv2.line(img, tail, head, colour, thickness)
    | Label(origin: Pixel, squaredDistance: nat, scale: real, thickness: nat)
      // cv2.putText of the distance label, FONT_HERSHEY_SIMPLEX; the text reports the distance √squaredDistance

  /** The library, as the functions the model consults. */
  datatype Library = Library(
    // cv2.resize(src, (width, height)): the output sample at (row, column, channel)
    resize: (Image, nat, nat, nat, nat, nat) -> uint8,
    // cv2.estimateAffinePartial2D(from, to): a rotation + uniform scale + translation
    estimateAffinePartial2D: (seq<Point>, seq<Point>) -> Affine,
    // cv2.warpAffine(src, m, (width, height)): the output sample at (row, column, channel)
    warpAffine: (Image, Affine, nat, nat, nat, nat, nat) -> uint8,
    // cv2.findContours(mask, RETR_EXTERNAL, CHAIN_APPROX_SIMPLE)
    findExternalContours: Image -> seq<Contour>,
    // the pixels a drawing call sets to its colour (OpenCV's default 8-connected, non-antialiased lines)
    raster: Figure -> set<Pixel>)

  /** `cv2.resize(src, (width, height))`: an image of exactly the requested size, with the source's channels. */
  function Resize(cv: Library, src: Image, width: nat, height: nat): (r: Image)
    ensures r.Valid() && r.height == height && r.width == width && r.channels == src.channels
  {
    Build(height, width, src.channels, (i, j, k) => cv.resize(src, width, height, i, j, k))
  }

  /** `cv2.warpAffine(src, m, (width, height))`: an image of exactly the requested size, with the source's channels. */
  function WarpAffine(cv: Library, src: Image, m: Affine, width: nat, height: nat): (r: Image)
    ensures r.Valid() && r.height == height && r.width == width && r.channels == src.channels
  {
    Build(height, width, src.channels, (i, j, k) => cv.warpAffine(src, m, width, height, i, j, k))
  }
}
