/** Pixel buffers, positions and colours as the image processor sees them. */
module Images {

  /** An 8-bit sample, numpy's `uint8`. */
  type uint8 = x: int | 0 <= x < 256

  /** A numpy image held by value: `height` rows of `width` pixels of `channels` samples each.
      A two-dimensional array (a single plane, such as an alpha channel) is the case `channels == 1`. */
  datatype Image = Image(height: nat, width: nat, channels: nat, rows: seq<seq<seq<uint8>>>)
  {
    /** The shape fields describe `rows`. */
    predicate Valid() {
      |rows| == height &&
      forall i :: 0 <= i < |rows| ==>
        |rows[i]| == width && forall j :: 0 <= j < |rows[i]| ==> |rows[i][j]| == channels
    }
  }

  /** The image of the given shape whose sample at (row `i`, column `j`, channel `k`) is `f(i, j, k)`. */
  function Build(height: nat, width: nat, channels: nat, f: (nat, nat, nat) -> uint8): (img: Image)
    ensures img.Valid()
    ensures img.height == height && img.width == width && img.channels == channels
    ensures forall i, j, k :: 0 <= i < height && 0 <= j < width && 0 <= k < channels ==>
              img.rows[i][j][k] == f(i, j, k)
  {
    Image(height, width, channels,
      seq(height, (i: int) requires 0 <= i =>
        seq(width, (j: int) requires 0 <= j =>
          seq(channels, (k: int) requires 0 <= k => f(i, j, k)))))
  }

  /** An integer pixel position in OpenCV's order: column `x`, row `y`. */
  datatype Pixel = Pixel(x: int, y: int)

  /** A pixel-space position with real coordinates (the source's pairs of floats). */
  datatype Point = Point(x: real, y: real)

  /** A colour in OpenCV's blue, green, red order. */
  datatype Bgr = Bgr(b: uint8, g: uint8, r: uint8)

  /** A colour with an alpha sample, as the four channels of an overlay pixel. */
  datatype Bgra = Bgra(b: uint8, g: uint8, r: uint8, a: uint8)
  {
    /** Channel `k` of the pixel, in buffer order. */
    function Channel(k: nat): uint8
      requires k < 4
    {
      if k == 0 then b else if k == 1 then g else if k == 2 then r else a
    }
  }

  /** A BGR colour drawn fully opaque: `(*color, 255)`. */
  function Opaque(c: Bgr): (q: Bgra)
    ensures q.a == 255 && q.Channel(0) == c.b && q.Channel(1) == c.g && q.Channel(2) == c.r
  {
    Bgra(c.b, c.g, c.r, 255)
  }

  /** The colour of an overlay pixel nothing was drawn on: `np.zeros`. */
  const Transparent := Bgra(0, 0, 0, 0)

  /** The smaller of two integers. */
  function Min(a: int, b: int): int {
    if a <= b then a else b
  }

  /** The larger of two integers. */
  function Max(a: int, b: int): int {
    if a <= b then b else a
  }
}
