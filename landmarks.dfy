/** The landmark adapter: face-landmarker output turned into pixel-space iris positions. */
module Landmarks {
  import opened Wrappers
  import opened Images

  /** A detector landmark in normalised coordinates (each axis relative to the image size). */
  datatype Landmark = Landmark(x: real, y: real)

  /** The landmarks of one detected face, indexed as the face landmarker numbers them. */
  type Face = seq<Landmark>

  const LeftIrisCenter: nat := 468
  const RightIrisCenter: nat := 473

  /** `face_results.face_landmarks` is truthy: at least one face was found. */
  predicate Detected(faces: seq<Face>) {
    |faces| > 0
  }

  /** The face landmarker's output carries both iris centres for the first face it reports. */
  predicate WellFormed(faces: seq<Face>) {
    Detected(faces) ==> |faces[0]| > RightIrisCenter
  }

  /** A normalised landmark in the pixel space of a `width` × `height` image: `(x·w, y·h)`. */
  function ToPixel(l: Landmark, width: nat, height: nat): Point {
    Point(l.x * width as real, l.y * height as real)
  }

  /** The conversion back to normalised coordinates, an independent reference for `ToPixel`. */
  function ToNormalised(p: Point, width: nat, height: nat): Landmark
    requires width > 0 && height > 0
  {
    Landmark(p.x / width as real, p.y / height as real)
  }

  /** No information is lost going to pixel space of a non-empty image. */
  lemma ToPixelRoundTrip(l: Landmark, width: nat, height: nat)
    requires width > 0 && height > 0
    ensures ToNormalised(ToPixel(l, width, height), width, height) == l
  {
  }

  /** A landmark inside the unit square lands inside the image frame. */
  lemma ToPixelInFrame(l: Landmark, width: nat, height: nat)
    requires 0.0 <= l.x <= 1.0 && 0.0 <= l.y <= 1.0
    ensures 0.0 <= ToPixel(l, width, height).x <= width as real
    ensures 0.0 <= ToPixel(l, width, height).y <= height as real
  {
    var w, h := width as real, height as real;
    assert l.x * w <= 1.0 * w;
    assert l.y * h <= 1.0 * h;
  }

  /** `get_iris_landmarks`: both iris centres of the first face in pixel space, or neither when no
      face was detected. */
  function IrisLandmarks(faces: seq<Face>, width: nat, height: nat): (eyes: (Option<Point>, Option<Point>))
    requires WellFormed(faces)
    ensures eyes.0.Some? <==> Detected(faces)
    ensures eyes.1.Some? <==> Detected(faces)
    ensures Detected(faces) ==>
              eyes.0.value == ToPixel(faces[0][LeftIrisCenter], width, height) &&
              eyes.1.value == ToPixel(faces[0][RightIrisCenter], width, height)
  {
    if !Detected(faces) then (None, None)
    else
      var face := faces[0];
      (Some(ToPixel(face[LeftIrisCenter], width, height)), Some(ToPixel(face[RightIrisCenter], width, height)))
  }

  /** Python's `int()` on a float: truncation toward zero. */
  function Trunc(r: real): (n: int)
    ensures 0.0 <= r ==> 0 <= n && n as real <= r < n as real + 1.0
    ensures r < 0.0 ==> n <= 0 && n as real - 1.0 < r <= n as real
  {
    if r >= 0.0 then r.Floor else -((-r).Floor)
  }

  /** An eye position as the annotation code takes it: `(int(x·w), int(y·h))`. */
  function EyeLocation(p: Point): Pixel {
    Pixel(Trunc(p.x), Trunc(p.y))
  }

  /** The truncated iris centres of the first face, when a face was detected. */
  function EyeLocations(faces: seq<Face>, width: nat, height: nat): (locs: Option<(Pixel, Pixel)>)
    requires WellFormed(faces)
    ensures locs.Some? <==> Detected(faces)
    ensures Detected(faces) ==>
              locs.value.0 == EyeLocation(ToPixel(faces[0][LeftIrisCenter], width, height)) &&
              locs.value.1 == EyeLocation(ToPixel(faces[0][RightIrisCenter], width, height))
  {
    var (left, right) := IrisLandmarks(faces, width, height);
    if left.Some? && right.Some? then Some((EyeLocation(left.value), EyeLocation(right.value))) else None
  }

  /** An iris centre strictly inside the unit square gives an eye position on a pixel of the image. */
  lemma EyeLocationInImage(l: Landmark, width: nat, height: nat)
    requires 0.0 <= l.x < 1.0 && 0.0 <= l.y < 1.0
    requires width > 0 && height > 0
    ensures 0 <= EyeLocation(ToPixel(l, width, height)).x < width
    ensures 0 <= EyeLocation(ToPixel(l, width, height)).y < height
  {
    ScaleBelow(l.x, width);
    ScaleBelow(l.y, height);
  }

  /** A fraction in [0, 1) of a positive size truncates to an index below that size. */
  lemma ScaleBelow(a: real, size: nat)
    requires 0.0 <= a < 1.0 && size > 0
    ensures 0 <= Trunc(a * size as real) < size
  {
    var s := size as real;
    var p := a * s;
    assert s - p == (1.0 - a) * s;
    ProductSigns(1.0 - a, s);
    ProductSigns(a, s);
    var n := Trunc(p);
    assert 0 <= n && n as real <= p < s;
  }

  lemma ProductSigns(a: real, b: real)
    requires 0.0 <= a && 0.0 < b
    ensures 0.0 <= a * b
    ensures 0.0 < a ==> 0.0 < a * b
  {
  }
}
