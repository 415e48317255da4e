/** The pupil-distance measurement recorded in the annotation `data` mapping. */
module Measurement {
  import opened Wrappers
  import opened Images
  import opened Landmarks

  const PupilDistanceKey := "pupil_distance_pixels"

  /** A Euclidean pixel distance, held exactly as its square: the distance is √squared.
      Between integer eye positions the square is an integer. */
  datatype Distance = Distance(squared: nat)

  function Square(d: int): nat {
    d * d
  }

  /** `dx² + dy²` between two eye positions. */
  function SquaredDistance(a: Pixel, b: Pixel): nat {
    Square(a.x - b.x) + Square(a.y - b.y)
  }

  /** The distance does not depend on which eye is called left. */
  lemma SquaredDistanceSymmetric(a: Pixel, b: Pixel)
    ensures SquaredDistance(a, b) == SquaredDistance(b, a)
  {
  }

  /** The distance is zero exactly when the two positions coincide. */
  lemma SquaredDistanceZeroIff(a: Pixel, b: Pixel)
    ensures SquaredDistance(a, b) == 0 <==> a == b
  {
  }

  /** Moving both eyes by the same offset leaves the distance unchanged. */
  lemma SquaredDistanceTranslationInvariant(a: Pixel, b: Pixel, dx: int, dy: int)
    ensures SquaredDistance(Pixel(a.x + dx, a.y + dy), Pixel(b.x + dx, b.y + dy)) == SquaredDistance(a, b)
  {
  }

  /** The `data` mapping of `create_annotation_overlay`: the pupil distance between the truncated
      iris centres when a face was detected, and nothing otherwise. */
  function Measure(faces: seq<Face>, width: nat, height: nat): (data: map<string, Distance>)
    requires WellFormed(faces)
    ensures data.Keys <= {PupilDistanceKey}
    ensures PupilDistanceKey in data <==> Detected(faces)
    ensures Detected(faces) ==>
              var l := EyeLocation(ToPixel(faces[0][LeftIrisCenter], width, height));
              var r := EyeLocation(ToPixel(faces[0][RightIrisCenter], width, height));
              data[PupilDistanceKey].squared == Square(l.x - r.x) + Square(l.y - r.y)
  {
    match EyeLocations(faces, width, height)
    case None => map[]
    case Some((l, r)) => map[PupilDistanceKey := Distance(SquaredDistance(l, r))]
  }

  /** The `X-Pupil-Distance-Px` header value: the recorded distance, or 0 when none was recorded. */
  function PupilDistanceHeader(data: map<string, Distance>): Distance {
    if PupilDistanceKey in data then data[PupilDistanceKey] else Distance(0)
  }

  /** The header's value is 0 exactly when no face was found or the two eye positions coincide. */
  lemma PupilDistanceHeaderZeroIff(faces: seq<Face>, width: nat, height: nat)
    requires WellFormed(faces)
    ensures PupilDistanceHeader(Measure(faces, width, height)).squared == 0 <==>
              !Detected(faces) || EyeLocations(faces, width, height).value.0 == EyeLocations(faces, width, height).value.1
  {
    if Detected(faces) {
      var locs := EyeLocations(faces, width, height).value;
      SquaredDistanceZeroIff(locs.0, locs.1);
    }
  }
}
