/** `align_images`: the moving image brought onto the reference image's frame, by an iris-based
    partial-affine warp when both images show a face, and by a plain resize otherwise. */
module Alignment {
  import opened Wrappers
  import opened Images
  import opened OpenCv
  import opened Landmarks

  /** The midpoint of the two eyes, `eyes_center`. */
  function EyesCenter(l: Point, r: Point): (c: Point)
    ensures c.x - l.x == r.x - c.x && c.y - l.y == r.y - c.y
  {
    Point((l.x + r.x) / 2.0, (l.y + r.y) / 2.0)
  }

  /** The point list handed to the estimator for one image: left iris, right iris, their midpoint. */
  function IrisCorrespondence(l: Point, r: Point): seq<Point> {
    [l, r, EyesCenter(l, r)]
  }

  /** The iris point list of a detected face in an image of `width` × `height`. */
  function IrisPoints(faces: seq<Face>, width: nat, height: nat): seq<Point>
    requires WellFormed(faces) && Detected(faces)
  {
    IrisCorrespondence(ToPixel(faces[0][LeftIrisCenter], width, height), ToPixel(faces[0][RightIrisCenter], width, height))
  }

  /** The transform `cv2.estimateAffinePartial2D(pts2, pts1)` from the moving image's iris points to the reference's. */
  function IrisTransform(cv: Library, reference: Image, faces1: seq<Face>, moving: Image, faces2: seq<Face>): Affine
    requires WellFormed(faces1) && Detected(faces1)
    requires WellFormed(faces2) && Detected(faces2)
  {
    cv.estimateAffinePartial2D(IrisPoints(faces2, moving.width, moving.height), IrisPoints(faces1, reference.width, reference.height))
  }

  /** `align_images(img1, img2)`, where `faces1` and `faces2` are what the face landmarker returned for
      `img1` and `img2`. The warp is taken exactly when both images show a face (all four iris points
      exist), and the resize otherwise; either way the result has the reference's height and width. */
  function AlignImages(cv: Library, img1: Image, faces1: seq<Face>, img2: Image, faces2: seq<Face>): (aligned: Image)
    requires WellFormed(faces1) && WellFormed(faces2)
    ensures aligned.Valid()
    ensures aligned.height == img1.height && aligned.width == img1.width && aligned.channels == img2.channels
    ensures Detected(faces1) && Detected(faces2) ==>
              aligned == WarpAffine(cv, img2, IrisTransform(cv, img1, faces1, img2, faces2), img1.width, img1.height)
    ensures !(Detected(faces1) && Detected(faces2)) ==>
              aligned == Resize(cv, img2, img1.width, img1.height)
  {
    var (l1, r1) := IrisLandmarks(faces1, img1.width, img1.height);
    var (l2, r2) := IrisLandmarks(faces2, img2.width, img2.height);
    if l1.Some? && r1.Some? && l2.Some? && r2.Some? then
      var pts1 := IrisCorrespondence(l1.value, r1.value);
      var pts2 := IrisCorrespondence(l2.value, r2.value);
      var m := cv.estimateAffinePartial2D(pts2, pts1);
      WarpAffine(cv, img2, m, img1.width, img1.height)
    else
      Resize(cv, img2, img1.width, img1.height)
  }
}
