/** `process_and_annotate`: the overlay alpha-blended onto the decoded image, in place. */
module Compositing {
  import opened Wrappers
  import opened Images
  import opened OpenCv
  import opened Landmarks
  import opened Measurement
  import opened Outline
  import opened Overlay
  import opened Blending

  /** The loop `for c in range(0, 3): image[:, :, c] = α·overlay[:, :, c] + (1 − α)·image[:, :, c]`. */
  method AlphaComposite(image: array3<uint8>, overlay: array3<uint8>)
    requires image != overlay
    requires overlay.Length0 == image.Length0 && overlay.Length1 == image.Length1 && overlay.Length2 == 4
    requires image.Length2 >= 3
    modifies image
    ensures forall y, x, c :: 0 <= y < image.Length0 && 0 <= x < image.Length1 && 0 <= c < 3 ==>
              image[y, x, c] == Blend(overlay[y, x, 3], overlay[y, x, c], old(image[y, x, c]))
    ensures forall y, x, c :: 0 <= y < image.Length0 && 0 <= x < image.Length1 && 3 <= c < image.Length2 ==>
              image[y, x, c] == old(image[y, x, c])
  {
    for c := 0 to 3
      invariant forall y, x, k :: 0 <= y < image.Length0 && 0 <= x < image.Length1 && 0 <= k < c ==>
                  image[y, x, k] == Blend(overlay[y, x, 3], overlay[y, x, k], old(image[y, x, k]))
      invariant forall y, x, k :: 0 <= y < image.Length0 && 0 <= x < image.Length1 && c <= k < image.Length2 ==>
                  image[y, x, k] == old(image[y, x, k])
    {
      forall y, x | 0 <= y < image.Length0 && 0 <= x < image.Length1 {
        image[y, x, c] := Blend(overlay[y, x, 3], overlay[y, x, c], image[y, x, c]);
      }
    }
  }

  /** `process_image` can fail only one way. */
  datatype Error = CouldNotDecode

  /** The decode check of `process_image`: `cv2.imdecode` gave nothing is an error, otherwise the image goes on. */
  function ProcessImage(decoded: Option<array3<uint8>>): (r: Result<array3<uint8>, Error>)
    ensures r.Failure? <==> decoded.None?
    ensures r.Failure? ==> r.error == CouldNotDecode
    ensures r.Success? ==> r.value == decoded.value
  {
    match decoded
    case None => Failure(CouldNotDecode)
    case Some(image) => Success(image)
  }

  /** `process_and_annotate`: decode, draw the annotation overlay (default outline colour) and blend it
      onto the image. Every pixel some drawing call painted takes that call's colour; every other pixel is
      left as decoded. `decoded` is what `cv2.imdecode` returned; `matte` and `faces` what the matting
      service and the face landmarker returned for the decoded image. */
  method ProcessAndAnnotate(cv: Library, decoded: Option<array3<uint8>>, matte: Option<Image>, faces: seq<Face>)
    returns (result: Result<(array3<uint8>, map<string, Distance>), Error>)
    requires decoded.Some? ==> decoded.value.Length2 == 3
    requires matte.Some? ==> matte.value.Valid()
    requires WellFormed(faces)
    modifies if decoded.Some? then {decoded.value} else {}
    ensures result.Failure? <==> decoded.None?
    ensures result.Failure? ==> result.error == CouldNotDecode
    ensures result.Success? ==>
              var image := decoded.value;
              var marks := Marks(cv, image.Length0, image.Length1, DefaultOutline, matte, faces);
              result.value.0 == image &&
              result.value.1 == Measure(faces, image.Length1, image.Length0) &&
              forall y, x, c :: 0 <= y < image.Length0 && 0 <= x < image.Length1 && 0 <= c < 3 ==>
                image[y, x, c] == if Covered(cv, marks, Pixel(x, y))
                                  then PixelAfter(cv, marks, Pixel(x, y)).Channel(c)
                                  else old(image[y, x, c])
  {
    var decodedImage := ProcessImage(decoded);
    if decodedImage.Failure? {
      return Failure(decodedImage.error);
    }
    var image := decodedImage.value;
    var height, width := image.Length0, image.Length1;
    var overlay, data := CreateAnnotationOverlay(cv, height, width, DefaultOutline, matte, faces);
    ghost var marks := Marks(cv, height, width, DefaultOutline, matte, faces);
    AlphaComposite(image, overlay);
    MarksOpaque(cv, height, width, DefaultOutline, matte, faces);
    forall y, x | 0 <= y < height && 0 <= x < width
      ensures overlay[y, x, 3] == if Covered(cv, marks, Pixel(x, y)) then 255 else 0
    {
      AlphaBinary(cv, marks, Pixel(x, y));
    }
    result := Success((image, data));
  }
}
