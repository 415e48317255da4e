/** `create_annotation_overlay`: the decisions about what is drawn on a transparent BGRA overlay,
    the overlay those drawing calls produce, and the measurement `data` filled alongside. */
module Overlay {
  import opened Wrappers
  import opened Images
  import opened OpenCv
  import opened Landmarks
  import opened Measurement
  import opened Outline

  /** A figure and the colour it is drawn in. */
  datatype Mark = Mark(figure: Figure, color: Bgra)

  /** The default outline colour, yellow in BGR order. */
  const DefaultOutline := Bgr(0, 255, 255)
  const EyeColor := Bgra(0, 0, 255, 255)
  const LineColor := Bgra(255, 0, 0, 255)
  const LabelColor := Bgra(255, 255, 0, 255)

  const OutlineThickness: nat := 2
  const EyeRadius: nat := 3
  const LineThickness: nat := 1
  const LabelScale: real := 0.7
  const LabelThickness: nat := 2
  const LabelRaise: int := 10

  /** Where the distance label starts: at the leftmost eye's column, `LabelRaise` rows above the higher eye. */
  function LabelAnchor(left: Pixel, right: Pixel): (p: Pixel)
    ensures p.x <= left.x && p.x <= right.x && (p.x == left.x || p.x == right.x)
    ensures p.y + LabelRaise <= left.y && p.y + LabelRaise <= right.y
    ensures p.y + LabelRaise == left.y || p.y + LabelRaise == right.y
  {
    Pixel(Min(left.x, right.x), Min(left.y, right.y) - LabelRaise)
  }

  /** The outline stroke, drawn when a mask is available: every external contour traced from the mask,
      stroked `OutlineThickness` wide in the caller's colour made opaque. */
  function OutlineMarks(cv: Library, mask: Option<Image>, color: Bgr): (marks: seq<Mark>)
    ensures |marks| == (if mask.Some? then 1 else 0)
    ensures AllOpaque(marks)
    ensures mask.Some? ==>
              marks[0].figure == Contours(cv.findExternalContours(mask.value), OutlineThickness) &&
              marks[0].color == Opaque(color)
  {
    match mask
    case None => []
    case Some(m) => [Mark(Contours(cv.findExternalContours(m), OutlineThickness), Opaque(color))]
  }

  /** The eye markers, the connecting line and the distance label, drawn when both eyes were located. */
  function EyeMarks(eyes: Option<(Pixel, Pixel)>): (marks: seq<Mark>)
    ensures AllOpaque(marks)
  {
    match eyes
    case None => []
    case Some((l, r)) =>
      [Mark(Disc(l, EyeRadius), EyeColor),
       Mark(Disc(r, EyeRadius), EyeColor),
       Mark(Segment(l, r, LineThickness), LineColor),
       Mark(Label(LabelAnchor(l, r), SquaredDistance(l, r), LabelScale, LabelThickness), LabelColor)]
  }

  /** Every drawing call of the overlay uses a fully opaque colour. */
  predicate AllOpaque(marks: seq<Mark>) {
    forall i :: 0 <= i < |marks| ==> marks[i].color.a == 255
  }

  /** Everything `create_annotation_overlay` draws, in drawing order. */
  function Marks(cv: Library, height: nat, width: nat, color: Bgr, matte: Option<Image>, faces: seq<Face>): (marks: seq<Mark>)
    requires matte.Some? ==> matte.value.Valid()
    requires WellFormed(faces)
  {
    OutlineMarks(cv, OutlineMask(cv, matte, height, width), color) + EyeMarks(EyeLocations(faces, width, height))
  }

  /** Every drawing call of `create_annotation_overlay` is fully opaque: `(*color, 255)` for the outline
      and alpha 255 in the fixed eye, line and label colours. */
  lemma MarksOpaque(cv: Library, height: nat, width: nat, color: Bgr, matte: Option<Image>, faces: seq<Face>)
    requires matte.Some? ==> matte.value.Valid()
    requires WellFormed(faces)
    ensures AllOpaque(Marks(cv, height, width, color, matte, faces))
  {
    OpaqueConcat(OutlineMarks(cv, OutlineMask(cv, matte, height, width), color),
                 EyeMarks(EyeLocations(faces, width, height)));
  }

  /** Drawing two opaque sequences of calls one after the other is opaque. */
  lemma OpaqueConcat(first: seq<Mark>, second: seq<Mark>)
    requires AllOpaque(first) && AllOpaque(second)
    ensures AllOpaque(first + second)
  {
    forall i | 0 <= i < |first + second| ensures (first + second)[i].color.a == 255 {
      if i < |first| {
        assert (first + second)[i] == first[i];
      } else {
        assert (first + second)[i] == second[i - |first|];
      }
    }
  }

  /** What is drawn: the outline, in the caller's colour, exactly when the matting result is usable; then
      the eye annotation exactly when a face was detected: a red disc on each truncated eye position, a blue
      line between them, and the cyan label at their `LabelAnchor` reporting their distance. */
  lemma MarksDrawn(cv: Library, height: nat, width: nat, color: Bgr, matte: Option<Image>, faces: seq<Face>)
    requires matte.Some? ==> matte.value.Valid()
    requires WellFormed(faces)
    ensures |Marks(cv, height, width, color, matte, faces)| ==
              (if matte.Some? && matte.value.channels > AlphaIndex then 1 else 0) + (if Detected(faces) then 4 else 0)
    ensures matte.Some? && matte.value.channels > AlphaIndex ==>
              var outline := Marks(cv, height, width, color, matte, faces)[0];
              outline.figure == Contours(cv.findExternalContours(OutlineMask(cv, matte, height, width).value), OutlineThickness) &&
              outline.color == Opaque(color)
    ensures Detected(faces) ==>
              var marks := Marks(cv, height, width, color, matte, faces);
              var l := EyeLocation(ToPixel(faces[0][LeftIrisCenter], width, height));
              var r := EyeLocation(ToPixel(faces[0][RightIrisCenter], width, height));
              marks[|marks| - 4..] ==
                [Mark(Disc(l, EyeRadius), EyeColor),
                 Mark(Disc(r, EyeRadius), EyeColor),
                 Mark(Segment(l, r, LineThickness), LineColor),
                 Mark(Label(LabelAnchor(l, r), SquaredDistance(l, r), LabelScale, LabelThickness), LabelColor)]
  {
    var mask := OutlineMask(cv, matte, height, width);
    var outlines := OutlineMarks(cv, mask, color);
    var eyes := EyeLocations(faces, width, height);
    var eyeMarks := EyeMarks(eyes);
    var marks := outlines + eyeMarks;
    assert marks == Marks(cv, height, width, color, matte, faces);
    assert mask.Some? <==> matte.Some? && matte.value.channels > AlphaIndex;
    assert |eyeMarks| == if eyes.Some? then 4 else 0;
    assert marks[|outlines|..] == eyeMarks;
    if Detected(faces) {
      assert eyes.value.0 == EyeLocation(ToPixel(faces[0][LeftIrisCenter], width, height));
      assert eyes.value.1 == EyeLocation(ToPixel(faces[0][RightIrisCenter], width, height));
    }
  }

  /** Whether some mark paints pixel `p`. */
  predicate Covered(cv: Library, marks: seq<Mark>, p: Pixel) {
    exists i :: 0 <= i < |marks| && p in cv.raster(marks[i].figure)
  }

  /** The colour of overlay pixel `p` once `marks` are drawn in order onto a zeroed overlay:
      the last mark that paints `p` decides it. */
  function PixelAfter(cv: Library, marks: seq<Mark>, p: Pixel): Bgra
    decreases |marks|
  {
    if |marks| == 0 then Transparent
    else if p in cv.raster(marks[|marks| - 1].figure) then marks[|marks| - 1].color
    else PixelAfter(cv, marks[..|marks| - 1], p)
  }

  /** A pixel no mark paints stays fully transparent (0, 0, 0, 0). */
  lemma {:induction false} UncoveredStaysTransparent(cv: Library, marks: seq<Mark>, p: Pixel)
    requires !Covered(cv, marks, p)
    ensures PixelAfter(cv, marks, p) == Transparent
  {
    if |marks| > 0 {
      var init := marks[..|marks| - 1];
      assert !Covered(cv, init, p) by {
        forall i | 0 <= i < |init| ensures p !in cv.raster(init[i].figure) {
          assert init[i] == marks[i];
        }
      }
      UncoveredStaysTransparent(cv, init, p);
    }
  }

  /** With opaque marks the overlay's alpha is binary: 255 exactly on the painted pixels, 0 elsewhere. */
  lemma {:induction false} AlphaBinary(cv: Library, marks: seq<Mark>, p: Pixel)
    requires AllOpaque(marks)
    ensures PixelAfter(cv, marks, p).a == (if Covered(cv, marks, p) then 255 else 0)
  {
    if |marks| > 0 {
      var init := marks[..|marks| - 1];
      assert AllOpaque(init) by {
        forall i | 0 <= i < |init| ensures init[i].color.a == 255 {
          assert init[i] == marks[i];
        }
      }
      AlphaBinary(cv, init, p);
      if p !in cv.raster(marks[|marks| - 1].figure) {
        assert Covered(cv, marks, p) <==> Covered(cv, init, p) by {
          if Covered(cv, marks, p) {
            var i :| 0 <= i < |marks| && p in cv.raster(marks[i].figure);
            assert i < |init| && init[i] == marks[i];
          }
          if Covered(cv, init, p) {
            var i :| 0 <= i < |init| && p in cv.raster(init[i].figure);
            assert marks[i] == init[i];
          }
        }
      }
    }
  }

  /** The overlay buffer shows `marks` drawn in order on zeros. */
  ghost predicate Shows(cv: Library, overlay: array3<uint8>, marks: seq<Mark>)
    reads overlay
    requires overlay.Length2 == 4
  {
    forall y, x, k :: 0 <= y < overlay.Length0 && 0 <= x < overlay.Length1 && 0 <= k < 4 ==>
      overlay[y, x, k] == PixelAfter(cv, marks, Pixel(x, y)).Channel(k)
  }

  /** One OpenCV drawing call on the overlay: every in-frame pixel of the figure takes the colour,
      all other pixels keep theirs. */
  method Paint(cv: Library, overlay: array3<uint8>, mark: Mark, ghost drawn: seq<Mark>)
    requires overlay.Length2 == 4
    requires Shows(cv, overlay, drawn)
    modifies overlay
    ensures Shows(cv, overlay, drawn + [mark])
    ensures forall y, x, k :: 0 <= y < overlay.Length0 && 0 <= x < overlay.Length1 && 0 <= k < 4 ==>
              overlay[y, x, k] == if Pixel(x, y) in cv.raster(mark.figure) then mark.color.Channel(k) else old(overlay[y, x, k])
  {
    var footprint := cv.raster(mark.figure);
    forall y, x, k | 0 <= y < overlay.Length0 && 0 <= x < overlay.Length1 && 0 <= k < 4 && Pixel(x, y) in footprint {
      overlay[y, x, k] := mark.color.Channel(k);
    }
    assert (drawn + [mark])[..|drawn|] == drawn;
  }

  /** `np.zeros((h, w, 4), dtype=np.uint8)`: a fully transparent overlay, on which nothing is drawn yet. */
  method NewOverlay(cv: Library, height: nat, width: nat) returns (overlay: array3<uint8>)
    ensures fresh(overlay)
    ensures overlay.Length0 == height && overlay.Length1 == width && overlay.Length2 == 4
    ensures Shows(cv, overlay, [])
  {
    overlay := new uint8[height, width, 4]((y, x, k) => 0);
  }

  /** Step 1 of `create_annotation_overlay`: stroke the traced contours of the mask, when there is one. */
  method DrawOutline(cv: Library, overlay: array3<uint8>, mask: Option<Image>, color: Bgr, ghost drawn: seq<Mark>)
    requires overlay.Length2 == 4
    requires Shows(cv, overlay, drawn)
    modifies overlay
    ensures Shows(cv, overlay, drawn + OutlineMarks(cv, mask, color))
  {
    if mask.Some? {
      var contours := cv.findExternalContours(mask.value);
      Paint(cv, overlay, Mark(Contours(contours, OutlineThickness), Opaque(color)), drawn);
    } else {
      assert drawn + [] == drawn;
    }
  }

  /** Step 2 of `create_annotation_overlay`: eye discs, connecting line and label for located eyes `l` and `r`. */
  method DrawEyes(cv: Library, overlay: array3<uint8>, l: Pixel, r: Pixel, ghost drawn: seq<Mark>)
    requires overlay.Length2 == 4
    requires Shows(cv, overlay, drawn)
    modifies overlay
    ensures Shows(cv, overlay, drawn + EyeMarks(Some((l, r))))
  {
    var marks := EyeMarks(Some((l, r)));
    Paint(cv, overlay, marks[0], drawn);
    Paint(cv, overlay, marks[1], drawn + marks[..1]);
    assert drawn + marks[..1] + [marks[1]] == drawn + marks[..2];
    Paint(cv, overlay, marks[2], drawn + marks[..2]);
    assert drawn + marks[..2] + [marks[2]] == drawn + marks[..3];
    Paint(cv, overlay, marks[3], drawn + marks[..3]);
    assert drawn + marks[..3] + [marks[3]] == drawn + marks;
  }

  /** Step 2 of `create_annotation_overlay`: locate the eyes; when a face was found, record the pupil
      distance in the (so far empty) `data` mapping and draw the eye annotation. */
  method MeasureAndDrawEyes(cv: Library, overlay: array3<uint8>, faces: seq<Face>, width: nat, height: nat, ghost drawn: seq<Mark>)
    returns (data: map<string, Distance>)
    requires overlay.Length2 == 4
    requires WellFormed(faces)
    requires Shows(cv, overlay, drawn)
    modifies overlay
    ensures Shows(cv, overlay, drawn + EyeMarks(EyeLocations(faces, width, height)))
    ensures data == Measure(faces, width, height)
  {
    data := map[];
    var eyes := EyeLocations(faces, width, height);
    if eyes.Some? {
      var l, r := eyes.value.0, eyes.value.1;
      data := data[PupilDistanceKey := Distance(SquaredDistance(l, r))];
      DrawEyes(cv, overlay, l, r, drawn);
    } else {
      assert drawn + EyeMarks(eyes) == drawn;
    }
  }

  /** `create_annotation_overlay` on an image of `height` × `width`, given what the matting service
      (`matte`) and the face landmarker (`faces`) returned for that image. */
  method CreateAnnotationOverlay(cv: Library, height: nat, width: nat, color: Bgr, matte: Option<Image>, faces: seq<Face>)
    returns (overlay: array3<uint8>, data: map<string, Distance>)
    requires matte.Some? ==> matte.value.Valid()
    requires WellFormed(faces)
    ensures fresh(overlay)
    ensures overlay.Length0 == height && overlay.Length1 == width && overlay.Length2 == 4
    ensures Shows(cv, overlay, Marks(cv, height, width, color, matte, faces))
    ensures data == Measure(faces, width, height)
  {
    overlay := NewOverlay(cv, height, width);
    var mask := OutlineMask(cv, matte, height, width);
    DrawOutline(cv, overlay, mask, color, []);
    assert [] + OutlineMarks(cv, mask, color) == OutlineMarks(cv, mask, color);
    data := MeasureAndDrawEyes(cv, overlay, faces, width, height, OutlineMarks(cv, mask, color));
  }
}
