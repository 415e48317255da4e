# Body-progress image processor, modelled in Dafny

This project models the decision and pixel logic of `ImageProcessor` in the body-progress tracker
backend (`backend/processor.py`), and proves properties of that model. The processor does four things:

- It turns face-landmarker output into pixel-space iris positions.
- It aligns a "moving" photo onto a reference photo, by an iris-based partial-affine warp when it can and by a plain resize otherwise.
- It draws a transparent annotation overlay: the body outline, eye markers, a connecting line and a distance label. Alongside it, it records the pupil distance in a `data` mapping.
- It alpha-blends that overlay onto the decoded photo, in place.

The neural detectors, the matting service and OpenCV stay abstract.

- Detector and matting outputs are parameters. `faces: seq<Face>` is the face landmarker's list of faces; empty means none was found. `matte: Option<Image>` is the decoded matting result; `None` means the call raised or the decode failed. `decoded: Option<array3<uint8>>` is `cv2.imdecode`'s result.
- OpenCV is the `OpenCv.Library` datatype of total functions.
  - A resize or a warp, asked for a size, gives one sample for every position of that size. The model builds the output image from those samples, so its shape is right by construction.
  - `estimateAffinePartial2D` gives some affine matrix, and contour tracing gives some contours.
  - A drawing call gives the set of pixels it paints (`raster`). Painting sets each in-frame pixel of that set to the call's colour, as OpenCV's non-antialiased drawing does.

Modules, leaves first:

- `Wrappers` holds `Option` and `Result`.
- `Images` holds `uint8`, value images, pixels, points and colours.
- `OpenCv` holds the library abstraction.
- `Landmarks` is the landmark adapter and Python's `int()`.
- `Measurement` is the pupil distance and the `X-Pupil-Distance-Px` header default.
- `Outline` is the alpha-channel mask.
- `Alignment` is `align_images`.
- `Overlay` covers `create_annotation_overlay`: what is drawn, a per-pixel specification of the overlay, and the in-place drawing methods.
- `Blending` is the per-channel blend.
- `Compositing` covers the in-place composite loop, the decode check and `process_and_annotate`.

Representation choices:

- Images the source only reads or replaces are values (`Images.Image`).
- The overlay buffer and the decoded photo of the analyze flow are `array3<uint8>`, because the source writes into them.
- A pupil distance is held exactly, as the integer square of a Euclidean distance between integer eye positions: `Distance(squared)`.

## Model

| member | source | states |
|---|---|---|
| `Landmarks.IrisLandmarks` | backend/processor.py:159-173 | both iris points are absent exactly when no face was detected; otherwise they are face 0's landmarks 468 and 473 scaled to `(x·w, y·h)` |
| `Landmarks.ToPixelRoundTrip` | backend/processor.py:170-171 | converting a normalised landmark to pixel space of a non-empty image loses nothing: normalising back gives the landmark |
| `Landmarks.ToPixelInFrame` | backend/processor.py:170-171 | a landmark inside the unit square lands inside `[0, w] × [0, h]` |
| `Landmarks.Trunc` | backend/processor.py:117-118 | `int()` truncates toward zero: the result has the input's sign and lies within 1 of it, on the zero side |
| `Landmarks.EyeLocations` | backend/processor.py:110-118 | eye positions exist exactly when a face was detected, and are the truncated pixel positions of landmarks 468 and 473 |
| `Landmarks.EyeLocationInImage` | backend/processor.py:117-118 | an iris centre strictly inside the unit square gives an eye position on a pixel of the image |
| `Measurement.SquaredDistanceSymmetric` | backend/processor.py:121 | the pupil distance does not depend on which eye is called left |
| `Measurement.SquaredDistanceZeroIff` | backend/processor.py:121 | the pupil distance is zero exactly when the two eye positions coincide |
| `Measurement.SquaredDistanceTranslationInvariant` | backend/processor.py:121 | moving both eyes by the same offset leaves the distance unchanged |
| `Measurement.Measure` | backend/processor.py:110-122 | `data` holds no key but `pupil_distance_pixels`, holds it exactly when a face was detected, and its square is `dx² + dy²` of the truncated eye positions |
| `Measurement.PupilDistanceHeaderZeroIff` | backend/main.py:80-83 | the header defaults to 0, so it reads 0 exactly when no face was found or the eyes coincide |
| `Outline.AlphaChannel` | backend/processor.py:83 | the extracted plane has the image's height and width and holds channel 3 of every pixel |
| `Outline.Threshold` | backend/processor.py:90 | same shape as the input; a sample becomes 255 exactly when above 127 and 0 exactly when at most 127 |
| `Outline.ThresholdIdempotent` | backend/processor.py:90 | thresholding an already thresholded mask changes nothing |
| `Outline.OutlineMask` | backend/processor.py:70-99 | a mask exists exactly when the matting result is usable (present, with an alpha channel); it is then h×w, single-channel and binary; it is 255 exactly where the alpha, resized to h×w when its size differs, is above 127 |
| `OpenCv.Resize` | backend/processor.py:239 | `cv2.resize(src, (w, h))` yields an image of exactly h×w with the source's channels |
| `OpenCv.WarpAffine` | backend/processor.py:228 | `cv2.warpAffine(src, m, (w, h))` yields an image of exactly h×w with the source's channels |
| `Alignment.EyesCenter` | backend/processor.py:183-184 | the eye centre is equidistant, along each axis, from the two irises |
| `Alignment.AlignImages` | backend/processor.py:175-239 | the result has the reference's height and width; it is the warp by the transform estimated from the moving image's iris points onto the reference's exactly when both images show a face, and the resize otherwise |
| `Overlay.LabelAnchor` | backend/processor.py:132-133 | the label starts at the leftmost eye's column, 10 rows above the higher eye |
| `Overlay.OutlineMarks` | backend/processor.py:93-98 | one outline stroke when a mask exists, none otherwise; it strokes every external contour traced from the mask, 2 wide, in the caller's colour with alpha 255 |
| `Overlay.MarksOpaque` | backend/processor.py:98-134 | every drawing call is fully opaque: the outline in `(*color, 255)`, the eye, line and label colours with alpha 255 |
| `Overlay.MarksDrawn` | backend/processor.py:93-134 | an outline, of the contours traced from `OutlineMask`, is drawn exactly when the matting result is usable, in the caller's colour; the eye discs (radius 3, red), the line (blue) and the label (cyan, at `LabelAnchor`, reporting the distance) are drawn exactly when a face was detected |
| `Overlay.UncoveredStaysTransparent` | backend/processor.py:62-64 | an overlay pixel no drawing call paints stays (0, 0, 0, 0) |
| `Overlay.AlphaBinary` | backend/processor.py:126-134 | with opaque drawing calls the overlay's alpha is 255 exactly on painted pixels and 0 elsewhere |
| `Overlay.Paint` | backend/processor.py:126 | one drawing call: the figure's in-frame pixels take its colour, all others keep theirs |
| `Overlay.NewOverlay` | backend/processor.py:64 | a fresh h×w×4 buffer on which nothing is drawn |
| `Overlay.DrawOutline` | backend/processor.py:92-98 | after the outline step the buffer shows exactly the outline marks drawn so far |
| `Overlay.DrawEyes` | backend/processor.py:124-134 | the two discs, the line and the label are drawn in that order |
| `Overlay.MeasureAndDrawEyes` | backend/processor.py:108-134 | fills `data` as `Measure` says and draws the eye annotation only when a face was found |
| `Overlay.CreateAnnotationOverlay` | backend/processor.py:61-136 | a fresh h×w×4 overlay showing exactly the marks `MarksDrawn` describes, in order, on zeros, and `data == Measure(...)` |
| `Blending.Blend` | backend/processor.py:145-150 | alpha 255 gives the overlay sample, alpha 0 the image sample, and any alpha a value between the two |
| `Compositing.AlphaComposite` | backend/processor.py:145-150 | channels 0..2 of every pixel become the blend of overlay and old image; any further channel is untouched |
| `Compositing.ProcessImage` | backend/processor.py:36-40 | an image that does not decode is the `CouldNotDecode` error; otherwise the decoded image goes on |
| `Compositing.ProcessAndAnnotate` | backend/processor.py:138-152 | fails exactly on decode failure; otherwise returns the same image with `Measure`'s data, where every painted pixel takes the colour of its last drawing call and every other pixel keeps its decoded value |

## Left out

- Detector inference: the MediaPipe pose and face landmarkers and their construction (`backend/processor.py:11-31`, `50`, `59`, `108`, `159`) are foreign neural-network calls. Their outputs are inputs to the model. The pose result of `process_image` is not used by `process_and_annotate`, so it is not modelled.
- Matting: `rembg.remove`, the PNG encode and the decode are foreign calls. The exceptions that `try` catches (`backend/processor.py:70-100`) are modelled only as "no mask": `matte` is `None`, or has no alpha channel.
- OpenCV internals: resampling, affine estimation, contour tracing and rasterisation are abstract. `cvtColor` and the float32 conversion of the iris points are left out too.
- Alignment.AlignImages: when the estimator cannot fit a transform, `cv2.estimateAffinePartial2D` may return no matrix, and `warpAffine` would then raise. The model always gets a matrix from the estimator.
- Dead code: the angles, scale, `getRotationMatrix2D`, `tx` and `ty` (`backend/processor.py:186-212`) are computed and then replaced at line 226, so they are left out. The eye centres at lines 183-184 are not dead, because they feed the estimator's point lists, so they are modelled.
- There is no pose-based alignment tier. The code's own comments at `backend/processor.py:231-237` name a "Fallback to Pose Alignment (Legacy)" for photos without a face, but the code falls straight back to the resize (`backend/processor.py:231-239`), and so does the model. The model follows the code in two more places: the pupil distance is computed from the truncated integer eye positions, and only face landmarks are used, with no fallback to the pose model's eye points.
- Measurement.PupilDistanceHeaderZeroIff: only the header's numeric value is modelled. Its text is not: the default with no face is the integer `0`, printed `"0"`, while coinciding eyes give the float `0.0`, printed `"0.0"`, so the text does tell the two cases apart.
- Measurement.Measure: the distance is stored exactly, as its square. The model does not cover `round(..., 2)`, the floating-point `sqrt`, or the `:.1f` label text.
- Blending.Blend: the model computes on exact reals. A floating-point product can land just below an integer, where the uint8 cast then truncates one lower. At alpha 0 and 255 the float result is exact. Those are the only alphas the drawing calls produce.
- `int()` on floats is modelled as truncation of reals. Products `x·w` are exact reals, not floats.
- Landmarks.WellFormed: this predicate requires face 0 to carry at least 474 landmarks. The face landmarker always returns 478. With fewer, the source would raise `IndexError`.
- `backend/main.py`: HTTP routing, CORS, base64 and JPEG encoding are left out. Its `/align` handler calls `processor.annotate_image`, which `ImageProcessor` does not define, so that flow cannot be modelled. Only its header default is modelled.
- The frontend (`frontend/`) and the import-probing scripts (`backend/debug_mp_2.py`, `backend/debug_mp_import.py`) are left out. Print logging is left out too.
