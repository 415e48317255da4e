/** The body-outline mask: the matting result's alpha channel, brought to the image size and binarised. */
module Outline {
  import opened Wrappers
  import opened Images
  import opened OpenCv

  /** `cv2.threshold(alpha, 127, 255, THRESH_BINARY)`: samples above the cutoff become 255. */
  const Cutoff: uint8 := 127
  const MaskOn: uint8 := 255

  /** The alpha channel of a BGRA image. */
  const AlphaIndex: nat := 3

  /** `img[:, :, 3]` as a single-plane image. */
  function AlphaChannel(img: Image): (alpha: Image)
    requires img.Valid() && img.channels > AlphaIndex
    ensures alpha.Valid() && alpha.height == img.height && alpha.width == img.width && alpha.channels == 1
    ensures forall i, j :: 0 <= i < img.height && 0 <= j < img.width ==> alpha.rows[i][j][0] == img.rows[i][j][AlphaIndex]
  {
    Image(img.height, img.width, 1,
      seq(img.height, (i: int) requires 0 <= i < img.height =>
        seq(img.width, (j: int) requires 0 <= j < img.width => [img.rows[i][j][AlphaIndex]])))
  }

  /** Every sample is 0 or 255. */
  predicate Binary(img: Image)
    requires img.Valid()
  {
    forall i, j, k :: 0 <= i < img.height && 0 <= j < img.width && 0 <= k < img.channels ==>
      img.rows[i][j][k] == 0 || img.rows[i][j][k] == MaskOn
  }

  /** The binary threshold, sample by sample. */
  function Threshold(alpha: Image): (mask: Image)
    requires alpha.Valid()
    ensures mask.Valid() && mask.height == alpha.height && mask.width == alpha.width && mask.channels == alpha.channels
    ensures forall i, j, k :: 0 <= i < alpha.height && 0 <= j < alpha.width && 0 <= k < alpha.channels ==>
              (mask.rows[i][j][k] == MaskOn <==> alpha.rows[i][j][k] > Cutoff) &&
              (mask.rows[i][j][k] == 0 <==> alpha.rows[i][j][k] <= Cutoff)
  {
    Image(alpha.height, alpha.width, alpha.channels,
      seq(alpha.height, (i: int) requires 0 <= i < alpha.height =>
        seq(alpha.width, (j: int) requires 0 <= j < alpha.width =>
          seq(alpha.channels, (k: int) requires 0 <= k < alpha.channels =>
            if alpha.rows[i][j][k] > Cutoff then MaskOn else 0))))
  }

  /** Thresholding an already binary mask changes nothing. */
  lemma ThresholdIdempotent(alpha: Image)
    requires alpha.Valid()
    ensures Threshold(Threshold(alpha)) == Threshold(alpha)
  {
    var once := Threshold(alpha);
    var twice := Threshold(once);
    forall i | 0 <= i < alpha.height
      ensures twice.rows[i] == once.rows[i]
    {
      forall j | 0 <= j < alpha.width
        ensures twice.rows[i][j] == once.rows[i][j]
      {
        assert |twice.rows[i][j]| == |once.rows[i][j]|;
      }
    }
  }

  /** The mask the outline is traced from, in the annotation code's terms: absent when the matting
      result is unusable (the call raised, the result did not decode, or it has no alpha channel);
      otherwise its alpha channel, resized to `(width, height)` when its size differs, and thresholded. */
  function OutlineMask(cv: Library, matte: Option<Image>, height: nat, width: nat): (mask: Option<Image>)
    requires matte.Some? ==> matte.value.Valid()
    ensures mask.Some? <==> matte.Some? && matte.value.channels > AlphaIndex
    ensures mask.Some? ==>
              mask.value.Valid() && mask.value.height == height && mask.value.width == width &&
              mask.value.channels == 1 && Binary(mask.value)
    ensures mask.Some? && matte.value.height == height && matte.value.width == width ==>
              forall i, j :: 0 <= i < height && 0 <= j < width ==>
                (mask.value.rows[i][j][0] == MaskOn <==> matte.value.rows[i][j][AlphaIndex] > Cutoff)
    ensures mask.Some? && (matte.value.height, matte.value.width) != (height, width) ==>
              var resized := Resize(cv, AlphaChannel(matte.value), width, height);
              forall i, j :: 0 <= i < height && 0 <= j < width ==>
                (mask.value.rows[i][j][0] == MaskOn <==> resized.rows[i][j][0] > Cutoff)
  {
    match matte
    case None => None
    case Some(img) =>
      if img.channels <= AlphaIndex then None
      else
        var alpha := AlphaChannel(img);
        var sized := if (alpha.height, alpha.width) != (height, width) then Resize(cv, alpha, width, height) else alpha;
        Some(Threshold(sized))
  }
}
