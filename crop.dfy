/**
 * `crop_image` (ocr_test_1.py): copy the image and slice out the profile
 * picture and name region, rows 290 to 470 and columns 0 to 450.
 *
 * A greyscale image is a rectangular grid of byte pixels, row by row.  The
 * result is a copy, so it is modelled as a value.  Python slicing clamps its
 * bounds to the array, so an image smaller than the region gives a smaller
 * (possibly empty) slice and no error.
 */
module Crop {

  newtype Pixel = x: int | 0 <= x < 256

  type Image = seq<seq<Pixel>>

  /** Number of columns (all rows have it in a rectangular image). */
  function Width(img: Image): nat {
    if img == [] then 0 else |img[0]|
  }

  predicate Rectangular(img: Image) {
    forall r :: 0 <= r < |img| ==> |img[r]| == Width(img)
  }

  /** The region of slice type "pfp": rows [290, 470), columns [0, 450). */
  const PfpTop: nat := 290
  const PfpBottom: nat := 470
  const PfpLeft: nat := 0
  const PfpRight: nat := 450

  /** Python's clamping of a non-negative slice bound to a dimension of size `n`. */
  function Clamp(bound: nat, n: nat): nat {
    if bound < n then bound else n
  }

  /** The number of indices a slice `[lo:hi]` keeps out of `n`. */
  function SliceLength(lo: nat, hi: nat, n: nat): nat {
    if Clamp(lo, n) <= Clamp(hi, n) then Clamp(hi, n) - Clamp(lo, n) else 0
  }

  /** The result of `crop_image`: a slice, or the error raised for an unknown slice type. */
  datatype CropResult =
    | Cropped(slice: Image)
      /** `img_slice` is only bound for "pfp"; any other type raises UnboundLocalError. */
    | UnboundSlice

  /**
   * `crop_image(img, sliceType)`.  Python's default `slice_type="pfp"` has
   * no Dafny counterpart: a call that omits it is `CropImage(img, "pfp")`.
   */
  function CropImage(img: Image, sliceType: string): (r: CropResult)
    requires Rectangular(img)
    ensures r.Cropped? <==> sliceType == "pfp"
    ensures r.Cropped? ==>
      |r.slice| == SliceLength(PfpTop, PfpBottom, |img|) &&
      forall i :: 0 <= i < |r.slice| ==>
        |r.slice[i]| == SliceLength(PfpLeft, PfpRight, Width(img)) &&
        forall j :: 0 <= j < |r.slice[i]| ==> r.slice[i][j] == img[PfpTop + i][PfpLeft + j]
  {
    if sliceType == "pfp" then
      var rows := SliceLength(PfpTop, PfpBottom, |img|);
      var cols := SliceLength(PfpLeft, PfpRight, Width(img));
      Cropped(seq(rows, i requires 0 <= i < rows => img[PfpTop + i][PfpLeft .. PfpLeft + cols]))
    else
      UnboundSlice
  }

  /**
   * On a screenshot at least 470 rows high and 450 columns wide the "pfp"
   * slice is exactly 180 by 450 and is the region itself, pixel for pixel.
   */
  lemma PfpSliceOfFullScreenshot(img: Image)
    requires Rectangular(img) && |img| >= PfpBottom && Width(img) >= PfpRight
    ensures CropImage(img, "pfp").Cropped?
    ensures var s := CropImage(img, "pfp").slice;
      |s| == 180 && Rectangular(s) && Width(s) == 450 &&
      forall i, j :: 0 <= i < 180 && 0 <= j < 450 ==> s[i][j] == img[290 + i][j]
  {
  }

  /** A screenshot with at most 290 rows yields an empty slice, not an error. */
  lemma ShortScreenshotGivesEmptySlice(img: Image)
    requires Rectangular(img) && |img| <= PfpTop
    ensures CropImage(img, "pfp") == Cropped([])
  {
  }
}
