/** `extract_deed_from_image` (src/Scanner/ocr_controller.py): crop the
    inner rectangle out of the captured corner, read it, parse it. The
    image preprocessing and the two Tesseract passes are library calls: the
    model takes them as one function from the crop to the two raw texts. */
module OcrController {
  import opened Text
  import opened ScreenCapture
  import opened OcrText
  import opened DeedParser

  /** `(x, y, w, h)` of the fields inside the corner crop. */
  datatype InnerRect = InnerRect(x: int, y: int, w: int, h: int)

  /** `DEFAULT_INNER`. */
  const DefaultInner: InnerRect := InnerRect(20, 110, 410, 180)

  /** The slice bounds `[y1:y2, x1:x2]`. */
  datatype Bounds = Bounds(x1: int, y1: int, x2: int, y2: int)

  /** The clamping of the inner rectangle to an image `width` by `height`. */
  function ClampRoi(width: int, height: int, rect: InnerRect): (b: Bounds)
    ensures b.x1 >= 0 && b.y1 >= 0 && b.x2 >= 1 && b.y2 >= 1
    ensures width >= 1 ==> b.x1 <= width - 1 && b.x2 <= width
    ensures height >= 1 ==> b.y1 <= height - 1 && b.y2 <= height
    ensures 0 <= rect.x && 0 < rect.w && rect.x + rect.w <= width ==>
      b.x1 == rect.x && b.x2 == rect.x + rect.w
    ensures 0 <= rect.y && 0 < rect.h && rect.y + rect.h <= height ==>
      b.y1 == rect.y && b.y2 == rect.y + rect.h
  {
    Bounds(Max(0, Min(width - 1, rect.x)), Max(0, Min(height - 1, rect.y)),
           Max(1, Min(width, rect.x + rect.w)), Max(1, Min(height, rect.y + rect.h)))
  }

  /** On a non-empty image a rectangle of positive size always leaves a
      non-empty crop, wherever it lies. */
  lemma RoiNonEmpty(width: int, height: int, rect: InnerRect)
    requires width >= 1 && height >= 1 && rect.w >= 1 && rect.h >= 1
    ensures var b := ClampRoi(width, height, rect); b.x1 < b.x2 && b.y1 < b.y2
  {
  }

  /** Python `s[i:j]` for non-negative bounds. */
  function Slice<T>(s: seq<T>, i: int, j: int): (r: seq<T>)
    requires 0 <= i && 0 <= j
    ensures i <= j <= |s| ==> r == s[i..j]
    ensures j <= i ==> r == []
    ensures |r| <= |s|
  {
    var hi := if j <= |s| then j else |s|;
    if i < hi then s[i..hi] else []
  }

  /** Every row has `width` pixels. */
  predicate Rectangular<P>(img: seq<seq<P>>, width: nat) {
    forall r :: 0 <= r < |img| ==> |img[r]| == width
  }

  /** `corner_image_bgr[y1:y2, x1:x2]`. */
  function Roi<P>(img: seq<seq<P>>, width: nat, rect: InnerRect): (roi: seq<seq<P>>)
    requires Rectangular(img, width)
    ensures var b := ClampRoi(width, |img|, rect);
      width >= 1 && |img| >= 1 && b.y1 <= b.y2 && b.x1 <= b.x2 ==>
        && |roi| == b.y2 - b.y1
        && forall k :: 0 <= k < |roi| ==> roi[k] == img[b.y1 + k][b.x1..b.x2]
  {
    var b := ClampRoi(width, |img|, rect);
    var rows := Slice(img, b.y1, b.y2);
    seq(|rows|, k requires 0 <= k < |rows| => Slice(rows[k], b.x1, b.x2))
  }

  /** `extract_deed_from_image`: the parse of the text read from the crop.
      The text is tab-free after normalisation and the parse adds no tab. */
  function ExtractDeedFromImage<P>(img: seq<seq<P>>, width: nat, rect: InnerRect,
                                   ocr: seq<seq<P>> -> (string, string)): (r: DeedDict)
    requires Rectangular(img, width)
    ensures var passes := ocr(Roi(img, width, rect));
      r == ParseDeedText(OcrTextBlock(passes.0, passes.1))
    ensures '\t' !in r.raw
  {
    var passes := ocr(Roi(img, width, rect));
    var text := OcrTextBlock(passes.0, passes.1);
    BlobKeepsAbsent(text, '\t');
    ParseDeedText(text)
  }
}
