/** Radar location by template matching (`detect_radar_from_game`,
    Modules/OCR/ocr.py). Loading the template, resizing it and matching it
    against the screenshot are image-library calls; here the template is an
    optional alpha plane and each scale of the sweep contributes its best
    score, where it was found, and the scaled template's size. */
module Radar {
  import opened Wrappers

  /** The template's alpha channel, row by row. */
  datatype Template = Template(alpha: seq<seq<int>>)

  /** What matching one scale reports: `max_val`, `max_loc` (x, y) and the
      scaled template's `shape[:2]` (height, width). */
  datatype ScaleMatch = ScaleMatch(score: real, loc: (int, int), height: int, width: int)

  datatype Outcome =
    | Found(topLeft: (int, int), bottomRight: (int, int))
      /** `FileNotFoundError`: the template image could not be read. */
    | TemplateMissing
      /** `ValueError`: the best score stayed below the threshold. */
    | NotDetected(best: real)
      /** The best score reached a threshold of zero or less without any
          scale scoring above zero: the source then unpacks `None` and
          fails with a `TypeError`. */
    | NoCandidate

  /** `cv2.threshold(alpha, 1, 255, THRESH_BINARY)`: fully opaque exactly
      where alpha exceeds 1, transparent elsewhere. */
  function MaskOf(alpha: seq<seq<int>>): (mask: seq<seq<int>>)
    ensures |mask| == |alpha|
    ensures forall r :: 0 <= r < |alpha| ==> |mask[r]| == |alpha[r]|
    ensures forall r, c :: 0 <= r < |alpha| && 0 <= c < |alpha[r]| ==>
      (mask[r][c] == 255 <==> alpha[r][c] > 1) && (mask[r][c] == 0 <==> alpha[r][c] <= 1)
  {
    seq(|alpha|, r requires 0 <= r < |alpha| =>
      seq(|alpha[r]|, c requires 0 <= c < |alpha[r]| => if alpha[r][c] > 1 then 255 else 0))
  }

  /** The scan of the sweep: starting from score 0 and no location, a scale
      takes over only with a strictly greater score. Returns the best score
      and the index of the scale that holds it. */
  function Best(scales: seq<ScaleMatch>): (r: (real, Option<nat>))
    ensures r.1.None? ==> r.0 == 0.0
    ensures r.1.Some? ==> r.1.value < |scales| && r.0 == scales[r.1.value].score > 0.0
    decreases |scales|
  {
    if |scales| == 0 then (0.0, None)
    else
      var prev := Best(scales[..|scales| - 1]);
      var last := scales[|scales| - 1];
      if last.score > prev.0 then (last.score, Some(|scales| - 1)) else prev
  }

  /** No scale scored above zero. */
  predicate NonePositive(scales: seq<ScaleMatch>) {
    forall j :: 0 <= j < |scales| ==> scales[j].score <= 0.0
  }

  /** `i` is the first scale with the greatest score, and that score is
      above zero. */
  predicate IsWinner(scales: seq<ScaleMatch>, i: int) {
    && 0 <= i < |scales|
    && scales[i].score > 0.0
    && (forall j :: 0 <= j < |scales| ==> scales[j].score <= scales[i].score)
    && (forall j :: 0 <= j < i ==> scales[j].score < scales[i].score)
  }

  /** The scan picks the earliest of the greatest positive scores, and
      nothing when no score is positive. */
  lemma {:induction false} BestIsWinner(scales: seq<ScaleMatch>)
    ensures var (b, i) := Best(scales);
      && (i.None? <==> NonePositive(scales))
      && (i.None? ==> b == 0.0)
      && (i.Some? ==> IsWinner(scales, i.value) && b == scales[i.value].score)
    decreases |scales|
  {
    if |scales| > 0 {
      var init := scales[..|scales| - 1];
      BestIsWinner(init);
      assert forall j :: 0 <= j < |init| ==> init[j] == scales[j];
    }
  }

  /** At most one scale is the winner. */
  lemma WinnerUnique(scales: seq<ScaleMatch>, i: int, j: int)
    requires IsWinner(scales, i) && IsWinner(scales, j)
    ensures i == j
  {
  }

  /** The loop of `detect_radar_from_game` over the sweep. */
  method SelectBest(scales: seq<ScaleMatch>) returns (best: real, at: Option<nat>)
    ensures (best, at) == Best(scales)
    ensures at.None? <==> NonePositive(scales)
    ensures at.Some? ==> IsWinner(scales, at.value) && best == scales[at.value].score
  {
    best, at := 0.0, None;
    var i := 0;
    while i < |scales|
      invariant 0 <= i <= |scales|
      invariant (best, at) == Best(scales[..i])
    {
      assert scales[..i + 1][..i] == scales[..i];
      if scales[i].score > best {
        best, at := scales[i].score, Some(i);
      }
      i := i + 1;
    }
    assert scales[..|scales|] == scales;
    BestIsWinner(scales);
  }

  /** `detect_radar_from_game`: the template must load; then the winning
      scale must reach the threshold, and the radar spans from its location
      by the scaled template's width and height. */
  function Detect(template: Option<Template>, scales: seq<ScaleMatch>, threshold: real): (r: Outcome)
    ensures template.None? <==> r.TemplateMissing?
    ensures r.NotDetected? <==> template.Some? && Best(scales).0 < threshold
    ensures r.NoCandidate? <==>
      template.Some? && threshold <= 0.0 && NonePositive(scales)
    ensures r.Found? ==> exists i ::
      && IsWinner(scales, i)
      && threshold <= scales[i].score
      && r.topLeft == scales[i].loc
      && r.bottomRight == (scales[i].loc.0 + scales[i].width, scales[i].loc.1 + scales[i].height)
  {
    if template.None? then TemplateMissing
    else
      BestIsWinner(scales);
      Decide(scales, Best(scales), threshold)
  }

  /** The verdict on the scan's result `b`, a best score and where it is. */
  function Decide(scales: seq<ScaleMatch>, b: (real, Option<nat>), threshold: real): (r: Outcome)
    requires b.1.None? <==> NonePositive(scales)
    requires b.1.None? ==> b.0 == 0.0
    requires b.1.Some? ==> IsWinner(scales, b.1.value) && b.0 == scales[b.1.value].score
    ensures !r.TemplateMissing?
    ensures r.NotDetected? <==> b.0 < threshold
    ensures r.NoCandidate? <==>
      threshold <= 0.0 && NonePositive(scales)
    ensures r.Found? ==> exists i ::
      && IsWinner(scales, i)
      && threshold <= scales[i].score
      && r.topLeft == scales[i].loc
      && r.bottomRight == (scales[i].loc.0 + scales[i].width, scales[i].loc.1 + scales[i].height)
  {
    if b.0 < threshold then NotDetected(b.0)
    else if b.1.None? then NoCandidate
    else
      var i := b.1.value;
      var m := scales[i];
      assert IsWinner(scales, i) && threshold <= m.score;
      Found(m.loc, (m.loc.0 + m.width, m.loc.1 + m.height))
  }

  /** A tie with an earlier scale never moves the radar. */
  lemma TieKeepsEarlier(scales: seq<ScaleMatch>, extra: ScaleMatch)
    requires Best(scales).1.Some? && extra.score == Best(scales).0
    ensures Best(scales + [extra]) == Best(scales)
  {
    assert (scales + [extra])[..|scales|] == scales;
  }

  /** Every scale's score at or below zero, with a positive threshold, is a
      failed detection. */
  lemma NoPositiveScore(template: Template, scales: seq<ScaleMatch>, threshold: real)
    requires threshold > 0.0
    requires NonePositive(scales)
    ensures Detect(Some(template), scales, threshold) == NotDetected(0.0)
  {
    BestIsWinner(scales);
  }
}
