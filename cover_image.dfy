/**
 * The decisions `convertCover` takes about the extracted cover: whether to
 * shrink it, and in which format to save it. The pixels, the thumbnail
 * arithmetic and the encoders belong to the imaging library; the decoded
 * image's size and format, and the format the resized copy reports, are
 * inputs.
 */
module CoverImage {
  import opened PyInt
  import Arguments

  /** What the imaging library reports about the decoded cover. */
  datatype Image = Image(width: int, height: int, format: string)

  /** What `convertCover` does with it. */
  datatype Plan = Plan(resize: bool, toRgb: bool, saveFormat: string)

  /** `cover_size > 0` and the cover does not fit in a `cover_size` square. */
  predicate ShouldResize(coverSize: int, width: int, height: int) {
    coverSize > 0 && (height > coverSize || width > coverSize)
  }

  /**
   * `convertCover(input, output, convert_cover, cover_size)`: resize when
   * the cover is larger than the box; then re-encode as JPEG when asked and
   * the (possibly resized) image does not report JPEG, else save in the
   * original format. A cover is shrunk only when one side exceeds a
   * positive bound; without `convert_cover` the format is always kept; with
   * it and no resize the result is always JPEG.
   */
  function PlanCover(convertCover: bool, coverSize: int, cover: Image, resizedFormat: string): (p: Plan)
    ensures p.resize ==> coverSize > 0 && (cover.width > coverSize || cover.height > coverSize)
    ensures !p.resize && coverSize > 0 ==> cover.width <= coverSize && cover.height <= coverSize
    ensures !convertCover ==> !p.toRgb && p.saveFormat == cover.format
    ensures convertCover && !p.resize ==> p.saveFormat == "JPEG"
    ensures p.toRgb <==> (convertCover && (if p.resize then resizedFormat else cover.format) != "JPEG")
    ensures p.toRgb ==> p.saveFormat == "JPEG"
    ensures !p.toRgb ==> p.saveFormat == cover.format
  {
    var resize := ShouldResize(coverSize, cover.width, cover.height);
    var current := if resize then resizedFormat else cover.format;
    if convertCover && current != "JPEG" then Plan(resize, true, "JPEG")
    else Plan(resize, false, cover.format)
  }

  /**
   * A negative `--scale-cover` value is accepted by the argument check, and
   * then never resizes any cover, because `cover_size > 0` is false.
   */
  lemma NegativeScaleAcceptedButInert(program: string, n: int, a: string, b: string, cover: Image, resizedFormat: string)
    requires n < 0
    ensures var d := Arguments.Check(program, Arguments.Parsed([Arguments.Opt("--scale-cover", IntToStr(n))], [a, b]),
                                     Arguments.PathFacts(true, true, true, true)).decision;
      d.Proceed? && d.settings.scaleCover && d.settings.coverScale == n &&
      !PlanCover(d.settings.convertCover, d.settings.coverScale, cover, resizedFormat).resize
  {
    IntRoundTrip(n);
    Arguments.ScaleCoverAccepted(program, "--scale-cover", IntToStr(n), a, b);
  }
}
