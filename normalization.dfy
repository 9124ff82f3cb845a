/**
 * `Analyzer._normalize` (ksu_podcast_editor/analyzer.py): lower case, strip
 * whitespace at both ends, then strip trailing `.,!?:;`.
 */
module Normalization {
  import opened Text

  /** The characters `rstrip(".,!?:;")` removes. */
  predicate IsTrailingPunct(c: char) {
    c == '.' || c == ',' || c == '!' || c == '?' || c == ':' || c == ';'
  }

  /** `text.lower().strip().rstrip(".,!?:;")`: never ends in one of the six. */
  function Normalize(text: string): (r: string)
    ensures r == [] || !IsTrailingPunct(r[|r| - 1])
  {
    RStrip(Strip(Lower(text)), IsTrailingPunct)
  }

  /**
   * Normalising twice changes nothing when the first result does not end in
   * whitespace (whitespace uncovered by stripping punctuation is stripped
   * only by a second round; see `NormalizeNotIdempotent`).
   */
  lemma NormalizeIdempotent(text: string)
    requires Normalize(text) == [] || !IsSpace(Normalize(text)[|Normalize(text)| - 1])
    ensures Normalize(Normalize(text)) == Normalize(text)
  {
    NormalizeLower(text);
    NormalizeFront(text);
    NormalizeFixed(Normalize(text));
  }

  /** A normalised text is lower case. */
  lemma NormalizeLower(text: string)
    ensures Lower(Normalize(text)) == Normalize(text)
  {
    LowerIsLower(text);
    StripKeeps(Lower(text), IsSpace, IsSpace, IsTrailingPunct, IsLowerChar);
    LowerOfLower(Normalize(text));
  }

  /** A normalised text does not start with whitespace. */
  lemma NormalizeFront(text: string)
    ensures Normalize(text) == [] || !IsSpace(Normalize(text)[0])
  {
    StripFront(Lower(text), IsSpace, IsSpace, IsTrailingPunct);
  }

  /** A lower-case string with nothing to strip normalises to itself. */
  lemma NormalizeFixed(r: string)
    requires Lower(r) == r
    requires r == [] || (!IsSpace(r[0]) && !IsSpace(r[|r| - 1]) && !IsTrailingPunct(r[|r| - 1]))
    ensures Normalize(r) == r
  {
    StripOfStripped(r);
  }

  /** A string with no whitespace at either end strips to itself. */
  lemma StripOfStripped(r: string)
    requires r == [] || (!IsSpace(r[0]) && !IsSpace(r[|r| - 1]))
    ensures Strip(r) == r
  {
  }

  lemma LowerDotExample()
    ensures Lower("a .") == "a ."
  {
    assert Lower("a .") == [LowerChar('a')] + Lower(" .");
  }

  lemma StripDotExample()
    ensures Strip("a .") == "a ."
  {
  }

  lemma RStripDotExample()
    ensures RStrip("a .", IsTrailingPunct) == "a "
  {
    assert "a ."[..2] == "a ";
    assert RStrip("a ", IsTrailingPunct) == "a ";
  }

  lemma NormalizeDotExample()
    ensures Normalize("a .") == "a "
  {
    LowerDotExample();
    StripDotExample();
    RStripDotExample();
  }

  lemma NormalizeSpaceExample()
    ensures Normalize("a ") == "a"
  {
    assert Lower("a ") == [LowerChar('a')] + Lower(" ");
    assert "a "[..1] == "a";
    assert Strip("a ") == "a";
    assert RStrip("a", IsTrailingPunct) == "a";
  }

  /** Without that condition normalising is not idempotent. */
  lemma NormalizeNotIdempotent()
    ensures Normalize("a .") == "a "
    ensures Normalize(Normalize("a .")) == "a"
  {
    NormalizeDotExample();
    NormalizeSpaceExample();
  }
}
