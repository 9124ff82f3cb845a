/**
 * The transcript and edit-decision records shared by the detector, the
 * editor and the report writer.  Times are whole milliseconds.
 */
module Models {

  /** A transcribed word; `confidence` defaults to 1.0. */
  datatype Word = Word(text: string, start: int, end: int, confidence: real := 1.0)

  /** A transcript segment; `words` defaults to none and `text` to "". */
  datatype Segment = Segment(start: int, end: int, words: seq<Word> := [], text: string := "")

  /**
   * A time range to delete.  `reason` is free text ("filler" and
   * "repetition" are what the detector writes); `originalText` defaults to "".
   */
  datatype EditDecision = EditDecision(start: int, end: int, reason: string, originalText: string := "")

  /** Two time ranges that do not overlap. */
  predicate Apart(d: EditDecision, e: EditDecision) {
    d.end <= e.start || e.end <= d.start
  }

  /** The defaults the record types declare. */
  lemma Defaults(text: string, start: int, end: int, reason: string)
    ensures Word(text, start, end).confidence == 1.0
    ensures Segment(start, end).words == [] && Segment(start, end).text == ""
    ensures EditDecision(start, end, reason).originalText == ""
  {
  }

  /** All words of all segments, segment after segment. */
  function Flatten(segments: seq<Segment>): seq<Word> {
    if segments == [] then []
    else Flatten(segments[..|segments| - 1]) + segments[|segments| - 1].words
  }

  /** Number of words in the first `n` segments. */
  function Offset(segments: seq<Segment>, n: nat): nat
    requires n <= |segments|
  {
    |Flatten(segments[..n])|
  }

  /**
   * Flattening keeps exactly one entry per word: word `j` of segment `s`
   * sits at `Offset(segments, s) + j`, and nothing else is there.
   */
  lemma {:induction false} FlattenAt(segments: seq<Segment>, s: nat, j: nat)
    requires s < |segments| && j < |segments[s].words|
    ensures Offset(segments, s) + j < |Flatten(segments)|
    ensures Flatten(segments)[Offset(segments, s) + j] == segments[s].words[j]
  {
    var n := |segments|;
    assert segments[..n] == segments;
    var init := segments[..n - 1];
    if s < n - 1 {
      assert init[..s] == segments[..s];
      FlattenAt(init, s, j);
    } else {
      assert init == segments[..s];
    }
  }

  lemma {:induction false} FlattenLength(segments: seq<Segment>)
    ensures |Flatten(segments)| == Offset(segments, |segments|)
    ensures forall s :: 0 <= s < |segments| ==> Offset(segments, s + 1) == Offset(segments, s) + |segments[s].words|
  {
    assert segments[..|segments|] == segments;
    forall s | 0 <= s < |segments|
      ensures Offset(segments, s + 1) == Offset(segments, s) + |segments[s].words|
    {
      assert segments[..s + 1][..s] == segments[..s];
    }
  }

  /**
   * The transcriber's guarantee, as a separate predicate (the records do
   * not enforce it): every word has positive length and no word starts
   * before its predecessor ends.
   */
  predicate WellFormedTimeline(words: seq<Word>) {
    && (forall i :: 0 <= i < |words| ==> words[i].start < words[i].end)
    && (forall i :: 0 <= i < |words| - 1 ==> words[i].end <= words[i + 1].start)
  }

  /** In a well-formed timeline time grows strictly with the index. */
  lemma {:induction false} TimelineMonotone(words: seq<Word>, i: nat, j: nat)
    requires WellFormedTimeline(words)
    requires i < j < |words|
    ensures words[i].end <= words[j].start
    ensures words[i].start < words[j].start
    decreases j - i
  {
    if i + 1 < j {
      TimelineMonotone(words, i + 1, j);
    }
  }
}
