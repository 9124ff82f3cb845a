/**
 * What `_save_results` writes: every word of the transcript labelled with
 * the reason of the decision that has exactly its start and end (or
 * "keep"), the decision list, the summary counts, and the choice among
 * JSON, CSV and plain text by the output path's suffix.  The file writes
 * themselves are not modelled; the value written is.
 */
module Report {
  import opened Text
  import opened Models
  import opened Ordering

  // ---------------------------------------------------------------------
  // The decision map
  // ---------------------------------------------------------------------

  /** `(round(start, 3), round(end, 3))`; with whole milliseconds the rounding is the identity. */
  type Key = (int, int)

  function KeyOf(d: EditDecision): Key { (d.start, d.end) }

  function WordKey(w: Word): Key { (w.start, w.end) }

  /** `decision_map` after its loop: a later decision overwrites an earlier one with the same key. */
  function DecisionMap(ds: seq<EditDecision>): map<Key, EditDecision> {
    if ds == [] then map[]
    else DecisionMap(ds[..|ds| - 1])[KeyOf(ds[|ds| - 1]) := ds[|ds| - 1]]
  }

  /** The keys are exactly the decisions' keys, and each key maps to a decision that has it. */
  lemma {:induction false} DecisionMapKeys(ds: seq<EditDecision>)
    ensures DecisionMap(ds).Keys == set i | 0 <= i < |ds| :: KeyOf(ds[i])
    ensures forall k :: k in DecisionMap(ds) ==> KeyOf(DecisionMap(ds)[k]) == k && DecisionMap(ds)[k] in ds
  {
    if ds != [] {
      var init := ds[..|ds| - 1];
      DecisionMapKeys(init);
      assert forall i :: 0 <= i < |init| ==> init[i] == ds[i];
      assert (set i | 0 <= i < |ds| :: KeyOf(ds[i])) == (set i | 0 <= i < |init| :: KeyOf(init[i])) + {KeyOf(ds[|ds| - 1])};
    }
  }

  /** A key maps to the last decision that has it. */
  lemma {:induction false} DecisionMapLastWins(ds: seq<EditDecision>, i: nat)
    requires i < |ds|
    requires forall j :: i < j < |ds| ==> KeyOf(ds[j]) != KeyOf(ds[i])
    ensures KeyOf(ds[i]) in DecisionMap(ds) && DecisionMap(ds)[KeyOf(ds[i])] == ds[i]
  {
    var init := ds[..|ds| - 1];
    if i < |ds| - 1 {
      assert init[i] == ds[i];
      assert forall j :: i < j < |init| ==> init[j] == ds[j];
      DecisionMapLastWins(init, i);
    }
  }

  /** The `decision_map` loop. */
  method BuildDecisionMap(decisions: seq<EditDecision>) returns (decisionMap: map<Key, EditDecision>)
    ensures decisionMap == DecisionMap(decisions)
  {
    decisionMap := map[];
    for i := 0 to |decisions|
      invariant decisionMap == DecisionMap(decisions[..i])
    {
      assert decisions[..i + 1][..i] == decisions[..i];
      decisionMap := decisionMap[KeyOf(decisions[i]) := decisions[i]];
    }
    assert decisions[..|decisions|] == decisions;
  }

  // ---------------------------------------------------------------------
  // The labelled words
  // ---------------------------------------------------------------------

  /** One entry of `all_words`; `tag` is its `label` entry. */
  datatype WordRow = WordRow(text: string, start: int, end: int, confidence: real, tag: string)

  /** `decision.reason if decision else "keep"` */
  function Label(decisionMap: map<Key, EditDecision>, w: Word): string {
    if WordKey(w) in decisionMap then decisionMap[WordKey(w)].reason else "keep"
  }

  function Row(decisionMap: map<Key, EditDecision>, w: Word): WordRow {
    WordRow(w.text, w.start, w.end, w.confidence, Label(decisionMap, w))
  }

  /** The rows of `words`, one each, in order. */
  function Rows(words: seq<Word>, decisionMap: map<Key, EditDecision>): (rows: seq<WordRow>)
    ensures |rows| == |words|
  {
    seq(|words|, i requires 0 <= i < |words| => Row(decisionMap, words[i]))
  }

  lemma RowsSnoc(words: seq<Word>, w: Word, decisionMap: map<Key, EditDecision>)
    ensures Rows(words + [w], decisionMap) == Rows(words, decisionMap) + [Row(decisionMap, w)]
  {
  }

  /** `all_words` for the given segments. */
  function AllWords(segments: seq<Segment>, decisions: seq<EditDecision>): seq<WordRow> {
    Rows(Flatten(segments), DecisionMap(decisions))
  }

  /** The nested loop that fills `all_words`, segment after segment. */
  method LabelWords(segments: seq<Segment>, decisionMap: map<Key, EditDecision>) returns (allWords: seq<WordRow>)
    ensures allWords == Rows(Flatten(segments), decisionMap)
  {
    allWords := [];
    for s := 0 to |segments|
      invariant allWords == Rows(Flatten(segments[..s]), decisionMap)
    {
      var segment := segments[s];
      assert segments[..s + 1][..s] == segments[..s];
      ghost var done := Flatten(segments[..s]);
      for j := 0 to |segment.words|
        invariant allWords == Rows(done + segment.words[..j], decisionMap)
      {
        var word := segment.words[j];
        RowsSnoc(done + segment.words[..j], word, decisionMap);
        assert done + segment.words[..j + 1] == done + segment.words[..j] + [word];
        allWords := allWords + [Row(decisionMap, word)];
      }
      assert segment.words[..|segment.words|] == segment.words;
    }
    assert segments[..|segments|] == segments;
  }

  /**
   * `all_words` has one row per word, in segment-then-word order: word `j`
   * of segment `s` is row `Offset(segments, s) + j`, with its text, times
   * and confidence.
   */
  lemma AllWordsPlacement(segments: seq<Segment>, decisions: seq<EditDecision>, s: nat, j: nat)
    requires s < |segments| && j < |segments[s].words|
    ensures |AllWords(segments, decisions)| == |Flatten(segments)|
    ensures Offset(segments, s) + j < |AllWords(segments, decisions)|
    ensures var w, r := segments[s].words[j], AllWords(segments, decisions)[Offset(segments, s) + j];
      r.text == w.text && r.start == w.start && r.end == w.end && r.confidence == w.confidence
      && r.tag == Label(DecisionMap(decisions), w)
  {
    FlattenAt(segments, s, j);
  }

  /**
   * A word is labelled with the reason of the last decision with exactly
   * its start and end, and "keep" when no decision has them (so the words
   * inside a multi-word phrase decision are kept unless a key coincides).
   */
  lemma LabelOfWord(decisions: seq<EditDecision>, w: Word)
    ensures (forall i :: 0 <= i < |decisions| ==> KeyOf(decisions[i]) != WordKey(w)) ==> Label(DecisionMap(decisions), w) == "keep"
    ensures forall i :: (0 <= i < |decisions| && KeyOf(decisions[i]) == WordKey(w)
                         && (forall j :: i < j < |decisions| ==> KeyOf(decisions[j]) != WordKey(w)))
                        ==> Label(DecisionMap(decisions), w) == decisions[i].reason
  {
    DecisionMapKeys(decisions);
    forall i | 0 <= i < |decisions| && KeyOf(decisions[i]) == WordKey(w)
      && (forall j :: i < j < |decisions| ==> KeyOf(decisions[j]) != WordKey(w))
      ensures Label(DecisionMap(decisions), w) == decisions[i].reason
    {
      DecisionMapLastWins(decisions, i);
    }
  }

  // ---------------------------------------------------------------------
  // The output formats
  // ---------------------------------------------------------------------

  datatype Format = Json | Csv | PlainText

  /**
   * `Path(path).suffix`: the final component's text from its last dot,
   * provided that dot is neither the first nor the last character.
   */
  function Suffix(path: string): (ext: string)
    ensures ext == [] || (|ext| >= 2 && ext[0] == '.' && '.' !in ext[1..] && '/' !in ext)
  {
    var name := AfterLast(path, '/');
    var tail := AfterLast(name, '.');
    // name[|name| - |tail| - 1] is the last dot; it must not be name[0], and tail must not be empty
    if tail != [] && |tail| + 1 < |name| then
      assert '/' !in tail by {
        assert tail == name[|name| - |tail|..];
      }
      "." + tail
    else ""
  }

  /** `output_path.suffix.lower()` decides: ".json", then ".csv", anything else plain text. */
  function FormatOf(path: string): Format {
    FormatFor(Lower(Suffix(path)))
  }

  /** The format a lower-cased suffix selects. */
  function FormatFor(ext: string): Format {
    if ext == ".json" then Json
    else if ext == ".csv" then Csv
    else PlainText
  }

  /**
   * A file name `stem.ext` in any directory: the suffix is the dot and
   * `ext`, whatever dots the stem itself holds.
   */
  lemma SuffixOfName(dir: string, stem: string, ext: string)
    requires dir == [] || dir[|dir| - 1] == '/'
    requires stem != [] && '/' !in stem && ext != [] && '.' !in ext && '/' !in ext
    ensures Suffix(dir + stem + "." + ext) == "." + ext
  {
    var name := stem + "." + ext;
    assert '/' !in name;
    assert dir + stem + "." + ext == dir + name;
    AfterLastAfterSep(dir, name, '/');
    NameExtension(stem, ext);
    SuffixOf(dir + name, name, ext);
  }

  /** What follows the last dot of `stem.ext` is `ext`. */
  lemma NameExtension(stem: string, ext: string)
    requires '.' !in ext
    ensures AfterLast(stem + "." + ext, '.') == ext
  {
    assert stem + "." + ext == (stem + ".") + ext;
    AfterLastAfterSep(stem + ".", ext, '.');
  }

  /** The suffix from the final component and what follows its last dot. */
  lemma SuffixOf(path: string, name: string, tail: string)
    requires AfterLast(path, '/') == name && AfterLast(name, '.') == tail && tail != [] && |tail| + 1 < |name|
    ensures Suffix(path) == "." + tail
  {
  }

  /** A hidden file `.ext` has no suffix: its only dot is its first character. */
  lemma SuffixOfHidden(dir: string, ext: string)
    requires dir == [] || dir[|dir| - 1] == '/'
    requires '.' !in ext && '/' !in ext
    ensures Suffix(dir + "." + ext) == ""
  {
    var name := "." + ext;
    assert '/' !in name;
    assert dir + "." + ext == dir + name;
    AfterLastAfterSep(dir, name, '/');
    AfterLastAfterSep(".", ext, '.');
  }

  /** Lower-casing leaves the dot of a suffix in place. */
  lemma LowerDot(ext: string)
    ensures Lower("." + ext) == "." + Lower(ext)
  {
    assert ("." + ext)[1..] == ext;
  }

  /** Two suffixes agree exactly when what follows their dots does. */
  lemma DotSame(l: string, w: string)
    ensures "." + l == "." + w <==> l == w
  {
    assert ("." + l)[1..] == l && ("." + w)[1..] == w;
  }

  /** A dot followed by `l` selects JSON exactly for "json" and CSV exactly for "csv". */
  lemma FormatForDot(l: string)
    ensures FormatFor("." + l) == Json <==> l == "json"
    ensures FormatFor("." + l) == Csv <==> l == "csv"
    ensures FormatFor("." + l) == PlainText <==> l != "json" && l != "csv"
  {
    DotSame(l, "json");
    DotSame(l, "csv");
  }

  /** A path whose suffix is a dot and `ext` is JSON, CSV or plain text by `ext` alone. */
  lemma FormatOfExt(path: string, ext: string)
    requires Suffix(path) == "." + ext
    ensures FormatOf(path) == Json <==> Lower(ext) == "json"
    ensures FormatOf(path) == Csv <==> Lower(ext) == "csv"
    ensures FormatOf(path) == PlainText <==> Lower(ext) != "json" && Lower(ext) != "csv"
  {
    LowerDot(ext);
    FormatForDot(Lower(ext));
  }

  /**
   * The report format of `dir/stem.ext`: JSON exactly when `ext` is "json"
   * in any case, CSV exactly when it is "csv", plain text otherwise.
   */
  lemma FormatOfName(dir: string, stem: string, ext: string)
    requires dir == [] || dir[|dir| - 1] == '/'
    requires stem != [] && '/' !in stem && ext != [] && '.' !in ext && '/' !in ext
    ensures FormatOf(dir + stem + "." + ext) == Json <==> Lower(ext) == "json"
    ensures FormatOf(dir + stem + "." + ext) == Csv <==> Lower(ext) == "csv"
    ensures FormatOf(dir + stem + "." + ext) == PlainText <==> Lower(ext) != "json" && Lower(ext) != "csv"
  {
    SuffixOfName(dir, stem, ext);
    FormatOfExt(dir + stem + "." + ext, ext);
  }

  /** A path without a suffix gets the plain-text report. */
  lemma NoSuffixIsText(path: string)
    requires '.' !in AfterLast(path, '/')
    ensures Suffix(path) == "" && FormatOf(path) == PlainText
  {
    var name := AfterLast(path, '/');
    assert AfterLast(name, '.') == name by {
      LastPieceUnique(name, '.', AfterLast(name, '.'), name);
    }
  }

  /** Word fields in the JSON `segments` list (no label). */
  datatype WordOut = WordOut(text: string, start: int, end: int, confidence: real)

  datatype SegmentOut = SegmentOut(text: string, start: int, end: int, words: seq<WordOut>)

  /** One entry of the JSON `fillers` list. */
  datatype FillerOut = FillerOut(text: string, start: int, end: int, reason: string)

  datatype Summary = Summary(totalSegments: nat, totalWords: nat, fillersCount: nat)

  /** The value written, by format. */
  datatype Output =
    | JsonOutput(segments: seq<SegmentOut>, words: seq<WordRow>, fillers: seq<FillerOut>, summary: Summary)
    | CsvOutput(fieldnames: seq<string>, rows: seq<WordRow>)
    | TextOutput(content: string)

  function SegmentOutOf(s: Segment): SegmentOut {
    SegmentOut(s.text, s.start, s.end,
               seq(|s.words|, j requires 0 <= j < |s.words| => WordOut(s.words[j].text, s.words[j].start, s.words[j].end, s.words[j].confidence)))
  }

  function FillerOutOf(d: EditDecision): FillerOut {
    FillerOut(d.originalText, d.start, d.end, d.reason)
  }

  /** The JSON `fillers` list: one entry per decision, in decision order. */
  function FillersList(decisions: seq<EditDecision>): (fillers: seq<FillerOut>)
    ensures |fillers| == |decisions|
  {
    seq(|decisions|, i requires 0 <= i < |decisions| => FillerOutOf(decisions[i]))
  }

  // ---------------------------------------------------------------------
  // The plain-text report
  // ---------------------------------------------------------------------

  /** Two decimal digits of `q < 100`, zero-padded. */
  function Pad2(q: nat): (s: string)
    requires q < 100
    ensures |s| == 2 && AllChars(s, IsDigit)
  {
    [DigitChar(q / 10), DigitChar(q % 10)]
  }

  /** Three decimal digits of `k < 1000`, zero-padded. */
  function Pad3(k: nat): (s: string)
    requires k < 1000
    ensures |s| == 3 && AllChars(s, IsDigit)
  {
    Pad2(k / 10) + [DigitChar(k % 10)]
  }

  /** `f"{t:.3f}"` for a time of `ms` milliseconds (`t = ms / 1000` seconds). */
  function FormatTime(ms: int): string {
    var n: nat := if ms < 0 then -ms else ms;
    (if ms < 0 then "-" else "") + NatToString(n / 1000) + "." + Pad3(n % 1000)
  }

  /** Reads a time written by `FormatTime` (sign, seconds, dot, three digits) back into milliseconds. */
  function ParseTime(s: string): int {
    var neg := s != [] && s[0] == '-';
    var body := if neg then s[1..] else s;
    var n := if |body| >= 4 then ParseNat(body[..|body| - 4]) * 1000 + ParseNat(body[|body| - 3..]) else 0;
    if neg then -n else n
  }

  lemma ParsePad2(q: nat)
    requires q < 100
    ensures ParseNat(Pad2(q)) == q
  {
    var s := Pad2(q);
    DigitRoundTrip(q / 10);
    DigitRoundTrip(q % 10);
    assert ParseNat(s[..1]) == q / 10 by {
      assert s[..1][..0] == [];
    }
    assert ParseNat(s) == ParseNat(s[..1]) * 10 + DigitValue(s[1]);
  }

  lemma ParsePad3(k: nat)
    requires k < 1000
    ensures ParseNat(Pad3(k)) == k
  {
    var s := Pad3(k);
    assert s[..2] == Pad2(k / 10);
    ParsePad2(k / 10);
    DigitRoundTrip(k % 10);
  }

  /** Three decimals are enough: the written time reads back as the same millisecond. */
  lemma FormatTimeRoundTrip(ms: int)
    ensures ParseTime(FormatTime(ms)) == ms
  {
    var n: nat := if ms < 0 then -ms else ms;
    var digits := NatToString(n / 1000);
    var body := digits + "." + Pad3(n % 1000);
    assert body[..|body| - 4] == digits;
    assert body[|body| - 3..] == Pad3(n % 1000);
    ParseNatToString(n / 1000);
    ParsePad3(n % 1000);
    assert body[0] == digits[0];
    if ms < 0 {
      assert FormatTime(ms) == "-" + body;
      assert ("-" + body)[1..] == body;
    } else {
      assert FormatTime(ms) == body;
    }
  }

  /** `f" [{label}]" if label != "keep" else ""` */
  function LabelText(tag: string): string {
    if tag != "keep" then " [" + tag + "]" else ""
  }

  /** One word's line of the plain-text report. */
  function TextLine(r: WordRow): string {
    FormatTime(r.start) + " - " + FormatTime(r.end) + ": " + r.text + LabelText(r.tag) + "\n"
  }

  /** A line ends with ` [label]` exactly when the label is not "keep"; a kept word's line ends with its text. */
  lemma TextLineLabel(r: WordRow)
    ensures r.tag != "keep" ==> EndsWith(TextLine(r), " [" + r.tag + "]\n")
    ensures r.tag == "keep" ==> EndsWith(TextLine(r), r.text + "\n")
  {
    var head := FormatTime(r.start) + " - " + FormatTime(r.end) + ": ";
    if r.tag != "keep" {
      var tail := " [" + r.tag + "]\n";
      assert TextLine(r) == head + r.text + tail;
      assert (head + r.text + tail)[|head + r.text|..] == tail;
    } else {
      var tail := r.text + "\n";
      assert TextLine(r) == head + tail;
      assert (head + tail)[|head|..] == tail;
    }
  }

  /** The word lines, in order. */
  function Lines(rows: seq<WordRow>): string {
    if rows == [] then "" else Lines(rows[..|rows| - 1]) + TextLine(rows[|rows| - 1])
  }

  /** The closing summary of the plain-text report. */
  function SummaryText(wordCount: nat, fillersCount: nat): string {
    "\n## Summary\n" + "Total words: " + NatToString(wordCount) + "\n"
    + "Fillers to remove: " + NatToString(fillersCount) + "\n"
  }

  const TextHeader := "# Transcription Results\n\n" + "## Words with timestamps\n\n"

  /** The whole plain-text report. */
  function TextReport(rows: seq<WordRow>, fillersCount: nat): string {
    TextHeader + Lines(rows) + SummaryText(|rows|, fillersCount)
  }

  lemma {:induction false} LinesAppend(a: seq<WordRow>, b: seq<WordRow>)
    ensures Lines(a + b) == Lines(a) + Lines(b)
    decreases |b|
  {
    if b == [] {
      assert a + b == a;
    } else {
      var init, last := b[..|b| - 1], b[|b| - 1];
      LinesAppend(a, init);
      InitLast(b);
      ConcatAssoc(a, init, [last]);
      LinesSnoc(a + init, last);
      LinesSnoc(init, last);
      ConcatAssoc(Lines(a), Lines(init), TextLine(last));
    }
  }

  lemma LinesSnoc(rows: seq<WordRow>, r: WordRow)
    ensures Lines(rows + [r]) == Lines(rows) + TextLine(r)
  {
    assert (rows + [r])[..|rows|] == rows;
  }

  /** Line `i` sits right after the lines before it. */
  lemma LinesAt(rows: seq<WordRow>, i: nat)
    requires i < |rows|
    ensures OccursAt(Lines(rows), TextLine(rows[i]), |Lines(rows[..i])|)
  {
    var before, rest := rows[..i], rows[i + 1..];
    assert rows == before + [rows[i]] + rest;
    LinesAppend(before + [rows[i]], rest);
    LinesAppend(before, [rows[i]]);
    assert [rows[i]][..0] == [];
    assert Lines([rows[i]]) == TextLine(rows[i]);
    OccursShift(Lines(before), TextLine(rows[i]), Lines(rest), TextLine(rows[i]), 0);
  }

  // ---------------------------------------------------------------------
  // _save_results
  // ---------------------------------------------------------------------

  const CsvFields: seq<string> := ["text", "start", "end", "confidence", "label"]

  /** What `_save_results` writes for these segments, decisions and output path. */
  function SavedOutput(segments: seq<Segment>, decisions: seq<EditDecision>, path: string): Output {
    var allWords := AllWords(segments, decisions);
    match FormatOf(path)
    case Json =>
      JsonOutput(seq(|segments|, i requires 0 <= i < |segments| => SegmentOutOf(segments[i])),
                 allWords, FillersList(decisions),
                 Summary(|segments|, |allWords|, |decisions|))
    case Csv => CsvOutput(CsvFields, allWords)
    case PlainText => TextOutput(TextReport(allWords, |decisions|))
  }

  /** `_save_results` without the file write: the loops, then the value for the chosen format. */
  method SaveResults(segments: seq<Segment>, decisions: seq<EditDecision>, path: string) returns (output: Output)
    ensures output == SavedOutput(segments, decisions, path)
  {
    var decisionMap := BuildDecisionMap(decisions);
    var allWords := LabelWords(segments, decisionMap);
    var ext := Lower(Suffix(path));
    assert FormatOf(path) == FormatFor(ext);
    if ext == ".json" {
      var segmentsOut := seq(|segments|, i requires 0 <= i < |segments| => SegmentOutOf(segments[i]));
      output := JsonOutput(segmentsOut, allWords, FillersList(decisions),
                           Summary(|segments|, |allWords|, |decisions|));
    } else if ext == ".csv" {
      output := CsvOutput(CsvFields, allWords);
    } else {
      output := TextOutput(TextReport(allWords, |decisions|));
    }
  }

  /**
   * The JSON report: one segment entry per segment, the labelled words,
   * one filler entry per decision in decision order with the decision's
   * original text, and the counts of segments, words and decisions.
   */
  lemma JsonReport(segments: seq<Segment>, decisions: seq<EditDecision>, path: string)
    requires FormatOf(path) == Json
    ensures var out := SavedOutput(segments, decisions, path);
      && out.JsonOutput?
      && |out.segments| == |segments|
      && out.words == AllWords(segments, decisions)
      && |out.fillers| == |decisions|
      && (forall i :: 0 <= i < |decisions| ==>
            (&& out.fillers[i].text == decisions[i].originalText
             && out.fillers[i].start == decisions[i].start && out.fillers[i].end == decisions[i].end
             && out.fillers[i].reason == decisions[i].reason))
      && out.summary == Summary(|segments|, |Flatten(segments)|, |decisions|)
  {
  }

  /** The CSV report: the five columns and one row per word. */
  lemma CsvReport(segments: seq<Segment>, decisions: seq<EditDecision>, path: string)
    requires FormatOf(path) == Csv
    ensures var out := SavedOutput(segments, decisions, path);
      out.CsvOutput? && out.fieldnames == CsvFields && |out.rows| == |Flatten(segments)|
      && out.rows == AllWords(segments, decisions)
  {
  }

  /** Every row's line is in the plain-text report. */
  lemma TextReportLine(rows: seq<WordRow>, fillersCount: nat, i: nat)
    requires i < |rows|
    ensures Contains(TextReport(rows, fillersCount), TextLine(rows[i]))
  {
    var line := TextLine(rows[i]);
    LinesAt(rows, i);
    OccursShift(TextHeader, Lines(rows), SummaryText(|rows|, fillersCount), line, |Lines(rows[..i])|);
    var k := |TextHeader| + |Lines(rows[..i])|;
    assert 0 <= k <= |TextReport(rows, fillersCount)| - |line| && OccursAt(TextReport(rows, fillersCount), line, k);
  }

  /** The plain-text report ends with the summary. */
  lemma TextReportSummary(rows: seq<WordRow>, fillersCount: nat)
    ensures EndsWith(TextReport(rows, fillersCount), SummaryText(|rows|, fillersCount))
  {
    EndsWithConcat(TextHeader + Lines(rows), SummaryText(|rows|, fillersCount));
  }

  /** The plain-text report: every word has its line, and the summary counts words and decisions. */
  lemma PlainTextReport(segments: seq<Segment>, decisions: seq<EditDecision>, path: string, i: nat)
    requires FormatOf(path) == PlainText && i < |Flatten(segments)|
    ensures var out := SavedOutput(segments, decisions, path);
      && out.TextOutput?
      && Contains(out.content, TextLine(AllWords(segments, decisions)[i]))
      && EndsWith(out.content, SummaryText(|Flatten(segments)|, |decisions|))
  {
    TextReportLine(AllWords(segments, decisions), |decisions|, i);
    TextReportSummary(AllWords(segments, decisions), |decisions|);
  }
}
