/**
 * The filler and repetition detector (class `Analyzer` of
 * ksu_podcast_editor/analyzer.py).  The words of all segments are flattened
 * into one sequence and three passes run over it in order -- multi-word
 * filler phrases, single-word fillers, immediate repetitions -- sharing one
 * set of claimed word indices; the collected decisions are then sorted by
 * start time.
 *
 * The specification keeps, beside every decision, the index range
 * `[lo, hi)` of the words it covers (a `Hit`); the source does not store it,
 * and the method below produces only the decisions.
 */
module Detector {
  import opened Wrappers
  import opened Text
  import opened Models
  import opened Ordering
  import opened Normalization

  // ---------------------------------------------------------------------
  // Gazetteer: the per-language tables
  // ---------------------------------------------------------------------

  const RuFillers: set<string> := {
    "э", "ээ", "эээ", "м", "мм", "ммм", "а", "аа", "ааа",
    "ну", "вот", "типа", "значит", "короче", "вообще", "там",
    "так", "это", "ладно", "блин", "слушай", "смотри",
    "понимаешь", "знаешь", "видишь", "представляешь",
    "допустим", "наверное", "кстати", "прикинь"
  }

  const EnFillers: set<string> := {
    "um", "uh", "hmm", "like", "you know", "so", "basically",
    "erm", "ah", "well", "right", "okay", "anyway"
  }

  /** The Russian phrase table, each phrase given by its words. */
  const RuPhraseWords: seq<seq<string>> := [
    ["как", "бы"], ["ну", "вот"], ["вот", "так"], ["это", "самое"], ["так", "сказать"],
    ["в", "общем"], ["в", "принципе"], ["в", "смысле"], ["по", "сути"],
    ["на", "самом", "деле"], ["собственно", "говоря"], ["честно", "говоря"],
    ["грубо", "говоря"], ["короче", "говоря"], ["скажем", "так"],
    ["как", "говорится"], ["так", "называемый"], ["можно", "сказать"],
    ["ну", "типа"], ["ну", "короче"], ["ну", "это"], ["вот", "это"]
  ]

  const EnPhraseWords: seq<seq<string>> := [
    ["you", "know"], ["i", "mean"], ["kind", "of"], ["sort", "of"], ["you", "see"],
    ["to", "be", "honest"], ["basically", "speaking"], ["at", "the", "end", "of", "the", "day"]
  ]

  /** The phrase strings of a table: its words joined by single spaces. */
  function PhraseStrings(table: seq<seq<string>>): (phrases: seq<string>)
    ensures |phrases| == |table|
    ensures forall i :: 0 <= i < |table| ==> phrases[i] == Join(" ", table[i])
  {
    seq(|table|, i requires 0 <= i < |table| => Join(" ", table[i]))
  }

  /** `FILLERS.get(language, set())` */
  function LanguageFillers(language: string): set<string> {
    if language == "ru" then RuFillers
    else if language == "en" then EnFillers
    else {}
  }

  /** `FILLER_PHRASES.get(language, [])` */
  function LanguagePhrases(language: string): seq<string> {
    if language == "ru" then PhraseStrings(RuPhraseWords)
    else if language == "en" then PhraseStrings(EnPhraseWords)
    else []
  }

  // ---------------------------------------------------------------------
  // The analyzer's configuration
  // ---------------------------------------------------------------------

  /** The fields `Analyzer.__init__` sets; nothing changes them later. */
  datatype Analyzer = Analyzer(language: string, fillers: set<string>, fillerPhrases: seq<string>)
  {
    /** Every phrase has at least one word (true of both tables). */
    predicate Valid() {
      PhrasesSplit(fillerPhrases)
    }
  }

  /** Lower-case Latin and Cyrillic letters: what the table phrases are made of. */
  predicate IsLetter(c: char) {
    'a' <= c <= 'z' || '\U{430}' <= c <= '\U{44F}'
  }

  /** A non-empty list of non-empty words of letters only. */
  predicate LetterWords(ws: seq<string>) {
    ws != [] && forall i :: 0 <= i < |ws| ==> ws[i] != [] && forall j :: 0 <= j < |ws[i]| ==> IsLetter(ws[i][j])
  }

  lemma RuTableLetterWords()
    ensures forall i :: 0 <= i < |RuPhraseWords| ==> LetterWords(RuPhraseWords[i])
  {
    RuTableLetterWordsA();
    RuTableLetterWordsB();
    RuTableLetterWordsC();
  }

  lemma RuTableLetterWordsA()
    ensures forall i :: 0 <= i < 8 ==> LetterWords(RuPhraseWords[i])
  {
  }

  lemma RuTableLetterWordsB()
    ensures forall i :: 8 <= i < 16 ==> LetterWords(RuPhraseWords[i])
  {
  }

  lemma RuTableLetterWordsC()
    ensures forall i :: 16 <= i < 22 ==> LetterWords(RuPhraseWords[i])
  {
  }

  lemma EnTableLetterWords()
    ensures forall i :: 0 <= i < |EnPhraseWords| ==> LetterWords(EnPhraseWords[i])
  {
  }

  /** Each table phrase splits back into its words. */
  lemma TableSplits(table: seq<seq<string>>)
    requires forall i :: 0 <= i < |table| ==> LetterWords(table[i])
    ensures forall i :: 0 <= i < |table| ==> Split(PhraseStrings(table)[i]) == table[i]
  {
    forall i | 0 <= i < |table| ensures Split(PhraseStrings(table)[i]) == table[i] {
      assert AreWords(table[i]);
      SplitJoin(table[i]);
    }
  }

  /** Both phrase tables, split into words, give back the listed words. */
  lemma PhraseTablesSplit()
    ensures forall i :: 0 <= i < |RuPhraseWords| ==> Split(LanguagePhrases("ru")[i]) == RuPhraseWords[i]
    ensures forall i :: 0 <= i < |EnPhraseWords| ==> Split(LanguagePhrases("en")[i]) == EnPhraseWords[i]
  {
    RuTableLetterWords();
    EnTableLetterWords();
    TableSplits(RuPhraseWords);
    TableSplits(EnPhraseWords);
  }

  /** Every phrase of every language has at least one word. */
  lemma LanguagePhrasesNonEmpty(language: string)
    ensures forall i :: 0 <= i < |LanguagePhrases(language)| ==> Split(LanguagePhrases(language)[i]) != []
  {
    PhraseTablesSplit();
  }

  /**
   * `Analyzer(language, custom_fillers)`: the language's tables (empty ones
   * for an unknown language), the custom fillers added to the filler set.
   */
  function NewAnalyzer(language: string := "ru", customFillers: Option<set<string>> := None): (a: Analyzer)
    ensures a.Valid()
    ensures a.language == language
    ensures a.fillerPhrases == LanguagePhrases(language)
    ensures a.fillers == LanguageFillers(language) + customFillers.GetOr({})
    ensures language != "ru" && language != "en" ==> a.fillerPhrases == [] && a.fillers == customFillers.GetOr({})
  {
    LanguagePhrasesNonEmpty(language);
    var fillers := LanguageFillers(language);
    Analyzer(language,
             if customFillers.Some? && customFillers.value != {} then fillers + customFillers.value else fillers,
             LanguagePhrases(language))
  }

  // ---------------------------------------------------------------------
  // Normalisation and the word tests
  // ---------------------------------------------------------------------

  /** `_is_filler`: the normalised text is in the filler set. */
  predicate IsFiller(a: Analyzer, word: Word) {
    Normalize(word.text) in a.fillers
  }

  /** `_is_repetition`: equal normalised texts of more than one character. */
  predicate IsRepetition(prev: Word, curr: Word) {
    Normalize(prev.text) == Normalize(curr.text) && |Normalize(prev.text)| > 1
  }

  /** The normalised texts of all words, in order. */
  function Normalized(words: seq<Word>): (ns: seq<string>)
    ensures |ns| == |words|
    ensures forall i :: 0 <= i < |words| ==> ns[i] == Normalize(words[i].text)
  {
    seq(|words|, i requires 0 <= i < |words| => Normalize(words[i].text))
  }

  // ---------------------------------------------------------------------
  // Specification of the three passes
  //
  // The passes read the words' normalised texts `ns` (`Normalized(words)`).
  // ---------------------------------------------------------------------

  /** A decision together with the word indices `[lo, hi)` it covers. */
  datatype Hit = Hit(lo: nat, hi: nat, decision: EditDecision)

  /** The decisions collected so far and the claimed word indices. */
  datatype Claims = Claims(hits: seq<Hit>, marked: set<nat>)

  function Decisions(hits: seq<Hit>): (ds: seq<EditDecision>)
    ensures |ds| == |hits|
    ensures forall i :: 0 <= i < |hits| ==> ds[i] == hits[i].decision
  {
    seq(|hits|, i requires 0 <= i < |hits| => hits[i].decision)
  }

  function StartOf(d: EditDecision): int { d.start }

  function HitStart(h: Hit): int { h.decision.start }

  /** The indices `lo .. hi-1`. */
  function Range(lo: nat, hi: nat): (r: set<nat>)
    ensures forall k: nat :: k in r <==> lo <= k < hi
    decreases hi
  {
    if hi <= lo then {} else Range(lo, hi - 1) + {hi - 1}
  }

  /** `any(idx in marked_indices for idx in range(lo, hi))` */
  predicate AnyMarked(marked: set<nat>, lo: nat, hi: nat) {
    exists k: nat :: lo <= k < hi && k in marked
  }

  /** The raw texts of the `n` words from index `i`, joined by single spaces. */
  function RawText(words: seq<Word>, i: nat, n: nat): string
    requires i + n <= |words|
  {
    Join(" ", seq(n, k requires 0 <= k < n => words[i + k].text))
  }

  /** The decision for a phrase matched at `[i, i + n)`. */
  function PhraseHit(words: seq<Word>, i: nat, n: nat): Hit
    requires 1 <= n && i + n <= |words|
  {
    Hit(i, i + n, EditDecision(words[i].start, words[i + n - 1].end, "filler", RawText(words, i, n)))
  }

  /** The decision covering the single word `i`. */
  function TokenHit(words: seq<Word>, i: nat, reason: string): Hit
    requires i < |words|
  {
    Hit(i, i + 1, EditDecision(words[i].start, words[i].end, reason, words[i].text))
  }

  /** `len(range(len(words) - n + 1))`: window positions for a phrase of `n` words. */
  function Positions(wordCount: nat, n: nat): nat {
    if wordCount + 1 >= n then wordCount + 1 - n else 0
  }

  /** One position of the phrase pass. */
  function PhraseStep(words: seq<Word>, ns: seq<string>, phraseWords: seq<string>, c: Claims, i: nat): Claims
    requires |ns| == |words| && 1 <= |phraseWords| && i + |phraseWords| <= |words|
  {
    var n := |phraseWords|;
    if AnyMarked(c.marked, i, i + n) then c
    else if ns[i..i + n] == phraseWords then
      Claims(c.hits + [PhraseHit(words, i, n)], c.marked + Range(i, i + n))
    else c
  }

  /** The first `k` positions of one phrase's scan. */
  function PhraseScan(words: seq<Word>, ns: seq<string>, phraseWords: seq<string>, c: Claims, k: nat): Claims
    requires |ns| == |words| && 1 <= |phraseWords| && k <= Positions(|words|, |phraseWords|)
  {
    if k == 0 then c
    else PhraseStep(words, ns, phraseWords, PhraseScan(words, ns, phraseWords, c, k - 1), k - 1)
  }

  /** Every phrase has at least one word. */
  predicate PhrasesSplit(phrases: seq<string>) {
    forall j :: 0 <= j < |phrases| ==> Split(phrases[j]) != []
  }

  /** The claims after the first `m` phrases, in list order. */
  function PhrasePass(words: seq<Word>, ns: seq<string>, phrases: seq<string>, m: nat): Claims
    requires |ns| == |words| && m <= |phrases| && PhrasesSplit(phrases)
  {
    if m == 0 then Claims([], {})
    else
      var phraseWords := Split(phrases[m - 1]);
      PhraseScan(words, ns, phraseWords, PhrasePass(words, ns, phrases, m - 1), Positions(|words|, |phraseWords|))
  }

  /** The filler decisions among the first `k` words, given the claims of the phrase pass. */
  function FillerHits(words: seq<Word>, ns: seq<string>, fillers: set<string>, marked: set<nat>, k: nat): seq<Hit>
    requires |ns| == |words| && k <= |words|
  {
    if k == 0 then []
    else
      FillerHits(words, ns, fillers, marked, k - 1)
      + (if k - 1 !in marked && ns[k - 1] in fillers then [TokenHit(words, k - 1, "filler")] else [])
  }

  /** The indices the filler pass claims among the first `k` words. */
  function FillerMarks(ns: seq<string>, fillers: set<string>, marked: set<nat>, k: nat): set<nat>
    requires k <= |ns|
  {
    set i: nat | i < k && i !in marked && ns[i] in fillers
  }

  /** The repetition decisions at indices `1 .. k-1`. */
  function RepHits(words: seq<Word>, ns: seq<string>, marked: set<nat>, k: nat): seq<Hit>
    requires |ns| == |words| && (k <= 1 || k <= |words|)
  {
    if k <= 1 then []
    else
      RepHits(words, ns, marked, k - 1)
      + (if k - 1 !in marked && ns[k - 2] == ns[k - 1] && |ns[k - 2]| > 1 then [TokenHit(words, k - 1, "repetition")] else [])
  }

  /** Claims after the phrase pass. */
  function AfterPhrases(a: Analyzer, words: seq<Word>): Claims
    requires a.Valid()
  {
    PhrasePass(words, Normalized(words), a.fillerPhrases, |a.fillerPhrases|)
  }

  /** Claimed indices after the filler pass. */
  function AfterFillers(a: Analyzer, words: seq<Word>): set<nat>
    requires a.Valid()
  {
    var m := AfterPhrases(a, words).marked;
    m + FillerMarks(Normalized(words), a.fillers, m, |words|)
  }

  /** Everything the three passes collect, in collection order. */
  function AllHits(a: Analyzer, words: seq<Word>): seq<Hit>
    requires a.Valid()
  {
    var ns := Normalized(words);
    var c := AfterPhrases(a, words);
    c.hits + FillerHits(words, ns, a.fillers, c.marked, |words|) + RepHits(words, ns, AfterFillers(a, words), |words|)
  }

  /** The result of `analyze` on the flattened words. */
  function Detect(a: Analyzer, words: seq<Word>): seq<EditDecision>
    requires a.Valid()
  {
    SortBy(Decisions(AllHits(a, words)), StartOf)
  }

  // ---------------------------------------------------------------------
  // The method
  // ---------------------------------------------------------------------

  lemma DecisionsSnoc(hits: seq<Hit>, h: Hit)
    ensures Decisions(hits + [h]) == Decisions(hits) + [h.decision]
  {
  }

  lemma DecisionsAppend(a: seq<Hit>, b: seq<Hit>)
    ensures Decisions(a + b) == Decisions(a) + Decisions(b)
  {
  }

  /**
   * `Analyzer.analyze`: flatten, the three passes, sort by start time.
   * Every word is normalised once, up front; the passes read those texts
   * where the source calls `_normalize` inside each test.
   */
  method Analyze(a: Analyzer, segments: seq<Segment>) returns (decisions: seq<EditDecision>)
    requires a.Valid()
    ensures decisions == Detect(a, Flatten(segments))
  {
    var allWords := CollectWords(segments);
    var ns := NormalizeAll(allWords);
    var phraseDecisions, phraseMarked := FindPhrases(a, allWords, ns);
    var fillerDecisions, marked := FindFillers(a, allWords, ns, phraseMarked);
    var repetitionDecisions := FindRepetitions(allWords, ns, marked);
    DecisionsAppend(AfterPhrases(a, allWords).hits, FillerHits(allWords, ns, a.fillers, phraseMarked, |allWords|));
    DecisionsAppend(AfterPhrases(a, allWords).hits + FillerHits(allWords, ns, a.fillers, phraseMarked, |allWords|),
                    RepHits(allWords, ns, marked, |allWords|));
    decisions := phraseDecisions + fillerDecisions + repetitionDecisions;
    decisions := SortBy(decisions, StartOf);
  }

  /** The words of all segments, in order. */
  method CollectWords(segments: seq<Segment>) returns (allWords: seq<Word>)
    ensures allWords == Flatten(segments)
  {
    allWords := [];
    for s := 0 to |segments|
      invariant allWords == Flatten(segments[..s])
    {
      assert segments[..s + 1][..s] == segments[..s];
      allWords := allWords + segments[s].words;
    }
    assert segments[..|segments|] == segments;
  }

  /** `_normalize` applied to every word. */
  method NormalizeAll(allWords: seq<Word>) returns (ns: seq<string>)
    ensures ns == Normalized(allWords)
  {
    ns := [];
    for i := 0 to |allWords|
      invariant |ns| == i
      invariant forall k :: 0 <= k < i ==> ns[k] == Normalize(allWords[k].text)
    {
      ns := ns + [Normalize(allWords[i].text)];
    }
  }

  /** The phrase pass: each phrase in list order. */
  method FindPhrases(a: Analyzer, allWords: seq<Word>, ns: seq<string>) returns (decisions: seq<EditDecision>, marked: set<nat>)
    requires a.Valid() && |ns| == |allWords|
    ensures decisions == Decisions(PhrasePass(allWords, ns, a.fillerPhrases, |a.fillerPhrases|).hits)
    ensures marked == PhrasePass(allWords, ns, a.fillerPhrases, |a.fillerPhrases|).marked
  {
    var phrases := a.fillerPhrases;
    decisions := [];
    marked := {};
    PhrasePassEmpty(allWords, ns, phrases);
    for p := 0 to |phrases|
      invariant decisions == Decisions(PhrasePass(allWords, ns, phrases, p).hits)
      invariant marked == PhrasePass(allWords, ns, phrases, p).marked
    {
      decisions, marked := MatchPhrase(allWords, ns, phrases, p, decisions, marked);
    }
  }

  lemma PhrasePassEmpty(words: seq<Word>, ns: seq<string>, phrases: seq<string>)
    requires |ns| == |words| && PhrasesSplit(phrases)
    ensures Decisions(PhrasePass(words, ns, phrases, 0).hits) == []
    ensures PhrasePass(words, ns, phrases, 0).marked == {}
  {
  }

  /** One iteration of the phrase loop: split the phrase, scan for it. */
  method MatchPhrase(allWords: seq<Word>, ns: seq<string>, phrases: seq<string>, p: nat,
                     decisions0: seq<EditDecision>, marked0: set<nat>)
    returns (decisions: seq<EditDecision>, marked: set<nat>)
    requires |ns| == |allWords| && p < |phrases| && PhrasesSplit(phrases)
    requires decisions0 == Decisions(PhrasePass(allWords, ns, phrases, p).hits)
    requires marked0 == PhrasePass(allWords, ns, phrases, p).marked
    ensures decisions == Decisions(PhrasePass(allWords, ns, phrases, p + 1).hits)
    ensures marked == PhrasePass(allWords, ns, phrases, p + 1).marked
  {
    var phraseWords := Split(phrases[p]);
    PhrasePassStep(allWords, ns, phrases, p);
    decisions, marked := ScanPhrase(allWords, ns, phraseWords, decisions0, marked0, PhrasePass(allWords, ns, phrases, p));
  }

  lemma PhrasePassStep(words: seq<Word>, ns: seq<string>, phrases: seq<string>, p: nat)
    requires |ns| == |words| && p < |phrases| && PhrasesSplit(phrases)
    ensures Split(phrases[p]) != []
    ensures PhrasePass(words, ns, phrases, p + 1)
         == PhraseScan(words, ns, Split(phrases[p]), PhrasePass(words, ns, phrases, p), Positions(|words|, |Split(phrases[p])|))
  {
  }

  /** One phrase of the phrase pass: every window position in turn. */
  method ScanPhrase(allWords: seq<Word>, ns: seq<string>, phraseWords: seq<string>,
                    decisions0: seq<EditDecision>, marked0: set<nat>, ghost before: Claims)
    returns (decisions: seq<EditDecision>, marked: set<nat>)
    requires |ns| == |allWords| && 1 <= |phraseWords|
    requires decisions0 == Decisions(before.hits) && marked0 == before.marked
    ensures decisions == Decisions(PhraseScan(allWords, ns, phraseWords, before, Positions(|allWords|, |phraseWords|)).hits)
    ensures marked == PhraseScan(allWords, ns, phraseWords, before, Positions(|allWords|, |phraseWords|)).marked
  {
    decisions, marked := decisions0, marked0;
    var phraseLen := |phraseWords|;
    ghost var claims := before;
    for i := 0 to Positions(|allWords|, phraseLen)
      invariant claims == PhraseScan(allWords, ns, phraseWords, before, i)
      invariant decisions == Decisions(claims.hits) && marked == claims.marked
    {
      ghost var prev := claims;
      claims := PhraseStep(allWords, ns, phraseWords, claims, i);
      if AnyMarked(marked, i, i + phraseLen) {
        assert claims == prev;
        continue;
      }
      var candidate := ns[i..i + phraseLen];
      if candidate == phraseWords {
        var original := RawText(allWords, i, phraseLen);
        var h := PhraseHit(allWords, i, phraseLen);
        assert claims == Claims(prev.hits + [h], prev.marked + Range(i, i + phraseLen));
        DecisionsSnoc(prev.hits, h);
        decisions := decisions + [EditDecision(allWords[i].start, allWords[i + phraseLen - 1].end, "filler", original)];
        for idx := i to i + phraseLen
          invariant marked == prev.marked + Range(i, idx)
        {
          assert Range(i, idx + 1) == Range(i, idx) + {idx};
          marked := marked + {idx};
        }
      } else {
        assert claims == prev;
      }
    }
  }

  /** The filler pass: single-word fillers at indices no phrase claimed. */
  method FindFillers(a: Analyzer, allWords: seq<Word>, ns: seq<string>, phraseMarked: set<nat>)
    returns (decisions: seq<EditDecision>, marked: set<nat>)
    requires |ns| == |allWords|
    ensures decisions == Decisions(FillerHits(allWords, ns, a.fillers, phraseMarked, |allWords|))
    ensures marked == phraseMarked + FillerMarks(ns, a.fillers, phraseMarked, |allWords|)
  {
    decisions := [];
    marked := phraseMarked;
    ghost var hits: seq<Hit> := [];
    for i := 0 to |allWords|
      invariant marked == phraseMarked + FillerMarks(ns, a.fillers, phraseMarked, i)
      invariant hits == FillerHits(allWords, ns, a.fillers, phraseMarked, i)
      invariant decisions == Decisions(hits)
    {
      assert FillerMarks(ns, a.fillers, phraseMarked, i + 1)
          == FillerMarks(ns, a.fillers, phraseMarked, i) + (if i !in phraseMarked && ns[i] in a.fillers then {i} else {});
      if i in marked {
        assert hits + [] == hits;
        continue;
      }
      if ns[i] in a.fillers {
        var h := TokenHit(allWords, i, "filler");
        DecisionsSnoc(hits, h);
        hits := hits + [h];
        decisions := decisions + [EditDecision(allWords[i].start, allWords[i].end, "filler", allWords[i].text)];
        marked := marked + {i};
      } else {
        assert hits + [] == hits;
      }
    }
  }

  /** The repetition pass: each unclaimed word after the first, against its predecessor. */
  method FindRepetitions(allWords: seq<Word>, ns: seq<string>, marked: set<nat>) returns (decisions: seq<EditDecision>)
    requires |ns| == |allWords|
    ensures decisions == Decisions(RepHits(allWords, ns, marked, |allWords|))
  {
    decisions := [];
    ghost var hits: seq<Hit> := [];
    var i := 1;
    while i < |allWords|
      invariant 1 <= i <= if |allWords| == 0 then 1 else |allWords|
      invariant hits == RepHits(allWords, ns, marked, i)
      invariant decisions == Decisions(hits)
    {
      if i !in marked && ns[i - 1] == ns[i] && |ns[i - 1]| > 1 {
        var h := TokenHit(allWords, i, "repetition");
        DecisionsSnoc(hits, h);
        hits := hits + [h];
        decisions := decisions + [EditDecision(allWords[i].start, allWords[i].end, "repetition", allWords[i].text)];
      } else {
        assert hits + [] == hits;
      }
      i := i + 1;
    }
    if |allWords| == 0 {
      assert i == 1;
    }
  }
}
