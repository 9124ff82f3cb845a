/**
 * The detector on concrete inputs: an earlier phrase wins overlapping
 * text, and the Russian sample "э вот как бы привет привет" gives four
 * decisions. The words are arbitrary, given only by their normalised texts.
 */
module DetectorExamples {
  import opened Text
  import opened Models
  import opened Ordering
  import opened Detector
  import opened DetectorProperties

  // ---------------------------------------------------------------------
  // Windows that cannot match
  // ---------------------------------------------------------------------

  /** The window at `i` is claimed already, or its words are not `pw`. */
  predicate Blocked(ns: seq<string>, pw: seq<string>, marked: set<nat>, i: nat) {
    AnyMarked(marked, i, i + |pw|) || (i + |pw| <= |ns| && ns[i..i + |pw|] != pw)
  }

  /** Positions `k1 .. k2-1` of a scan that are claimed or do not match change nothing. */
  lemma {:induction false} ScanSkip(words: seq<Word>, ns: seq<string>, pw: seq<string>, c: Claims, k1: nat, k2: nat)
    requires |ns| == |words| && 1 <= |pw| && k1 <= k2 <= Positions(|words|, |pw|)
    requires forall i :: k1 <= i < k2 ==> Blocked(ns, pw, PhraseScan(words, ns, pw, c, k1).marked, i)
    ensures PhraseScan(words, ns, pw, c, k2) == PhraseScan(words, ns, pw, c, k1)
    decreases k2
  {
    if k2 > k1 {
      ScanSkip(words, ns, pw, c, k1, k2 - 1);
      assert Blocked(ns, pw, PhraseScan(words, ns, pw, c, k1).marked, k2 - 1);
    }
  }

  // ---------------------------------------------------------------------
  // An earlier phrase wins overlapping text
  // ---------------------------------------------------------------------

  /** Two phrases that overlap on "вот", in this order. */
  const OverlapTable: seq<seq<string>> := [["ну", "вот"], ["вот", "так"]]

  /** An analyzer with just those two phrases and no single-word fillers. */
  function OverlapAnalyzer(): (a: Analyzer)
    ensures a.Valid() && |a.fillerPhrases| == 2 && a.fillers == {}
    ensures Split(a.fillerPhrases[0]) == ["ну", "вот"] && Split(a.fillerPhrases[1]) == ["вот", "так"]
  {
    TableSplits(OverlapTable);
    Analyzer("ru", {}, PhraseStrings(OverlapTable))
  }

  /** Sorting a single decision returns it. */
  lemma SortOne(d: EditDecision)
    ensures SortBy([d], StartOf) == [d]
  {
    assert [d][..0] == [];
  }

  /** No word among `k1 .. k2-1` is an unclaimed filler: the filler pass finds nothing there. */
  lemma {:induction false} FillerHitsSkip(words: seq<Word>, ns: seq<string>, fillers: set<string>, marked: set<nat>, k1: nat, k2: nat)
    requires |ns| == |words| && k1 <= k2 <= |words|
    requires forall i :: k1 <= i < k2 ==> i in marked || ns[i] !in fillers
    ensures FillerHits(words, ns, fillers, marked, k2) == FillerHits(words, ns, fillers, marked, k1)
    decreases k2
  {
    if k2 > k1 {
      FillerHitsSkip(words, ns, fillers, marked, k1, k2 - 1);
      AppendEmpty(FillerHits(words, ns, fillers, marked, k1));
    }
  }

  /** No word among the first `k` repeats its predecessor unclaimed: the repetition pass finds nothing. */
  lemma {:induction false} RepHitsNone(words: seq<Word>, ns: seq<string>, marked: set<nat>, k: nat)
    requires |ns| == |words| && k <= |words|
    requires forall i :: 1 <= i < k ==> i in marked || ns[i - 1] != ns[i] || |ns[i]| <= 1
    ensures RepHits(words, ns, marked, k) == []
  {
    if k > 1 {
      RepHitsNone(words, ns, marked, k - 1);
    }
  }

  /** "ну вот" claims the first two words of "ну вот так". */
  lemma {:induction false} OverlapFirstScan(words: seq<Word>, ns: seq<string>)
    requires |words| == 3 && ns == ["ну", "вот", "так"]
    ensures PhraseScan(words, ns, ["ну", "вот"], Claims([], {}), 2) == Claims([PhraseHit(words, 0, 2)], Range(0, 2))
  {
    var pw := ["ну", "вот"];
    assert ns[0..2] == pw;
    assert PhraseScan(words, ns, pw, Claims([], {}), 1) == Claims([PhraseHit(words, 0, 2)], Range(0, 2));
    assert 1 in Range(0, 2);
  }

  /** After both phrases, only "ну вот" is claimed. */
  lemma {:induction false} OverlapPass(words: seq<Word>, ns: seq<string>)
    requires |words| == 3 && ns == ["ну", "вот", "так"]
    ensures PhrasePass(words, ns, OverlapAnalyzer().fillerPhrases, 2) == Claims([PhraseHit(words, 0, 2)], Range(0, 2))
  {
    var phrases := OverlapAnalyzer().fillerPhrases;
    var c := Claims([PhraseHit(words, 0, 2)], Range(0, 2));
    PhrasePassStep(words, ns, phrases, 0);
    OverlapFirstScan(words, ns);
    assert PhrasePass(words, ns, phrases, 1) == c;
    PhrasePassStep(words, ns, phrases, 1);
    assert 0 in Range(0, 2) && 1 in Range(0, 2);
    assert Blocked(ns, ["вот", "так"], c.marked, 0) && Blocked(ns, ["вот", "так"], c.marked, 1);
    ScanSkip(words, ns, ["вот", "так"], c, 0, 2);
  }

  /** The three passes on "ну вот так" collect the "ну вот" hit alone. */
  lemma {:induction false} OverlapHits(words: seq<Word>)
    requires |words| == 3 && Normalized(words) == ["ну", "вот", "так"]
    ensures AllHits(OverlapAnalyzer(), words) == [PhraseHit(words, 0, 2)]
  {
    var a := OverlapAnalyzer();
    var ns := Normalized(words);
    OverlapPass(words, ns);
    var c := AfterPhrases(a, words);
    FillerHitsSkip(words, ns, a.fillers, c.marked, 0, 3);
    RepHitsNone(words, ns, AfterFillers(a, words), 3);
    AppendEmpty(c.hits);
  }

  /**
   * On "ну вот так" the first phrase claims "ну вот"; "вот так" overlaps it
   * and is skipped, so the only decision is the one for "ну вот".
   */
  lemma {:induction false} EarlierPhraseWins(words: seq<Word>)
    requires |words| == 3 && Normalized(words) == ["ну", "вот", "так"]
    ensures Detect(OverlapAnalyzer(), words) == [PhraseHit(words, 0, 2).decision]
  {
    var h := PhraseHit(words, 0, 2);
    OverlapHits(words);
    assert Decisions([h]) == [h.decision];
    SortOne(h.decision);
  }

  // ---------------------------------------------------------------------
  // Phrases that cannot match at all
  // ---------------------------------------------------------------------

  /** Every word of `ws` occurs somewhere in `ns`. */
  predicate AllIn(ws: seq<string>, ns: seq<string>) {
    forall k :: 0 <= k < |ws| ==> ws[k] in ns
  }

  /** A word of `ws` that `ns` lacks: one witness is enough. */
  lemma Misses(ws: seq<string>, ns: seq<string>, k: nat)
    requires k < |ws| && ws[k] !in ns
    ensures !AllIn(ws, ns)
  {
  }

  /** A phrase with a word the text lacks matches nowhere: its scan changes nothing. */
  lemma ScanNoMatch(words: seq<Word>, ns: seq<string>, pw: seq<string>, c: Claims)
    requires |ns| == |words| && 1 <= |pw| && !AllIn(pw, ns)
    ensures PhraseScan(words, ns, pw, c, Positions(|words|, |pw|)) == c
  {
    var k0 :| 0 <= k0 < |pw| && pw[k0] !in ns;
    var n := Positions(|words|, |pw|);
    forall i | 0 <= i < n ensures Blocked(ns, pw, PhraseScan(words, ns, pw, c, 0).marked, i) {
      assert ns[i..i + |pw|][k0] == ns[i + k0];
    }
    ScanSkip(words, ns, pw, c, 0, n);
  }

  /** A phrase lacking a word of the text leaves the claims of the pass as they were. */
  lemma PhraseNoMatch(words: seq<Word>, ns: seq<string>, phrases: seq<string>, p: nat)
    requires |ns| == |words| && p < |phrases| && PhrasesSplit(phrases)
    requires !AllIn(Split(phrases[p]), ns)
    ensures PhrasePass(words, ns, phrases, p + 1) == PhrasePass(words, ns, phrases, p)
  {
    PhrasePassStep(words, ns, phrases, p);
    ScanNoMatch(words, ns, Split(phrases[p]), PhrasePass(words, ns, phrases, p));
  }

  /** Phrases `m1 .. m2-1` each leave the claims as they were: so do all of them together. */
  lemma {:induction false} PassSkip(words: seq<Word>, ns: seq<string>, phrases: seq<string>, m1: nat, m2: nat)
    requires |ns| == |words| && m1 <= m2 <= |phrases| && PhrasesSplit(phrases)
    requires forall j :: m1 <= j < m2 ==> PhrasePass(words, ns, phrases, j + 1) == PhrasePass(words, ns, phrases, j)
    ensures PhrasePass(words, ns, phrases, m2) == PhrasePass(words, ns, phrases, m1)
    decreases m2
  {
    if m2 > m1 {
      PassSkip(words, ns, phrases, m1, m2 - 1);
    }
  }

  // ---------------------------------------------------------------------
  // The Russian sample "э вот как бы привет привет"
  // ---------------------------------------------------------------------

  const RuSample: seq<string> := ["э", "вот", "как", "бы", "привет", "привет"]

  /** Every Russian phrase after "как бы" has a word the sample lacks, three phrases at a time. */
  lemma RuSampleMissesA()
    ensures forall j :: 1 <= j < 4 ==> !AllIn(RuPhraseWords[j], RuSample)
  {
    Misses(RuPhraseWords[1], RuSample, 0);
    Misses(RuPhraseWords[2], RuSample, 1);
    Misses(RuPhraseWords[3], RuSample, 0);
  }

  lemma RuSampleMissesB()
    ensures forall j :: 4 <= j < 7 ==> !AllIn(RuPhraseWords[j], RuSample)
  {
    Misses(RuPhraseWords[4], RuSample, 0);
    Misses(RuPhraseWords[5], RuSample, 0);
    Misses(RuPhraseWords[6], RuSample, 0);
  }

  lemma RuSampleMissesC()
    ensures forall j :: 7 <= j < 10 ==> !AllIn(RuPhraseWords[j], RuSample)
  {
    Misses(RuPhraseWords[7], RuSample, 0);
    Misses(RuPhraseWords[8], RuSample, 0);
    Misses(RuPhraseWords[9], RuSample, 0);
  }

  lemma RuSampleMissesD()
    ensures forall j :: 10 <= j < 13 ==> !AllIn(RuPhraseWords[j], RuSample)
  {
    Misses(RuPhraseWords[10], RuSample, 0);
    Misses(RuPhraseWords[11], RuSample, 0);
    Misses(RuPhraseWords[12], RuSample, 0);
  }

  lemma RuSampleMissesE()
    ensures forall j :: 13 <= j < 16 ==> !AllIn(RuPhraseWords[j], RuSample)
  {
    Misses(RuPhraseWords[13], RuSample, 0);
    Misses(RuPhraseWords[14], RuSample, 0);
    Misses(RuPhraseWords[15], RuSample, 1);
  }

  lemma RuSampleMissesF()
    ensures forall j :: 16 <= j < 19 ==> !AllIn(RuPhraseWords[j], RuSample)
  {
    Misses(RuPhraseWords[16], RuSample, 0);
    Misses(RuPhraseWords[17], RuSample, 0);
    Misses(RuPhraseWords[18], RuSample, 0);
  }

  lemma RuSampleMissesG()
    ensures forall j :: 19 <= j < 22 ==> !AllIn(RuPhraseWords[j], RuSample)
  {
    Misses(RuPhraseWords[19], RuSample, 0);
    Misses(RuPhraseWords[20], RuSample, 0);
    Misses(RuPhraseWords[21], RuSample, 1);
  }

  /** "как бы" is found once, at the third word. */
  lemma {:induction false} RuFirstScan(words: seq<Word>, ns: seq<string>)
    requires |words| == 6 && ns == RuSample
    ensures PhraseScan(words, ns, ["как", "бы"], Claims([], {}), 5) == Claims([PhraseHit(words, 2, 2)], Range(2, 4))
  {
    var pw := ["как", "бы"];
    var c := Claims([PhraseHit(words, 2, 2)], Range(2, 4));
    assert ns[0..2][0] == "э" && ns[1..3][0] == "вот";
    ScanSkip(words, ns, pw, Claims([], {}), 0, 2);
    assert ns[2..4] == pw;
    assert PhraseScan(words, ns, pw, Claims([], {}), 3) == c;
    assert 3 in Range(2, 4) && ns[4..6][0] == "привет";
    assert Blocked(ns, pw, c.marked, 3) && Blocked(ns, pw, c.marked, 4);
    ScanSkip(words, ns, pw, c, 3, 5);
  }

  /**
   * A phrase list whose first phrase is "как бы" and whose other
   * phrases each lack a word of the sample claims "как бы" alone.
   */
  lemma {:induction false} SamplePhrases(words: seq<Word>, ns: seq<string>, phrases: seq<string>)
    requires |words| == 6 && ns == RuSample && 1 <= |phrases| && PhrasesSplit(phrases)
    requires Split(phrases[0]) == ["как", "бы"]
    requires forall j :: 1 <= j < |phrases| ==> !AllIn(Split(phrases[j]), ns)
    ensures PhrasePass(words, ns, phrases, |phrases|) == Claims([PhraseHit(words, 2, 2)], Range(2, 4))
  {
    PhrasePassStep(words, ns, phrases, 0);
    RuFirstScan(words, ns);
    forall j | 1 <= j < |phrases| ensures PhrasePass(words, ns, phrases, j + 1) == PhrasePass(words, ns, phrases, j) {
      PhraseNoMatch(words, ns, phrases, j);
    }
    PassSkip(words, ns, phrases, 1, |phrases|);
  }

  /** The Russian table is such a table. */
  lemma RuTableMisses()
    ensures 1 <= |LanguagePhrases("ru")| && Split(LanguagePhrases("ru")[0]) == ["как", "бы"]
    ensures forall j :: 1 <= j < |LanguagePhrases("ru")| ==> !AllIn(Split(LanguagePhrases("ru")[j]), RuSample)
  {
    PhraseTablesSplit();
    RuSampleMissesA();
    RuSampleMissesB();
    RuSampleMissesC();
    RuSampleMissesD();
    RuSampleMissesE();
    RuSampleMissesF();
    RuSampleMissesG();
  }

  /** Of the whole Russian table only "как бы" claims words of the sample. */
  lemma RuPhrases(words: seq<Word>)
    requires |words| == 6 && Normalized(words) == RuSample
    ensures AfterPhrases(NewAnalyzer("ru"), words) == Claims([PhraseHit(words, 2, 2)], Range(2, 4))
  {
    RuTableMisses();
    SamplePhrases(words, Normalized(words), NewAnalyzer("ru").fillerPhrases);
  }

  /** With "э" and "вот" fillers and "привет" none, "э" and "вот" are the unclaimed fillers. */
  lemma {:induction false} SampleFillerHits(words: seq<Word>, ns: seq<string>, fillers: set<string>)
    requires |words| == 6 && ns == RuSample
    requires "э" in fillers && "вот" in fillers && "привет" !in fillers
    ensures FillerHits(words, ns, fillers, Range(2, 4), 6) == [TokenHit(words, 0, "filler"), TokenHit(words, 1, "filler")]
    ensures 5 !in Range(2, 4) + FillerMarks(ns, fillers, Range(2, 4), 6)
  {
    assert FillerHits(words, ns, fillers, Range(2, 4), 1) == [TokenHit(words, 0, "filler")];
    assert FillerHits(words, ns, fillers, Range(2, 4), 2) == [TokenHit(words, 0, "filler"), TokenHit(words, 1, "filler")];
    assert 2 in Range(2, 4) && 3 in Range(2, 4);
    FillerHitsSkip(words, ns, fillers, Range(2, 4), 2, 6);
  }

  /** The second "привет" is the one repetition. */
  lemma {:induction false} RuRepHits(words: seq<Word>, ns: seq<string>, marked: set<nat>)
    requires |words| == 6 && ns == RuSample && 5 !in marked
    ensures RepHits(words, ns, marked, 6) == [TokenHit(words, 5, "repetition")]
  {
    assert ns[0] != ns[1] && ns[1] != ns[2] && ns[2] != ns[3] && ns[3] != ns[4];
    RepHitsNone(words, ns, marked, 5);
  }

  /** Concatenating the three passes' hits. */
  lemma HitsFour(a: Hit, b: Hit, c: Hit, d: Hit)
    ensures [a] + [b, c] + [d] == [a, b, c, d]
  {
  }

  /**
   * An analyzer with "э" and "вот" as fillers, "привет" not, whose phrases
   * claim "как бы" alone, collects four hits.
   */
  lemma {:induction false} SampleHits(a: Analyzer, words: seq<Word>)
    requires a.Valid() && |words| == 6 && Normalized(words) == RuSample
    requires "э" in a.fillers && "вот" in a.fillers && "привет" !in a.fillers
    requires AfterPhrases(a, words) == Claims([PhraseHit(words, 2, 2)], Range(2, 4))
    ensures AllHits(a, words)
         == [PhraseHit(words, 2, 2), TokenHit(words, 0, "filler"), TokenHit(words, 1, "filler"), TokenHit(words, 5, "repetition")]
  {
    var ns := Normalized(words);
    SampleFillerHits(words, ns, a.fillers);
    RuRepHits(words, ns, AfterFillers(a, words));
    HitsFour(PhraseHit(words, 2, 2), TokenHit(words, 0, "filler"), TokenHit(words, 1, "filler"), TokenHit(words, 5, "repetition"));
  }

  /** Of the sample's words, "э" and "вот" are Russian fillers and "привет" is not. */
  lemma RuFillersOnSample()
    ensures "э" in RuFillers && "вот" in RuFillers && "привет" !in RuFillers
  {
  }

  /** The Russian analyzer on the sample collects the phrase, the two fillers and the repetition. */
  lemma RuHits(words: seq<Word>)
    requires |words| == 6 && Normalized(words) == RuSample
    ensures AllHits(NewAnalyzer("ru"), words)
         == [PhraseHit(words, 2, 2), TokenHit(words, 0, "filler"), TokenHit(words, 1, "filler"), TokenHit(words, 5, "repetition")]
  {
    RuPhrases(words);
    RuFillersOnSample();
    SampleHits(NewAnalyzer("ru"), words);
  }

  /** The decisions of four hits, in order. */
  lemma DecisionsFour(a: Hit, b: Hit, c: Hit, d: Hit)
    ensures Decisions([a, b, c, d]) == [a.decision, b.decision, c.decision, d.decision]
  {
    var ds := Decisions([a, b, c, d]);
    assert ds[0] == a.decision && ds[1] == b.decision && ds[2] == c.decision && ds[3] == d.decision;
  }

  /** The raw text of two words is their texts joined by a space. */
  lemma RawTextTwo(words: seq<Word>, i: nat)
    requires i + 2 <= |words|
    ensures RawText(words, i, 2) == words[i].text + " " + words[i + 1].text
  {
    assert seq(2, k requires 0 <= k < 2 => words[i + k].text) == [words[i].text, words[i + 1].text];
    JoinTwo(" ", words[i].text, words[i + 1].text);
  }

  /** Inserting a decision that starts before the head puts it first. */
  lemma InsertBefore(x: EditDecision, s: seq<EditDecision>)
    requires s != [] && x.start < s[0].start
    ensures Insert(x, s, StartOf) == [x] + s
  {
  }

  /** Inserting a decision that starts no earlier than the head passes the head. */
  lemma InsertAfter(x: EditDecision, y: EditDecision, t: seq<EditDecision>)
    requires y.start <= x.start
    ensures Insert(x, [y] + t, StartOf) == [y] + Insert(x, t, StartOf)
  {
    assert ([y] + t)[1..] == t;
  }

  /** A decision starting no earlier than all three goes last. */
  lemma InsertLastOfThree(a: EditDecision, b: EditDecision, c: EditDecision, x: EditDecision)
    requires a.start <= x.start && b.start <= x.start && c.start <= x.start
    ensures Insert(x, [a, b, c], StartOf) == [a, b, c, x]
  {
    InsertAfter(x, a, [b, c]);
    InsertAfter(x, b, [c]);
    InsertAfter(x, c, []);
  }

  /** Sorting `s + [x]` inserts `x` into the sorted `s`. */
  lemma SortBySnoc(s: seq<EditDecision>, sorted: seq<EditDecision>, x: EditDecision)
    requires SortBy(s, StartOf) == sorted && Insert(x, sorted, StartOf) == sorted + [x]
    ensures SortBy(s + [x], StartOf) == sorted + [x]
  {
    assert (s + [x])[..|s|] == s;
  }

  /** The first three collected decisions, sorted. */
  lemma SortSampleInit(p: EditDecision, t0: EditDecision, t1: EditDecision)
    requires t0.start < t1.start < p.start
    ensures SortBy([p, t0, t1], StartOf) == [t0, t1, p]
  {
    SortOne(p);
    InsertBefore(t0, [p]);
    assert [p, t0][..1] == [p];
    InsertAfter(t1, t0, [p]);
    InsertBefore(t1, [p]);
    assert [p, t0, t1][..2] == [p, t0];
  }

  /** Sorting by start puts the phrase between the fillers and the repetition. */
  lemma SortSample(p: EditDecision, t0: EditDecision, t1: EditDecision, t5: EditDecision)
    requires t0.start < t1.start < p.start < t5.start
    ensures SortBy([p, t0, t1, t5], StartOf) == [t0, t1, p, t5]
  {
    SortSampleInit(p, t0, t1);
    InsertLastOfThree(t0, t1, p, t5);
    SortBySnoc([p, t0, t1], [t0, t1, p], t5);
    assert [p, t0, t1, t5] == [p, t0, t1] + [t5];
  }

  /** Four such hits on a timeline come out sorted by start. */
  lemma {:induction false} SampleDetect(a: Analyzer, words: seq<Word>)
    requires a.Valid() && |words| == 6 && WellFormedTimeline(words)
    requires AllHits(a, words)
          == [PhraseHit(words, 2, 2), TokenHit(words, 0, "filler"), TokenHit(words, 1, "filler"), TokenHit(words, 5, "repetition")]
    ensures Detect(a, words) == [
      EditDecision(words[0].start, words[0].end, "filler", words[0].text),
      EditDecision(words[1].start, words[1].end, "filler", words[1].text),
      EditDecision(words[2].start, words[3].end, "filler", words[2].text + " " + words[3].text),
      EditDecision(words[5].start, words[5].end, "repetition", words[5].text)]
  {
    var p := PhraseHit(words, 2, 2);
    var t0 := TokenHit(words, 0, "filler");
    var t1 := TokenHit(words, 1, "filler");
    var t5 := TokenHit(words, 5, "repetition");
    DecisionsFour(p, t0, t1, t5);
    RawTextTwo(words, 2);
    TimelineMonotone(words, 0, 1);
    TimelineMonotone(words, 1, 2);
    TimelineMonotone(words, 2, 5);
    SortSample(p.decision, t0.decision, t1.decision, t5.decision);
  }

  /**
   * The Russian sample on a timeline: "э" and "вот" are fillers, "как бы"
   * is one phrase filler, and the second "привет" repeats the first, in
   * this order; the first "привет" is kept.
   */
  lemma RussianSample(words: seq<Word>)
    requires |words| == 6 && Normalized(words) == RuSample && WellFormedTimeline(words)
    ensures Detect(NewAnalyzer("ru"), words) == [
      EditDecision(words[0].start, words[0].end, "filler", words[0].text),
      EditDecision(words[1].start, words[1].end, "filler", words[1].text),
      EditDecision(words[2].start, words[3].end, "filler", words[2].text + " " + words[3].text),
      EditDecision(words[5].start, words[5].end, "repetition", words[5].text)]
  {
    RuHits(words);
    SampleDetect(NewAnalyzer("ru"), words);
  }
}
