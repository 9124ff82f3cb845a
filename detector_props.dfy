/**
 * What the detector's passes guarantee: every decision covers a contiguous
 * run of words and starts and ends where those words do; no two decisions
 * claim the same word; the single-word passes find exactly the unclaimed
 * fillers and repetitions; and on a well-formed timeline the sorted result
 * is a sequence of non-overlapping time ranges.
 */
module DetectorProperties {
  import opened Text
  import opened Models
  import opened Ordering
  import opened Normalization
  import opened Detector

  // ---------------------------------------------------------------------
  // Hits and claims
  // ---------------------------------------------------------------------

  /** A hit covers the words `[lo, hi)` and its decision spans their times. */
  predicate Spans(words: seq<Word>, h: Hit) {
    h.lo < h.hi <= |words| && h.decision.start == words[h.lo].start && h.decision.end == words[h.hi - 1].end
  }

  predicate AllSpan(words: seq<Word>, hits: seq<Hit>) {
    forall t :: 0 <= t < |hits| ==> Spans(words, hits[t])
  }

  /** Two hits share no word. */
  predicate Disjoint(g: Hit, h: Hit) {
    g.hi <= h.lo || h.hi <= g.lo
  }

  /** Every word a hit covers is claimed. */
  predicate Covered(hits: seq<Hit>, marked: set<nat>) {
    forall t :: 0 <= t < |hits| ==> Range(hits[t].lo, hits[t].hi) <= marked
  }

  /** The invariant of the phrase pass. */
  ghost predicate ClaimsOk(words: seq<Word>, c: Claims) {
    AllSpan(words, c.hits) && Covered(c.hits, c.marked) && Pairwise(c.hits, Disjoint)
  }

  /** A hit whose words are all claimed is disjoint from an unclaimed window. */
  lemma {:induction false} Separate(lo: nat, hi: nat, marked: set<nat>, g: Hit)
    requires g.lo < g.hi && Range(g.lo, g.hi) <= marked
    requires lo < hi && !AnyMarked(marked, lo, hi)
    ensures g.hi <= lo || hi <= g.lo
  {
    if g.lo < lo {
      assert lo !in marked;
      assert lo !in Range(g.lo, g.hi);
    } else {
      assert g.lo in Range(g.lo, g.hi);
    }
  }

  /** A single unclaimed index is an unclaimed window. */
  lemma {:induction false} Unmarked(marked: set<nat>, i: nat)
    requires i !in marked
    ensures !AnyMarked(marked, i, i + 1)
  {
  }

  /** Adding a hit disjoint from all others, and claiming its words, keeps the invariant. */
  lemma {:induction false} AddHitOk(words: seq<Word>, c: Claims, h: Hit, marked: set<nat>)
    requires ClaimsOk(words, c) && Spans(words, h)
    requires c.marked <= marked && Range(h.lo, h.hi) <= marked
    requires forall t :: 0 <= t < |c.hits| ==> Disjoint(c.hits[t], h) && Disjoint(h, c.hits[t])
    ensures ClaimsOk(words, Claims(c.hits + [h], marked))
  {
    PairwiseAppend(c.hits, [h], Disjoint);
    var hs := c.hits + [h];
    forall t | 0 <= t < |hs| ensures Spans(words, hs[t]) && Range(hs[t].lo, hs[t].hi) <= marked {
      if t < |c.hits| {
        assert hs[t] == c.hits[t];
      } else {
        assert hs[t] == h;
      }
    }
  }

  lemma {:induction false} PhraseStepOk(words: seq<Word>, ns: seq<string>, phraseWords: seq<string>, c: Claims, i: nat)
    requires |ns| == |words| && 1 <= |phraseWords| && i + |phraseWords| <= |words|
    requires ClaimsOk(words, c)
    ensures ClaimsOk(words, PhraseStep(words, ns, phraseWords, c, i))
  {
    var n := |phraseWords|;
    if !AnyMarked(c.marked, i, i + n) && ns[i..i + n] == phraseWords {
      var h := PhraseHit(words, i, n);
      forall t | 0 <= t < |c.hits| ensures Disjoint(c.hits[t], h) && Disjoint(h, c.hits[t]) {
        Separate(i, i + n, c.marked, c.hits[t]);
      }
      AddHitOk(words, c, h, c.marked + Range(i, i + n));
    }
  }

  lemma {:induction false} PhraseScanOk(words: seq<Word>, ns: seq<string>, phraseWords: seq<string>, c: Claims, k: nat)
    requires |ns| == |words| && 1 <= |phraseWords| && k <= Positions(|words|, |phraseWords|)
    requires ClaimsOk(words, c)
    ensures ClaimsOk(words, PhraseScan(words, ns, phraseWords, c, k))
  {
    if k > 0 {
      PhraseScanOk(words, ns, phraseWords, c, k - 1);
      PhraseStepOk(words, ns, phraseWords, PhraseScan(words, ns, phraseWords, c, k - 1), k - 1);
    }
  }

  /** The phrase pass claims every word it covers, and no word twice. */
  lemma {:induction false} PhrasePassOk(words: seq<Word>, ns: seq<string>, phrases: seq<string>, m: nat)
    requires |ns| == |words| && m <= |phrases| && PhrasesSplit(phrases)
    ensures ClaimsOk(words, PhrasePass(words, ns, phrases, m))
  {
    if m > 0 {
      PhrasePassOk(words, ns, phrases, m - 1);
      var phraseWords := Split(phrases[m - 1]);
      PhraseScanOk(words, ns, phraseWords, PhrasePass(words, ns, phrases, m - 1), Positions(|words|, |phraseWords|));
    }
  }

  // ---------------------------------------------------------------------
  // The single-word passes
  // ---------------------------------------------------------------------

  /** The filler decision for word `h.lo`: unclaimed, its normalised text a filler. */
  predicate FillerAt(words: seq<Word>, ns: seq<string>, fillers: set<string>, marked: set<nat>, h: Hit)
    requires |ns| == |words|
  {
    h.lo < |words| && h == TokenHit(words, h.lo, "filler") && h.lo !in marked && ns[h.lo] in fillers
  }

  /** The repetition decision for word `h.lo`: unclaimed, equal to its predecessor, longer than one character. */
  predicate RepetitionAt(words: seq<Word>, ns: seq<string>, marked: set<nat>, h: Hit)
    requires |ns| == |words|
  {
    && 1 <= h.lo < |words| && h == TokenHit(words, h.lo, "repetition") && h.lo !in marked
    && ns[h.lo - 1] == ns[h.lo] && |ns[h.lo - 1]| > 1
  }

  /** Word indices strictly grow along the hits. */
  predicate Increasing(hits: seq<Hit>) {
    forall p, q :: 0 <= p < q < |hits| ==> hits[p].lo < hits[q].lo
  }

  lemma {:induction false} FillerHitsSound(words: seq<Word>, ns: seq<string>, fillers: set<string>, marked: set<nat>, k: nat)
    requires |ns| == |words| && k <= |words|
    ensures forall t :: 0 <= t < |FillerHits(words, ns, fillers, marked, k)| ==>
      FillerHits(words, ns, fillers, marked, k)[t].lo < k && FillerAt(words, ns, fillers, marked, FillerHits(words, ns, fillers, marked, k)[t])
    ensures Increasing(FillerHits(words, ns, fillers, marked, k))
  {
    if k > 0 {
      FillerHitsSound(words, ns, fillers, marked, k - 1);
    }
  }

  lemma {:induction false} FillerHitsComplete(words: seq<Word>, ns: seq<string>, fillers: set<string>, marked: set<nat>, k: nat, i: nat)
    requires |ns| == |words| && i < k <= |words|
    requires i !in marked && ns[i] in fillers
    ensures TokenHit(words, i, "filler") in FillerHits(words, ns, fillers, marked, k)
  {
    if i < k - 1 {
      FillerHitsComplete(words, ns, fillers, marked, k - 1, i);
    }
  }

  lemma {:induction false} RepHitsSound(words: seq<Word>, ns: seq<string>, marked: set<nat>, k: nat)
    requires |ns| == |words| && k <= |words|
    ensures forall t :: 0 <= t < |RepHits(words, ns, marked, k)| ==>
      RepHits(words, ns, marked, k)[t].lo < k && RepetitionAt(words, ns, marked, RepHits(words, ns, marked, k)[t])
    ensures Increasing(RepHits(words, ns, marked, k))
  {
    if k > 1 {
      RepHitsSound(words, ns, marked, k - 1);
    }
  }

  lemma {:induction false} RepHitsComplete(words: seq<Word>, ns: seq<string>, marked: set<nat>, k: nat, i: nat)
    requires |ns| == |words| && 1 <= i < k <= |words|
    requires i !in marked && ns[i - 1] == ns[i] && |ns[i - 1]| > 1
    ensures TokenHit(words, i, "repetition") in RepHits(words, ns, marked, k)
  {
    if i < k - 1 {
      RepHitsComplete(words, ns, marked, k - 1, i);
    }
  }

  /** Single-word hits at growing indices share no word. */
  lemma {:induction false} TokensDisjoint(hits: seq<Hit>)
    requires forall t :: 0 <= t < |hits| ==> hits[t].hi == hits[t].lo + 1
    requires Increasing(hits)
    ensures Pairwise(hits, Disjoint)
  {
    forall i, j | 0 <= i < |hits| && 0 <= j < |hits| && i != j ensures Disjoint(hits[i], hits[j]) {
      if i < j {
        assert hits[i].lo < hits[j].lo;
      } else {
        assert hits[j].lo < hits[i].lo;
      }
    }
  }

  /**
   * Appending single-word hits at growing, unclaimed indices to hits whose
   * words are all claimed keeps every pair disjoint.
   */
  lemma {:induction false} JoinTokens(words: seq<Word>, ps: seq<Hit>, marked: set<nat>, ts: seq<Hit>)
    requires AllSpan(words, ps) && Pairwise(ps, Disjoint) && Covered(ps, marked)
    requires forall u :: 0 <= u < |ts| ==> Spans(words, ts[u]) && ts[u].hi == ts[u].lo + 1 && ts[u].lo !in marked
    requires Increasing(ts)
    ensures AllSpan(words, ps + ts) && Pairwise(ps + ts, Disjoint)
  {
    TokensDisjoint(ts);
    forall t, u | 0 <= t < |ps| && 0 <= u < |ts| ensures Disjoint(ps[t], ts[u]) && Disjoint(ts[u], ps[t]) {
      Unmarked(marked, ts[u].lo);
      Separate(ts[u].lo, ts[u].lo + 1, marked, ps[t]);
    }
    PairwiseAppend(ps, ts, Disjoint);
    forall t | 0 <= t < |ps + ts| ensures Spans(words, (ps + ts)[t]) {
      if t < |ps| {
        assert (ps + ts)[t] == ps[t];
      } else {
        assert (ps + ts)[t] == ts[t - |ps|];
      }
    }
  }

  /** After the filler pass, the words of the phrase and filler hits are all claimed. */
  lemma {:induction false} FillersCovered(words: seq<Word>, ns: seq<string>, fillers: set<string>, c: Claims, fs: seq<Hit>, marked: set<nat>)
    requires |ns| == |words| && Covered(c.hits, c.marked)
    requires marked == c.marked + FillerMarks(ns, fillers, c.marked, |words|)
    requires forall u :: 0 <= u < |fs| ==> FillerAt(words, ns, fillers, c.marked, fs[u])
    ensures Covered(c.hits + fs, marked)
  {
    forall t | 0 <= t < |c.hits + fs| ensures Range((c.hits + fs)[t].lo, (c.hits + fs)[t].hi) <= marked {
      if t < |c.hits| {
        assert (c.hits + fs)[t] == c.hits[t];
      } else {
        var h := fs[t - |c.hits|];
        assert (c.hits + fs)[t] == h;
        assert h.lo in FillerMarks(ns, fillers, c.marked, |words|);
      }
    }
  }

  /** The filler and repetition passes, appended to claims that satisfy the invariant, keep it. */
  lemma {:induction false} TokenPassesOk(words: seq<Word>, ns: seq<string>, fillers: set<string>, c: Claims, marked: set<nat>)
    requires |ns| == |words| && ClaimsOk(words, c)
    requires marked == c.marked + FillerMarks(ns, fillers, c.marked, |words|)
    ensures AllSpan(words, c.hits + FillerHits(words, ns, fillers, c.marked, |words|) + RepHits(words, ns, marked, |words|))
    ensures Pairwise(c.hits + FillerHits(words, ns, fillers, c.marked, |words|) + RepHits(words, ns, marked, |words|), Disjoint)
  {
    var fs := FillerHits(words, ns, fillers, c.marked, |words|);
    var rs := RepHits(words, ns, marked, |words|);
    FillerHitsSound(words, ns, fillers, c.marked, |words|);
    RepHitsSound(words, ns, marked, |words|);
    JoinTokens(words, c.hits, c.marked, fs);
    FillersCovered(words, ns, fillers, c, fs, marked);
    JoinTokens(words, c.hits + fs, marked, rs);
  }

  /** Every hit of the three passes spans its words, and no two hits share a word. */
  lemma {:induction false} AllHitsOk(a: Analyzer, words: seq<Word>)
    requires a.Valid()
    ensures AllSpan(words, AllHits(a, words))
    ensures Pairwise(AllHits(a, words), Disjoint)
  {
    PhrasePassOk(words, Normalized(words), a.fillerPhrases, |a.fillerPhrases|);
    TokenPassesOk(words, Normalized(words), a.fillers, AfterPhrases(a, words), AfterFillers(a, words));
  }

  // ---------------------------------------------------------------------
  // The decisions
  // ---------------------------------------------------------------------

  /** On a well-formed timeline a hit's decision has positive length. */
  lemma {:induction false} SpanPositive(words: seq<Word>, h: Hit)
    requires WellFormedTimeline(words) && Spans(words, h)
    ensures h.decision.start < h.decision.end
  {
    if h.lo < h.hi - 1 {
      TimelineMonotone(words, h.lo, h.hi - 1);
    }
  }

  /** On a well-formed timeline hits that share no word have non-overlapping times. */
  lemma {:induction false} SpansApart(words: seq<Word>, g: Hit, h: Hit)
    requires WellFormedTimeline(words) && Spans(words, g) && Spans(words, h) && Disjoint(g, h)
    ensures Apart(g.decision, h.decision)
  {
    if g.hi <= h.lo {
      TimelineMonotone(words, g.hi - 1, h.lo);
    } else {
      TimelineMonotone(words, h.hi - 1, g.lo);
    }
  }

  lemma {:induction false} DecisionsApart(words: seq<Word>, hits: seq<Hit>)
    requires WellFormedTimeline(words) && AllSpan(words, hits) && Pairwise(hits, Disjoint)
    ensures Pairwise(Decisions(hits), Apart)
    ensures forall d :: d in Decisions(hits) ==> d.start < d.end
  {
    var ds := Decisions(hits);
    forall i, j | 0 <= i < |ds| && 0 <= j < |ds| && i != j ensures Apart(ds[i], ds[j]) {
      SpansApart(words, hits[i], hits[j]);
    }
    forall d | d in ds ensures d.start < d.end {
      var t :| 0 <= t < |ds| && ds[t] == d;
      SpanPositive(words, hits[t]);
    }
  }

  /** `analyze` returns its decisions ordered by start time. */
  lemma {:induction false} DetectSorted(a: Analyzer, words: seq<Word>)
    requires a.Valid()
    ensures forall i, j :: 0 <= i < j < |Detect(a, words)| ==> Detect(a, words)[i].start <= Detect(a, words)[j].start
  {
    SortBySorted(Decisions(AllHits(a, words)), StartOf);
  }

  /** Decisions with the same start keep the order in which the passes found them. */
  lemma {:induction false} DetectStable(a: Analyzer, words: seq<Word>, v: int)
    requires a.Valid()
    ensures KeyFilter(Detect(a, words), StartOf, v) == KeyFilter(Decisions(AllHits(a, words)), StartOf, v)
  {
    SortByStable(Decisions(AllHits(a, words)), StartOf, v);
  }

  /**
   * On a well-formed timeline every decision has positive length and each
   * one ends no later than the next one starts.
   */
  lemma {:induction false} DetectNonOverlapping(a: Analyzer, words: seq<Word>)
    requires a.Valid() && WellFormedTimeline(words)
    ensures forall k :: 0 <= k < |Detect(a, words)| ==> Detect(a, words)[k].start < Detect(a, words)[k].end
    ensures forall k :: 0 <= k < |Detect(a, words)| - 1 ==> Detect(a, words)[k].end <= Detect(a, words)[k + 1].start
  {
    var ds := Decisions(AllHits(a, words));
    AllHitsOk(a, words);
    DecisionsApart(words, AllHits(a, words));
    SortByPairwise(ds, StartOf, Apart);
    SortBySorted(ds, StartOf);
    var r := SortBy(ds, StartOf);
    forall k | 0 <= k < |r| ensures r[k].start < r[k].end {
      SortByMember(ds, StartOf, r[k]);
    }
    forall k | 0 <= k < |r| - 1 ensures r[k].end <= r[k + 1].start {
      assert Apart(r[k], r[k + 1]);
      assert StartOf(r[k]) <= StartOf(r[k + 1]);
      SortByMember(ds, StartOf, r[k + 1]);
    }
  }

  // ---------------------------------------------------------------------
  // What each pass emits, word by word
  // ---------------------------------------------------------------------

  /**
   * A phrase decision: its words' normalised texts are the words of one of
   * the phrases; it starts with its first word, ends with its last, has
   * reason "filler" and the raw texts joined by spaces.
   */
  ghost predicate PhraseAt(words: seq<Word>, ns: seq<string>, phrases: seq<string>, h: Hit)
    requires |ns| == |words|
  {
    && h.lo < h.hi <= |words| && h == PhraseHit(words, h.lo, h.hi - h.lo)
    && ns[h.lo..h.hi] in PhraseWordLists(phrases)
  }

  /** The phrases, each split into its words. */
  function PhraseWordLists(phrases: seq<string>): (lists: seq<seq<string>>)
    ensures |lists| == |phrases|
    ensures forall j :: 0 <= j < |phrases| ==> lists[j] == Split(phrases[j])
  {
    seq(|phrases|, j requires 0 <= j < |phrases| => Split(phrases[j]))
  }

  ghost predicate AllPhraseAt(words: seq<Word>, ns: seq<string>, phrases: seq<string>, hits: seq<Hit>)
    requires |ns| == |words|
  {
    forall t :: 0 <= t < |hits| ==> PhraseAt(words, ns, phrases, hits[t])
  }

  lemma {:induction false} AddPhraseAt(words: seq<Word>, ns: seq<string>, phrases: seq<string>, hits: seq<Hit>, h: Hit)
    requires |ns| == |words| && AllPhraseAt(words, ns, phrases, hits) && PhraseAt(words, ns, phrases, h)
    ensures AllPhraseAt(words, ns, phrases, hits + [h])
  {
    var hs := hits + [h];
    forall t | 0 <= t < |hs| ensures PhraseAt(words, ns, phrases, hs[t]) {
      if t < |hits| {
        assert hs[t] == hits[t];
      } else {
        assert hs[t] == h;
      }
    }
  }

  lemma {:induction false} PhraseStepShape(words: seq<Word>, ns: seq<string>, phrases: seq<string>, j: nat, c: Claims, i: nat)
    requires |ns| == |words| && j < |phrases| && 1 <= |Split(phrases[j])| && i + |Split(phrases[j])| <= |words|
    requires AllPhraseAt(words, ns, phrases, c.hits)
    ensures AllPhraseAt(words, ns, phrases, PhraseStep(words, ns, Split(phrases[j]), c, i).hits)
  {
    var n := |Split(phrases[j])|;
    if !AnyMarked(c.marked, i, i + n) && ns[i..i + n] == Split(phrases[j]) {
      var h := PhraseHit(words, i, n);
      assert PhraseWordLists(phrases)[j] == ns[h.lo..h.hi];
      AddPhraseAt(words, ns, phrases, c.hits, h);
    }
  }

  lemma {:induction false} PhraseScanShape(words: seq<Word>, ns: seq<string>, phrases: seq<string>, j: nat, c: Claims, k: nat)
    requires |ns| == |words| && j < |phrases| && 1 <= |Split(phrases[j])| && k <= Positions(|words|, |Split(phrases[j])|)
    requires AllPhraseAt(words, ns, phrases, c.hits)
    ensures AllPhraseAt(words, ns, phrases, PhraseScan(words, ns, Split(phrases[j]), c, k).hits)
  {
    if k > 0 {
      PhraseScanShape(words, ns, phrases, j, c, k - 1);
      PhraseStepShape(words, ns, phrases, j, PhraseScan(words, ns, Split(phrases[j]), c, k - 1), k - 1);
    }
  }

  /** Every decision of the phrase pass is a phrase decision. */
  lemma {:induction false} PhrasePassShape(words: seq<Word>, ns: seq<string>, phrases: seq<string>, m: nat)
    requires |ns| == |words| && m <= |phrases| && PhrasesSplit(phrases)
    ensures AllPhraseAt(words, ns, phrases, PhrasePass(words, ns, phrases, m).hits)
  {
    if m > 0 {
      PhrasePassShape(words, ns, phrases, m - 1);
      PhraseScanShape(words, ns, phrases, m - 1, PhrasePass(words, ns, phrases, m - 1), Positions(|words|, |Split(phrases[m - 1])|));
    }
  }

  // ---------------------------------------------------------------------
  // The phrase pass is maximal and marks exactly its hits
  // ---------------------------------------------------------------------

  /** A window with a marked index stays so under a larger marked set. */
  lemma AnyMarkedMono(small: set<nat>, large: set<nat>, lo: nat, hi: nat)
    requires small <= large && AnyMarked(small, lo, hi)
    ensures AnyMarked(large, lo, hi)
  {
    var k: nat :| lo <= k < hi && k in small;
    assert k in large;
  }

  /** Later positions of a scan only add marks. */
  lemma {:induction false} ScanGrows(words: seq<Word>, ns: seq<string>, pw: seq<string>, c: Claims, k1: nat, k2: nat)
    requires |ns| == |words| && 1 <= |pw| && k1 <= k2 <= Positions(|words|, |pw|)
    ensures PhraseScan(words, ns, pw, c, k1).marked <= PhraseScan(words, ns, pw, c, k2).marked
    decreases k2
  {
    if k1 < k2 {
      ScanGrows(words, ns, pw, c, k1, k2 - 1);
    }
  }

  /** Later phrases only add marks. */
  lemma {:induction false} PassGrows(words: seq<Word>, ns: seq<string>, phrases: seq<string>, m1: nat, m2: nat)
    requires |ns| == |words| && m1 <= m2 <= |phrases| && PhrasesSplit(phrases)
    ensures PhrasePass(words, ns, phrases, m1).marked <= PhrasePass(words, ns, phrases, m2).marked
    decreases m2
  {
    if m1 < m2 {
      PassGrows(words, ns, phrases, m1, m2 - 1);
      PhrasePassStep(words, ns, phrases, m2 - 1);
      var pw := Split(phrases[m2 - 1]);
      ScanGrows(words, ns, pw, PhrasePass(words, ns, phrases, m2 - 1), 0, Positions(|words|, |pw|));
    }
  }

  /** At a matching window the step either finds it already touched or claims it. */
  lemma StepCatches(words: seq<Word>, ns: seq<string>, pw: seq<string>, c: Claims, i: nat)
    requires |ns| == |words| && 1 <= |pw| && i + |pw| <= |words| && ns[i..i + |pw|] == pw
    ensures AnyMarked(PhraseStep(words, ns, pw, c, i).marked, i, i + |pw|)
  {
    if !AnyMarked(c.marked, i, i + |pw|) {
      assert i in PhraseStep(words, ns, pw, c, i).marked;
    }
  }

  /** After a whole scan every window the phrase matches holds a marked index. */
  lemma ScanCatches(words: seq<Word>, ns: seq<string>, pw: seq<string>, c: Claims, i: nat)
    requires |ns| == |words| && 1 <= |pw| && i + |pw| <= |words| && ns[i..i + |pw|] == pw
    ensures AnyMarked(PhraseScan(words, ns, pw, c, Positions(|words|, |pw|)).marked, i, i + |pw|)
  {
    var n := Positions(|words|, |pw|);
    assert i < n;
    StepCatches(words, ns, pw, PhraseScan(words, ns, pw, c, i), i);
    ScanGrows(words, ns, pw, c, i + 1, n);
    AnyMarkedMono(PhraseScan(words, ns, pw, c, i + 1).marked, PhraseScan(words, ns, pw, c, n).marked, i, i + |pw|);
  }

  /**
   * No phrase match is missed: after the first `m` phrases, every window
   * that one of them matches holds an index some decision claims, so it
   * was either taken or overlapped by an earlier match.
   */
  lemma PhrasePassMaximal(words: seq<Word>, ns: seq<string>, phrases: seq<string>, m: nat, j: nat, i: nat)
    requires |ns| == |words| && j < m <= |phrases| && PhrasesSplit(phrases)
    requires i + |Split(phrases[j])| <= |words| && ns[i..i + |Split(phrases[j])|] == Split(phrases[j])
    ensures AnyMarked(PhrasePass(words, ns, phrases, m).marked, i, i + |Split(phrases[j])|)
  {
    var pw := Split(phrases[j]);
    PhrasePassStep(words, ns, phrases, j);
    ScanCatches(words, ns, pw, PhrasePass(words, ns, phrases, j), i);
    PassGrows(words, ns, phrases, j + 1, m);
    AnyMarkedMono(PhrasePass(words, ns, phrases, j + 1).marked, PhrasePass(words, ns, phrases, m).marked, i, i + |pw|);
  }

  /** Index `k` lies in the span of one of `hits`. */
  predicate InSomeHit(hits: seq<Hit>, k: nat) {
    exists t :: 0 <= t < |hits| && hits[t].lo <= k < hits[t].hi
  }

  /** The marked indices are exactly those the hits span. */
  ghost predicate MarkedExact(c: Claims) {
    forall k: nat :: k in c.marked <==> InSomeHit(c.hits, k)
  }

  lemma InSomeHitSnoc(hits: seq<Hit>, h: Hit, k: nat)
    ensures InSomeHit(hits + [h], k) <==> InSomeHit(hits, k) || h.lo <= k < h.hi
  {
    var hs := hits + [h];
    if InSomeHit(hits, k) {
      var t :| 0 <= t < |hits| && hits[t].lo <= k < hits[t].hi;
      assert hs[t] == hits[t];
    }
    if h.lo <= k < h.hi {
      assert hs[|hits|] == h;
    }
    if InSomeHit(hs, k) {
      var t :| 0 <= t < |hs| && hs[t].lo <= k < hs[t].hi;
      if t < |hits| {
        assert hs[t] == hits[t];
      }
    }
  }

  lemma {:induction false} StepExact(words: seq<Word>, ns: seq<string>, pw: seq<string>, c: Claims, i: nat)
    requires |ns| == |words| && 1 <= |pw| && i + |pw| <= |words| && MarkedExact(c)
    ensures MarkedExact(PhraseStep(words, ns, pw, c, i))
  {
    var n := |pw|;
    if !AnyMarked(c.marked, i, i + n) && ns[i..i + n] == pw {
      var h := PhraseHit(words, i, n);
      forall k: nat ensures k in c.marked + Range(i, i + n) <==> InSomeHit(c.hits + [h], k) {
        InSomeHitSnoc(c.hits, h, k);
      }
    }
  }

  lemma {:induction false} ScanExact(words: seq<Word>, ns: seq<string>, pw: seq<string>, c: Claims, k: nat)
    requires |ns| == |words| && 1 <= |pw| && k <= Positions(|words|, |pw|) && MarkedExact(c)
    ensures MarkedExact(PhraseScan(words, ns, pw, c, k))
  {
    if k > 0 {
      ScanExact(words, ns, pw, c, k - 1);
      StepExact(words, ns, pw, PhraseScan(words, ns, pw, c, k - 1), k - 1);
    }
  }

  /**
   * `marked_indices` after the phrase pass is the union of the spans of
   * the phrase decisions: an index is marked exactly when a decision
   * covers it.
   */
  lemma {:induction false} PhrasePassMarked(words: seq<Word>, ns: seq<string>, phrases: seq<string>, m: nat)
    requires |ns| == |words| && m <= |phrases| && PhrasesSplit(phrases)
    ensures forall k: nat :: k in PhrasePass(words, ns, phrases, m).marked <==> InSomeHit(PhrasePass(words, ns, phrases, m).hits, k)
  {
    if m > 0 {
      PhrasePassMarked(words, ns, phrases, m - 1);
      PhrasePassStep(words, ns, phrases, m - 1);
      var pw := Split(phrases[m - 1]);
      ScanExact(words, ns, pw, PhrasePass(words, ns, phrases, m - 1), Positions(|words|, |pw|));
    }
  }

  /**
   * For the analyzer: every window that one of its phrases matches shares
   * a word with some phrase decision.
   */
  lemma PhraseWindowClaimed(a: Analyzer, words: seq<Word>, j: nat, i: nat)
    requires a.Valid() && j < |a.fillerPhrases|
    requires i + |Split(a.fillerPhrases[j])| <= |words| && Normalized(words)[i..i + |Split(a.fillerPhrases[j])|] == Split(a.fillerPhrases[j])
    ensures exists k: nat :: i <= k < i + |Split(a.fillerPhrases[j])| && InSomeHit(AfterPhrases(a, words).hits, k)
  {
    var ns := Normalized(words);
    var m := |a.fillerPhrases|;
    PhrasePassMaximal(words, ns, a.fillerPhrases, m, j, i);
    PhrasePassMarked(words, ns, a.fillerPhrases, m);
    var k: nat :| i <= k < i + |Split(a.fillerPhrases[j])| && k in AfterPhrases(a, words).marked;
    assert InSomeHit(AfterPhrases(a, words).hits, k);
  }

  lemma {:induction false} FillerHitsIff(words: seq<Word>, ns: seq<string>, fillers: set<string>, marked: set<nat>, i: nat)
    requires |ns| == |words| && i < |words|
    ensures TokenHit(words, i, "filler") in FillerHits(words, ns, fillers, marked, |words|)
        <==> i !in marked && ns[i] in fillers
  {
    var h := TokenHit(words, i, "filler");
    var fs := FillerHits(words, ns, fillers, marked, |words|);
    if h in fs {
      FillerHitsSound(words, ns, fillers, marked, |words|);
      var t :| 0 <= t < |fs| && fs[t] == h;
      assert FillerAt(words, ns, fillers, marked, fs[t]);
    } else if i !in marked && ns[i] in fillers {
      FillerHitsComplete(words, ns, fillers, marked, |words|, i);
    }
  }

  lemma {:induction false} RepHitsIff(words: seq<Word>, ns: seq<string>, marked: set<nat>, i: nat)
    requires |ns| == |words| && 1 <= i < |words|
    ensures TokenHit(words, i, "repetition") in RepHits(words, ns, marked, |words|)
        <==> i !in marked && ns[i - 1] == ns[i] && |ns[i - 1]| > 1
  {
    var h := TokenHit(words, i, "repetition");
    var rs := RepHits(words, ns, marked, |words|);
    if h in rs {
      RepHitsSound(words, ns, marked, |words|);
      var t :| 0 <= t < |rs| && rs[t] == h;
      assert RepetitionAt(words, ns, marked, rs[t]);
    } else if i !in marked && ns[i - 1] == ns[i] && |ns[i - 1]| > 1 {
      RepHitsComplete(words, ns, marked, |words|, i);
    }
  }

  /**
   * A single-word filler decision is emitted for word `i` exactly when no
   * phrase claimed it and its normalised text is a filler.
   */
  lemma {:induction false} FillerIff(a: Analyzer, words: seq<Word>, i: nat)
    requires a.Valid() && i < |words|
    ensures TokenHit(words, i, "filler") in FillerHits(words, Normalized(words), a.fillers, AfterPhrases(a, words).marked, |words|)
        <==> i !in AfterPhrases(a, words).marked && IsFiller(a, words[i])
  {
    FillerHitsIff(words, Normalized(words), a.fillers, AfterPhrases(a, words).marked, i);
  }

  /**
   * A repetition decision is emitted for word `i >= 1` exactly when `i` is
   * unclaimed after the filler pass and its normalised text equals its
   * predecessor's and is longer than one character; whether the
   * predecessor is claimed does not matter.
   */
  lemma {:induction false} RepetitionIff(a: Analyzer, words: seq<Word>, i: nat)
    requires a.Valid() && 1 <= i < |words|
    ensures TokenHit(words, i, "repetition") in RepHits(words, Normalized(words), AfterFillers(a, words), |words|)
        <==> i !in AfterFillers(a, words) && IsRepetition(words[i - 1], words[i])
  {
    RepHitsIff(words, Normalized(words), AfterFillers(a, words), i);
  }

  /** The repetition decisions at `lo+1 .. lo+k-1`. */
  function RunHits(words: seq<Word>, lo: nat, k: nat): (hits: seq<Hit>)
    requires lo + k <= |words|
    ensures |hits| == if k == 0 then 0 else k - 1
    ensures forall t :: 0 <= t < |hits| ==> hits[t] == TokenHit(words, lo + 1 + t, "repetition")
  {
    if k <= 1 then [] else RunHits(words, lo, k - 1) + [TokenHit(words, lo + k - 1, "repetition")]
  }

  /**
   * A run of `k` unclaimed words with the same normalised text of more than
   * one character yields `k - 1` repetitions: every word of the run but the first.
   */
  lemma {:induction false} RepetitionRun(words: seq<Word>, ns: seq<string>, marked: set<nat>, lo: nat, k: nat)
    requires |ns| == |words| && 1 <= k && lo + k <= |words|
    requires forall t :: lo <= t < lo + k ==> ns[t] == ns[lo] && t !in marked
    requires |ns[lo]| > 1
    ensures RepHits(words, ns, marked, lo + k) == RepHits(words, ns, marked, lo + 1) + RunHits(words, lo, k)
  {
    if k > 1 {
      RepetitionRun(words, ns, marked, lo, k - 1);
      ConcatAssoc(RepHits(words, ns, marked, lo + 1), RunHits(words, lo, k - 1), [TokenHit(words, lo + k - 1, "repetition")]);
    } else {
      AppendEmpty(RepHits(words, ns, marked, lo + 1));
    }
  }

  /** The single-word decisions of the filler and repetition passes. */
  ghost predicate HitKind(a: Analyzer, words: seq<Word>, h: Hit)
    requires a.Valid()
  {
    || PhraseAt(words, Normalized(words), a.fillerPhrases, h)
    || FillerAt(words, Normalized(words), a.fillers, AfterPhrases(a, words).marked, h)
    || RepetitionAt(words, Normalized(words), AfterFillers(a, words), h)
  }

  lemma {:induction false} PhraseKind(a: Analyzer, words: seq<Word>, h: Hit)
    requires a.Valid() && h in AfterPhrases(a, words).hits
    ensures HitKind(a, words, h)
  {
    var hits := AfterPhrases(a, words).hits;
    PhrasePassShape(words, Normalized(words), a.fillerPhrases, |a.fillerPhrases|);
    var t :| 0 <= t < |hits| && hits[t] == h;
    assert PhraseAt(words, Normalized(words), a.fillerPhrases, hits[t]);
  }

  lemma {:induction false} FillerKind(a: Analyzer, words: seq<Word>, h: Hit)
    requires a.Valid() && h in FillerHits(words, Normalized(words), a.fillers, AfterPhrases(a, words).marked, |words|)
    ensures HitKind(a, words, h)
  {
    var hits := FillerHits(words, Normalized(words), a.fillers, AfterPhrases(a, words).marked, |words|);
    FillerHitsSound(words, Normalized(words), a.fillers, AfterPhrases(a, words).marked, |words|);
    var t :| 0 <= t < |hits| && hits[t] == h;
    assert FillerAt(words, Normalized(words), a.fillers, AfterPhrases(a, words).marked, hits[t]);
  }

  lemma {:induction false} RepetitionKind(a: Analyzer, words: seq<Word>, h: Hit)
    requires a.Valid() && h in RepHits(words, Normalized(words), AfterFillers(a, words), |words|)
    ensures HitKind(a, words, h)
  {
    var hits := RepHits(words, Normalized(words), AfterFillers(a, words), |words|);
    RepHitsSound(words, Normalized(words), AfterFillers(a, words), |words|);
    var t :| 0 <= t < |hits| && hits[t] == h;
    assert RepetitionAt(words, Normalized(words), AfterFillers(a, words), hits[t]);
  }

  /** Every hit of the three passes is a phrase, filler or repetition decision. */
  lemma {:induction false} AllHitsKind(a: Analyzer, words: seq<Word>, h: Hit)
    requires a.Valid() && h in AllHits(a, words)
    ensures HitKind(a, words, h)
  {
    var ns := Normalized(words);
    if h in AfterPhrases(a, words).hits {
      PhraseKind(a, words, h);
    } else if h in FillerHits(words, ns, a.fillers, AfterPhrases(a, words).marked, |words|) {
      FillerKind(a, words, h);
    } else {
      RepetitionKind(a, words, h);
    }
  }

  /** Every returned decision is the decision of some hit. */
  lemma {:induction false} DetectHit(a: Analyzer, words: seq<Word>, d: EditDecision)
    requires a.Valid() && d in Detect(a, words)
    ensures exists h :: h in AllHits(a, words) && h.decision == d
  {
    var ds := Decisions(AllHits(a, words));
    SortByMember(ds, StartOf, d);
    var t :| 0 <= t < |ds| && ds[t] == d;
    assert AllHits(a, words)[t] in AllHits(a, words);
  }

  /**
   * Every decision `analyze` returns comes from a hit of one of the three
   * passes; so its reason is "filler" or "repetition".
   */
  lemma {:induction false} DetectSound(a: Analyzer, words: seq<Word>, d: EditDecision)
    requires a.Valid() && d in Detect(a, words)
    ensures exists h :: h in AllHits(a, words) && h.decision == d && HitKind(a, words, h)
    ensures d.reason == "filler" || d.reason == "repetition"
  {
    DetectHit(a, words, d);
    var h :| h in AllHits(a, words) && h.decision == d;
    AllHitsKind(a, words, h);
  }

  /** Every hit of the three passes appears among the returned decisions. */
  lemma {:induction false} DetectComplete(a: Analyzer, words: seq<Word>, h: Hit)
    requires a.Valid() && h in AllHits(a, words)
    ensures h.decision in Detect(a, words)
  {
    var ds := Decisions(AllHits(a, words));
    var t :| 0 <= t < |AllHits(a, words)| && AllHits(a, words)[t] == h;
    assert ds[t] == h.decision;
    SortByMember(ds, StartOf, h.decision);
  }

  /** No words, no decisions. */
  lemma {:induction false} DetectEmpty(a: Analyzer)
    requires a.Valid()
    ensures Detect(a, []) == []
  {
    PhrasePassEmptyWords([], Normalized([]), a.fillerPhrases, |a.fillerPhrases|);
  }

  /** Over no words the phrase pass finds nothing. */
  lemma {:induction false} PhrasePassEmptyWords(words: seq<Word>, ns: seq<string>, phrases: seq<string>, m: nat)
    requires words == [] && ns == [] && m <= |phrases| && PhrasesSplit(phrases)
    ensures PhrasePass(words, ns, phrases, m).hits == []
  {
    if m > 0 {
      PhrasePassEmptyWords(words, ns, phrases, m - 1);
    }
  }
}
