/**
 * The timeline editor: the decided ranges are cut out of the audio, the
 * latest start first, and the two sides of each cut are joined with a
 * crossfade when both are at least as long as the crossfade, by plain
 * concatenation otherwise.  Audio is a sequence of samples at one sample
 * per millisecond, so decision times index it directly.
 */
module Editing {
  import opened Models
  import opened Ordering

  /** An audio buffer, one sample per millisecond. */
  type Audio = seq<int>

  /**
   * The crossfade's sample mix: position in the overlap, sample of the side
   * fading out, sample of the side fading in.  The audio library's gain
   * curves are not modelled; only where the mix goes is.
   */
  type Blend = (nat, int, int) -> int

  // ---------------------------------------------------------------------
  // Slicing
  // ---------------------------------------------------------------------

  /** Python's normalisation of a slice bound: negative counts from the end, then clamped to `[0, n]`. */
  function Clamp(i: int, n: nat): nat {
    if i < 0 then (if n + i < 0 then 0 else n + i)
    else if i > n then n
    else i
  }

  /** `audio[:i]` */
  function Take(audio: Audio, i: int): (r: Audio)
    ensures |r| <= |audio|
    ensures 0 <= i <= |audio| ==> |r| == i
    ensures i >= |audio| ==> r == audio
    ensures r == audio[..|r|]
  {
    audio[..Clamp(i, |audio|)]
  }

  /** `audio[i:]` */
  function Drop(audio: Audio, i: int): (r: Audio)
    ensures |r| <= |audio|
    ensures 0 <= i <= |audio| ==> |r| == |audio| - i
    ensures i >= |audio| ==> r == []
    ensures r == audio[|audio| - |r|..]
  {
    audio[Clamp(i, |audio|)..]
  }

  /** Both slices cut at the same place: together they are the whole buffer. */
  lemma TakeDrop(audio: Audio, i: int)
    ensures Take(audio, i) + Drop(audio, i) == audio
  {
    var k := Clamp(i, |audio|);
    assert audio[..k] + audio[k..] == audio;
  }

  // ---------------------------------------------------------------------
  // One cut
  // ---------------------------------------------------------------------

  /** `len(before) >= crossfade_ms and len(after) >= crossfade_ms` */
  predicate Fades(c: nat, before: Audio, after: Audio) {
    |before| >= c && |after| >= c
  }

  /** The overlap: sample `k` mixes `x[k]` (fading out) with `y[k]` (fading in). */
  function Mix(x: Audio, y: Audio, blend: Blend): (r: Audio)
    requires |x| == |y|
    ensures |r| == |x|
  {
    seq(|x|, k requires 0 <= k < |x| => blend(k, x[k], y[k]))
  }

  /**
   * `before.append(after, crossfade=c)`: the last `c` samples of `before`
   * and the first `c` of `after` overlap.  Everything of `before` ahead of
   * the overlap and everything of `after` behind it is kept as it was.
   */
  function Crossfade(before: Audio, after: Audio, c: nat, blend: Blend): (r: Audio)
    requires c <= |before| && c <= |after|
    ensures |r| == |before| + |after| - c
    ensures r[..|before| - c] == before[..|before| - c]
    ensures r[|before|..] == after[c..]
  {
    var head := before[..|before| - c];
    var overlap := Mix(before[|before| - c..], after[..c], blend);
    assert (head + overlap + after[c..])[..|head|] == head;
    assert (head + overlap + after[c..])[|before|..] == after[c..];
    head + overlap + after[c..]
  }

  /** One iteration of the edit loop: cut `[d.start, d.end)` out of `audio`. */
  function Splice(c: nat, audio: Audio, d: EditDecision, blend: Blend): Audio {
    var before := Take(audio, d.start);
    var after := Drop(audio, d.end);
    if Fades(c, before, after) then Crossfade(before, after, c, blend) else before + after
  }

  /** A crossfaded join is `c` samples shorter than the two sides; a hard join is exactly both sides. */
  lemma SpliceLength(c: nat, audio: Audio, d: EditDecision, blend: Blend)
    ensures var before, after := Take(audio, d.start), Drop(audio, d.end);
      && (Fades(c, before, after) ==> |Splice(c, audio, d, blend)| == |before| + |after| - c)
      && (!Fades(c, before, after) ==> Splice(c, audio, d, blend) == before + after)
  {
  }

  /** A cut inside the buffer removes `end - start` samples, and `c` more when it crossfades. */
  lemma SpliceInRange(c: nat, audio: Audio, d: EditDecision, blend: Blend)
    requires 0 <= d.start <= d.end <= |audio|
    ensures d.start >= c && |audio| - d.end >= c ==>
      |Splice(c, audio, d, blend)| == |audio| - (d.end - d.start) - c
    ensures !(d.start >= c && |audio| - d.end >= c) ==>
      |Splice(c, audio, d, blend)| == |audio| - (d.end - d.start)
  {
  }

  /** How much of the buffer's head a cut leaves untouched. */
  function KeptHead(c: nat, audio: Audio, d: EditDecision): nat {
    var before := Take(audio, d.start);
    if Fades(c, before, Drop(audio, d.end)) then |before| - c else |before|
  }

  /** Nothing ahead of the cut changes (ahead of the overlap, when it crossfades). */
  lemma SplicePrefix(c: nat, audio: Audio, d: EditDecision, blend: Blend)
    ensures KeptHead(c, audio, d) <= |Splice(c, audio, d, blend)|
    ensures KeptHead(c, audio, d) <= |audio|
    ensures Splice(c, audio, d, blend)[..KeptHead(c, audio, d)] == audio[..KeptHead(c, audio, d)]
  {
    var before, after := Take(audio, d.start), Drop(audio, d.end);
    var k := KeptHead(c, audio, d);
    if !Fades(c, before, after) {
      assert (before + after)[..k] == before;
    }
  }

  /**
   * An inverted decision (`end < start`) removes nothing: the samples
   * `[end, start)` come out twice, once at the end of `before` and once at
   * the head of `after`.
   */
  lemma SpliceInverted(c: nat, audio: Audio, d: EditDecision, blend: Blend)
    requires 0 <= d.end < d.start <= |audio|
    ensures d.start >= c && |audio| - d.end >= c ==>
      |Splice(c, audio, d, blend)| == |audio| + (d.start - d.end) - c
    ensures !(d.start >= c && |audio| - d.end >= c) ==>
      && Splice(c, audio, d, blend) == audio[..d.start] + audio[d.end..]
      && Splice(c, audio, d, blend)[d.end..d.start] == audio[d.end..d.start]
      && Splice(c, audio, d, blend)[d.start..2 * d.start - d.end] == audio[d.end..d.start]
  {
    var s, e := d.start, d.end;
    if !(s >= c && |audio| - e >= c) {
      var r := audio[..s] + audio[e..];
      assert r[e..s] == audio[e..s];
      assert r[s..2 * s - e] == audio[e..s];
    }
  }

  // ---------------------------------------------------------------------
  // The whole edit
  // ---------------------------------------------------------------------

  /** The cuts of `ds`, applied in sequence order. */
  function ApplyAll(c: nat, audio: Audio, ds: seq<EditDecision>, blend: Blend): Audio {
    if ds == [] then audio
    else Splice(c, ApplyAll(c, audio, ds[..|ds| - 1], blend), ds[|ds| - 1], blend)
  }

  function NegStart(d: EditDecision): int { -d.start }

  /** `sorted(decisions, key=lambda d: d.start, reverse=True)` */
  function ProcessingOrder(ds: seq<EditDecision>): seq<EditDecision> {
    SortBy(ds, NegStart)
  }

  /** The audio `edit` exports. */
  function Edited(c: nat, audio: Audio, ds: seq<EditDecision>, blend: Blend): Audio {
    ApplyAll(c, audio, ProcessingOrder(ds), blend)
  }

  /** No decisions: the output is the input. */
  lemma EditEmpty(c: nat, audio: Audio, blend: Blend)
    ensures Edited(c, audio, [], blend) == audio
  {
  }

  /**
   * Decisions are applied latest start first, whatever the input order;
   * the order holds every decision once, and decisions with equal starts
   * keep their input order.
   */
  lemma ProcessingOrderDescending(ds: seq<EditDecision>)
    ensures forall i, j :: 0 <= i < j < |ProcessingOrder(ds)| ==> ProcessingOrder(ds)[i].start >= ProcessingOrder(ds)[j].start
    ensures multiset(ProcessingOrder(ds)) == multiset(ds)
    ensures forall v :: KeyFilter(ProcessingOrder(ds), NegStart, v) == KeyFilter(ds, NegStart, v)
  {
    SortBySorted(ds, NegStart);
    SortByPermutes(ds, NegStart);
    var r := ProcessingOrder(ds);
    forall i, j | 0 <= i < j < |r| ensures r[i].start >= r[j].start {
      assert NegStart(r[i]) <= NegStart(r[j]);
    }
    forall v ensures KeyFilter(r, NegStart, v) == KeyFilter(ds, NegStart, v) {
      SortByStable(ds, NegStart, v);
    }
  }

  /** Every decision starts at least `p + c` in and is not inverted. */
  predicate AllLater(ds: seq<EditDecision>, p: nat, c: nat) {
    forall k :: 0 <= k < |ds| ==> p + c <= ds[k].start <= ds[k].end
  }

  /** One cut that starts at least `p + c` in keeps the first `p` samples. */
  lemma {:induction false} SpliceKeeps(c: nat, audio: Audio, d: EditDecision, blend: Blend, p: nat)
    requires p <= |audio| && p + c <= d.start <= d.end
    ensures p <= |Splice(c, audio, d, blend)|
    ensures Splice(c, audio, d, blend)[..p] == audio[..p]
  {
    SplicePrefix(c, audio, d, blend);
    var k := KeptHead(c, audio, d);
    var r := Splice(c, audio, d, blend);
    assert p <= k;
    assert r[..p] == r[..k][..p];
    assert audio[..p] == audio[..k][..p];
  }

  /**
   * Cuts that all start at least `p + c` in leave the first `p` samples
   * as they were, in any order: decisions processed later see their
   * original positions.
   */
  lemma {:induction false} ApplyAllKeepsPrefix(c: nat, audio: Audio, ds: seq<EditDecision>, blend: Blend, p: nat)
    requires p <= |audio| && AllLater(ds, p, c)
    ensures p <= |ApplyAll(c, audio, ds, blend)|
    ensures ApplyAll(c, audio, ds, blend)[..p] == audio[..p]
  {
    if ds != [] {
      var init := ds[..|ds| - 1];
      assert AllLater(init, p, c) by {
        forall k | 0 <= k < |init| ensures p + c <= init[k].start <= init[k].end {
          assert init[k] == ds[k];
        }
      }
      ApplyAllKeepsPrefix(c, audio, init, blend, p);
      var cur := ApplyAll(c, audio, init, blend);
      SpliceKeeps(c, cur, ds[|ds| - 1], blend, p);
    }
  }

  /** Decisions inside the buffer, in descending order, each ending where the previous one starts or earlier. */
  predicate DescendingInRange(ds: seq<EditDecision>, n: nat) {
    && (forall k :: 0 <= k < |ds| ==> 0 <= ds[k].start <= ds[k].end <= n)
    && (forall k :: 0 <= k < |ds| - 1 ==> ds[k + 1].end <= ds[k].start)
  }

  /** Decision `k` crossfades when it is applied after the first `k`. */
  predicate FadesAt(c: nat, audio: Audio, ds: seq<EditDecision>, blend: Blend, k: nat)
    requires k < |ds|
  {
    var cur := ApplyAll(c, audio, ds[..k], blend);
    Fades(c, Take(cur, ds[k].start), Drop(cur, ds[k].end))
  }

  /** Every cut takes the crossfade branch. */
  predicate AllFade(c: nat, audio: Audio, ds: seq<EditDecision>, blend: Blend) {
    forall k :: 0 <= k < |ds| ==> FadesAt(c, audio, ds, blend, k)
  }

  /** The samples the decisions cover: the sum of `end - start`. */
  function Removed(ds: seq<EditDecision>): int {
    if ds == [] then 0 else Removed(ds[..|ds| - 1]) + (ds[|ds| - 1].end - ds[|ds| - 1].start)
  }

  /** The first `n` cuts are the first `n - 1` followed by cut `n - 1`. */
  lemma PrefixStep(c: nat, audio: Audio, ds: seq<EditDecision>, blend: Blend, n: nat)
    requires 0 < n <= |ds|
    ensures ApplyAll(c, audio, ds[..n], blend) == Splice(c, ApplyAll(c, audio, ds[..n - 1], blend), ds[n - 1], blend)
    ensures Removed(ds[..n]) == Removed(ds[..n - 1]) + (ds[n - 1].end - ds[n - 1].start)
  {
    var prefix := ds[..n];
    assert prefix[..n - 1] == ds[..n - 1];
    assert prefix[n - 1] == ds[n - 1];
  }

  /** One crossfading cut after `m` crossfading ones removes what it covers plus one more crossfade. */
  lemma ReductionStep(c: nat, cur: Audio, d: EditDecision, blend: Blend, base: int, removed: int, m: nat)
    requires |cur| == base - removed - m * c
    requires 0 <= d.start <= d.end <= |cur| && Fades(c, Take(cur, d.start), Drop(cur, d.end))
    ensures |Splice(c, cur, d, blend)| == base - (removed + (d.end - d.start)) - (m + 1) * c
    ensures d.start <= |Splice(c, cur, d, blend)|
  {
    SpliceInRange(c, cur, d, blend);
    assert (m + 1) * c == m * c + c;
  }

  /** The first `n` cuts of a descending, in-range, all-crossfading list. */
  lemma {:induction false} ReductionUpTo(c: nat, audio: Audio, ds: seq<EditDecision>, blend: Blend, n: nat)
    requires n <= |ds| && DescendingInRange(ds, |audio|) && AllFade(c, audio, ds, blend)
    ensures |ApplyAll(c, audio, ds[..n], blend)| == |audio| - Removed(ds[..n]) - n * c
    ensures n > 0 ==> ds[n - 1].start <= |ApplyAll(c, audio, ds[..n], blend)|
  {
    if n > 0 {
      ReductionUpTo(c, audio, ds, blend, n - 1);
      var cur := ApplyAll(c, audio, ds[..n - 1], blend);
      assert ds[n - 1].end <= |cur| by {
        if n > 1 {
          assert ds[n - 1].end <= ds[n - 2].start;
        }
      }
      assert FadesAt(c, audio, ds, blend, n - 1);
      PrefixStep(c, audio, ds, blend, n);
      ReductionStep(c, cur, ds[n - 1], blend, |audio|, Removed(ds[..n - 1]), n - 1);
    }
  }

  /**
   * Non-overlapping in-range decisions, processed latest first, that all
   * crossfade shorten the audio by what they cover plus one crossfade each.
   */
  lemma TotalReduction(c: nat, audio: Audio, ds: seq<EditDecision>, blend: Blend)
    requires DescendingInRange(ds, |audio|) && AllFade(c, audio, ds, blend)
    ensures |ApplyAll(c, audio, ds, blend)| == |audio| - Removed(ds) - |ds| * c
  {
    ReductionUpTo(c, audio, ds, blend, |ds|);
    assert ds[..|ds|] == ds;
  }

  // ---------------------------------------------------------------------
  // Decisions in any order
  // ---------------------------------------------------------------------

  /** Decisions inside a buffer of `n` samples, each covering at least one. */
  predicate CutsInRange(ds: seq<EditDecision>, n: nat) {
    forall k :: 0 <= k < |ds| ==> 0 <= ds[k].start < ds[k].end <= n
  }

  /**
   * Non-empty, non-overlapping cuts inside the buffer, given in any order,
   * come out of the processing order descending, each ending where the
   * previous one starts or earlier.
   */
  lemma ProcessingOrderInRange(ds: seq<EditDecision>, n: nat)
    requires CutsInRange(ds, n) && Pairwise(ds, Apart)
    ensures DescendingInRange(ProcessingOrder(ds), n)
  {
    var p := ProcessingOrder(ds);
    ProcessingOrderDescending(ds);
    SortByPairwise(ds, NegStart, Apart);
    forall k | 0 <= k < |p| ensures 0 <= p[k].start < p[k].end <= n {
      SortByMember(ds, NegStart, p[k]);
    }
    forall k | 0 <= k < |p| - 1 ensures p[k + 1].end <= p[k].start {
      assert Apart(p[k], p[k + 1]);
    }
  }

  /** What two lists cover together is what each covers. */
  lemma {:induction false} RemovedAppend(a: seq<EditDecision>, b: seq<EditDecision>)
    ensures Removed(a + b) == Removed(a) + Removed(b)
  {
    if b == [] {
      assert a + b == a;
    } else {
      var init := b[..|b| - 1];
      RemovedAppend(a, init);
      assert (a + b)[..|a + b| - 1] == a + init;
    }
  }

  lemma MultisetCancel(a: multiset<EditDecision>, b: multiset<EditDecision>, x: EditDecision)
    requires a + multiset{x} == b + multiset{x}
    ensures a == b
  {
    forall y ensures a[y] == b[y] {
      assert (a + multiset{x})[y] == (b + multiset{x})[y];
    }
  }

  /** Taking one cut out of a list lowers what it covers by that cut. */
  lemma RemovedWithout(p: seq<EditDecision>, i: nat)
    requires i < |p|
    ensures Removed(p) == Removed(p[..i] + p[i + 1..]) + (p[i].end - p[i].start)
  {
    var before, x, after := p[..i], p[i], p[i + 1..];
    assert p[..i + 1] == before + [x];
    assert p == p[..i + 1] + after;
    RemovedAppend(before + [x], after);
    RemovedAppend(before, [x]);
    RemovedAppend(before, after);
    assert ([x])[..0] == [];
  }

  lemma MultisetWithout(p: seq<EditDecision>, i: nat)
    requires i < |p|
    ensures multiset(p) == multiset(p[..i] + p[i + 1..]) + multiset{p[i]}
  {
    var before, x, after := p[..i], p[i], p[i + 1..];
    assert p == before + [x] + after;
    assert multiset(p) == multiset(before) + multiset([x]) + multiset(after);
    assert multiset(before + after) == multiset(before) + multiset(after);
  }

  /** What the decisions cover does not depend on their order. */
  lemma {:induction false} RemovedPermutation(p: seq<EditDecision>, q: seq<EditDecision>)
    requires multiset(p) == multiset(q)
    ensures Removed(p) == Removed(q)
    decreases |q|
  {
    if q == [] {
      assert |p| == |multiset(p)|;
    } else {
      var init, x := q[..|q| - 1], q[|q| - 1];
      assert q == init + [x];
      assert multiset(q) == multiset(init) + multiset{x};
      assert x in multiset(p);
      var i :| 0 <= i < |p| && p[i] == x;
      RemovedWithout(p, i);
      MultisetWithout(p, i);
      MultisetCancel(multiset(p[..i] + p[i + 1..]), multiset(init), x);
      RemovedPermutation(p[..i] + p[i + 1..], init);
    }
  }

  /**
   * `edit` on non-empty, non-overlapping cuts inside the audio, in any
   * order, all crossfading: the output is shorter by what the cuts cover
   * plus one crossfade per cut.
   */
  lemma EditedReduction(c: nat, audio: Audio, ds: seq<EditDecision>, blend: Blend)
    requires CutsInRange(ds, |audio|) && Pairwise(ds, Apart)
    requires AllFade(c, audio, ProcessingOrder(ds), blend)
    ensures |Edited(c, audio, ds, blend)| == |audio| - Removed(ds) - |ds| * c
  {
    ProcessingOrderInRange(ds, |audio|);
    TotalReduction(c, audio, ProcessingOrder(ds), blend);
    ProcessingOrderDescending(ds);
    RemovedPermutation(ProcessingOrder(ds), ds);
  }

  // ---------------------------------------------------------------------
  // The editor
  // ---------------------------------------------------------------------

  /** `Editor(crossfade_ms=20)`: its one setting, never changed afterwards. */
  datatype Editor = Editor(crossfadeMs: nat := 20)
  {
    /**
     * `edit`: the input audio is a parameter and the exported audio the
     * result.  No decisions copy the input; otherwise the cuts run in
     * descending start order.
     */
    method Edit(audio: Audio, decisions: seq<EditDecision>, blend: Blend) returns (edited: Audio)
      ensures edited == Edited(crossfadeMs, audio, decisions, blend)
    {
      if decisions == [] {
        return audio;
      }
      edited := audio;
      var sorted := ProcessingOrder(decisions);
      for i := 0 to |sorted|
        invariant edited == ApplyAll(crossfadeMs, audio, sorted[..i], blend)
      {
        assert sorted[..i + 1][..i] == sorted[..i];
        var decision := sorted[i];
        var startMs, endMs := decision.start, decision.end;
        var before := Take(edited, startMs);
        var after := Drop(edited, endMs);
        if |before| >= crossfadeMs && |after| >= crossfadeMs {
          edited := Crossfade(before, after, crossfadeMs, blend);
        } else {
          edited := before + after;
        }
      }
      assert sorted[..|sorted|] == sorted;
    }
  }

  /** The default crossfade is 20 ms. */
  lemma EditorDefault()
    ensures Editor().crossfadeMs == 20
  {
  }
}
