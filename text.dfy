/**
 * The handful of Python `str` operations the modelled code relies on:
 * `isspace`, `lower`, `strip`/`rstrip`, `split()`, `join`, `endswith` and
 * the `in` substring test.  Strings are sequences of characters.
 */
module Text {

  /** `c.isspace()`: the characters Python's str methods treat as whitespace. */
  predicate IsSpace(c: char) {
    c == ' ' || ('\t' <= c <= '\r') || ('\U{1C}' <= c <= '\U{1F}')
    || c == '\U{85}' || c == '\U{A0}' || c == '\U{1680}'
    || ('\U{2000}' <= c <= '\U{200A}') || c == '\U{2028}' || c == '\U{2029}'
    || c == '\U{202F}' || c == '\U{205F}' || c == '\U{3000}'
  }

  predicate NoSpace(s: string) {
    forall i :: 0 <= i < |s| ==> !IsSpace(s[i])
  }

  /**
   * Lower-case mapping of one character: ASCII, Latin-1 and the Cyrillic
   * blocks (which is what the Russian and English gazetteers need).
   */
  function LowerChar(c: char): char {
    if 'A' <= c <= 'Z' then (c as int + 32) as char
    else if '\U{C0}' <= c <= '\U{DE}' && c != '\U{D7}' then (c as int + 32) as char
    else if '\U{410}' <= c <= '\U{42F}' then (c as int + 32) as char
    else if '\U{400}' <= c <= '\U{40F}' then (c as int + 80) as char
    else c
  }

  /** A lower-cased character is its own lower case. */
  lemma LowerCharIdempotent(c: char)
    ensures LowerChar(LowerChar(c)) == LowerChar(c)
  {
  }

  /** `s.lower()`, character by character. */
  function Lower(s: string): (r: string)
    ensures |r| == |s|
  {
    if s == [] then [] else [LowerChar(s[0])] + Lower(s[1..])
  }

  /** Every character of `s` satisfies `p`. */
  predicate AllChars(s: string, p: char -> bool) {
    forall i :: 0 <= i < |s| ==> p(s[i])
  }

  predicate IsLowerChar(c: char) {
    LowerChar(c) == c
  }

  /** `s.lower()` consists of lower-case characters. */
  lemma {:induction false} LowerIsLower(s: string)
    ensures AllChars(Lower(s), IsLowerChar)
  {
    if s != [] {
      LowerIsLower(s[1..]);
      LowerCharIdempotent(s[0]);
      var r := Lower(s);
      forall i | 0 <= i < |r| ensures IsLowerChar(r[i]) {
        if i > 0 {
          assert r[i] == Lower(s[1..])[i - 1];
        }
      }
    }
  }

  /** Lower-casing a string of lower-case characters changes nothing. */
  lemma {:induction false} LowerOfLower(s: string)
    requires AllChars(s, IsLowerChar)
    ensures Lower(s) == s
  {
    if s != [] {
      assert AllChars(s[1..], IsLowerChar) by {
        forall i | 0 <= i < |s| - 1 ensures IsLowerChar(s[1..][i]) {
          assert s[1..][i] == s[i + 1];
        }
      }
      LowerOfLower(s[1..]);
      HeadTail(s);
    }
  }

  lemma HeadTail(s: string)
    requires s != []
    ensures s == [s[0]] + s[1..]
  {
  }

  /** Drops the leading characters that satisfy `drop` (`s.lstrip(...)`). */
  function LStrip(s: string, drop: char -> bool): (r: string)
    ensures |r| <= |s|
    ensures r != [] ==> !drop(r[0])
  {
    if s != [] && drop(s[0]) then LStrip(s[1..], drop) else s
  }

  /** `LStrip` keeps a suffix. */
  lemma {:induction false} LStripSuffix(s: string, drop: char -> bool)
    ensures LStrip(s, drop) == s[|s| - |LStrip(s, drop)|..]
  {
    if s != [] && drop(s[0]) {
      LStripSuffix(s[1..], drop);
      assert s[1..][|s| - 1 - |LStrip(s, drop)|..] == s[|s| - |LStrip(s, drop)|..];
    }
  }

  /** `LStrip` drops only characters satisfying `drop`. */
  lemma {:induction false} LStripDropped(s: string, drop: char -> bool)
    ensures forall i :: 0 <= i < |s| - |LStrip(s, drop)| ==> drop(s[i])
  {
    if s != [] && drop(s[0]) {
      LStripDropped(s[1..], drop);
      assert forall i :: 1 <= i < |s| - |LStrip(s, drop)| ==> s[i] == s[1..][i - 1];
    }
  }

  /** Drops the trailing characters that satisfy `drop` (`s.rstrip(...)`). */
  function RStrip(s: string, drop: char -> bool): (r: string)
    ensures |r| <= |s| && r == s[..|r|]
    ensures r != [] ==> !drop(r[|r| - 1])
  {
    if s != [] && drop(s[|s| - 1]) then RStrip(s[..|s| - 1], drop) else s
  }

  /** `RStrip` drops only characters satisfying `drop`. */
  lemma {:induction false} RStripDropped(s: string, drop: char -> bool)
    ensures forall i :: |RStrip(s, drop)| <= i < |s| ==> drop(s[i])
  {
    if s != [] && drop(s[|s| - 1]) {
      RStripDropped(s[..|s| - 1], drop);
    }
  }

  /**
   * Stripping the front and then the back (twice) keeps a contiguous piece
   * of the string whose first character is not one stripped at the front.
   */
  lemma StripPiece(s: string, lead: char -> bool, trail: char -> bool, trail2: char -> bool)
    ensures |s| - |LStrip(s, lead)| + |RStrip(RStrip(LStrip(s, lead), trail), trail2)| <= |s|
    ensures RStrip(RStrip(LStrip(s, lead), trail), trail2)
         == s[|s| - |LStrip(s, lead)|..|s| - |LStrip(s, lead)| + |RStrip(RStrip(LStrip(s, lead), trail), trail2)|]
  {
    var left := LStrip(s, lead);
    var mid := RStrip(left, trail);
    var r := RStrip(mid, trail2);
    LStripSuffix(s, lead);
    assert r == left[..|r|];
  }

  /** Stripping keeps a property every character has. */
  lemma StripKeeps(s: string, lead: char -> bool, trail: char -> bool, trail2: char -> bool, p: char -> bool)
    requires AllChars(s, p)
    ensures AllChars(RStrip(RStrip(LStrip(s, lead), trail), trail2), p)
  {
    var off := |s| - |LStrip(s, lead)|;
    var r := RStrip(RStrip(LStrip(s, lead), trail), trail2);
    StripPiece(s, lead, trail, trail2);
    forall i | 0 <= i < |r| ensures p(r[i]) {
      assert r[i] == s[off + i];
    }
  }

  /** ... and that piece does not start with a character stripped at the front. */
  lemma StripFront(s: string, lead: char -> bool, trail: char -> bool, trail2: char -> bool)
    ensures RStrip(RStrip(LStrip(s, lead), trail), trail2) == []
         || !lead(RStrip(RStrip(LStrip(s, lead), trail), trail2)[0])
  {
    var left := LStrip(s, lead);
    var r := RStrip(RStrip(left, trail), trail2);
    if r != [] {
      assert r[0] == left[0];
    }
  }

  /** `s.strip()`: whitespace removed at both ends. */
  function Strip(s: string): string {
    RStrip(LStrip(s, IsSpace), IsSpace)
  }

  /** The longest prefix of `s` without whitespace. */
  function TakeWord(s: string): (w: string)
    ensures |w| <= |s| && w == s[..|w|]
    ensures NoSpace(w)
    ensures |w| < |s| ==> IsSpace(s[|w|])
  {
    if s == [] || IsSpace(s[0]) then [] else [s[0]] + TakeWord(s[1..])
  }

  /** `s.split()` without arguments: the maximal runs of non-whitespace. */
  function Split(s: string): (words: seq<string>)
    ensures forall i :: 0 <= i < |words| ==> words[i] != [] && NoSpace(words[i])
    decreases |s|
  {
    var t := LStrip(s, IsSpace);
    if t == [] then []
    else
      var w := TakeWord(t);
      [w] + Split(t[|w|..])
  }

  /** `sep.join(parts)`. */
  function Join(sep: string, parts: seq<string>): string {
    if parts == [] then ""
    else if |parts| == 1 then parts[0]
    else parts[0] + sep + Join(sep, parts[1..])
  }

  predicate StartsWith(s: string, prefix: string) {
    |prefix| <= |s| && s[..|prefix|] == prefix
  }

  /** `s.endswith(suffix)`. */
  predicate EndsWith(s: string, suffix: string) {
    |suffix| <= |s| && s[|s| - |suffix|..] == suffix
  }

  /** `part` occurs in `s` starting at index `i`. */
  predicate OccursAt(s: string, part: string, i: int) {
    0 <= i <= |s| - |part| && s[i..i + |part|] == part
  }

  /** `part in s` for strings. */
  predicate Contains(s: string, part: string) {
    exists i :: 0 <= i <= |s| - |part| && OccursAt(s, part, i)
  }

  /** Leading whitespace does not change the words of a string. */
  lemma SplitSkipsSpace(c: char, s: string)
    requires IsSpace(c)
    ensures Split([c] + s) == Split(s)
  {
    assert ([c] + s)[1..] == s;
  }

  /** `TakeWord` stops exactly at the whitespace that follows a word. */
  lemma {:induction false} TakeWordOf(w: string, rest: string)
    requires NoSpace(w)
    requires rest == [] || IsSpace(rest[0])
    ensures TakeWord(w + rest) == w
  {
    if w == [] {
    } else {
      assert (w + rest)[1..] == w[1..] + rest;
      TakeWordOf(w[1..], rest);
    }
  }

  /** A word followed by whitespace (or nothing) is the first word. */
  lemma SplitFirstWord(w: string, rest: string)
    requires w != [] && NoSpace(w)
    requires rest == [] || IsSpace(rest[0])
    ensures Split(w + rest) == [w] + Split(rest)
  {
    var s := w + rest;
    assert s[0] == w[0];
    assert LStrip(s, IsSpace) == s;
    TakeWordOf(w, rest);
    assert s[|w|..] == rest;
  }

  /** Space-free, non-empty words: what `split()` produces. */
  predicate AreWords(words: seq<string>) {
    forall i :: 0 <= i < |words| ==> words[i] != [] && NoSpace(words[i])
  }

  /**
   * Splitting a string made by joining space-free, non-empty words with a
   * single space gives the words back.
   */
  lemma {:induction false} SplitJoin(words: seq<string>)
    requires AreWords(words)
    ensures Split(Join(" ", words)) == words
  {
    if words == [] {
    } else if |words| == 1 {
      SplitFirstWord(words[0], []);
      assert words[0] + [] == words[0];
    } else {
      var w, tail := words[0], words[1..];
      assert [w] + tail == words;
      assert AreWords(tail);
      SplitJoin(tail);
      JoinSplitStep(w, tail);
    }
  }

  lemma JoinSplitStep(w: string, tail: seq<string>)
    requires w != [] && NoSpace(w) && tail != []
    ensures Split(Join(" ", [w] + tail)) == [w] + Split(Join(" ", tail))
  {
    var rest := Join(" ", tail);
    var spaced := [' '] + rest;
    assert ([w] + tail)[1..] == tail;
    assert Join(" ", [w] + tail) == w + spaced;
    SplitFirstWord(w, spaced);
    SplitSkipsSpace(' ', rest);
  }

  lemma JoinTwo(sep: string, a: string, b: string)
    ensures Join(sep, [a, b]) == a + sep + b
  {
    assert [a, b][1..] == [b];
  }

  lemma JoinThree(sep: string, a: string, b: string, c: string)
    ensures Join(sep, [a, b, c]) == a + sep + b + sep + c
  {
    assert [a, b, c][1..] == [b, c];
    JoinTwo(sep, b, c);
  }

  lemma JoinFour(sep: string, a: string, b: string, c: string, d: string)
    ensures Join(sep, [a, b, c, d]) == a + sep + b + sep + c + sep + d
  {
    assert [a, b, c, d][1..] == [b, c, d];
    JoinThree(sep, b, c, d);
  }

  /** Every part occurs in the joined string. */
  lemma {:induction false} JoinContains(sep: string, parts: seq<string>, k: nat)
    requires k < |parts|
    ensures Contains(Join(sep, parts), parts[k])
  {
    var j := Join(sep, parts);
    if |parts| == 1 || k == 0 {
      JoinEnds(sep, parts);
      StartsWithContains(j, parts[0]);
    } else {
      JoinContains(sep, parts[1..], k - 1);
      var rest := Join(sep, parts[1..]);
      assert parts[1..][k - 1] == parts[k];
      var i :| 0 <= i <= |rest| - |parts[k]| && OccursAt(rest, parts[k], i);
      var off := |parts[0]| + |sep|;
      assert j == parts[0] + sep + rest;
      assert j[off + i..off + i + |parts[k]|] == rest[i..i + |parts[k]|];
      assert OccursAt(j, parts[k], off + i);
    }
  }

  /** The joined string starts with the first part and ends with the last. */
  lemma {:induction false} JoinEnds(sep: string, parts: seq<string>)
    requires parts != []
    ensures StartsWith(Join(sep, parts), parts[0])
    ensures EndsWith(Join(sep, parts), parts[|parts| - 1])
  {
    if |parts| > 1 {
      JoinEnds(sep, parts[1..]);
      var rest := Join(sep, parts[1..]);
      assert Join(sep, parts) == parts[0] + sep + rest;
    }
  }

  /** A string contains its prefixes and suffixes. */
  lemma StartsWithContains(s: string, p: string)
    requires StartsWith(s, p)
    ensures Contains(s, p)
  {
    assert s[0..|p|] == p;
    assert OccursAt(s, p, 0);
  }

  /** A part found in `y` is found in `x + y + z`, shifted by `|x|`. */
  lemma OccursShift(x: string, y: string, z: string, part: string, k: int)
    requires OccursAt(y, part, k)
    ensures OccursAt(x + y + z, part, |x| + k)
  {
    assert (x + y + z)[|x| + k..|x| + k + |part|] == y[k..k + |part|];
  }

  lemma EndsWithConcat(x: string, y: string)
    ensures EndsWith(x + y, y)
  {
    assert (x + y)[|x|..] == y;
  }

  lemma EndsWithContains(s: string, p: string)
    requires EndsWith(s, p)
    ensures Contains(s, p)
  {
    assert s[|s| - |p|..|s| - |p| + |p|] == p;
    assert OccursAt(s, p, |s| - |p|);
  }

  predicate IsDigit(ch: char) {
    '0' <= ch <= '9'
  }

  function DigitChar(d: nat): (ch: char)
    requires d < 10
    ensures IsDigit(ch)
  {
    ('0' as int + d) as char
  }

  function DigitValue(ch: char): nat {
    if IsDigit(ch) then ch as int - '0' as int else 0
  }

  lemma DigitRoundTrip(d: nat)
    requires d < 10
    ensures DigitValue(DigitChar(d)) == d
  {
  }

  /** `str(n)` for a natural number. */
  function NatToString(n: nat): (s: string)
    ensures s != [] && AllChars(s, IsDigit)
    decreases n
  {
    if n < 10 then [DigitChar(n)] else NatToString(n / 10) + [DigitChar(n % 10)]
  }

  /** `int(s)` for a string of decimal digits. */
  function ParseNat(s: string): nat {
    if s == [] then 0 else ParseNat(s[..|s| - 1]) * 10 + DigitValue(s[|s| - 1])
  }

  /** Reading back the decimal digits of `n` gives `n`. */
  lemma {:induction false} ParseNatToString(n: nat)
    ensures ParseNat(NatToString(n)) == n
    decreases n
  {
    var s := NatToString(n);
    if n >= 10 {
      ParseNatToString(n / 10);
      assert s[..|s| - 1] == NatToString(n / 10);
    }
  }

  // ---------------------------------------------------------------------
  // Splitting on one separator character
  // ---------------------------------------------------------------------

  /** `s.split(sep)`: the pieces between the separators, empty ones included. */
  function SplitOn(s: string, sep: char): (parts: seq<string>)
    ensures parts != []
  {
    if s == [] then [""]
    else if s[0] == sep then [""] + SplitOn(s[1..], sep)
    else
      var rest := SplitOn(s[1..], sep);
      [[s[0]] + rest[0]] + rest[1..]
  }

  /** The text up to the first `sep` (all of `s` when there is none). */
  function BeforeFirst(s: string, sep: char): (r: string)
    ensures |r| <= |s| && sep !in r
    ensures r == s[..|r|]
    ensures |r| < |s| ==> s[|r|] == sep
  {
    if s == [] || s[0] == sep then "" else [s[0]] + BeforeFirst(s[1..], sep)
  }

  /** The text after the last `sep` (all of `s` when there is none). */
  function AfterLast(s: string, sep: char): (r: string)
    ensures |r| <= |s| && sep !in r
    ensures r == s[|s| - |r|..]
    ensures |r| < |s| ==> s[|s| - |r| - 1] == sep
  {
    if s == [] || s[|s| - 1] == sep then ""
    else
      var init := AfterLast(s[..|s| - 1], sep);
      assert s[..|s| - 1][|s| - 1 - |init|..] + [s[|s| - 1]] == s[|s| - 1 - |init|..];
      init + [s[|s| - 1]]
  }

  /** `s.split(sep)[0]` */
  lemma {:induction false} SplitOnFirst(s: string, sep: char)
    ensures SplitOn(s, sep)[0] == BeforeFirst(s, sep)
  {
    if s != [] && s[0] != sep {
      SplitOnFirst(s[1..], sep);
    }
  }

  /** How the pieces of `s` relate to those of its tail: their number, and the last one. */
  lemma SplitOnCons(s: string, sep: char)
    requires s != []
    ensures var rest := SplitOn(s[1..], sep);
      && |SplitOn(s, sep)| == |rest| + (if s[0] == sep then 1 else 0)
      && SplitOn(s, sep)[|SplitOn(s, sep)| - 1]
         == if s[0] != sep && |rest| == 1 then [s[0]] + rest[0] else rest[|rest| - 1]
  {
    var rest := SplitOn(s[1..], sep);
    if s[0] == sep {
      assert SplitOn(s, sep) == [""] + rest;
    }
  }

  /** The last piece of `s.split(sep)` is a suffix without `sep`, all of `s` or just after a `sep`. */
  lemma {:induction false} SplitOnLastShape(s: string, sep: char)
    ensures var r := SplitOn(s, sep)[|SplitOn(s, sep)| - 1];
      && sep !in r && |r| <= |s| && r == s[|s| - |r|..]
      && (|r| < |s| ==> s[|s| - |r| - 1] == sep)
      && (|SplitOn(s, sep)| == 1 ==> r == s)
      && (|SplitOn(s, sep)| > 1 ==> |r| < |s|)
  {
    if s != [] {
      var t := s[1..];
      SplitOnLastShape(t, sep);
      SplitOnCons(s, sep);
      var rest := SplitOn(t, sep);
      var last := rest[|rest| - 1];
      assert t[|t| - |last|..] == s[|s| - |last|..];
      if s[0] != sep && |rest| == 1 {
        assert [s[0]] + t == s;
      }
    }
  }

  /** Two suffixes of `s` without `sep`, each all of `s` or just after a `sep`, are the same. */
  lemma LastPieceUnique(s: string, sep: char, r1: string, r2: string)
    requires sep !in r1 && |r1| <= |s| && r1 == s[|s| - |r1|..] && (|r1| < |s| ==> s[|s| - |r1| - 1] == sep)
    requires sep !in r2 && |r2| <= |s| && r2 == s[|s| - |r2|..] && (|r2| < |s| ==> s[|s| - |r2| - 1] == sep)
    ensures r1 == r2
  {
    NoSepInSuffix(s, sep, |s| - |r1|);
    NoSepInSuffix(s, sep, |s| - |r2|);
  }

  /** A piece without `sep` that follows a `sep` (or starts the string) is what follows the last `sep`. */
  lemma AfterLastAfterSep(pre: string, r: string, sep: char)
    requires sep !in r && (pre == [] || pre[|pre| - 1] == sep)
    ensures AfterLast(pre + r, sep) == r
  {
    var s := pre + r;
    assert s[|s| - |r|..] == r;
    if |r| < |s| {
      assert s[|s| - |r| - 1] == pre[|pre| - 1];
    }
    LastPieceUnique(s, sep, r, AfterLast(s, sep));
  }

  lemma NoSepInSuffix(s: string, sep: char, lo: nat)
    requires lo <= |s| && sep !in s[lo..]
    ensures forall k :: lo <= k < |s| ==> s[k] != sep
  {
    forall k | lo <= k < |s| ensures s[k] != sep {
      assert s[lo..][k - lo] == s[k];
    }
  }

  /** `s.split(sep)[-1]` */
  lemma SplitOnLast(s: string, sep: char)
    ensures SplitOn(s, sep)[|SplitOn(s, sep)| - 1] == AfterLast(s, sep)
  {
    SplitOnLastShape(s, sep);
    LastPieceUnique(s, sep, SplitOn(s, sep)[|SplitOn(s, sep)| - 1], AfterLast(s, sep));
  }
}
