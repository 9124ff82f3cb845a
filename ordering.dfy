/**
 * Python's `list.sort(key=...)` and `sorted(..., key=...)`: a stable sort
 * by an integer key, written as insertion sort.  `reverse=True` keeps
 * stability too, so it is the same sort on the negated key.
 */
module Ordering {

  /** Inserts `x` after every element whose key is at most `x`'s key. */
  function Insert<T>(x: T, s: seq<T>, key: T -> int): (r: seq<T>)
    ensures |r| == |s| + 1
  {
    if s == [] then [x]
    else if key(s[0]) <= key(x) then
      assert s == [s[0]] + s[1..];
      [s[0]] + Insert(x, s[1..], key)
    else [x] + s
  }

  /** Stable sort: the elements, taken in order, inserted one by one. */
  function SortBy<T>(s: seq<T>, key: T -> int): (r: seq<T>)
    ensures |r| == |s|
  {
    if s == [] then []
    else
      assert s == s[..|s| - 1] + [s[|s| - 1]];
      Insert(s[|s| - 1], SortBy(s[..|s| - 1], key), key)
  }

  ghost predicate SortedBy<T>(s: seq<T>, key: T -> int) {
    forall i, j :: 0 <= i < j < |s| ==> key(s[i]) <= key(s[j])
  }

  /** The elements of `s` whose key is `v`, in order. */
  function KeyFilter<T>(s: seq<T>, key: T -> int, v: int): seq<T> {
    if s == [] then []
    else (if key(s[0]) == v then [s[0]] else []) + KeyFilter(s[1..], key, v)
  }

  /** `rel` holds between the elements at any two distinct positions. */
  ghost predicate Pairwise<T>(s: seq<T>, rel: (T, T) -> bool) {
    forall i, j :: 0 <= i < |s| && 0 <= j < |s| && i != j ==> rel(s[i], s[j])
  }

  /** Inserting adds `x` once and keeps every element of `s`. */
  lemma {:induction false} InsertPermutes<T>(x: T, s: seq<T>, key: T -> int)
    ensures multiset(Insert(x, s, key)) == multiset(s) + multiset{x}
  {
    if s != [] && key(s[0]) <= key(x) {
      InsertPermutes(x, s[1..], key);
      assert s == [s[0]] + s[1..];
    }
  }

  /** Sorting is a permutation: every element is kept, as often as it occurs. */
  lemma {:induction false} SortByPermutes<T>(s: seq<T>, key: T -> int)
    ensures multiset(SortBy(s, key)) == multiset(s)
  {
    if s != [] {
      var init := s[..|s| - 1];
      SortByPermutes(init, key);
      InsertPermutes(s[|s| - 1], SortBy(init, key), key);
      assert s == init + [s[|s| - 1]];
    }
  }

  /** The elements of `Insert(x, s)` are `x` and those of `s`. */
  lemma InsertMember<T>(x: T, s: seq<T>, key: T -> int, y: T)
    ensures y in Insert(x, s, key) <==> y == x || y in s
  {
    var r := Insert(x, s, key);
    InsertPermutes(x, s, key);
    assert y in r <==> y in multiset(r);
    assert y in s <==> y in multiset(s);
  }

  /** An element no greater than every element of a sorted `t` can go in front. */
  lemma SortedCons<T>(y: T, t: seq<T>, key: T -> int)
    requires SortedBy(t, key)
    requires forall z :: z in t ==> key(y) <= key(z)
    ensures SortedBy([y] + t, key)
  {
    var out := [y] + t;
    forall i, j | 0 <= i < j < |out| ensures key(out[i]) <= key(out[j]) {
      assert out[j] == t[j - 1];
      if i > 0 {
        assert out[i] == t[i - 1];
      }
    }
  }

  lemma {:induction false} InsertSorted<T>(x: T, s: seq<T>, key: T -> int)
    requires SortedBy(s, key)
    ensures SortedBy(Insert(x, s, key), key)
  {
    if s == [] {
      SortedCons(x, s, key);
    } else if key(s[0]) <= key(x) {
      var tail := s[1..];
      assert SortedBy(tail, key);
      InsertSorted(x, tail, key);
      var r := Insert(x, tail, key);
      forall z | z in r ensures key(s[0]) <= key(z) {
        InsertMember(x, tail, key, z);
        if z != x {
          var t :| 0 <= t < |tail| && tail[t] == z;
          assert s[t + 1] == z;
        }
      }
      SortedCons(s[0], r, key);
    } else {
      forall z | z in s ensures key(x) <= key(z) {
        var t :| 0 <= t < |s| && s[t] == z;
      }
      SortedCons(x, s, key);
    }
  }

  /** The result of `SortBy` is ordered by the key. */
  lemma {:induction false} SortBySorted<T>(s: seq<T>, key: T -> int)
    ensures SortedBy(SortBy(s, key), key)
  {
    if s != [] {
      SortBySorted(s[..|s| - 1], key);
      InsertSorted(s[|s| - 1], SortBy(s[..|s| - 1], key), key);
    }
  }

  lemma AppendEmpty<T>(a: seq<T>)
    ensures a + [] == a && [] + a == a
  {
  }

  lemma HeadTail<T>(s: seq<T>)
    requires s != []
    ensures s == [s[0]] + s[1..]
  {
  }

  lemma InitLast<T>(s: seq<T>)
    requires s != []
    ensures s == s[..|s| - 1] + [s[|s| - 1]]
  {
  }

  lemma ConcatAssoc<T>(a: seq<T>, b: seq<T>, c: seq<T>)
    ensures a + (b + c) == (a + b) + c
  {
  }

  /** `KeyFilter` of a sequence with a known first element. */
  lemma KeyFilterCons<T>(y: T, t: seq<T>, key: T -> int, v: int)
    ensures KeyFilter([y] + t, key, v) == (if key(y) == v then [y] else []) + KeyFilter(t, key, v)
  {
    assert ([y] + t)[0] == y;
    assert ([y] + t)[1..] == t;
  }

  lemma {:induction false} KeyFilterAppend<T>(a: seq<T>, b: seq<T>, key: T -> int, v: int)
    ensures KeyFilter(a + b, key, v) == KeyFilter(a, key, v) + KeyFilter(b, key, v)
  {
    if a == [] {
      AppendEmpty(b);
      AppendEmpty(KeyFilter(b, key, v));
    } else {
      var h := if key(a[0]) == v then [a[0]] else [];
      var ka, kb := KeyFilter(a[1..], key, v), KeyFilter(b, key, v);
      HeadTail(a);
      ConcatAssoc([a[0]], a[1..], b);
      KeyFilterCons(a[0], a[1..] + b, key, v);
      KeyFilterAppend(a[1..], b, key, v);
      HeadTail(a);
      KeyFilterCons(a[0], a[1..], key, v);
      ConcatAssoc(h, ka, kb);
    }
  }

  /** No element of a sequence whose keys all exceed `v` has key `v`. */
  lemma {:induction false} KeyFilterAbove<T>(s: seq<T>, key: T -> int, v: int)
    requires forall i :: 0 <= i < |s| ==> key(s[i]) > v
    ensures KeyFilter(s, key, v) == []
  {
    if s != [] {
      KeyFilterAbove(s[1..], key, v);
    }
  }

  /** Inserting into a sorted sequence appends `x` to the elements with its key. */
  lemma {:induction false} InsertStable<T>(x: T, s: seq<T>, key: T -> int, v: int)
    requires SortedBy(s, key)
    ensures KeyFilter(Insert(x, s, key), key, v)
         == KeyFilter(s, key, v) + (if key(x) == v then [x] else [])
  {
    if s == [] {
      KeyFilterCons(x, [], key, v);
      AppendEmpty([x]);
      AppendEmpty(if key(x) == v then [x] else []);
    } else if key(s[0]) <= key(x) {
      assert SortedBy(s[1..], key);
      InsertStable(x, s[1..], key, v);
      InsertStablePast(x, s, key, v);
    } else {
      InsertStableFront(x, s, key, v);
    }
  }

  /** The step of `InsertStable` where `x` goes past the first element. */
  lemma InsertStablePast<T>(x: T, s: seq<T>, key: T -> int, v: int)
    requires s != [] && key(s[0]) <= key(x)
    requires KeyFilter(Insert(x, s[1..], key), key, v)
          == KeyFilter(s[1..], key, v) + (if key(x) == v then [x] else [])
    ensures KeyFilter(Insert(x, s, key), key, v)
         == KeyFilter(s, key, v) + (if key(x) == v then [x] else [])
  {
    var tail := s[1..];
    var r := Insert(x, tail, key);
    var h := if key(s[0]) == v then [s[0]] else [];
    var hx := if key(x) == v then [x] else [];
    assert Insert(x, s, key) == [s[0]] + r;
    KeyFilterCons(s[0], r, key, v);
    HeadTail(s);
    KeyFilterCons(s[0], tail, key, v);
    ConcatAssoc(h, KeyFilter(tail, key, v), hx);
  }

  /** The step of `InsertStable` where `x` goes in front. */
  lemma InsertStableFront<T>(x: T, s: seq<T>, key: T -> int, v: int)
    requires SortedBy(s, key)
    requires s != [] && key(s[0]) > key(x)
    ensures KeyFilter(Insert(x, s, key), key, v)
         == KeyFilter(s, key, v) + (if key(x) == v then [x] else [])
  {
    assert Insert(x, s, key) == [x] + s;
    KeyFilterCons(x, s, key, v);
    if key(x) == v {
      KeyFilterAbove(s, key, v);
      AppendEmpty([x]);
    } else {
      AppendEmpty(KeyFilter(s, key, v));
    }
  }

  /** `SortBy` is stable: elements with equal keys keep their order. */
  lemma {:induction false} SortByStable<T>(s: seq<T>, key: T -> int, v: int)
    ensures KeyFilter(SortBy(s, key), key, v) == KeyFilter(s, key, v)
  {
    if s != [] {
      var init, last := s[..|s| - 1], s[|s| - 1];
      var tailPart := if key(last) == v then [last] else [];
      calc {
        KeyFilter(SortBy(s, key), key, v);
        KeyFilter(Insert(last, SortBy(init, key), key), key, v);
        { SortBySorted(init, key); InsertStable(last, SortBy(init, key), key, v); }
        KeyFilter(SortBy(init, key), key, v) + tailPart;
        { SortByStable(init, key, v); }
        KeyFilter(init, key, v) + tailPart;
        { KeyFilterCons(last, [], key, v); AppendEmpty([last]); AppendEmpty(tailPart); }
        KeyFilter(init, key, v) + KeyFilter([last], key, v);
        { KeyFilterAppend(init, [last], key, v); }
        KeyFilter(init + [last], key, v);
        { InitLast(s); }
        KeyFilter(s, key, v);
      }
    }
  }

  /** Dropping the first element keeps a pairwise relation. */
  lemma PairwiseTail<T>(s: seq<T>, rel: (T, T) -> bool)
    requires s != [] && Pairwise(s, rel)
    ensures Pairwise(s[1..], rel)
    ensures forall y :: y in s[1..] ==> rel(s[0], y) && rel(y, s[0])
  {
    var tail := s[1..];
    forall i, j | 0 <= i < |tail| && 0 <= j < |tail| && i != j
      ensures rel(tail[i], tail[j])
    {
      assert tail[i] == s[i + 1] && tail[j] == s[j + 1];
    }
    forall y | y in tail ensures rel(s[0], y) && rel(y, s[0]) {
      var t :| 0 <= t < |tail| && tail[t] == y;
      assert s[t + 1] == y;
    }
  }

  /** Dropping the last element keeps a pairwise relation. */
  lemma PairwiseInit<T>(init: seq<T>, last: T, rel: (T, T) -> bool)
    requires Pairwise(init + [last], rel)
    ensures Pairwise(init, rel)
    ensures forall y :: y in init ==> rel(last, y) && rel(y, last)
  {
    var s := init + [last];
    forall i, j | 0 <= i < |init| && 0 <= j < |init| && i != j
      ensures rel(init[i], init[j])
    {
      assert init[i] == s[i] && init[j] == s[j];
    }
    forall y | y in init ensures rel(last, y) && rel(y, last) {
      var t :| 0 <= t < |init| && init[t] == y;
      assert s[t] == y && s[|init|] == last;
    }
  }

  /** An element related both ways to all of `t` can go in front of it. */
  lemma PairwiseCons<T>(y: T, t: seq<T>, rel: (T, T) -> bool)
    requires Pairwise(t, rel)
    requires forall z :: z in t ==> rel(y, z) && rel(z, y)
    ensures Pairwise([y] + t, rel)
  {
    var out := [y] + t;
    forall i, j | 0 <= i < |out| && 0 <= j < |out| && i != j
      ensures rel(out[i], out[j])
    {
      if i == 0 {
        assert out[j] == t[j - 1];
      } else if j == 0 {
        assert out[i] == t[i - 1];
      } else {
        assert out[i] == t[i - 1] && out[j] == t[j - 1];
      }
    }
  }

  lemma {:induction false} InsertPairwise<T>(x: T, s: seq<T>, key: T -> int, rel: (T, T) -> bool)
    requires Pairwise(s, rel)
    requires forall y :: y in s ==> rel(x, y) && rel(y, x)
    ensures Pairwise(Insert(x, s, key), rel)
  {
    if s == [] {
      PairwiseCons(x, s, rel);
    } else if key(s[0]) <= key(x) {
      var tail := s[1..];
      PairwiseTail(s, rel);
      InsertPairwise(x, tail, key, rel);
      var r := Insert(x, tail, key);
      forall z | z in r ensures rel(s[0], z) && rel(z, s[0]) {
        InsertMember(x, tail, key, z);
      }
      PairwiseCons(s[0], r, rel);
    } else {
      PairwiseCons(x, s, rel);
    }
  }

  /** Two pairwise-related sequences whose elements are related across join pairwise. */
  lemma PairwiseAppend<T>(a: seq<T>, b: seq<T>, rel: (T, T) -> bool)
    requires Pairwise(a, rel) && Pairwise(b, rel)
    requires forall i, j :: 0 <= i < |a| && 0 <= j < |b| ==> rel(a[i], b[j]) && rel(b[j], a[i])
    ensures Pairwise(a + b, rel)
  {
    var s := a + b;
    forall i, j | 0 <= i < |s| && 0 <= j < |s| && i != j ensures rel(s[i], s[j]) {
      if i < |a| && j < |a| {
        assert s[i] == a[i] && s[j] == a[j];
      } else if i < |a| {
        assert s[i] == a[i] && s[j] == b[j - |a|];
      } else if j < |a| {
        assert s[i] == b[i - |a|] && s[j] == a[j];
      } else {
        assert s[i] == b[i - |a|] && s[j] == b[j - |a|];
      }
    }
  }

  /** A relation that holds pairwise keeps holding pairwise after sorting. */
  lemma {:induction false} SortByPairwise<T>(s: seq<T>, key: T -> int, rel: (T, T) -> bool)
    requires Pairwise(s, rel)
    ensures Pairwise(SortBy(s, key), rel)
  {
    if s != [] {
      var init, last := s[..|s| - 1], s[|s| - 1];
      InitLast(s);
      PairwiseInit(init, last, rel);
      SortByPairwise(init, key, rel);
      var sorted := SortBy(init, key);
      forall y | y in sorted ensures rel(last, y) && rel(y, last) {
        SortByMember(init, key, y);
      }
      InsertPairwise(last, sorted, key, rel);
    }
  }

  /** Sorting keeps exactly the elements of the input. */
  lemma SortByMember<T>(s: seq<T>, key: T -> int, y: T)
    ensures y in SortBy(s, key) <==> y in s
  {
    var r := SortBy(s, key);
    SortByPermutes(s, key);
    assert y in r <==> y in multiset(r);
    assert y in s <==> y in multiset(s);
  }
}
