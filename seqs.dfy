/** Order-preserving filtering of sequences, the behaviour of JavaScript's
    `Array.prototype.filter`, and the facts about it the calendar relies on. */
module Seqs {

  /** The elements of `s` that satisfy `p`, in their original order. */
  function Filter<T(!new)>(s: seq<T>, p: T -> bool): (r: seq<T>)
    ensures |r| <= |s|
  {
    if s == [] then []
    else
      var rest := Filter(s[1..], p);
      if p(s[0]) then [s[0]] + rest else rest
  }

  /** The filtered sequence holds exactly the elements of `s` that satisfy `p`. */
  lemma {:induction false} FilterContains<T(!new)>(s: seq<T>, p: T -> bool)
    ensures forall x :: x in Filter(s, p) <==> x in s && p(x)
  {
    if s != [] {
      FilterContains(s[1..], p);
      assert s == [s[0]] + s[1..];
    }
  }

  /** `idx` picks the elements of `r` out of `s` at strictly increasing positions. */
  ghost predicate IsEmbedding<T>(idx: seq<nat>, r: seq<T>, s: seq<T>) {
    && |idx| == |r|
    && (forall k :: 0 <= k < |idx| ==> idx[k] < |s| && r[k] == s[idx[k]])
    && (forall k, l :: 0 <= k < l < |idx| ==> idx[k] < idx[l])
  }

  /** `r` is `s` with some elements dropped and the rest kept in order. */
  ghost predicate IsSubsequence<T>(r: seq<T>, s: seq<T>) {
    exists idx: seq<nat> :: IsEmbedding(idx, r, s)
  }

  /** Positions `idx` into `s`, each moved one place right. */
  function Shifted(idx: seq<nat>): (r: seq<nat>)
    ensures |r| == |idx| && forall k :: 0 <= k < |idx| ==> r[k] == idx[k] + 1
  {
    seq(|idx|, k requires 0 <= k < |idx| => idx[k] + 1)
  }

  /** An embedding into `s` is, shifted, one into `s` with an element in front. */
  lemma ShiftedEmbedding<T>(idx: seq<nat>, r: seq<T>, s: seq<T>, x: T)
    requires IsEmbedding(idx, r, s)
    ensures IsEmbedding(Shifted(idx), r, [x] + s)
  {
  }

  /** Putting the same element in front of both sides preserves an embedding. */
  lemma ConsEmbedding<T>(idx: seq<nat>, r: seq<T>, s: seq<T>, x: T)
    requires IsEmbedding(idx, r, s)
    ensures IsEmbedding([0] + Shifted(idx), [x] + r, [x] + s)
  {
    ShiftedEmbedding(idx, r, s, x);
  }

  /** The filtered sequence keeps the relative order of the original. */
  lemma {:induction false} FilterIsSubsequence<T(!new)>(s: seq<T>, p: T -> bool)
    ensures IsSubsequence(Filter(s, p), s)
  {
    if s == [] {
      assert IsEmbedding([], Filter(s, p), s);
    } else {
      var rest := Filter(s[1..], p);
      FilterIsSubsequence(s[1..], p);
      var idx :| IsEmbedding(idx, rest, s[1..]);
      assert [s[0]] + s[1..] == s;
      if p(s[0]) {
        ConsEmbedding(idx, rest, s[1..], s[0]);
        assert IsEmbedding([0] + Shifted(idx), Filter(s, p), s);
      } else {
        ShiftedEmbedding(idx, rest, s[1..], s[0]);
        assert IsEmbedding(Shifted(idx), Filter(s, p), s);
      }
    }
  }

  /** Every occurrence of an element that satisfies `p` is kept, none other is. */
  lemma {:induction false} FilterCount<T(!new)>(s: seq<T>, p: T -> bool, x: T)
    ensures multiset(Filter(s, p))[x] == if p(x) then multiset(s)[x] else 0
  {
    if s != [] {
      FilterCount(s[1..], p, x);
      assert s == [s[0]] + s[1..];
    }
  }

  /** Filtering a sequence with `x` in front. */
  lemma FilterCons<T(!new)>(x: T, s: seq<T>, p: T -> bool)
    ensures Filter([x] + s, p) == (if p(x) then [x] else []) + Filter(s, p)
  {
    assert ([x] + s)[0] == x && ([x] + s)[1..] == s;
  }

  /** Filtering distributes over concatenation. */
  lemma {:induction false} FilterConcat<T(!new)>(a: seq<T>, b: seq<T>, p: T -> bool)
    ensures Filter(a + b, p) == Filter(a, p) + Filter(b, p)
  {
    if a == [] {
      assert a + b == b;
    } else {
      var x, rest := a[0], a[1..];
      assert a == [x] + rest && a + b == [x] + (rest + b);
      FilterConcat(rest, b, p);
      FilterCons(x, rest + b, p);
      FilterCons(x, rest, p);
    }
  }

  /** Filtering by a test every element passes changes nothing. */
  lemma {:induction false} FilterAllPass<T(!new)>(s: seq<T>, p: T -> bool)
    requires forall x :: x in s ==> p(x)
    ensures Filter(s, p) == s
  {
    if s != [] {
      FilterAllPass(s[1..], p);
    }
  }
}
