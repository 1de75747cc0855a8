/**
 * Generic sequence operations shared by the two storage backends and the
 * pages: `Array.prototype.filter`, `map` with a per-record merge, `find`, and
 * `reduce` with `+`, each with the contract that pins down its meaning.
 */
module Seqs {
  import opened Wrappers

  /** `idx` lists positions of `s` in strictly increasing order and `r` is `s` read at them. */
  ghost predicate EmbedsAt<T>(r: seq<T>, s: seq<T>, idx: seq<nat>) {
    && |idx| == |r|
    && (forall k :: 0 <= k < |idx| ==> idx[k] < |s| && r[k] == s[idx[k]])
    && (forall k, l :: 0 <= k < l < |idx| ==> idx[k] < idx[l])
  }

  /** `r` is obtained from `s` by deleting elements, keeping the rest in order. */
  ghost predicate Subsequence<T>(r: seq<T>, s: seq<T>) {
    exists idx :: EmbedsAt(r, s, idx)
  }

  /**
   * `r` keeps exactly the elements of `s` that satisfy `p`, every occurrence of
   * them, and nothing else, in their original order.
   */
  ghost predicate Keeps<T(!new)>(s: seq<T>, r: seq<T>, p: T -> bool) {
    && Subsequence(r, s)
    && (forall x :: multiset(r)[x] == if p(x) then multiset(s)[x] else 0)
  }

  lemma SubsequenceSnoc<T>(r: seq<T>, s: seq<T>, x: T)
    requires Subsequence(r, s)
    ensures Subsequence(r, s + [x])
    ensures Subsequence(r + [x], s + [x])
  {
    var idx: seq<nat> :| EmbedsAt(r, s, idx);
    assert EmbedsAt(r, s + [x], idx);
    var idx': seq<nat> := idx + [|s|];
    assert EmbedsAt(r + [x], s + [x], idx');
  }

  lemma SubsequenceTrans<T>(a: seq<T>, b: seq<T>, c: seq<T>)
    requires Subsequence(a, b) && Subsequence(b, c)
    ensures Subsequence(a, c)
  {
    var i: seq<nat> :| EmbedsAt(a, b, i);
    var j: seq<nat> :| EmbedsAt(b, c, j);
    var ij: seq<nat> := seq(|i|, k requires 0 <= k < |i| => j[i[k]]);
    assert EmbedsAt(a, c, ij);
  }

  /** `Array.prototype.filter`: the elements satisfying `p`, in order. */
  function Filter<T(!new)>(s: seq<T>, p: T -> bool): (r: seq<T>)
    ensures forall x :: x in r <==> x in s && p(x)
    ensures |r| <= |s|
    decreases |s|
  {
    if |s| == 0 then []
    else
      var init := s[..|s| - 1];
      var last := s[|s| - 1];
      assert s == init + [last];
      var pre := Filter(init, p);
      if p(last) then pre + [last] else pre
  }

  /** The filtered list keeps exactly the elements satisfying `p`, each as often as before, in order. */
  lemma {:induction false} FilterKeeps<T(!new)>(s: seq<T>, p: T -> bool)
    ensures Keeps(s, Filter(s, p), p)
    decreases |s|
  {
    if |s| == 0 {
      var none: seq<nat> := [];
      assert EmbedsAt([], s, none);
    } else {
      var init := s[..|s| - 1];
      var last := s[|s| - 1];
      assert s == init + [last];
      FilterKeeps(init, p);
      SubsequenceSnoc(Filter(init, p), init, last);
    }
  }

  /** Filtering a filtered list by a narrower predicate is filtering by that predicate. */
  lemma {:induction false} FilterNarrow<T(!new)>(s: seq<T>, p: T -> bool, q: T -> bool)
    requires forall x :: p(x) ==> q(x)
    ensures Filter(Filter(s, q), p) == Filter(s, p)
    decreases |s|
  {
    if |s| > 0 {
      var init := s[..|s| - 1];
      var last := s[|s| - 1];
      FilterNarrow(init, p, q);
      if q(last) {
        assert Filter(s, q) == Filter(init, q) + [last];
        var fq := Filter(s, q);
        assert fq[..|fq| - 1] == Filter(init, q);
      }
    }
  }

  /** Filtering a list with one element put in front filters that element on its own. */
  lemma {:induction false} FilterCons<T(!new)>(x: T, s: seq<T>, p: T -> bool)
    ensures Filter([x] + s, p) == (if p(x) then [x] else []) + Filter(s, p)
    decreases |s|
  {
    if |s| == 0 {
      assert [x] + s == [] + [x];
      FilterSnoc([], x, p);
    } else {
      var init := s[..|s| - 1];
      var last := s[|s| - 1];
      assert [x] + s == ([x] + init) + [last];
      assert s == init + [last];
      FilterCons(x, init, p);
      FilterSnoc([x] + init, last, p);
      FilterSnoc(init, last, p);
    }
  }

  lemma FilterSnoc<T(!new)>(s: seq<T>, y: T, p: T -> bool)
    ensures Filter(s + [y], p) == Filter(s, p) + (if p(y) then [y] else [])
  {
    assert (s + [y])[..|s|] == s;
  }

  /** Filtering a concatenation filters each part. */
  lemma {:induction false} FilterAppend<T(!new)>(a: seq<T>, b: seq<T>, p: T -> bool)
    ensures Filter(a + b, p) == Filter(a, p) + Filter(b, p)
    decreases |b|
  {
    if |b| == 0 {
      assert a + b == a;
    } else {
      var init := b[..|b| - 1];
      var last := b[|b| - 1];
      assert a + b == (a + init) + [last];
      assert b == init + [last];
      FilterAppend(a, init, p);
      FilterSnoc(a + init, last, p);
      FilterSnoc(init, last, p);
    }
  }

  /** Filtering a list cut at `k` filters each piece. */
  lemma {:induction false} FilterSplit<T(!new)>(s: seq<T>, k: nat, p: T -> bool)
    requires k <= |s|
    ensures Filter(s, p) == Filter(s[..k], p) + Filter(s[k..], p)
  {
    TakeDrop(s, k);
    FilterAppend(s[..k], s[k..], p);
  }

  lemma TakeDrop<T>(s: seq<T>, k: nat)
    requires k <= |s|
    ensures s[..k] + s[k..] == s
  {
  }

  /** Filtering a list with one element spliced in filters that element on its own. */
  lemma FilterSplice<T(!new)>(a: seq<T>, x: T, b: seq<T>, p: T -> bool)
    ensures Filter(a + [x] + b, p) == Filter(a, p) + (if p(x) then [x] else []) + Filter(b, p)
  {
    FilterAppend(a + [x], b, p);
    FilterSnoc(a, x, p);
  }

  /** A predicate that holds nowhere filters everything out. */
  lemma FilterNone<T(!new)>(s: seq<T>, p: T -> bool)
    requires forall i :: 0 <= i < |s| ==> !p(s[i])
    ensures Filter(s, p) == []
  {
  }

  /** A predicate that holds everywhere filters nothing out. */
  lemma {:induction false} FilterAll<T(!new)>(s: seq<T>, p: T -> bool)
    requires forall i :: 0 <= i < |s| ==> p(s[i])
    ensures Filter(s, p) == s
    decreases |s|
  {
    if |s| > 0 {
      FilterAll(s[..|s| - 1], p);
      assert s == s[..|s| - 1] + [s[|s| - 1]];
    }
  }

  /** `s.map(x => p(x) ? f(x) : x)`: records hit by `p` are merged, the rest are kept. */
  function MapWhere<T>(s: seq<T>, p: T -> bool, f: T -> T): (r: seq<T>)
  {
    seq(|s|, i requires 0 <= i < |s| => if p(s[i]) then f(s[i]) else s[i])
  }

  /** The index `i` is the first position of `s` whose element satisfies `p`. */
  ghost predicate FirstHitAt<T>(s: seq<T>, p: T -> bool, i: int) {
    0 <= i < |s| && p(s[i]) && forall j :: 0 <= j < i ==> !p(s[j])
  }

  /** The position that `Array.prototype.find` stops at, if any. */
  function FirstIndex<T>(s: seq<T>, p: T -> bool): (r: Option<nat>)
    ensures r.None? <==> forall i :: 0 <= i < |s| ==> !p(s[i])
    ensures r.Some? ==> FirstHitAt(s, p, r.value)
    decreases |s|
  {
    if |s| == 0 then None
    else if p(s[0]) then Some(0)
    else
      match FirstIndex(s[1..], p)
      case None => None
      case Some(i) => Some(i + 1)
  }

  /** `Array.prototype.find`: the first element satisfying `p`, or nothing. */
  function Find<T>(s: seq<T>, p: T -> bool): (r: Option<T>)
    ensures r.None? <==> forall i :: 0 <= i < |s| ==> !p(s[i])
    ensures r.Some? ==> exists i :: FirstHitAt(s, p, i) && r.value == s[i]
  {
    match FirstIndex(s, p)
    case None => None
    case Some(i) => Some(s[i])
  }

  /**
   * Finding in a merged list: when merging never changes whether `p` holds,
   * `find` on the merged list returns the merge of the first hit of the
   * original list.
   */
  lemma FindMerged<T(!new)>(s: seq<T>, p: T -> bool, f: T -> T)
    ensures (forall x :: p(x) ==> p(f(x))) ==>
      Find(MapWhere(s, p, f), p) == match Find(s, p) { case None => None case Some(x) => Some(f(x)) }
  {
    if forall x :: p(x) ==> p(f(x)) {
      var m := MapWhere(s, p, f);
      assert forall i :: 0 <= i < |s| ==> (p(m[i]) <==> p(s[i]));
      match FirstIndex(s, p)
      case None =>
      case Some(i) =>
        assert FirstHitAt(m, p, i);
    }
  }

  /**
   * `const r = s.map(x => p(x) ? f(x) : x); return r.find(p) || null`: the
   * list update used for every record kind. When the merge keeps `p` true the
   * returned record is the merge of the first hit.
   */
  function UpdateAll<T(!new)>(s: seq<T>, p: T -> bool, f: T -> T): (r: (seq<T>, Option<T>))
    ensures |r.0| == |s|
    ensures forall i :: 0 <= i < |s| ==> r.0[i] == if p(s[i]) then f(s[i]) else s[i]
    ensures (forall x :: p(x) ==> p(f(x))) ==>
      && (r.1.None? <==> forall i :: 0 <= i < |s| ==> !p(s[i]))
      && (r.1.Some? ==> exists i :: FirstHitAt(s, p, i) && r.1.value == f(s[i]))
  {
    var m := MapWhere(s, p, f);
    FindMerged(s, p, f);
    (m, Find(m, p))
  }

  /** `s.map(f)`. */
  function Mapped<T, K>(s: seq<T>, f: T -> K): (r: seq<K>)
    ensures |r| == |s| && forall i :: 0 <= i < |s| ==> r[i] == f(s[i])
  {
    seq(|s|, i requires 0 <= i < |s| => f(s[i]))
  }

  /** How often `k` occurs among the images is how many elements map to it. */
  lemma {:induction false} OccurrencesMapped<T(!new), K>(s: seq<T>, f: T -> K, k: K, p: T -> bool)
    requires forall x :: p(x) <==> f(x) == k
    ensures multiset(Mapped(s, f))[k] == |Filter(s, p)|
    decreases |s|
  {
    if |s| > 0 {
      var init := s[..|s| - 1];
      var last := s[|s| - 1];
      assert s == init + [last];
      assert Mapped(s, f) == Mapped(init, f) + [f(last)];
      OccurrencesMapped(init, f, k, p);
      FilterSnoc(init, last, p);
    }
  }

  /** `s.reduce((sum, x) => sum + f(x), 0)`. */
  function SumOf<T>(s: seq<T>, f: T -> int): int
    decreases |s|
  {
    if |s| == 0 then 0 else SumOf(s[..|s| - 1], f) + f(s[|s| - 1])
  }

  lemma {:induction false} SumOfAppend<T>(a: seq<T>, b: seq<T>, f: T -> int)
    ensures SumOf(a + b, f) == SumOf(a, f) + SumOf(b, f)
    decreases |b|
  {
    if |b| == 0 {
      assert a + b == a;
    } else {
      var ab := a + b;
      assert ab[..|ab| - 1] == a + b[..|b| - 1];
      assert ab[|ab| - 1] == b[|b| - 1];
      SumOfAppend(a, b[..|b| - 1], f);
    }
  }

  /** Summing over the filtered list is summing over every element with the others counted as zero. */
  lemma {:induction false} SumOfFilter<T(!new)>(s: seq<T>, p: T -> bool, f: T -> int)
    ensures SumOf(Filter(s, p), f) == SumOf(s, x => if p(x) then f(x) else 0)
    decreases |s|
  {
    if |s| > 0 {
      var init := s[..|s| - 1];
      var last := s[|s| - 1];
      SumOfFilter(init, p, f);
      if p(last) {
        var r := Filter(s, p);
        assert r == Filter(init, p) + [last];
        assert r[..|r| - 1] == Filter(init, p);
      }
    }
  }

  /** A sum of non-negative terms over a subsequence does not exceed the sum over the whole. */
  lemma {:induction false} SumOfFilterLe<T(!new)>(s: seq<T>, p: T -> bool, f: T -> int)
    requires forall i :: 0 <= i < |s| ==> f(s[i]) >= 0
    ensures SumOf(Filter(s, p), f) <= SumOf(s, f)
    decreases |s|
  {
    SumOfFilter(s, p, f);
    MaskedSumLe(s, p, f);
  }

  lemma {:induction false} MaskedSumLe<T>(s: seq<T>, p: T -> bool, f: T -> int)
    requires forall i :: 0 <= i < |s| ==> f(s[i]) >= 0
    ensures SumOf(s, x => if p(x) then f(x) else 0) <= SumOf(s, f)
    decreases |s|
  {
    if |s| > 0 {
      MaskedSumLe(s[..|s| - 1], p, f);
    }
  }

  /** No value occurs twice. */
  ghost predicate Distinct<T>(s: seq<T>) {
    forall i, j :: 0 <= i < j < |s| ==> s[i] != s[j]
  }
}
