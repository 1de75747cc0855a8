/**
 * The count / sort-descending / take-five pipeline the dashboard uses for its
 * popular-models and common-issues charts: an object counting each key, its
 * entries in insertion order, a stable sort by count from high to low, and
 * the first five entries.
 */
module Ranking {
  import opened Wrappers
  import opened Seqs

  datatype Entry = Entry(key: string, count: int)

  // ----- reference definition of the tally -----

  /** The distinct keys in order of first occurrence: the order an object's string keys are created in. */
  function Distincts(keys: seq<string>): (u: seq<string>)
    ensures Distinct(u)
    ensures forall x :: x in u <==> x in keys
    decreases |keys|
  {
    if |keys| == 0 then []
    else
      var pre := Distincts(keys[..|keys| - 1]);
      var k := keys[|keys| - 1];
      assert keys == keys[..|keys| - 1] + [k];
      if k in pre then pre else pre + [k]
  }

  /** Each distinct key, in order of first occurrence, with the number of times it occurs. */
  function Counted(keys: seq<string>): (r: seq<Entry>)
    ensures |r| == |Distincts(keys)|
    ensures forall i :: 0 <= i < |r| ==> r[i] == Entry(Distincts(keys)[i], multiset(keys)[Distincts(keys)[i]])
  {
    var u := Distincts(keys);
    seq(|u|, i requires 0 <= i < |u| => Entry(u[i], multiset(keys)[u[i]]))
  }

  ghost predicate DistinctKeys(es: seq<Entry>) {
    forall i, j :: 0 <= i < j < |es| ==> es[i].key != es[j].key
  }

  /** What the reference tally promises: one entry per key that occurs, holding its number of occurrences. */
  lemma CountedFacts(keys: seq<string>)
    ensures DistinctKeys(Counted(keys))
    ensures forall i :: 0 <= i < |Counted(keys)| ==>
      Counted(keys)[i].key in keys && Counted(keys)[i].count == multiset(keys)[Counted(keys)[i].key] >= 1
    ensures forall k :: k in keys ==> exists i :: 0 <= i < |Counted(keys)| && Counted(keys)[i].key == k
  {
    var u := Distincts(keys);
    forall i | 0 <= i < |Counted(keys)|
      ensures Counted(keys)[i].key in keys && Counted(keys)[i].count == multiset(keys)[Counted(keys)[i].key] >= 1
    {
      assert Counted(keys)[i].key == u[i] && u[i] in keys;
      assert u[i] in multiset(keys);
    }
    forall k | k in keys
      ensures exists i :: 0 <= i < |Counted(keys)| && Counted(keys)[i].key == k
    {
      var i :| 0 <= i < |u| && u[i] == k;
      assert Counted(keys)[i].key == k;
    }
  }

  // ----- the accumulating loop -----

  function KeyIs(k: string): Entry -> bool { (e: Entry) => e.key == k }

  /** `counts[k] = (counts[k] || 0) + 1` on the object's entries. */
  function Bump(es: seq<Entry>, k: string): seq<Entry> {
    match FirstIndex(es, KeyIs(k))
    case None => es + [Entry(k, 1)]
    case Some(i) => es[i := es[i].(count := es[i].count + 1)]
  }

  /** One more key counted into the reference tally gives the reference tally of the longer list. */
  lemma BumpCounted(keys: seq<string>, k: string)
    ensures Bump(Counted(keys), k) == Counted(keys + [k])
  {
    DistinctsSnoc(keys, k);
    if k in Distincts(keys) {
      BumpKnown(keys, k);
    } else {
      BumpNew(keys, k);
    }
  }

  /** One more occurrence of `k` adds one to its count and nothing to any other key's. */
  lemma MultisetSnoc(keys: seq<string>, k: string, x: string)
    ensures multiset(keys + [k])[x] == multiset(keys)[x] + (if x == k then 1 else 0)
  {
    assert multiset(keys + [k]) == multiset(keys) + multiset{k};
  }

  /** A key already tallied: its entry is found in place and counts one more. */
  lemma BumpKnown(keys: seq<string>, k: string)
    requires k in Distincts(keys)
    requires Distincts(keys + [k]) == Distincts(keys)
    ensures Bump(Counted(keys), k) == Counted(keys + [k])
  {
    var es, u := Counted(keys), Distincts(keys);
    var j :| 0 <= j < |u| && u[j] == k;
    assert KeyIs(k)(es[j]);
    var i := FirstIndex(es, KeyIs(k)).value;
    assert u[i] == k;
    assert i == j;
    var b, c := Bump(es, k), Counted(keys + [k]);
    forall m | 0 <= m < |b|
      ensures b[m] == c[m]
    {
      MultisetSnoc(keys, k, u[m]);
    }
  }

  /** A key not yet tallied: a new entry counting one goes at the end. */
  lemma BumpNew(keys: seq<string>, k: string)
    requires k !in Distincts(keys)
    requires Distincts(keys + [k]) == Distincts(keys) + [k]
    ensures Bump(Counted(keys), k) == Counted(keys + [k])
  {
    var es, u := Counted(keys), Distincts(keys);
    assert FirstIndex(es, KeyIs(k)).None?;
    var b, c := Bump(es, k), Counted(keys + [k]);
    forall m | 0 <= m < |b|
      ensures b[m] == c[m]
    {
      MultisetSnoc(keys, k, c[m].key);
    }
  }

  lemma DistinctsSnoc(keys: seq<string>, k: string)
    ensures Distincts(keys + [k]) == if k in Distincts(keys) then Distincts(keys) else Distincts(keys) + [k]
  {
    assert (keys + [k])[..|keys|] == keys;
  }

  /** The dashboard's `forEach` that fills the counting object, one key at a time. */
  method Tally(keys: seq<string>) returns (r: seq<Entry>)
    ensures r == Counted(keys)
    ensures DistinctKeys(r)
    ensures forall i :: 0 <= i < |r| ==> r[i].key in keys && r[i].count == multiset(keys)[r[i].key] >= 1
    ensures forall k :: k in keys ==> exists i :: 0 <= i < |r| && r[i].key == k
  {
    r := [];
    var n := 0;
    while n < |keys|
      invariant 0 <= n <= |keys|
      invariant r == Counted(keys[..n])
    {
      BumpCounted(keys[..n], keys[n]);
      assert keys[..n + 1] == keys[..n] + [keys[n]];
      r := Bump(r, keys[n]);
      n := n + 1;
    }
    assert keys[..n] == keys;
    CountedFacts(keys);
  }

  // ----- stable sort by count, high to low -----

  ghost predicate NonIncreasing(es: seq<Entry>) {
    forall i, j :: 0 <= i < j < |es| ==> es[i].count >= es[j].count
  }

  /** The number of leading entries that count at least as much as `x`: where a stable insert puts `x`. */
  function InsertPos(es: seq<Entry>, x: Entry): (k: nat)
    ensures k <= |es|
    ensures forall i :: 0 <= i < k ==> es[i].count >= x.count
    ensures k < |es| ==> es[k].count < x.count
    decreases |es|
  {
    if |es| == 0 then 0
    else if es[0].count >= x.count then 1 + InsertPos(es[1..], x)
    else 0
  }

  /** Puts `x` after every entry counting at least as much, keeping a sorted list sorted. */
  function Insert(es: seq<Entry>, x: Entry): (r: seq<Entry>)
    requires NonIncreasing(es)
    ensures |r| == |es| + 1
    ensures NonIncreasing(r)
    ensures multiset(r) == multiset(es) + multiset{x}
  {
    var k := InsertPos(es, x);
    var r := es[..k] + [x] + es[k..];
    InsertSorted(es, x);
    assert es == es[..k] + es[k..];
    r
  }

  /** Where each entry lands in the inserted list. */
  lemma InsertShape(es: seq<Entry>, x: Entry)
    ensures var k := InsertPos(es, x); var r := es[..k] + [x] + es[k..];
      && |r| == |es| + 1
      && (forall i :: 0 <= i < k ==> r[i] == es[i])
      && r[k] == x
      && (forall i :: k < i < |r| ==> r[i] == es[i - 1])
  {
    var k := InsertPos(es, x);
    var r := es[..k] + [x] + es[k..];
    forall i | 0 <= i < k
      ensures r[i] == es[i]
    {
    }
    forall i | k < i < |r|
      ensures r[i] == es[i - 1]
    {
    }
  }

  /** Inserting at the insertion point keeps a sorted list sorted. */
  lemma InsertSorted(es: seq<Entry>, x: Entry)
    requires NonIncreasing(es)
    ensures var k := InsertPos(es, x); NonIncreasing(es[..k] + [x] + es[k..])
  {
    var k := InsertPos(es, x);
    var r := es[..k] + [x] + es[k..];
    InsertShape(es, x);
    forall i, j | 0 <= i < j < |r|
      ensures r[i].count >= r[j].count
    {
      if j < k {
        assert r[i] == es[i] && r[j] == es[j];
      } else if j == k {
        assert r[i] == es[i];
      } else if i < k {
        assert r[i] == es[i] && r[j] == es[j - 1];
      } else if i == k {
        assert r[j] == es[j - 1];
        assert es[j - 1].count <= es[k].count;
      } else {
        assert r[i] == es[i - 1] && r[j] == es[j - 1];
      }
    }
  }

  /** `Array.prototype.sort` with `(a, b) => b.count - a.count`, which is stable. */
  function SortDesc(es: seq<Entry>): (r: seq<Entry>)
    ensures NonIncreasing(r)
    ensures multiset(r) == multiset(es) && |r| == |es|
    ensures forall e :: e in r <==> e in es
    ensures DistinctKeys(es) ==> DistinctKeys(r)
    decreases |es|
  {
    if |es| == 0 then []
    else
      var init := es[..|es| - 1];
      var last := es[|es| - 1];
      assert es == init + [last];
      var sorted := SortDesc(init);
      var r := Insert(sorted, last);
      assert |r| == |multiset(r)|;
      assert forall e :: e in r <==> e in multiset(r);
      DistinctKeysStep(init, last, sorted);
      r
  }

  lemma DistinctKeysStep(init: seq<Entry>, last: Entry, sorted: seq<Entry>)
    requires NonIncreasing(sorted)
    requires forall e :: e in sorted <==> e in init
    requires DistinctKeys(init) ==> DistinctKeys(sorted)
    ensures DistinctKeys(init + [last]) ==> DistinctKeys(Insert(sorted, last))
  {
    if DistinctKeys(init + [last]) {
      var es := init + [last];
      assert init == es[..|init|];
      forall i | 0 <= i < |sorted|
        ensures sorted[i].key != last.key
      {
        assert sorted[i] in init;
        var j :| 0 <= j < |init| && init[j] == sorted[i];
        assert es[j] == init[j] && es[|init|] == last;
      }
      DistinctKeysInsert(sorted, last);
    }
  }

  lemma DistinctKeysInsert(sorted: seq<Entry>, x: Entry)
    requires NonIncreasing(sorted) && DistinctKeys(sorted)
    requires forall i :: 0 <= i < |sorted| ==> sorted[i].key != x.key
    ensures DistinctKeys(Insert(sorted, x))
  {
    var r := Insert(sorted, x);
    var k := InsertPos(sorted, x);
    InsertShape(sorted, x);
    forall i, j | 0 <= i < j < |r|
      ensures r[i].key != r[j].key
    {
      if i < k && j < k {
        assert r[i] == sorted[i] && r[j] == sorted[j];
      } else if i < k && j == k {
        assert r[i] == sorted[i];
      } else if i < k {
        assert r[i] == sorted[i] && r[j] == sorted[j - 1];
      } else if i == k {
        assert r[j] == sorted[j - 1];
      } else {
        assert r[i] == sorted[i - 1] && r[j] == sorted[j - 1];
      }
    }
  }

  function CountIs(c: int): Entry -> bool { (e: Entry) => e.count == c }

  /** Entries with equal counts keep their relative order through the sort. */
  lemma {:induction false} SortStable(es: seq<Entry>, c: int)
    ensures Filter(SortDesc(es), CountIs(c)) == Filter(es, CountIs(c))
    decreases |es|
  {
    if |es| > 0 {
      var init := es[..|es| - 1];
      var last := es[|es| - 1];
      assert es == init + [last];
      SortStable(init, c);
      InsertStable(SortDesc(init), last, c);
      FilterSnoc(init, last, CountIs(c));
    }
  }

  /** Inserting `x` adds it to the entries of its own count after all of them, and changes no other count's entries. */
  lemma InsertStable(sorted: seq<Entry>, x: Entry, c: int)
    requires NonIncreasing(sorted)
    ensures Filter(Insert(sorted, x), CountIs(c)) == Filter(sorted, CountIs(c)) + (if x.count == c then [x] else [])
  {
    BackBelow(sorted, x);
    SpliceAt(sorted, InsertPos(sorted, x), x, c);
  }

  /** Splicing `x` in at `k`, ahead of entries that all count less, adds it last among the entries of its count. */
  lemma SpliceAt(es: seq<Entry>, k: nat, x: Entry, c: int)
    requires k <= |es|
    requires forall i :: k <= i < |es| ==> es[i].count < x.count
    ensures Filter(es[..k] + [x] + es[k..], CountIs(c)) == Filter(es, CountIs(c)) + (if x.count == c then [x] else [])
  {
    FilterSplice(es[..k], x, es[k..], CountIs(c));
    FilterSplit(es, k, CountIs(c));
    if x.count == c {
      NoneAfter(es, k, x);
      SpliceOwn(Filter(es[..k], CountIs(c)), x, Filter(es[k..], CountIs(c)));
    } else {
      SpliceOther(Filter(es[..k], CountIs(c)), Filter(es[k..], CountIs(c)));
    }
  }

  /** None of the entries after `k` has the count of `x`. */
  lemma NoneAfter(es: seq<Entry>, k: nat, x: Entry)
    requires k <= |es|
    requires forall i :: k <= i < |es| ==> es[i].count < x.count
    ensures Filter(es[k..], CountIs(x.count)) == []
  {
    forall i | 0 <= i < |es[k..]|
      ensures !CountIs(x.count)(es[k..][i])
    {
      assert es[k..][i] == es[k + i];
    }
    FilterNone(es[k..], CountIs(x.count));
  }

  lemma SpliceOwn(f: seq<Entry>, x: Entry, b: seq<Entry>)
    requires b == []
    ensures f + [x] + b == (f + b) + [x]
  {
  }

  lemma SpliceOther(f: seq<Entry>, b: seq<Entry>)
    ensures f + [] + b == (f + b) + []
  {
  }

  /** No entry after the insertion point counts as much as `x`. */
  lemma BackBelow(sorted: seq<Entry>, x: Entry)
    requires NonIncreasing(sorted)
    ensures forall i :: InsertPos(sorted, x) <= i < |sorted| ==> sorted[i].count < x.count
  {
    var k := InsertPos(sorted, x);
    forall i | k <= i < |sorted|
      ensures sorted[i].count < x.count
    {
      assert sorted[i].count <= sorted[k].count;
    }
  }

  // ----- the top five -----

  /** `.slice(0, n)`. */
  function Take(es: seq<Entry>, n: nat): (r: seq<Entry>)
    ensures |r| == if |es| < n then |es| else n
    ensures r == es[..|r|]
  {
    if |es| < n then es else es[..n]
  }

  /** The chart data before labels are added: the five most frequent keys. */
  function Rank(keys: seq<string>): seq<Entry> {
    Take(SortDesc(Counted(keys)), 5)
  }

  /**
   * The ranked entries: as many as there are distinct keys, but at most
   * five; distinct keys; counts from high to low; each the number of
   * occurrences of its key.
   */
  lemma RankEntries(keys: seq<string>)
    ensures var r := Rank(keys);
      && |r| == (if |Distincts(keys)| < 5 then |Distincts(keys)| else 5)
      && DistinctKeys(r)
      && NonIncreasing(r)
      && (forall i :: 0 <= i < |r| ==> r[i].key in keys && r[i].count == multiset(keys)[r[i].key] >= 1)
  {
    var es := Counted(keys);
    CountedFacts(keys);
    var sorted := SortDesc(es);
    TakeKeeps(sorted, 5);
    var r := Rank(keys);
    forall i | 0 <= i < |r|
      ensures r[i].key in keys && r[i].count == multiset(keys)[r[i].key] >= 1
    {
      assert r[i] == sorted[i];
      assert sorted[i] in es;
    }
  }

  /** A prefix keeps the entries it takes, and with them distinct keys and the order by count. */
  lemma TakeKeeps(es: seq<Entry>, n: nat)
    ensures forall i :: 0 <= i < |Take(es, n)| ==> Take(es, n)[i] == es[i]
    ensures DistinctKeys(es) ==> DistinctKeys(Take(es, n))
    ensures NonIncreasing(es) ==> NonIncreasing(Take(es, n))
  {
  }

  /**
   * A key that occurs but is not ranked is left out only because five keys
   * were ranked, none of them counting less than it.
   */
  lemma RankDominates(keys: seq<string>, k: string)
    requires k in keys
    requires forall i :: 0 <= i < |Rank(keys)| ==> Rank(keys)[i].key != k
    ensures |Rank(keys)| == 5
    ensures forall i :: 0 <= i < 5 ==> multiset(keys)[k] <= Rank(keys)[i].count
  {
    var u := Distincts(keys);
    var es := Counted(keys);
    var sorted := SortDesc(es);
    var r := Rank(keys);
    var a :| 0 <= a < |u| && u[a] == k;
    var e := es[a];
    assert e.key == k && e.count == multiset(keys)[k];
    assert e in sorted;
    var p :| 0 <= p < |sorted| && sorted[p] == e;
    assert r == sorted[..|r|];
    forall i | 0 <= i < |r|
      ensures r[i] != e
    {
      assert r[i].key != k;
    }
    assert e !in r;
    assert |r| <= p < |sorted|;
    assert |r| == 5;
    forall i | 0 <= i < 5
      ensures multiset(keys)[k] <= r[i].count
    {
      assert r[i] == sorted[i];
      assert sorted[i].count >= sorted[p].count;
    }
  }
}
