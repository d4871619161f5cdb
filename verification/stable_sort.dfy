/**
 * The stable descending sort the source uses twice: `sorted(zip(scores, docs),
 * key=lambda x: x[0], reverse=True)` in the reranker and
 * `results.sort(key=lambda x: x["score"], reverse=True)` in the local vector
 * search. Python's sort is stable also with `reverse=True`, so the result is
 * the input ordered by score, highest first, with equal scores left in input
 * order. Each element is tagged with its input position, which makes
 * "stable" a statement about the result.
 */
module StableSort {
  import opened PyText

  /** An element, its sort key and its position in the input. */
  datatype Keyed<T> = Keyed(score: real, pos: nat, item: T)

  /** `a` may come before `b`: a higher score, or an equal score and an earlier input position. */
  predicate Precedes<T>(a: Keyed<T>, b: Keyed<T>) {
    a.score > b.score || (a.score == b.score && a.pos <= b.pos)
  }

  /** Scores never increase along `s`, and equal scores keep input order. */
  predicate Ordered<T>(s: seq<Keyed<T>>) {
    forall i, j :: 0 <= i < j < |s| ==> Precedes(s[i], s[j])
  }

  /** The payloads of `s`, in order. */
  function Items<T>(s: seq<Keyed<T>>): (r: seq<T>)
    ensures |r| == |s|
    ensures forall i :: 0 <= i < |s| ==> r[i] == s[i].item
  {
    seq(|s|, i requires 0 <= i < |s| => s[i].item)
  }

  /** `zip(scores, items)` with each pair tagged by its position; stops at the shorter list. */
  function Zip<T>(scores: seq<real>, items: seq<T>): (r: seq<Keyed<T>>)
    ensures |r| == Min(|scores|, |items|)
    ensures forall i :: 0 <= i < |r| ==> r[i] == Keyed(scores[i], i, items[i])
  {
    seq(Min(|scores|, |items|), i requires 0 <= i < Min(|scores|, |items|) => Keyed(scores[i], i, items[i]))
  }

  lemma ItemsCons<T>(a: Keyed<T>, s: seq<Keyed<T>>)
    ensures Items([a] + s) == [a.item] + Items(s)
  {
  }

  /** When `x` goes after the head of `s`, the head precedes every element of the rest with `x` inserted. */
  lemma HeadPrecedesRest<T>(x: Keyed<T>, s: seq<Keyed<T>>, tail: seq<Keyed<T>>)
    requires Ordered(s) && |s| > 0 && !Precedes(x, s[0])
    requires multiset(tail) == multiset(s[1..]) + multiset{x}
    ensures forall k :: 0 <= k < |tail| ==> Precedes(s[0], tail[k])
  {
    forall k | 0 <= k < |tail|
      ensures Precedes(s[0], tail[k])
    {
      assert tail[k] in multiset(tail);
      if tail[k] != x {
        assert tail[k] in multiset(s[1..]);
        var j :| 0 <= j < |s[1..]| && s[1..][j] == tail[k];
        assert s[j + 1] == tail[k];
      }
    }
  }

  /** Inserts `x` into an ordered list in front of every element it precedes. */
  function Insert<T(==)>(x: Keyed<T>, s: seq<Keyed<T>>): (r: seq<Keyed<T>>)
    requires Ordered(s)
    ensures Ordered(r)
    ensures multiset(r) == multiset(s) + multiset{x}
    ensures multiset(Items(r)) == multiset(Items(s)) + multiset{x.item}
    decreases |s|
  {
    if |s| == 0 || Precedes(x, s[0]) then
      ItemsCons(x, s);
      [x] + s
    else
      var tail := Insert(x, s[1..]);
      InsertBehindHead(x, s, tail);
      [s[0]] + tail
  }

  /** The step of `Insert` that keeps the head of `s` in front. */
  lemma InsertBehindHead<T>(x: Keyed<T>, s: seq<Keyed<T>>, tail: seq<Keyed<T>>)
    requires Ordered(s) && |s| > 0 && !Precedes(x, s[0])
    requires Ordered(tail)
    requires multiset(tail) == multiset(s[1..]) + multiset{x}
    requires multiset(Items(tail)) == multiset(Items(s[1..])) + multiset{x.item}
    ensures Ordered([s[0]] + tail)
    ensures multiset([s[0]] + tail) == multiset(s) + multiset{x}
    ensures multiset(Items([s[0]] + tail)) == multiset(Items(s)) + multiset{x.item}
  {
    assert s == [s[0]] + s[1..];
    ItemsCons(s[0], tail);
    ItemsCons(s[0], s[1..]);
    HeadPrecedesRest(x, s, tail);
  }

  /** Insertion sort: a stable descending ordering of `s`. */
  function Sort<T(==)>(s: seq<Keyed<T>>): (r: seq<Keyed<T>>)
    ensures Ordered(r)
    ensures multiset(r) == multiset(s)
    ensures multiset(Items(r)) == multiset(Items(s))
    decreases |s|
  {
    if |s| == 0 then []
    else
      assert s == [s[0]] + s[1..];
      ItemsCons(s[0], s[1..]);
      Insert(s[0], Sort(s[1..]))
  }

  /**
   * `sorted(zip(scores, items), key=score, reverse=True)`: every entry is the
   * pair found at its recorded input position, every input position appears
   * exactly once, scores never increase and equal scores keep input order.
   */
  function SortByScore<T(==)>(scores: seq<real>, items: seq<T>): (r: seq<Keyed<T>>)
    ensures Ordered(r)
    ensures multiset(r) == multiset(Zip(scores, items))
    ensures multiset(Items(r)) == multiset(items[..|r|])
    ensures |r| == Min(|scores|, |items|)
    ensures forall k :: 0 <= k < |r| ==>
      r[k].pos < |r| && r[k].score == scores[r[k].pos] && r[k].item == items[r[k].pos]
    ensures forall i, j :: 0 <= i < j < |r| ==> r[i].pos != r[j].pos
    ensures forall p :: 0 <= p < |r| ==> Ranked(r, p)
  {
    var r := Sort(Zip(scores, items));
    SortedZipFacts(scores, items, r);
    r
  }

  /** What a permutation of `zip(scores, items)` says about each entry's position, score and item. */
  lemma SortedZipFacts<T>(scores: seq<real>, items: seq<T>, r: seq<Keyed<T>>)
    requires multiset(r) == multiset(Zip(scores, items))
    requires multiset(Items(r)) == multiset(Items(Zip(scores, items)))
    ensures multiset(Items(r)) == multiset(items[..|r|])
    ensures |r| == Min(|scores|, |items|)
    ensures forall k :: 0 <= k < |r| ==>
      r[k].pos < |r| && r[k].score == scores[r[k].pos] && r[k].item == items[r[k].pos]
    ensures forall i, j :: 0 <= i < j < |r| ==> r[i].pos != r[j].pos
    ensures forall p :: 0 <= p < |r| ==> Ranked(r, p)
  {
    var z := Zip(scores, items);
    assert |r| == |multiset(r)| == |multiset(z)| == |z|;
    assert Items(z) == items[..|z|];
    forall k | 0 <= k < |r|
      ensures r[k] in z
    {
      assert r[k] in multiset(r);
    }
    AtMostOnce(z);
    forall i, j | 0 <= i < j < |r|
      ensures r[i] != r[j]
    {
      CountAtTwoIndices(r, i, j);
    }
    EveryPositionRanked(z, r);
  }

  /** Input position `p` has a place in the ordering `r`. */
  predicate Ranked<T>(r: seq<Keyed<T>>, p: int) {
    exists k :: 0 <= k < |r| && r[k].pos == p
  }

  lemma EveryPositionRanked<T>(z: seq<Keyed<T>>, r: seq<Keyed<T>>)
    requires multiset(r) == multiset(z)
    requires forall p :: 0 <= p < |z| ==> z[p].pos == p
    ensures forall p :: 0 <= p < |z| ==> Ranked(r, p)
  {
    forall p | 0 <= p < |z|
      ensures Ranked(r, p)
    {
      assert z[p] in multiset(z);
      assert z[p] in multiset(r);
      var k :| 0 <= k < |r| && r[k] == z[p];
    }
  }

  /** In the sorted pairs, every entry of the first `m` precedes every pair whose position is not among them. */
  lemma PrefixBeatsRest<T>(scores: seq<real>, items: seq<T>, sorted: seq<Keyed<T>>, m: int)
    requires Ordered(sorted) && 0 <= m <= |sorted| == Min(|scores|, |items|)
    requires forall k :: 0 <= k < |sorted| ==>
      sorted[k].pos < |sorted| && sorted[k].score == scores[sorted[k].pos] && sorted[k].item == items[sorted[k].pos]
    requires forall p :: 0 <= p < |sorted| ==> Ranked(sorted, p)
    ensures forall p :: 0 <= p < |sorted| && (forall k :: 0 <= k < m ==> sorted[..m][k].pos != p) ==>
      forall k :: 0 <= k < m ==> Precedes(sorted[..m][k], Keyed(scores[p], p, items[p]))
  {
    forall p | 0 <= p < |sorted| && (forall k :: 0 <= k < m ==> sorted[..m][k].pos != p)
      ensures forall k :: 0 <= k < m ==> Precedes(sorted[..m][k], Keyed(scores[p], p, items[p]))
    {
      assert Ranked(sorted, p);
      var j :| 0 <= j < |sorted| && sorted[j].pos == p;
      PrefixPrecedes(sorted, m, j);
    }
  }

  lemma ItemsPrefix<T>(items: seq<T>, n: int)
    requires 0 <= n <= |items|
    ensures multiset(items[..n]) <= multiset(items)
  {
    assert items == items[..n] + items[n..];
  }

  /** In an ordered list, every entry before index `n` precedes the entry at `j >= n`. */
  lemma PrefixPrecedes<T>(s: seq<Keyed<T>>, n: int, j: int)
    requires Ordered(s) && 0 <= n <= j < |s|
    ensures forall k :: 0 <= k < n ==> Precedes(s[k], s[j])
  {
  }

  /**
   * The `n` best entries of `zip(scores, items)` in the order a stable
   * descending sort gives them: each is the pair found at its recorded
   * position, no position is taken twice, and every selected entry precedes
   * (scores higher, or equally and earlier in the input) every entry left
   * out.
   */
  function TakeBest<T(==)>(scores: seq<real>, items: seq<T>, n: nat): (r: seq<Keyed<T>>)
    ensures |r| == Min(n, Min(|scores|, |items|))
    ensures Ordered(r)
    ensures forall k :: 0 <= k < |r| ==>
      r[k].pos < Min(|scores|, |items|) && r[k].score == scores[r[k].pos] && r[k].item == items[r[k].pos]
    ensures forall i, j :: 0 <= i < j < |r| ==> r[i].pos != r[j].pos
    ensures forall p :: 0 <= p < Min(|scores|, |items|) && (forall k :: 0 <= k < |r| ==> r[k].pos != p) ==>
      forall k :: 0 <= k < |r| ==> Precedes(r[k], Keyed(scores[p], p, items[p]))
    ensures multiset(Items(r)) <= multiset(items)
  {
    var sorted := SortByScore(scores, items);
    var r := sorted[..Min(n, |sorted|)];
    PrefixBeatsRest(scores, items, sorted, |r|);
    PrefixItems(sorted, |r|);
    ItemsPrefix(items, |sorted|);
    r
  }

  /** Two equal entries of `s` are counted twice by its multiset. */
  lemma CountAtTwoIndices<T>(s: seq<T>, i: int, j: int)
    requires 0 <= i < j < |s|
    ensures multiset(s)[s[i]] >= if s[i] == s[j] then 2 else 1
  {
    assert s == s[..i] + [s[i]] + s[i + 1..j] + [s[j]] + s[j + 1..];
  }

  /** A list of pairwise distinct entries holds each value at most once. */
  lemma {:induction false} AtMostOnce<T>(s: seq<T>)
    requires forall i, j :: 0 <= i < j < |s| ==> s[i] != s[j]
    ensures forall e :: multiset(s)[e] <= 1
    decreases |s|
  {
    if |s| > 0 {
      AtMostOnce(s[1..]);
      assert s == [s[0]] + s[1..];
      assert s[0] !in s[1..];
    }
  }

  /** The items of a prefix of `s` are a sub-multiset of the items of `s`. */
  lemma PrefixItems<T>(s: seq<Keyed<T>>, k: nat)
    requires k <= |s|
    ensures multiset(Items(s[..k])) <= multiset(Items(s))
  {
    assert Items(s) == Items(s[..k]) + Items(s[k..]);
  }

}
