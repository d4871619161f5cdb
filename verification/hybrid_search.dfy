/**
 * The retrieval step of a question. `_hybrid_search` has four parts:
 * - it turns the vector-store hits into documents;
 * - it appends the BM25 keyword hits whose text is new;
 * - it puts README chunks in front when the question asks about the README
 *   or little was found;
 * - it cuts the list to twice `top_k`.
 * The cross-encoder rerank of `ask_question` then keeps the best three.
 *
 * BM25 ranking and cross-encoder scoring are library code. They enter as
 * function parameters: `topN(tokens, n)` is `bm25.get_top_n(tokens,
 * all_chunks, n)`, and `predict(pairs)` is `reranker.predict(pairs)`.
 */
module Retrieval {
  import opened Wrappers
  import opened PyText
  import opened StableSort
  import opened EndeeClient
  import Tokenizer

  /** A LangChain `Document`: its text and its metadata dict. */
  datatype Doc = Doc(content: string, metadata: Metadata)

  /** `m.get(key, default)`. */
  function Get(m: Metadata, key: string, default: string): string {
    if key in m then m[key] else default
  }

  /** The texts of `docs`, in order. */
  function Contents(docs: seq<Doc>): (r: seq<string>)
    ensures |r| == |docs|
    ensures forall i :: 0 <= i < |docs| ==> r[i] == docs[i].content
  {
    seq(|docs|, i requires 0 <= i < |docs| => docs[i].content)
  }

  /** The document a vector-store hit becomes: the `content` entry of its metadata (or "") and the whole metadata. */
  function DocOf(m: Match): Doc {
    Doc(Get(m.metadata, "content", ""), m.metadata)
  }

  function DocsOf(ms: seq<Match>): (r: seq<Doc>)
    ensures |r| == |ms|
    ensures forall i :: 0 <= i < |ms| ==> r[i] == DocOf(ms[i])
  {
    seq(|ms|, i requires 0 <= i < |ms| => DocOf(ms[i]))
  }

  // ---------------------------------------------------------------------------
  // Merging the keyword hits

  lemma ContentsAppend(a: seq<Doc>, b: seq<Doc>)
    ensures Contents(a + b) == Contents(a) + Contents(b)
  {
  }

  /** The BM25 merge: each hit, in order, is appended when no document in the list so far has the same text. */
  function AddUnseen(docs: seq<Doc>, hits: seq<Doc>): seq<Doc>
    decreases |hits|
  {
    if |hits| == 0 then docs
    else if hits[0].content in Contents(docs) then AddUnseen(docs, hits[1..])
    else AddUnseen(docs + [hits[0]], hits[1..])
  }

  /**
   * What `AddUnseen(docs, hits)` may return: the documents already there
   * stay in front, untouched and not deduplicated among themselves; every
   * appended document is a hit whose text differs from everything before
   * it; and the text of every hit is in the list.
   */
  predicate UnseenFacts(docs: seq<Doc>, hits: seq<Doc>, r: seq<Doc>) {
    |docs| <= |r| <= |docs| + |hits| &&
    r[..|docs|] == docs &&
    (forall k :: |docs| <= k < |r| ==> r[k] in hits) &&
    (forall k :: |docs| <= k < |r| ==> r[k].content !in Contents(r[..k])) &&
    (forall h :: h in hits ==> h.content in Contents(r))
  }

  lemma {:induction false} AddUnseenSpec(docs: seq<Doc>, hits: seq<Doc>)
    ensures UnseenFacts(docs, hits, AddUnseen(docs, hits))
    decreases |hits|
  {
    if |hits| == 0 {
      assert AddUnseen(docs, hits) == docs;
      assert docs[..|docs|] == docs;
    } else if hits[0].content in Contents(docs) {
      AddUnseenSpec(docs, hits[1..]);
      UnseenSkipStep(docs, hits, AddUnseen(docs, hits[1..]));
    } else {
      AddUnseenSpec(docs + [hits[0]], hits[1..]);
      UnseenAppendStep(docs, hits, AddUnseen(docs + [hits[0]], hits[1..]));
    }
  }

  /** A hit whose text is already there is skipped. */
  lemma UnseenSkipStep(docs: seq<Doc>, hits: seq<Doc>, r: seq<Doc>)
    requires |hits| > 0 && hits[0].content in Contents(docs)
    requires UnseenFacts(docs, hits[1..], r)
    ensures UnseenFacts(docs, hits, r)
  {
    assert Contents(docs) == Contents(r[..|docs|]);
    PrefixContent(r, |docs|, hits[0].content);
    HeadAndTailContents(hits, r);
    forall k | |docs| <= k < |r|
      ensures r[k] in hits
    {
      InTail(hits, r[k]);
    }
  }

  /** A hit with a new text is appended. */
  lemma UnseenAppendStep(docs: seq<Doc>, hits: seq<Doc>, r: seq<Doc>)
    requires |hits| > 0 && hits[0].content !in Contents(docs)
    requires UnseenFacts(docs + [hits[0]], hits[1..], r)
    ensures UnseenFacts(docs, hits, r)
  {
    var docs' := docs + [hits[0]];
    assert r[..|docs|] == docs'[..|docs|] == docs;
    assert r[|docs|] == hits[0];
    assert Contents(r)[|docs|] == hits[0].content;
    HeadAndTailContents(hits, r);
    forall k | |docs| <= k < |r|
      ensures r[k] in hits && r[k].content !in Contents(r[..k])
    {
      if k == |docs| {
        assert r[..k] == docs;
      } else {
        InTail(hits, r[k]);
      }
    }
  }

  /** A text of a list's prefix is a text of the list. */
  lemma PrefixContent(r: seq<Doc>, n: int, x: string)
    requires 0 <= n <= |r| && x in Contents(r[..n])
    ensures x in Contents(r)
  {
    var i :| 0 <= i < n && Contents(r[..n])[i] == x;
    assert Contents(r)[i] == x;
  }

  lemma InTail<T>(s: seq<T>, x: T)
    requires |s| > 0 && x in s[1..]
    ensures x in s
  {
    assert s == [s[0]] + s[1..];
  }

  /** The texts of the first element and of the rest are in the list, so every element's is. */
  lemma HeadAndTailContents(candidates: seq<Doc>, r: seq<Doc>)
    requires |candidates| > 0
    requires candidates[0].content in Contents(r)
    requires forall c :: c in candidates[1..] ==> c.content in Contents(r)
    ensures forall c :: c in candidates ==> c.content in Contents(r)
  {
    forall c | c in candidates
      ensures c.content in Contents(r)
    {
      var i :| 0 <= i < |candidates| && candidates[i] == c;
      if i > 0 {
        assert candidates[1..][i - 1] == c;
      }
    }
  }

  /** Hit `j` carries a text found neither in `docs` nor in an earlier hit. */
  predicate IsFresh(docs: seq<Doc>, hits: seq<Doc>, j: int)
    requires 0 <= j < |hits|
  {
    hits[j].content !in Contents(docs) && hits[j].content !in Contents(hits[..j])
  }

  /**
   * The fresh hits among the first `n`, in hit order: for each text not in
   * `docs`, the first hit that carries it. Defined hit by hit, independently
   * of how the merge walks the list.
   */
  function Fresh(docs: seq<Doc>, hits: seq<Doc>, n: nat): seq<Doc>
    requires n <= |hits|
  {
    if n == 0 then []
    else Fresh(docs, hits, n - 1) + (if IsFresh(docs, hits, n - 1) then [hits[n - 1]] else [])
  }

  /** The fresh hits add exactly the texts of the hits seen that `docs` lacked. */
  lemma {:induction false} FreshTexts(docs: seq<Doc>, hits: seq<Doc>, n: nat)
    requires n <= |hits|
    ensures forall x :: x in Contents(docs + Fresh(docs, hits, n)) <==> x in Contents(docs) || x in Contents(hits[..n])
  {
    if n == 0 {
      assert docs + Fresh(docs, hits, 0) == docs;
    } else {
      FreshTexts(docs, hits, n - 1);
      FreshTextsStep(docs, hits, n);
    }
  }

  lemma FreshTextsStep(docs: seq<Doc>, hits: seq<Doc>, n: nat)
    requires 0 < n <= |hits|
    requires forall x :: x in Contents(docs + Fresh(docs, hits, n - 1)) <==> x in Contents(docs) || x in Contents(hits[..n - 1])
    ensures forall x :: x in Contents(docs + Fresh(docs, hits, n)) <==> x in Contents(docs) || x in Contents(hits[..n])
  {
    var f := Fresh(docs, hits, n - 1);
    var extra := if IsFresh(docs, hits, n - 1) then [hits[n - 1]] else [];
    assert Fresh(docs, hits, n) == f + extra;
    Associates(docs, f, extra);
    ContentsAppend(docs + f, extra);
    assert hits[..n] == hits[..n - 1] + [hits[n - 1]];
    ContentsAppend(hits[..n - 1], [hits[n - 1]]);
  }

  lemma Associates<T>(a: seq<T>, b: seq<T>, c: seq<T>)
    ensures a + b + c == a + (b + c)
  {
  }

  /** One step of the merge. */
  lemma AddUnseenStep(d: seq<Doc>, hits: seq<Doc>)
    requires |hits| > 0
    ensures hits[0].content in Contents(d) ==> AddUnseen(d, hits) == AddUnseen(d, hits[1..])
    ensures hits[0].content !in Contents(d) ==> AddUnseen(d, hits) == AddUnseen(d + [hits[0]], hits[1..])
  {
  }

  /** The merge from hit `n` on, once it holds `docs` and the fresh hits before `n`. */
  lemma {:induction false} AddUnseenFrom(docs: seq<Doc>, hits: seq<Doc>, n: nat)
    requires n <= |hits|
    ensures AddUnseen(docs + Fresh(docs, hits, n), hits[n..]) == docs + Fresh(docs, hits, |hits|)
    decreases |hits| - n
  {
    if n < |hits| {
      AddUnseenFreshStep(docs, hits, n);
      AddUnseenFrom(docs, hits, n + 1);
    } else {
      assert hits[n..] == [];
    }
  }

  /** Hit `n` is appended exactly when it is fresh. */
  lemma AddUnseenFreshStep(docs: seq<Doc>, hits: seq<Doc>, n: nat)
    requires n < |hits|
    ensures AddUnseen(docs + Fresh(docs, hits, n), hits[n..]) == AddUnseen(docs + Fresh(docs, hits, n + 1), hits[n + 1..])
  {
    var f := Fresh(docs, hits, n);
    var d := docs + f;
    var h := hits[n];
    FreshTexts(docs, hits, n);
    TailAt(hits, n);
    AddUnseenStep(d, hits[n..]);
    if IsFresh(docs, hits, n) {
      assert h.content !in Contents(d);
      Associates(docs, f, [h]);
      assert Fresh(docs, hits, n + 1) == f + [h];
      assert docs + Fresh(docs, hits, n + 1) == d + [h];
    } else {
      assert h.content in Contents(d);
      assert Fresh(docs, hits, n + 1) == f + [] == f;
    }
  }

  lemma TailAt<T>(s: seq<T>, n: int)
    requires 0 <= n < |s|
    ensures s[n..][0] == s[n] && s[n..][1..] == s[n + 1..]
  {
  }

  /** The merge is `docs` followed by the fresh hits, in hit order. */
  lemma AddUnseenIsFresh(docs: seq<Doc>, hits: seq<Doc>)
    ensures AddUnseen(docs, hits) == docs + Fresh(docs, hits, |hits|)
  {
    AddUnseenFrom(docs, hits, 0);
    assert docs + Fresh(docs, hits, 0) == docs && hits[0..] == hits;
  }

  // ---------------------------------------------------------------------------
  // The README boost

  /** A chunk whose source path mentions `readme.md`, in any letter case. */
  predicate IsReadme(d: Doc) {
    Contains(Lower(Get(d.metadata, "source", "")), "readme.md")
  }

  /** The README chunks of the repository, in chunk order. */
  function ReadmeChunks(chunks: seq<Doc>): (r: seq<Doc>)
    ensures |r| <= |chunks|
    ensures forall d :: d in r <==> d in chunks && IsReadme(d)
    decreases |chunks|
  {
    if |chunks| == 0 then []
    else
      var rest := ReadmeChunks(chunks[1..]);
      assert forall d :: d in chunks <==> d == chunks[0] || d in chunks[1..];
      if IsReadme(chunks[0]) then [chunks[0]] + rest else rest
  }

  /** The README selection keeps chunk order: it splits over concatenation, and one chunk gives itself or nothing. */
  lemma {:induction false} ReadmeChunksFilters(a: seq<Doc>, b: seq<Doc>)
    ensures ReadmeChunks(a + b) == ReadmeChunks(a) + ReadmeChunks(b)
    ensures forall d :: ReadmeChunks([d]) == if IsReadme(d) then [d] else []
    decreases |a|
  {
    forall d
      ensures ReadmeChunks([d]) == if IsReadme(d) then [d] else []
    {
      assert [d][1..] == [];
    }
    if |a| > 0 {
      assert (a + b)[1..] == a[1..] + b;
      ReadmeChunksFilters(a[1..], b);
    } else {
      assert a + b == b;
    }
  }

  /** The boost applies when the lower-cased question mentions `readme` or fewer than two documents were found. */
  predicate BoostFires(query: string, merged: seq<Doc>) {
    Contains(Lower(query), "readme") || |merged| < 2
  }

  /** Each candidate in turn is inserted at the front when no document in the list has its text. */
  function PrependAbsent(docs: seq<Doc>, candidates: seq<Doc>): seq<Doc>
    decreases |candidates|
  {
    if |candidates| == 0 then docs
    else if candidates[0].content in Contents(docs) then PrependAbsent(docs, candidates[1..])
    else PrependAbsent([candidates[0]] + docs, candidates[1..])
  }

  /**
   * What `PrependAbsent(docs, candidates)` may return: the original list
   * stays, in order, at the end; all in front of it are candidates, each
   * with a text found nowhere behind it; and every candidate's text is in
   * the list.
   */
  predicate PrependFacts(docs: seq<Doc>, candidates: seq<Doc>, r: seq<Doc>) {
    |docs| <= |r| <= |docs| + |candidates| &&
    r[|r| - |docs|..] == docs &&
    (forall k :: 0 <= k < |r| - |docs| ==> r[k] in candidates) &&
    (forall k :: 0 <= k < |r| - |docs| ==> r[k].content !in Contents(r[k + 1..])) &&
    (forall c :: c in candidates ==> c.content in Contents(r))
  }

  lemma {:induction false} PrependAbsentSpec(docs: seq<Doc>, candidates: seq<Doc>)
    ensures PrependFacts(docs, candidates, PrependAbsent(docs, candidates))
    decreases |candidates|
  {
    if |candidates| > 0 {
      var c := candidates[0];
      PrependAbsentSpec(if c.content in Contents(docs) then docs else [c] + docs, candidates[1..]);
      PrependAbsentStep(docs, candidates);
    } else {
      PrependNothing(docs, candidates);
    }
  }

  lemma PrependNothing(docs: seq<Doc>, candidates: seq<Doc>)
    requires |candidates| == 0
    ensures PrependFacts(docs, candidates, PrependAbsent(docs, candidates))
  {
    assert PrependAbsent(docs, candidates) == docs;
    assert docs[0..] == docs;
  }

  lemma PrependAbsentStep(docs: seq<Doc>, candidates: seq<Doc>)
    requires |candidates| > 0
    requires var c := candidates[0]; var docs' := if c.content in Contents(docs) then docs else [c] + docs;
      PrependFacts(docs', candidates[1..], PrependAbsent(docs', candidates[1..]))
    ensures PrependFacts(docs, candidates, PrependAbsent(docs, candidates))
  {
    var c := candidates[0];
    var docs' := if c.content in Contents(docs) then docs else [c] + docs;
    var r := PrependAbsent(docs', candidates[1..]);
    PrependStep(docs, candidates, docs', r);
    assert PrependAbsent(docs, candidates) == r;
  }

  /** One step of `PrependAbsent`: what the rest of the candidates do to the list, after the first was offered. */
  lemma PrependStep(docs: seq<Doc>, candidates: seq<Doc>, docs': seq<Doc>, r: seq<Doc>)
    requires |candidates| > 0
    requires docs' == if candidates[0].content in Contents(docs) then docs else [candidates[0]] + docs
    requires PrependFacts(docs', candidates[1..], r)
    ensures PrependFacts(docs, candidates, r)
  {
    var c := candidates[0];
    assert docs' == docs || docs' == [c] + docs;
    FrontIsCandidate(docs, candidates, docs', r);
    assert c.content in Contents(docs') by {
      if c.content !in Contents(docs) {
        assert Contents(docs')[0] == c.content;
      }
    }
    ContentInSuffix(r, docs', c.content);
    HeadAndTailContents(candidates, r);
    assert r[|r| - |docs|..] == r[|r| - |docs'|..][|docs'| - |docs|..];
    FrontIsFresh(docs, c, docs', r);
  }

  /** The entry in front of the original list, if any, has a text that list lacks. */
  lemma FrontIsFresh(docs: seq<Doc>, c: Doc, docs': seq<Doc>, r: seq<Doc>)
    requires docs' == if c.content in Contents(docs) then docs else [c] + docs
    requires |docs'| <= |r| && r[|r| - |docs'|..] == docs'
    requires forall k :: 0 <= k < |r| - |docs'| ==> r[k].content !in Contents(r[k + 1..])
    ensures forall k :: 0 <= k < |r| - |docs| ==> r[k].content !in Contents(r[k + 1..])
  {
    if docs' != docs {
      var k := |r| - |docs'|;
      assert r[k + 1..] == r[|r| - |docs'|..][1..] == docs;
      assert r[k] == docs'[0] == c;
    }
  }

  /** The entries in front of the original list are candidates. */
  lemma FrontIsCandidate(docs: seq<Doc>, candidates: seq<Doc>, docs': seq<Doc>, r: seq<Doc>)
    requires |candidates| > 0
    requires docs' == docs || docs' == [candidates[0]] + docs
    requires |docs'| <= |r| && r[|r| - |docs'|..] == docs'
    requires forall k :: 0 <= k < |r| - |docs'| ==> r[k] in candidates[1..]
    ensures forall k :: 0 <= k < |r| - |docs| ==> r[k] in candidates
  {
    forall k | 0 <= k < |r| - |docs|
      ensures r[k] in candidates
    {
      if k < |r| - |docs'| {
        assert r[k] in candidates[1..];
      } else {
        assert r[k] == docs'[k - (|r| - |docs'|)] == candidates[0];
      }
    }
  }

  /** A text of a list's tail is a text of the list. */
  lemma ContentInSuffix(r: seq<Doc>, tail: seq<Doc>, x: string)
    requires |tail| <= |r| && r[|r| - |tail|..] == tail
    requires x in Contents(tail)
    ensures x in Contents(r)
  {
    var i :| 0 <= i < |tail| && Contents(tail)[i] == x;
    assert r[|r| - |tail| + i] == tail[i];
    assert Contents(r)[|r| - |tail| + i] == x;
  }

  /** `s` back to front. */
  function Reverse<T>(s: seq<T>): (r: seq<T>)
    ensures |r| == |s| && forall i :: 0 <= i < |s| ==> r[i] == s[|s| - 1 - i]
  {
    seq(|s|, i requires 0 <= i < |s| => s[|s| - 1 - i])
  }

  lemma ReverseSnoc<T>(f: seq<T>, h: T)
    ensures Reverse(f + [h]) == [h] + Reverse(f)
  {
    assert forall i :: 0 <= i < |f| + 1 ==> Reverse(f + [h])[i] == ([h] + Reverse(f))[i];
  }

  /** Reversing the fresh documents and putting them in front keeps the same texts as appending them. */
  lemma ReverseTexts(f: seq<Doc>, docs: seq<Doc>)
    ensures forall x :: x in Contents(Reverse(f) + docs) <==> x in Contents(docs + f)
  {
    ContentsAppend(Reverse(f), docs);
    ContentsAppend(docs, f);
    forall x
      ensures x in Contents(Reverse(f)) <==> x in Contents(f)
    {
      if x in Contents(f) {
        var i :| 0 <= i < |f| && Contents(f)[i] == x;
        assert Contents(Reverse(f))[|f| - 1 - i] == x;
      }
      if x in Contents(Reverse(f)) {
        var i :| 0 <= i < |f| && Contents(Reverse(f))[i] == x;
        assert Contents(f)[|f| - 1 - i] == x;
      }
    }
  }

  /** One step of the boost's insertion loop. */
  lemma PrependAbsentUnfold(d: seq<Doc>, candidates: seq<Doc>)
    requires |candidates| > 0
    ensures candidates[0].content in Contents(d) ==> PrependAbsent(d, candidates) == PrependAbsent(d, candidates[1..])
    ensures candidates[0].content !in Contents(d) ==> PrependAbsent(d, candidates) == PrependAbsent([candidates[0]] + d, candidates[1..])
  {
  }

  /** The insertion loop from candidate `n` on, once the fresh candidates before `n` stand in front, last first. */
  lemma {:induction false} PrependAbsentFrom(docs: seq<Doc>, candidates: seq<Doc>, n: nat)
    requires n <= |candidates|
    ensures PrependAbsent(Reverse(Fresh(docs, candidates, n)) + docs, candidates[n..])
         == Reverse(Fresh(docs, candidates, |candidates|)) + docs
    decreases |candidates| - n
  {
    if n < |candidates| {
      PrependFreshStep(docs, candidates, n);
      PrependAbsentFrom(docs, candidates, n + 1);
    } else {
      assert candidates[n..] == [];
    }
  }

  /** Candidate `n` is inserted exactly when it is fresh. */
  lemma PrependFreshStep(docs: seq<Doc>, candidates: seq<Doc>, n: nat)
    requires n < |candidates|
    ensures PrependAbsent(Reverse(Fresh(docs, candidates, n)) + docs, candidates[n..])
         == PrependAbsent(Reverse(Fresh(docs, candidates, n + 1)) + docs, candidates[n + 1..])
  {
    var f := Fresh(docs, candidates, n);
    var d := Reverse(f) + docs;
    var h := candidates[n];
    FreshTexts(docs, candidates, n);
    ReverseTexts(f, docs);
    TailAt(candidates, n);
    PrependAbsentUnfold(d, candidates[n..]);
    if IsFresh(docs, candidates, n) {
      assert h.content !in Contents(d);
      ReverseSnoc(f, h);
      Associates([h], Reverse(f), docs);
      assert Fresh(docs, candidates, n + 1) == f + [h];
      assert Reverse(Fresh(docs, candidates, n + 1)) + docs == [h] + d;
    } else {
      assert h.content in Contents(d);
      assert Fresh(docs, candidates, n + 1) == f + [] == f;
      assert Reverse(Fresh(docs, candidates, n + 1)) + docs == d;
    }
  }

  /** The boost puts the fresh candidates in front of the list, the last inserted first. */
  lemma PrependAbsentIsReversedFresh(docs: seq<Doc>, candidates: seq<Doc>)
    ensures PrependAbsent(docs, candidates) == Reverse(Fresh(docs, candidates, |candidates|)) + docs
  {
    PrependAbsentFrom(docs, candidates, 0);
    assert Reverse(Fresh(docs, candidates, 0)) + docs == docs && candidates[0..] == candidates;
  }

  /** `docs` after the README boost: unchanged unless it fires, else the first two README chunks offered for the front. */
  function Boosted(query: string, merged: seq<Doc>, allChunks: seq<Doc>): (r: seq<Doc>)
    ensures BoostFires(query, merged) ==>
      var offered := PyTake(ReadmeChunks(allChunks), 2);
      r == Reverse(Fresh(merged, offered, |offered|)) + merged
    ensures !BoostFires(query, merged) ==> r == merged
  {
    PrependAbsentIsReversedFresh(merged, PyTake(ReadmeChunks(allChunks), 2));
    if BoostFires(query, merged) then PrependAbsent(merged, PyTake(ReadmeChunks(allChunks), 2)) else merged
  }

  // ---------------------------------------------------------------------------
  // _hybrid_search

  /**
   * What a hybrid search runs against besides the question: the vector-store
   * client with the server's reply and the JSON and cosine oracles, the BM25
   * index if one has been built (as its top-n function), and every chunk of
   * the repository.
   */
  datatype Sources = Sources(
    db: Client,
    reply: SearchReply,
    parseJson: string -> Option<Metadata>,
    cos: (Vector, Vector) -> real,
    bm25: Option<(seq<string>, int) -> seq<Doc>>,
    allChunks: seq<Doc>)

  /** The documents of the vector search for `top_k` hits. */
  function VectorDocs(s: Sources, queryVector: Vector, topK: int): seq<Doc> {
    DocsOf(Search(s.db, queryVector, topK, s.reply, s.parseJson, s.cos))
  }

  /** The BM25 hits for the tokenized question. */
  function KeywordHits(s: Sources, query: string, topK: int): seq<Doc>
    requires s.bm25.Some?
  {
    s.bm25.value(Tokenizer.Tokenize(query), topK)
  }

  /**
   * The vector documents followed by the new keyword hits: the vector
   * documents come first and in order; without a BM25 index nothing else is
   * added; with one, the added documents are the fresh keyword hits in hit
   * order, each with a text that differs from every document before it,
   * and every hit's text ends up in the list.
   */
  function Merged(s: Sources, queryVector: Vector, query: string, topK: int): (r: seq<Doc>)
    ensures var vd := VectorDocs(s, queryVector, topK); |vd| <= |r| && r[..|vd|] == vd
    ensures s.bm25.None? ==> r == VectorDocs(s, queryVector, topK)
    ensures s.bm25.Some? ==>
      var vd := VectorDocs(s, queryVector, topK);
      |r| <= |vd| + |KeywordHits(s, query, topK)| &&
      forall k :: |vd| <= k < |r| ==> r[k] in KeywordHits(s, query, topK) && r[k].content !in Contents(r[..k])
    ensures s.bm25.Some? ==> forall h :: h in KeywordHits(s, query, topK) ==> h.content in Contents(r)
    ensures s.bm25.Some? ==>
      var hits := KeywordHits(s, query, topK);
      r == VectorDocs(s, queryVector, topK) + Fresh(VectorDocs(s, queryVector, topK), hits, |hits|)
  {
    var docs := VectorDocs(s, queryVector, topK);
    if s.bm25.Some? then
      AddUnseenSpec(docs, KeywordHits(s, query, topK));
      AddUnseenIsFresh(docs, KeywordHits(s, query, topK));
      AddUnseen(docs, KeywordHits(s, query, topK))
    else docs
  }

  /**
   * `_hybrid_search(db, query_vector, query_text, top_k)`: for `top_k >= 0`,
   * the first `min(2 * top_k, n)` of the `n` documents of the boosted list;
   * when the boost does not fire, a prefix of the merged list.
   */
  function HybridSearch(s: Sources, queryVector: Vector, query: string, topK: int): (r: seq<Doc>)
    ensures topK >= 0 ==> |r| <= 2 * topK
    ensures topK >= 0 ==> |r| == Min(2 * topK, |Boosted(query, Merged(s, queryVector, query, topK), s.allChunks)|)
    ensures var b := Boosted(query, Merged(s, queryVector, query, topK), s.allChunks);
      |r| <= |b| && r == b[..|r|]
    ensures !BoostFires(query, Merged(s, queryVector, query, topK)) ==>
      var m := Merged(s, queryVector, query, topK); |r| <= |m| && r == m[..|r|]
  {
    PyTake(Boosted(query, Merged(s, queryVector, query, topK), s.allChunks), 2 * topK)
  }

  /**
   * When neither search returned more than `top_k` documents, a fired boost
   * gets a README chunk's text into the result, provided the repository has
   * a README chunk: one of the first two README chunks survives the cut.
   * (Not necessarily the first one: when the first is already present and
   * the second is inserted in front, the first can be cut off.)
   */
  lemma BoostedReadmeSurvives(s: Sources, queryVector: Vector, query: string, topK: int)
    requires topK >= 1
    requires |Search(s.db, queryVector, topK, s.reply, s.parseJson, s.cos)| <= topK
    requires s.bm25.Some? ==> |KeywordHits(s, query, topK)| <= topK
    requires BoostFires(query, Merged(s, queryVector, query, topK))
    requires ReadmeChunks(s.allChunks) != []
    ensures exists j :: 0 <= j < Min(2, |ReadmeChunks(s.allChunks)|) &&
                        ReadmeChunks(s.allChunks)[j].content in Contents(HybridSearch(s, queryVector, query, topK))
  {
    var merged := Merged(s, queryVector, query, topK);
    var readme := ReadmeChunks(s.allChunks);
    assert |merged| <= 2 * topK;
    var j := FrontCandidateSurvives(merged, PyTake(readme, 2), 2 * topK);
    assert PyTake(readme, 2)[j] == readme[j];
  }

  /**
   * Offering candidates for the front of a list no longer than the cut keeps
   * some candidate's text in the cut: the last one inserted sits at the
   * front, and when none is inserted the list is unchanged and all their
   * texts were already there.
   */
  lemma FrontCandidateSurvives(merged: seq<Doc>, candidates: seq<Doc>, n: int) returns (j: int)
    requires 1 <= n && |merged| <= n && |candidates| >= 1
    ensures 0 <= j < |candidates| && candidates[j].content in Contents(PyTake(PrependAbsent(merged, candidates), n))
  {
    var boosted := PrependAbsent(merged, candidates);
    PrependAbsentSpec(merged, candidates);
    var r := PyTake(boosted, n);
    if |boosted| > |merged| {
      assert boosted[0] in candidates;
      j :| 0 <= j < |candidates| && candidates[j] == boosted[0];
      assert Contents(r)[0] == boosted[0].content;
    } else {
      assert boosted == merged;
      j := 0;
      assert candidates[0] in candidates;
    }
  }

  // ---------------------------------------------------------------------------
  // The rerank

  /** The `[query, doc.page_content]` pairs the cross-encoder scores. */
  function Pairs(query: string, docs: seq<Doc>): (r: seq<(string, string)>)
    ensures |r| == |docs|
    ensures forall i :: 0 <= i < |docs| ==> r[i] == (query, docs[i].content)
  {
    seq(|docs|, i requires 0 <= i < |docs| => (query, docs[i].content))
  }

  /**
   * The rerank block of `ask_question`: no candidates stay no candidates,
   * whatever the cross-encoder would say; otherwise the three best-scored
   * candidates, best first, equal scores in candidate order. With one score
   * per candidate that is `min(3, n)` documents, each taken from the
   * candidates.
   */
  function Rerank(query: string, docs: seq<Doc>, predict: seq<(string, string)> -> seq<real>): (r: seq<Doc>)
    ensures docs == [] ==> r == []
    ensures docs != [] ==> r == Items(TakeBest(predict(Pairs(query, docs)), docs, 3))
    ensures |predict(Pairs(query, docs))| == |docs| ==> |r| == Min(3, |docs|)
    ensures multiset(r) <= multiset(docs)
  {
    if |docs| == 0 then []
    else Items(TakeBest(predict(Pairs(query, docs)), docs, 3))
  }
}
