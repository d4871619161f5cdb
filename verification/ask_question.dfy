/**
 * `ask_question`, the generator that answers a question about the
 * repository. It runs in stages:
 * - open a fresh vector-store client;
 * - retrieve documents with the hybrid search and rerank them;
 * - strip their comments;
 * - build the prompt and stream the language model's answer;
 * - cache the complete answer, or on an exception yield either a snippet
 *   listing (the model could not be reached) or one error line.
 *
 * The generator is modelled by the list of fragments it yields together
 * with the cache it leaves behind. The embedding model, the cross-encoder
 * and the language model's stream are parameters.
 */
module QueryPipeline {
  import opened Wrappers
  import opened PyText
  import opened EndeeClient
  import opened Retrieval
  import opened StableSort
  import CommentStrip

  /** The `top_k` of the hybrid search (its default, which `ask_question` does not override). */
  const TopK: int := 5

  /** What `self.cache[query]` holds: the full answer and the documents it was built from (the timing metrics are left out). */
  datatype CacheEntry = CacheEntry(result: string, sourceDocuments: seq<Doc>)

  type Cache = map<string, CacheEntry>

  /**
   * How iterating the model's stream went. Completed: every fragment came.
   * Failed: some fragments came, then an exception with the given message.
   * Abandoned: some fragments came, then the consumer stopped iterating (the
   * resulting `GeneratorExit` is not an `Exception`, so no handler runs).
   */
  datatype Stream =
    | Completed(fragments: seq<string>)
    | Failed(before: seq<string>, message: string)
    | Abandoned(before: seq<string>)

  /** The models a question consults: the embedder, the cross-encoder, and the language model's stream for a prompt. */
  datatype Models = Models(
    embed: string -> Vector,
    predict: seq<(string, string)> -> seq<real>,
    generate: string -> Stream)

  /**
   * The world `ask_question` runs in: what the index-create request of the
   * fresh client and its search request come back with, the JSON and cosine
   * oracles, the BM25 index (as its top-n function, if built), every chunk
   * of the repository, and the cache.
   */
  datatype Backend = Backend(
    create: Response,
    reply: SearchReply,
    parseJson: string -> Option<Metadata>,
    cos: (Vector, Vector) -> real,
    bm25: Option<(seq<string>, int) -> seq<Doc>>,
    allChunks: seq<Doc>,
    cache: Cache)

  /** What a question yields and the cache it leaves. */
  datatype Answer = Answer(yielded: seq<string>, cache: Cache)

  // ---------------------------------------------------------------------------
  // Retrieval

  /**
   * What the hybrid search of a question runs against. `load_vector_store`
   * builds a new client for every question, so its in-memory store is
   * empty: the vector half finds something only when the server is up and
   * answers.
   */
  function QuerySources(b: Backend): (s: Sources)
    ensures s.db.localData == []
    ensures s.db.localMode <==> !IndexReady(b.create)
    ensures s.bm25 == b.bm25 && s.allChunks == b.allChunks
  {
    Sources(Connect(b.create), b.reply, b.parseJson, b.cos, b.bm25, b.allChunks)
  }

  /** The vector hits of a question: none unless the index-create and search requests both got through. */
  function QueryMatches(b: Backend, m: Models, query: string): (r: seq<Match>)
    ensures |r| > 0 ==> IndexReady(b.create) && ServerAnswered(b.reply)
  {
    var s := QuerySources(b);
    Search(s.db, m.embed(query), TopK, s.reply, s.parseJson, s.cos)
  }

  /**
   * The documents of a question after the hybrid search and the rerank: no
   * candidates give no documents; otherwise the three best-scored
   * candidates, best first, equal scores in candidate order, which is
   * `min(3, n)` documents when the cross-encoder scores each of the `n`
   * candidates.
   */
  function Retrieve(b: Backend, m: Models, query: string): (docs: seq<Doc>)
    ensures |docs| <= 3
    ensures multiset(docs) <= multiset(HybridSearch(QuerySources(b), m.embed(query), query, TopK))
    ensures var c := HybridSearch(QuerySources(b), m.embed(query), query, TopK);
      c == [] ==> docs == []
    ensures var c := HybridSearch(QuerySources(b), m.embed(query), query, TopK);
      c != [] ==> docs == Items(TakeBest(m.predict(Pairs(query, c)), c, 3))
    ensures var c := HybridSearch(QuerySources(b), m.embed(query), query, TopK);
      |m.predict(Pairs(query, c))| == |c| ==> |docs| == Min(3, |c|)
  {
    var candidates := HybridSearch(QuerySources(b), m.embed(query), query, TopK);
    Rerank(query, candidates, m.predict)
  }

  /** The documents with their text passed through `_clean_code`, metadata kept. */
  function CleanDocs(docs: seq<Doc>): (r: seq<Doc>)
    ensures |r| == |docs|
    ensures forall i :: 0 <= i < |docs| ==>
      r[i].metadata == docs[i].metadata && r[i].content == CommentStrip.CleanCode(docs[i].content)
  {
    seq(|docs|, i requires 0 <= i < |docs| => Doc(CommentStrip.CleanCode(docs[i].content), docs[i].metadata))
  }

  /**
   * The context documents of a question: the retrieved documents, in their
   * order, each with its text passed through `_clean_code` and its metadata
   * kept. No `#` survives in them.
   */
  function ContextDocs(b: Backend, m: Models, query: string): (docs: seq<Doc>)
    ensures |docs| <= 3
    ensures |docs| == |Retrieve(b, m, query)|
    ensures forall i :: 0 <= i < |docs| ==>
      docs[i] == Doc(CommentStrip.CleanCode(Retrieve(b, m, query)[i].content), Retrieve(b, m, query)[i].metadata)
    ensures forall i :: 0 <= i < |docs| ==> '#' !in docs[i].content
  {
    CleanDocs(Retrieve(b, m, query))
  }

  // ---------------------------------------------------------------------------
  // The prompt

  /** The file name a document is shown under: the basename of its `source`, or `unknown`. */
  function SourceName(d: Doc): string {
    Basename(Get(d.metadata, "source", "unknown"))
  }

  function ContextBlock(d: Doc): string {
    "Source: " + SourceName(d) + "\nCode:\n" + d.content
  }

  /** The blocks of all documents, separated by blank lines. */
  function ContextText(docs: seq<Doc>): string {
    Join(seq(|docs|, i requires 0 <= i < |docs| => ContextBlock(docs[i])), "\n\n")
  }

  /** Every document's block, with its file name and its text, is in the context. */
  lemma ContextShowsEveryDocument(docs: seq<Doc>, i: int)
    requires 0 <= i < |docs|
    ensures Contains(ContextText(docs), ContextBlock(docs[i]))
  {
    var blocks := seq(|docs|, i requires 0 <= i < |docs| => ContextBlock(docs[i]));
    JoinContainsPart(blocks, "\n\n", i);
  }

  /** The indentation the prompt's lines carry inside the source's triple-quoted string. */
  const Indent := "            "

  const PromptHead := "You are a professional coding assistant. Use the following code snippets to answer the user's question. \n"
    + Indent + "Detailed and accurate answers are prioritized. If you don't know, say so.\n"
    + Indent + "\n"
    + Indent + "Question: "

  const PromptMiddle := "\n" + Indent + "\n" + Indent + "Code Context:\n" + Indent

  const PromptTail := "\n" + Indent + "\n" + Indent + "Answer:"

  /** The prompt sent to the model. */
  function Prompt(query: string, context: string): string {
    PromptHead + query + PromptMiddle + context + PromptTail
  }

  function PromptFor(b: Backend, m: Models, query: string): string {
    Prompt(query, ContextText(ContextDocs(b, m, query)))
  }

  /** The prompt of a question shows the question and the block of every context document. */
  lemma PromptShowsEveryDocument(b: Backend, m: Models, query: string, i: int)
    requires 0 <= i < |ContextDocs(b, m, query)|
    ensures Contains(PromptFor(b, m, query), query)
    ensures Contains(PromptFor(b, m, query), ContextBlock(ContextDocs(b, m, query)[i]))
  {
    PromptShows(query, ContextDocs(b, m, query), i);
  }

  lemma PromptShows(query: string, docs: seq<Doc>, i: int)
    requires 0 <= i < |docs|
    ensures Contains(Prompt(query, ContextText(docs)), query)
    ensures Contains(Prompt(query, ContextText(docs)), ContextBlock(docs[i]))
  {
    var context := ContextText(docs);
    var block := ContextBlock(docs[i]);
    ContextShowsEveryDocument(docs, i);
    PromptContains(query, context, block);
  }

  /** Whatever the context contains, the prompt contains, and the question too. */
  lemma PromptContains(query: string, context: string, p: string)
    requires Contains(context, p)
    ensures Contains(Prompt(query, context), query) && Contains(Prompt(query, context), p)
  {
    var front := PromptHead + query + PromptMiddle;
    ContainsAfterPrefix(front, context, p);
    ContainsBeforeSuffix(front + context, PromptTail, p);
    ContainsMiddle(PromptHead, query, PromptMiddle);
    ContainsBeforeSuffix(front, context, query);
    ContainsBeforeSuffix(front + context, PromptTail, query);
  }

  // ---------------------------------------------------------------------------
  // Failures

  /** An exception counts as a refused connection when its lower-cased message mentions `connection` or `refused`. */
  predicate IsConnectionError(message: string) {
    Contains(Lower(message), "connection") || Contains(Lower(message), "refused")
  }

  const FallbackHeader := "### \U{1F4A1} Note: Ollama is not running\n\nI couldn't connect to the local AI model (Ollama). Here are the most relevant code snippets I found:\n\n"

  /** The entry of the `i`-th document (from 0) in the snippet listing: its number from 1, its file name, and its first 800 characters. */
  function SnippetEntry(i: nat, d: Doc): string {
    "**" + NatToString(i + 1) + ". " + SourceName(d) + "**\n```\n" + PyTake(d.content, 800) + "...\n```\n\n"
  }

  function SnippetEntries(docs: seq<Doc>): (r: seq<string>)
    ensures |r| == |docs|
    ensures forall i :: 0 <= i < |docs| ==> r[i] == SnippetEntry(i, docs[i])
  {
    seq(|docs|, i requires 0 <= i < |docs| => SnippetEntry(i, docs[i]))
  }

  /** The fragment yielded when the model could not be reached: a note, then one entry per context document. */
  function Fallback(docs: seq<Doc>): string {
    FallbackHeader + Concat(SnippetEntries(docs))
  }

  /**
   * The fallback lists every context document: the entry numbered `i + 1`
   * with the document's file name and its first `min(800, n)` characters.
   */
  lemma FallbackListsEveryDocument(docs: seq<Doc>, i: int)
    requires 0 <= i < |docs|
    ensures Contains(Fallback(docs), SnippetEntry(i, docs[i]))
    ensures DecimalValue(NatToString(i + 1)) == i + 1
    ensures |NatToString(i + 1)| == 1 || NatToString(i + 1)[0] != '0'
    ensures var excerpt := PyTake(docs[i].content, 800);
      |excerpt| == Min(800, |docs[i].content|) && excerpt <= docs[i].content
  {
    var entries := SnippetEntries(docs);
    ConcatContainsPart(entries, i);
    ContainsAfterPrefix(FallbackHeader, Concat(entries), entries[i]);
  }

  /** The last fragment after an exception: the snippet listing for a refused connection, one error line otherwise. */
  function FailureFragment(message: string, docs: seq<Doc>): string {
    if IsConnectionError(message) then Fallback(docs) else "Error: " + message
  }

  // ---------------------------------------------------------------------------
  // ask_question

  /**
   * The end of `ask_question`, once the context documents are known and the
   * model's stream has run:
   * - A completed stream yields its fragments unchanged, and the cache then
   *   holds, under the question, their concatenation and the context
   *   documents.
   * - A failed stream yields the fragments that came and then one more: the
   *   snippet listing when the message reads like a refused connection,
   *   `Error: <message>` otherwise.
   * - An abandoned stream yields what came.
   * Only a completed stream writes the cache, and it writes no other key.
   */
  function Respond(cache: Cache, query: string, docs: seq<Doc>, stream: Stream): (a: Answer)
    ensures stream.Completed? ==>
      a.yielded == stream.fragments &&
      a.cache.Keys == cache.Keys + {query} &&
      a.cache[query] == CacheEntry(Concat(a.yielded), docs)
    ensures !stream.Completed? ==> a.cache == cache
    ensures forall k :: k in cache && k != query ==> k in a.cache && a.cache[k] == cache[k]
    ensures stream.Failed? ==>
      |a.yielded| == |stream.before| + 1 && a.yielded[..|stream.before|] == stream.before &&
      a.yielded[|stream.before|] ==
        (if Contains(Lower(stream.message), "connection") || Contains(Lower(stream.message), "refused")
         then Fallback(docs)
         else "Error: " + stream.message)
    ensures stream.Abandoned? ==> a.yielded == stream.before
  {
    match stream
    case Completed(fragments) =>
      Answer(fragments, cache[query := CacheEntry(Concat(fragments), docs)])
    case Failed(before, message) =>
      Answer(before + [FailureFragment(message, docs)], cache)
    case Abandoned(before) =>
      Answer(before, cache)
  }

  /** What the cache keeps for an answer: at most three context documents, none with a `#` left in its text. */
  predicate WellFormedEntry(e: CacheEntry) {
    |e.sourceDocuments| <= 3 && forall i :: 0 <= i < |e.sourceDocuments| ==> '#' !in e.sourceDocuments[i].content
  }

  predicate WellFormedCache(cache: Cache) {
    forall q :: q in cache ==> WellFormedEntry(cache[q])
  }

  /**
   * `ask_question(query)`: the context documents of the question, the
   * prompt built from them, and the model's stream for that prompt, answered
   * as `Respond` says. The cache stays well formed and changes at most under
   * the question asked.
   */
  function AskQuestion(b: Backend, m: Models, query: string): (a: Answer)
    ensures a == Respond(b.cache, query, ContextDocs(b, m, query), m.generate(PromptFor(b, m, query)))
    ensures WellFormedCache(b.cache) ==> WellFormedCache(a.cache)
    ensures a.cache.Keys <= b.cache.Keys + {query}
    ensures forall k :: k in b.cache && k != query ==> k in a.cache && a.cache[k] == b.cache[k]
  {
    var docs := ContextDocs(b, m, query);
    var stream := m.generate(Prompt(query, ContextText(docs)));
    RespondKeepsCacheWellFormed(b.cache, query, docs, stream);
    Respond(b.cache, query, docs, stream)
  }

  lemma RespondKeepsCacheWellFormed(cache: Cache, query: string, docs: seq<Doc>, stream: Stream)
    requires WellFormedEntry(CacheEntry("", docs))
    ensures WellFormedCache(cache) ==> WellFormedCache(Respond(cache, query, docs, stream).cache)
  {
    var a := Respond(cache, query, docs, stream);
    if stream.Completed? {
      assert WellFormedEntry(a.cache[query]);
    }
  }

  // ---------------------------------------------------------------------------
  // A session of questions

  /** One question of a session: the world it meets (whose cache is replaced by the session's), the models, and the question. */
  datatype Turn = Turn(world: Backend, models: Models, query: string)

  /** The cache after asking the questions of `turns` in order, starting from `cache`. */
  function Session(cache: Cache, turns: seq<Turn>): Cache
    decreases |turns|
  {
    if |turns| == 0 then cache
    else
      var t := turns[0];
      Session(AskQuestion(t.world.(cache := cache), t.models, t.query).cache, turns[1..])
  }

  /** The questions asked in `turns`. */
  function Queries(turns: seq<Turn>): (r: set<string>)
    ensures forall i :: 0 <= i < |turns| ==> turns[i].query in r
    ensures forall q :: q in r ==> exists i :: 0 <= i < |turns| && turns[i].query == q
  {
    set i | 0 <= i < |turns| :: turns[i].query
  }

  /**
   * A session keeps the cache well formed and adds no key but the questions
   * asked: entries for other keys are exactly as they were.
   */
  lemma {:induction false} SessionKeepsCache(cache: Cache, turns: seq<Turn>)
    requires WellFormedCache(cache)
    ensures WellFormedCache(Session(cache, turns))
    ensures Session(cache, turns).Keys <= cache.Keys + Queries(turns)
    ensures forall q :: q in cache && q !in Queries(turns) ==> q in Session(cache, turns) && Session(cache, turns)[q] == cache[q]
    decreases |turns|
  {
    if |turns| > 0 {
      var t := turns[0];
      var next := AskQuestion(t.world.(cache := cache), t.models, t.query).cache;
      SessionKeepsCache(next, turns[1..]);
      QueriesCons(turns);
      SessionStep(cache, next, Session(next, turns[1..]), t.query, Queries(turns[1..]));
    }
  }

  lemma QueriesCons(turns: seq<Turn>)
    requires |turns| > 0
    ensures Queries(turns) == {turns[0].query} + Queries(turns[1..])
  {
    forall q | q in Queries(turns)
      ensures q in {turns[0].query} + Queries(turns[1..])
    {
      var i :| 0 <= i < |turns| && turns[i].query == q;
      if i > 0 {
        assert turns[1..][i - 1].query == q;
      }
    }
  }

  /** Chaining one question's effect on the cache with the rest of the session's. */
  lemma SessionStep(cache: Cache, next: Cache, last: Cache, query: string, later: set<string>)
    requires WellFormedCache(next) ==> WellFormedCache(last)
    requires last.Keys <= next.Keys + later
    requires forall q :: q in next && q !in later ==> q in last && last[q] == next[q]
    requires WellFormedCache(cache) ==> WellFormedCache(next)
    requires next.Keys <= cache.Keys + {query}
    requires forall k :: k in cache && k != query ==> k in next && next[k] == cache[k]
    ensures WellFormedCache(cache) ==> WellFormedCache(last)
    ensures last.Keys <= cache.Keys + ({query} + later)
    ensures forall q :: q in cache && q !in {query} + later ==> q in last && last[q] == cache[q]
  {
  }
}
