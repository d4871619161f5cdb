# Retrieval pipeline of a code-question assistant, in Dafny

The model covers the retrieval pipeline of a tool that answers questions about
a source repository. The pipeline has these parts:

- **`EndeeDB`**, the vector-store client. It is a REST client that switches
  for good to an in-memory store with cosine search when index creation or a
  vector insert fails. A failed search falls back to the in-memory search for
  that call only, and a failed metadata update is ignored.
- **`_hybrid_search`**, the hybrid search:
  - it turns the vector hits into documents;
  - it appends the BM25 keyword hits whose text is new;
  - it puts README chunks in front when the question mentions the README or
    little was found;
  - it cuts the list to `2 * top_k`.
- **The rerank**, which keeps the three candidates the cross-encoder scores
  best.
- **`_clean_code`**, which strips comments and blank lines from each context
  document.
- **`ask_question`**, which builds the prompt and streams the model's answer.
  A complete answer is cached. On an exception it yields either a snippet
  listing or one `Error:` line.

Everything is a pure function over immutable values. The client is a value
`Client(localMode, localData)`, and each operation maps the old client to
the new one. What each HTTP request came back with is a parameter. Library
code enters as function-typed parameters:

- cosine similarity;
- `json.loads` / `json.dumps`;
- BM25 top-n;
- the cross-encoder;
- the embedder;
- the language model's stream.

Modules, one per file:

| file | module | models |
|---|---|---|
| wrappers.dfy | `Wrappers` | `Option` |
| py_text.dfy | `PyText` | the Python primitives the code relies on: `str.isspace`, `strip`, `split`, `join`, `lower`, `in` on strings, `os.path.basename`, slicing `s[:k]`, `str(n)` |
| clean_code.dfy | `CommentStrip` | `_clean_code` |
| tokenizer.dfy | `Tokenizer` | the BM25 tokenizer `re.sub(r'[^\w\s]', '', text.lower()).split()` |
| stable_sort.dfy | `StableSort` | Python's stable `sorted(..., reverse=True)` by score, and the top-n selection |
| wire.dfy | `Wire` | decoded msgpack values, truthiness, dict lookup |
| endee_client.dfy | `EndeeClient` | `EndeeDB`: construction, `insert`, `update_metadata`, `search`, `_local_search` |
| hybrid_search.dfy | `Retrieval` | `_hybrid_search` and the rerank |
| ask_question.dfy | `QueryPipeline` | `ask_question`: retrieval, cleaning, prompt, stream outcome, cache |

## Model

| member | source | states |
|---|---|---|
| CommentStrip.LineEnd | backend.py:289 | where `.*` stops: no newline before the index, and a newline at it unless it is the end of the text |
| CommentStrip.StripLineCommentsPerLine | backend.py:289-290 | a `marker.*` pass equals cutting every line at the first occurrence of the marker and rejoining the lines with `\n`; newlines are never removed |
| CommentStrip.NoHashAfterHashPass | backend.py:289 | after the `#.*` pass no `#` is left |
| CommentStrip.FindClose | backend.py:291 | the lazy `.*?` stops at the first `*/` at or after the given index; none exists when it reports none |
| CommentStrip.StripBlockComments | backend.py:291 | the block-comment pass only deletes characters (the result is a sub-multiset of the input); which characters go is stated by the four lemmas below |
| CommentStrip.BlockCommentRemoved | backend.py:291 | for `p` without `/*` and `m` without `*/`, the pass turns `p + "/*" + m + "*/" + t` into `p` followed by the pass over `t`: the text before an opening stays, and the comment goes up to its first closing (non-greedy), newlines included |
| CommentStrip.UnclosedBlockStays | backend.py:291 | text without `*/` comes through the pass unchanged: an opening with no closing removes nothing |
| CommentStrip.UnclosedOpeningStays | backend.py:291 | text that starts with an opening and has no `*/` from index 2 on comes through unchanged, even when the opening's star is followed by `/` |
| CommentStrip.BlockPassKeepsPrefix | backend.py:291 | text without `/*` stays, unchanged, in front of the pass over what follows, unless what follows starts with `*` and completes an opening |
| CommentStrip.StrippedNonBlank | backend.py:294 | every kept line is non-empty and stripped, no more lines than the input, and every character comes from an input line |
| CommentStrip.StrippedNonBlankFilters | backend.py:294 | the line filter judges each line on its own: it splits over concatenation, and one line gives its stripped text, or nothing when that is blank; so every non-blank line is kept, stripped, in order |
| CommentStrip.CollapseLines | backend.py:294-295 | empty exactly when no line is non-blank; otherwise splitting the result at newlines gives back exactly the stripped non-blank lines, in order; every character is a newline or comes from the input |
| CommentStrip.CleanCode | backend.py:286-295 | no `#` in the output; every output line non-empty and stripped; no character is invented; for text without `/*`, the result is the lines cut at their first `#`, then at their first `//`, stripped, the blank ones dropped, joined by newlines |
| CommentStrip.PassesPerLine | backend.py:289-295 | for text without `/*`, the three passes and the line collapse equal the per-line reference: cut each line at `#` and at `//`, keep the stripped non-blank ones, join with newlines |
| CommentStrip.CleanCodeDropsCommentLine | backend.py:289-295 | a `#` comment line whose text has no `/` or newline, followed by a code line with no `#`, `/`, newline or surrounding whitespace, gives exactly the code line |
| CommentStrip.CleanCodeExample | backend.py:286-295 | `"# comment\nprint(\"Hello\")\n"` cleans to `print("Hello")` |
| CommentStrip.LinePassIdentity | backend.py:289-290 | a line-comment pass over text without the marker is the identity |
| CommentStrip.BlockPassIdentity | backend.py:291 | the block pass over text without `/*` is the identity |
| CommentStrip.CleanCodeWithoutComments | backend.py:289-295 | text with no `#`, `//` or `/*` comes out as its stripped non-blank lines joined by single newlines, so code lines survive verbatim |
| PyText.Strip | backend.py:294 | `strip()` gives a trimmed slice of the input with only whitespace before and after it; empty exactly when the input is all whitespace; identity on trimmed text |
| PyText.StripIsTheTrimmedSlice | backend.py:294 | a trimmed slice with only whitespace around it is what `strip()` returns, so the slice is unique |
| PyText.Split | backend.py:294 | `split('\n')` gives at least one part, no part contains the separator, and joining the parts back gives the input |
| PyText.SplitOfJoin | backend.py:295 | splitting a join of separator-free parts gives the parts back |
| PyText.Lower | backend.py:278 | `lower()` keeps the length, maps each character, and leaves no ASCII capital |
| PyText.Contains | backend.py:278 | `pat in s` holds exactly when `pat` occurs at some index of `s` |
| PyText.Basename | backend.py:331 | `os.path.basename`: the longest slash-free suffix of the path |
| PyText.PyTake | backend.py:284 | `s[:k]` is a prefix of `s` of length `min(k, n)` for `k >= 0` and `max(0, n + k)` for negative `k` |
| PyText.JoinContainsPart | backend.py:331 | each part of a join occurs in it |
| Tokenizer.KeepWordAndSpace | backend.py:267 | `re.sub(r'[^\w\s]', '', s)` keeps only word and space characters and never lengthens the text |
| Tokenizer.KeepWordAndSpaceFilters | backend.py:267 | the substitution judges each character on its own: it splits over concatenation, and one character stays exactly when it is a word or space character |
| Tokenizer.SplitWhitespace | backend.py:267 | `split()` gives non-empty whitespace-free words that together are exactly the non-space characters of the input, in order |
| Tokenizer.SplitWhitespaceAtSpace | backend.py:267 | every whitespace character separates: `split()` of `u + c + v` is `split()` of `u` followed by `split()` of `v` |
| Tokenizer.SplitWhitespaceTakesWord | backend.py:267 | a run of non-space characters ended by whitespace or the end of the text is one word |
| Tokenizer.SplitWhitespaceSkipsSpace | backend.py:267 | leading whitespace gives no word |
| Tokenizer.Tokenize | backend.py:267 | every token is non-empty and holds only lower-case word characters; together the tokens are exactly the word characters of the lower-cased text, in order |
| Tokenizer.TokenizeSplitsAtSpace | backend.py:267 | a whitespace character splits the tokens: the tokens of `a + c + b` are those of `a` followed by those of `b` |
| Tokenizer.TokenizeDropsPunctuation | backend.py:267 | a character that is neither a word nor a space character is deleted before the split, so it joins its neighbours |
| Tokenizer.TokenizeOfWord | backend.py:267 | a non-empty run of word characters is one token, lower-cased |
| Tokenizer.TokenizeOfJoin | backend.py:119 | tokenizing a space-joined list of tokens gives the list back, so tokenizing is idempotent |
| StableSort.Insert | backend.py:317 | inserting into an ordered list keeps it ordered and adds exactly the element (as multisets) |
| StableSort.Sort | backend.py:317 | the result is ordered (non-increasing score, ties in input order) and a permutation of the input |
| StableSort.SortByScore | backend.py:317 | `sorted(zip(scores, items), reverse=True)`: ordered and a permutation of the zipped pairs; each entry is the pair at its recorded position; every position appears exactly once; length is that of the shorter list |
| StableSort.TakeBest | backend.py:317-319 | the first `n` sorted pairs: `min(n, len)` entries, ordered, distinct positions, each entry beating every pair left out, items a sub-multiset of the input |
| Wire.LastKeyIndex | endee_client.py:121-122 | the index of the last entry with the key, or -1 exactly when no entry has it |
| Wire.Lookup | endee_client.py:121-122 | `data['results']` on a decoded dict: absent exactly when no entry has the key; otherwise the value of the last entry with it |
| EndeeClient.Connect | endee_client.py:12-46 | a new client is valid and empty, and local exactly when index creation raised or answered outside {200, 400, 409} |
| EndeeClient.Insert | endee_client.py:48-81 | always returns true; the vector goes to the server exactly when the client is remote and the write answers 200, and then the client is unchanged; otherwise the client is local and the record `{id, vector, metadata or {}}` is appended |
| EndeeClient.SetMetadata | endee_client.py:86-88 | every record with the id gets the new metadata, others keep theirs; ids, vectors, order and length unchanged |
| EndeeClient.UpdateMetadata | endee_client.py:83-99 | a local client replaces the metadata of every record with the id and nothing else; a remote client is unchanged |
| EndeeClient.Scores | endee_client.py:149-158 | one score per stored record, in store order: the cosine when both norms are positive, else 0 |
| EndeeClient.Ranking | endee_client.py:148-166 | every stored record exactly once with its score, ordered by non-increasing score, ties in store order |
| EndeeClient.LocalSearch | endee_client.py:140-167 | no matches for an empty store; `min(top_k, n)` matches for `top_k >= 0` (Python slicing otherwise); the k-th match is the k-th ranked record; float scores never increase |
| EndeeClient.LocalSearchKeepsBest | endee_client.py:165-167 | every returned match scores at least as high as any stored record left out |
| EndeeClient.DecodeHits | endee_client.py:126-133 | one hit per row that is a list of at least four fields, in order: score is field 0, id is field 1, metadata is decoded from field 3; other rows are skipped |
| EndeeClient.DecodeHitsFilters | endee_client.py:126-133 | each row is judged on its own: decoding splits over concatenation; a hit row gives its hit and any other row gives nothing |
| EndeeClient.Search | endee_client.py:101-138 | a local client, a non-200 status, an exception, an undecodable body or a non-iterable result list all give the local search; otherwise the decoded hits; a remote valid client's fallback finds nothing |
| EndeeClient.DecodeOfEncode | endee_client.py:117-135 | for both accepted body shapes, decoding the server's encoding of some hits gives those hits back |
| EndeeClient.LocalModeIsSticky | endee_client.py:38-81 | once local, every sequence of calls leaves the client local |
| EndeeClient.RunKeepsValid | endee_client.py:53-59 | every sequence of calls keeps a remote client's memory store empty |
| EndeeClient.StoreOnlyGrows | endee_client.py:53-99 | the store never shrinks, and stored records keep their place, id and vector under any calls |
| EndeeClient.InsertedVectorRanksFirst | endee_client.py:140-167 | after a vector lands in memory, searching for it gives a first hit scoring its self-similarity |
| Retrieval.AddUnseenSpec | backend.py:270-275 | vector documents stay in front, untouched and not deduplicated; each appended document is a BM25 hit whose text differs from all before it; every hit's text ends up in the list |
| Retrieval.AddUnseenIsFresh | backend.py:270-275 | the merge is the documents followed by the fresh hits in hit order, where a hit is fresh when its text is in neither the documents nor an earlier hit: the first hit of each new text is kept |
| Retrieval.ReadmeChunks | backend.py:279 | a chunk is selected exactly when it is a chunk whose lower-cased source contains `readme.md` |
| Retrieval.ReadmeChunksFilters | backend.py:279 | the selection keeps chunk order and multiplicity: it splits over concatenation, and one chunk gives itself exactly when it is a README chunk |
| Retrieval.PrependAbsentSpec | backend.py:280-282 | the merged list stays, in order, at the end; everything before it is a README candidate whose text is found nowhere behind it; every candidate's text ends up in the list |
| Retrieval.PrependAbsentIsReversedFresh | backend.py:280-282 | the insertion loop puts the fresh candidates in front of the list, the last inserted first |
| Retrieval.Boosted | backend.py:277-282 | when the boost fires, the fresh ones among the first two README chunks stand in front of the merged list, the last inserted first; otherwise the merged list is unchanged |
| Retrieval.Merged | backend.py:258-275 | vector documents first and in order; without BM25 nothing else; with it, exactly the fresh keyword hits follow, in hit order, each with a text new to the list, and every hit's text is in the list |
| Retrieval.HybridSearch | backend.py:247-284 | for `top_k >= 0`, exactly the first `min(2 * top_k, n)` of the `n` boosted documents; a prefix of the merged list when the boost does not fire |
| Retrieval.FrontCandidateSurvives | backend.py:280-284 | when the list fits the cut, some offered README chunk's text survives the cut |
| Retrieval.BoostedReadmeSurvives | backend.py:277-284 | when both searches return at most `top_k` documents, a fired boost keeps the text of one of the first two README chunks in the result |
| Retrieval.Rerank | backend.py:314-319 | no candidates stay none (the cross-encoder is not consulted); otherwise the three best-scored candidates, best first, ties in candidate order; `min(3, n)` of them with one score per candidate; always a sub-multiset of the candidates |
| QueryPipeline.QuerySources | backend.py:148-158 | each question opens a fresh client whose store is empty and which is local exactly when index creation failed |
| QueryPipeline.QueryMatches | backend.py:308-311 | vector hits come only when both the index-create and the search request got through |
| QueryPipeline.Retrieve | backend.py:311-319 | no candidates give no documents; otherwise the three best-scored hybrid-search candidates, best first, ties in candidate order: `min(3, n)` documents when each candidate is scored; always a sub-multiset of the candidates |
| QueryPipeline.CleanDocs | backend.py:327-328 | each document's text is replaced by its cleaned text, metadata kept |
| QueryPipeline.ContextDocs | backend.py:311-328 | the retrieved documents, in order, each with its text cleaned and its metadata kept; none contains `#` |
| QueryPipeline.ContextShowsEveryDocument | backend.py:331 | every document's `Source:`/`Code:` block is in the context text |
| QueryPipeline.PromptShowsEveryDocument | backend.py:331-341 | the prompt of a question contains the question and the `Source:`/`Code:` block of every context document |
| QueryPipeline.FallbackListsEveryDocument | backend.py:366-371 | the fallback contains, for every document, its entry numbered from 1 in plain decimal (no leading zero) with its file name and its first `min(800, n)` characters |
| QueryPipeline.Respond | backend.py:343-374 | a complete stream yields its fragments and caches their concatenation with the documents under the question; a failed one yields what came plus the snippet listing (message mentions connection or refused) or `Error: <message>`, and leaves the cache alone; an abandoned one yields what came and writes nothing; no other key changes |
| QueryPipeline.RespondKeepsCacheWellFormed | backend.py:362 | answering with at most three comment-free documents keeps every cache entry that way |
| QueryPipeline.AskQuestion | backend.py:297-374 | the answer for the prompt built from the context documents, as `Respond` says; the cache stays well formed and changes at most under the question |
| QueryPipeline.SessionKeepsCache | backend.py:362 | over any sequence of questions the cache stays well formed, gains no key but the questions asked, and keeps other entries unchanged |

## Behaviour worth knowing

The model follows the code in each of these cases:

- **Record ids are not unique.** A local insert appends a record even when
  its id is already stored, so `UpdateMetadata` updates every record with
  that id.
- **Deduplication is incomplete.** Vector matches are not deduplicated among
  themselves. Only a keyword hit is checked against the documents before
  it.
- **What the README boost guarantees.** It offers only the first two README
  chunks of the repository, and the cut to `2 * top_k` can drop them.
  `BoostedReadmeSurvives` proves what does hold: when both searches return at
  most `top_k` documents, one of those two chunks survives. The first chunk
  need not be the one: when it is already present and the second is inserted
  in front, the first can be cut off.
- **`_local_search` can return more than `top_k`.** With a negative `top_k`,
  Python slicing returns `n + top_k` matches. `top_k` is never negative on
  the paths the code actually runs.
- **The local fallback of a query always finds nothing.**
  `load_vector_store` opens a new client for every question. In local mode
  its in-memory store is empty, so the vector half of a query returns
  nothing.

## Left out

- HTTP details: URLs, headers, tokens, timeouts and the request payloads (the index body with `dim` 384 and `l2`) are not modelled. Each request is represented by its outcome only: a status or an exception.
- Cosine similarity is a parameter `cos`. Numpy's `dot / (norm * norm)` involves square roots and floating point, so the model does not compute it. Scores are reals; NaN, infinities and rounding are not modelled. `NonZero` stands for `norm > 0`, which ignores underflow. Vectors of mismatched dimension, which make numpy raise, are not modelled.
- msgpack `bin` and `ext` values are not modelled: a decoded value is nil, a boolean, a number, a string, a list or a map.
- PyText.Basename: only the POSIX separator `/` is handled. On Windows, which the code's comments target, `os.path.basename` also splits at `\`, so a source path joined with backslashes gets a different label in the prompt and in the snippet listing.
- CommentStrip.CleanCode: for text containing an opening slash-star, the result is described through the block-pass lemmas (`BlockCommentRemoved`, `UnclosedBlockStays`, `BlockPassKeepsPrefix`), not by one end-to-end formula as for text without one.
- `Lower` and `IsWordChar` cover ASCII only. Python's `str.lower()` and `\w` are Unicode-aware.
- `json.loads` is a parameter that returns a dict of strings or nothing. JSON documents that decode to other values are not modelled, and neither are metadata values that are not strings.
- `EndeeClient.UpdateMetadata`: the call with a missing metadata dict is not modelled, because `insert` only calls it with a non-empty dict. Its constant `True` return value is dropped.
- The timing metrics (`time.time()`, `round`) and the `metrics` part of the cache entry are not modelled. A cache entry holds the answer and the source documents.
- The lazy BM25 rebuild in `load_vector_store` (file walking and chunk splitting) is not modelled. The BM25 index and the chunk list are inputs.
- The `if not db` branch of `ask_question` is left out, because an `EndeeDB` object is always truthy.
- `_clean_code` rewrites `doc.page_content` in place, so the chunks shared with the BM25 chunk list are changed too. The model produces cleaned copies, and each question's chunk list is an input.
- A cache-hit short-circuit is not modelled. The generator never reads the cache, so the code has none, even though a test script expects one.
- Exceptions outside the `try` block are not modelled: the embedder, the hybrid search and the cross-encoder raising. These propagate to the caller.
- Concurrency is not modelled. The code is single-threaded and has no locking.
- `QueryPipeline.AskQuestion`: the streamed fragments are modelled as one finished sequence per outcome, not as values interleaved with the caller.

