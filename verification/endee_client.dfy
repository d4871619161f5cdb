/**
 * `EndeeDB`, the vector-store client: a REST client for an Endee server that
 * switches, for good, to an in-memory store with cosine-similarity search
 * when index creation or a vector insert fails. A failed search falls back
 * to the in-memory search for that call only, and a failed metadata update
 * is ignored.
 *
 * The client is a value and every operation a function from the old client
 * to the new one. Each HTTP exchange is a parameter that says what the
 * request came back with. Cosine similarity is a parameter too: numpy's
 * `dot / (norm * norm)` involves a square root, which the model does not
 * compute.
 */
module EndeeClient {
  import opened Wrappers
  import opened PyText
  import opened Wire
  import opened StableSort

  type Vector = seq<real>

  /** A chunk's metadata dict: `source`, `type`, `content`, and so on. */
  type Metadata = map<string, string>

  /** What one HTTP request came back with: a status code, or an exception raised by `requests`. */
  datatype Response = Status(code: int) | Raised

  /** One entry of the in-memory store: `{"id": str(id), "vector": vector, "metadata": metadata}`. */
  datatype Record = Record(id: string, vector: Vector, metadata: Metadata)

  /** The client's state: the fallback flag and the in-memory store. */
  datatype Client = Client(localMode: bool, localData: seq<Record>)

  /** What every client keeps: nothing is stored in memory until the client has gone local. */
  predicate Valid(c: Client) {
    !c.localMode ==> c.localData == []
  }

  // ---------------------------------------------------------------------------
  // Construction: __init__ and _ensure_index

  /** The answers to the index-create request that keep the client remote: created (200) or already there (400, 409). */
  predicate IndexReady(create: Response) {
    create.Status? && create.code in {200, 400, 409}
  }

  /**
   * A new client: an empty store, remote exactly when the index-create
   * request was answered with 200, 400 or 409; any other status and any
   * exception make it local.
   */
  function Connect(create: Response): (c: Client)
    ensures Valid(c)
    ensures c.localData == []
    ensures c.localMode <==> !(create.Status? && create.code in {200, 400, 409})
  {
    Client(!IndexReady(create), [])
  }

  // ---------------------------------------------------------------------------
  // insert and update_metadata

  /** The record `insert` keeps in memory; `metadata or {}` turns a missing dict into an empty one. */
  function NewRecord(id: string, vector: Vector, metadata: Option<Metadata>): Record {
    Record(id, vector, metadata.GetOr(map[]))
  }

  /** Where an inserted vector ended up. */
  datatype Placement = Server | Memory

  /** The client after an insert, the value `insert` returns, and where the vector went. */
  datatype Inserted = Inserted(client: Client, ok: bool, placement: Placement)

  /**
   * `insert(id, vector, metadata)`, where `vectorWrite` is what the
   * vector-insert request came back with. A local client appends the record.
   * A remote client whose request is answered with 200 keeps its state (the
   * metadata update that follows changes nothing locally, and its outcome
   * is ignored). Any other status or an exception turns the client local and
   * the record is appended after all: an insert is never dropped, and it
   * always returns true.
   */
  function Insert(c: Client, id: string, vector: Vector, metadata: Option<Metadata>, vectorWrite: Response): (r: Inserted)
    ensures r.ok
    ensures r.placement == Server <==> !c.localMode && vectorWrite == Status(200)
    ensures r.placement == Server ==> r.client == c
    ensures r.placement == Memory ==>
      r.client.localMode && r.client.localData == c.localData + [NewRecord(id, vector, metadata)]
    decreases if c.localMode then 0 else 1
  {
    if c.localMode then
      Inserted(c.(localData := c.localData + [NewRecord(id, vector, metadata)]), true, Memory)
    else if vectorWrite == Status(200) then
      var c' := if metadata.Some? && |metadata.value| > 0 then UpdateMetadata(c, id, metadata.value) else c;
      Inserted(c', true, Server)
    else
      Insert(c.(localMode := true), id, vector, metadata, vectorWrite)
  }

  /** `records` with the metadata of every record whose id is `id` replaced. */
  function SetMetadata(records: seq<Record>, id: string, metadata: Metadata): (r: seq<Record>)
    ensures |r| == |records|
    ensures forall i :: 0 <= i < |records| ==>
      r[i].id == records[i].id && r[i].vector == records[i].vector &&
      r[i].metadata == (if records[i].id == id then metadata else records[i].metadata)
  {
    seq(|records|, i requires 0 <= i < |records| =>
      if records[i].id == id then records[i].(metadata := metadata) else records[i])
  }

  /**
   * `update_metadata(id, metadata)`: a local client replaces the metadata of
   * every stored record with that id (ids need not be unique) and touches
   * nothing else; a remote client sends the update and keeps its state
   * whatever the server answers.
   */
  function UpdateMetadata(c: Client, id: string, metadata: Metadata): (r: Client)
    ensures r.localMode == c.localMode
    ensures |r.localData| == |c.localData|
    ensures forall i :: 0 <= i < |c.localData| ==>
      r.localData[i].id == c.localData[i].id && r.localData[i].vector == c.localData[i].vector
    ensures forall i :: 0 <= i < |c.localData| ==>
      r.localData[i].metadata ==
        (if c.localMode && c.localData[i].id == id then metadata else c.localData[i].metadata)
  {
    if c.localMode then c.(localData := SetMetadata(c.localData, id, metadata)) else c
  }

  // ---------------------------------------------------------------------------
  // _local_search

  /** A search hit, `{"id": ..., "score": ..., "metadata": ...}`; a server hit holds whatever id and score the response carried. */
  datatype Match = Match(id: Value, score: Value, metadata: Metadata)

  /** `np.linalg.norm(v) > 0`: some coordinate is not zero. */
  predicate NonZero(v: Vector) {
    exists i :: 0 <= i < |v| && v[i] != 0.0
  }

  /** The score of a stored vector: the cosine similarity when both norms are positive, and 0 otherwise. */
  function Similarity(query: Vector, v: Vector, cos: (Vector, Vector) -> real): real {
    if NonZero(query) && NonZero(v) then cos(query, v) else 0.0
  }

  /** The similarity of every stored record to the query, in store order. */
  function Scores(records: seq<Record>, query: Vector, cos: (Vector, Vector) -> real): (r: seq<real>)
    ensures |r| == |records|
    ensures forall i :: 0 <= i < |records| ==> r[i] == Similarity(query, records[i].vector, cos)
  {
    seq(|records|, i requires 0 <= i < |records| => Similarity(query, records[i].vector, cos))
  }

  /**
   * Every stored record with its similarity to the query, best first, equal
   * scores in store order (`results.sort(key=score, reverse=True)` is
   * stable); each record appears exactly once.
   */
  function Ranking(c: Client, query: Vector, cos: (Vector, Vector) -> real): (r: seq<Keyed<Record>>)
    ensures |r| == |c.localData|
    ensures Ordered(r)
    ensures forall k :: 0 <= k < |r| ==>
      r[k].pos < |c.localData| && r[k].item == c.localData[r[k].pos] &&
      r[k].score == Similarity(query, r[k].item.vector, cos)
    ensures forall i, j :: 0 <= i < j < |r| ==> r[i].pos != r[j].pos
    ensures forall p :: 0 <= p < |c.localData| ==> Ranked(r, p)
  {
    SortByScore(Scores(c.localData, query, cos), c.localData)
  }

  /** The hit a stored record gives, with its score as a float. */
  function MatchOf(k: Keyed<Record>): Match {
    Match(Str(k.item.id), Float(k.score), k.item.metadata)
  }

  /**
   * `_local_search(query, top_k)`: an empty store gives no hits; otherwise
   * the first `top_k` entries of the ranking (a Python slice, so a negative
   * `top_k` drops entries from the end), with scores never increasing.
   */
  function LocalSearch(c: Client, query: Vector, topK: int, cos: (Vector, Vector) -> real): (r: seq<Match>)
    ensures c.localData == [] ==> r == []
    ensures topK >= 0 ==> |r| == Min(topK, |c.localData|)
    ensures topK < 0 ==> |r| == Max(0, |c.localData| + topK)
    ensures forall k :: 0 <= k < |r| ==> r[k] == MatchOf(Ranking(c, query, cos)[k])
    ensures forall i, j :: 0 <= i < j < |r| ==> r[i].score.Float? && r[j].score.Float? && r[i].score.f >= r[j].score.f
  {
    if |c.localData| == 0 then []
    else
      var ranking := Ranking(c, query, cos);
      var ranked := PyTake(ranking, topK);
      var r := seq(|ranked|, k requires 0 <= k < |ranked| => MatchOf(ranked[k]));
      MatchesKeepOrder(ranking, r);
      r
  }

  /** Hits taken from the front of an ordered ranking carry float scores that never increase. */
  lemma MatchesKeepOrder(ranking: seq<Keyed<Record>>, r: seq<Match>)
    requires Ordered(ranking) && |r| <= |ranking|
    requires forall k :: 0 <= k < |r| ==> r[k] == MatchOf(ranking[k])
    ensures forall i, j :: 0 <= i < j < |r| ==> r[i].score.Float? && r[j].score.Float? && r[i].score.f >= r[j].score.f
  {
    forall i, j | 0 <= i < j < |r|
      ensures r[i].score.Float? && r[j].score.Float? && r[i].score.f >= r[j].score.f
    {
      assert Precedes(ranking[i], ranking[j]);
    }
  }

  /**
   * The local search returns the best records: every returned hit scores at
   * least as high as any stored record left out of the result.
   */
  lemma LocalSearchKeepsBest(c: Client, query: Vector, topK: int, cos: (Vector, Vector) -> real, p: int)
    requires 0 <= p < |c.localData|
    requires forall k :: 0 <= k < |LocalSearch(c, query, topK, cos)| ==> Ranking(c, query, cos)[k].pos != p
    ensures forall k :: 0 <= k < |LocalSearch(c, query, topK, cos)| ==>
      LocalSearch(c, query, topK, cos)[k].score.f >= Similarity(query, c.localData[p].vector, cos)
  {
    var ranking := Ranking(c, query, cos);
    var r := LocalSearch(c, query, topK, cos);
    assert Ranked(ranking, p);
    var kp :| 0 <= kp < |ranking| && ranking[kp].pos == p;
    assert ranking[kp].score == Similarity(query, c.localData[p].vector, cos);
    assert |r| <= kp;
    PrefixPrecedes(ranking, |r|, kp);
    forall k | 0 <= k < |r|
      ensures r[k].score.f >= ranking[kp].score
    {
      assert r[k] == MatchOf(ranking[k]);
      assert Precedes(ranking[k], ranking[kp]);
    }
  }

  // ---------------------------------------------------------------------------
  // search

  /** What the search request came back with: a status and the body decoded by msgpack (`None` when decoding raised), or an exception. */
  datatype SearchReply = Replied(status: int, body: Option<Value>) | NoReply

  /**
   * The values `for item in v` visits: a list's elements, a str's
   * one-character strings, a dict's keys; `None` for nil, a bool or a
   * number, which are not iterable (TypeError).
   */
  function Iterated(v: Value): Option<seq<Value>> {
    match v
    case List(items) => Some(items)
    case Str(s) => Some(seq(|s|, i requires 0 <= i < |s| => Str([s[i]])))
    case Dict(entries) => Some(seq(|entries|, i requires 0 <= i < |entries| => entries[i].0))
    case _ => None
  }

  /**
   * `results_list`: `data['results']` for a dict that has that key, the first
   * element of a non-empty list whose first element is a list, and nothing
   * otherwise; `None` when iterating over it raises.
   */
  function ResultsList(data: Value): Option<seq<Value>> {
    match data
    case Dict(entries) =>
      (match Lookup(entries, Str("results"))
       case Some(v) => Iterated(v)
       case None => Some([]))
    case List(items) => Some(if |items| > 0 && items[0].List? then items[0].items else [])
    case _ => Some([])
  }

  /**
   * The metadata of a server hit: `json.loads(filter_str) if filter_str else {}`,
   * where an exception gives `{}`. `parseJson` is `json.loads` on documents
   * that denote an object of strings, and `None` on every other document.
   */
  function HitMetadata(filter: Value, parseJson: string -> Option<Metadata>): Metadata {
    if !Truthy(filter) then map[]
    else
      match filter
      case Str(s) => parseJson(s).GetOr(map[])
      case _ => map[]
  }

  /** A row of the wire format that becomes a hit: a list of at least four fields `[score, id, _, filter_json, ...]`. */
  predicate IsHitRow(v: Value) {
    v.List? && |v.items| >= 4
  }

  function HitOf(row: Value, parseJson: string -> Option<Metadata>): Match
    requires IsHitRow(row)
  {
    Match(row.items[1], row.items[0], HitMetadata(row.items[3], parseJson))
  }

  /** The hits of a result list: one per hit row, in order; every other element is skipped. */
  function DecodeHits(rows: seq<Value>, parseJson: string -> Option<Metadata>): (r: seq<Match>)
    ensures |r| <= |rows|
    ensures (forall k :: 0 <= k < |rows| ==> IsHitRow(rows[k])) ==>
      |r| == |rows| && forall k :: 0 <= k < |rows| ==> r[k] == HitOf(rows[k], parseJson)
    ensures (forall k :: 0 <= k < |rows| ==> !IsHitRow(rows[k])) ==> r == []
    decreases |rows|
  {
    if |rows| == 0 then []
    else
      var rest := DecodeHits(rows[1..], parseJson);
      if IsHitRow(rows[0]) then [HitOf(rows[0], parseJson)] + rest else rest
  }

  /** Each row is judged on its own: decoding splits over concatenation, and one row gives its hit or nothing. */
  lemma {:induction false} DecodeHitsFilters(a: seq<Value>, b: seq<Value>, parseJson: string -> Option<Metadata>)
    ensures DecodeHits(a + b, parseJson) == DecodeHits(a, parseJson) + DecodeHits(b, parseJson)
    ensures forall v :: IsHitRow(v) ==> DecodeHits([v], parseJson) == [HitOf(v, parseJson)]
    ensures forall v :: !IsHitRow(v) ==> DecodeHits([v], parseJson) == []
    decreases |a|
  {
    forall v
      ensures DecodeHits([v], parseJson) == if IsHitRow(v) then [HitOf(v, parseJson)] else []
    {
      assert [v][1..] == [];
    }
    if |a| > 0 {
      assert (a + b)[1..] == a[1..] + b;
      DecodeHitsFilters(a[1..], b, parseJson);
    } else {
      assert a + b == b;
    }
  }

  /** The server answered 200 with a body msgpack decoded and whose result list can be iterated. */
  predicate ServerAnswered(reply: SearchReply) {
    reply.Replied? && reply.status == 200 && reply.body.Some? && ResultsList(reply.body.value).Some?
  }

  /**
   * `search(query, top_k)`: a local client searches memory; a remote client
   * decodes the server's hits, and falls back to the in-memory search (for
   * this call only) on a non-200 status, an exception, an undecodable body
   * or a result list that cannot be iterated. Since a remote client stores
   * nothing in memory, that fallback finds nothing.
   */
  function Search(c: Client, query: Vector, topK: int, reply: SearchReply,
                  parseJson: string -> Option<Metadata>, cos: (Vector, Vector) -> real): (r: seq<Match>)
    ensures c.localMode || !ServerAnswered(reply) ==> r == LocalSearch(c, query, topK, cos)
    ensures !c.localMode && ServerAnswered(reply) ==>
      r == DecodeHits(ResultsList(reply.body.value).value, parseJson)
    ensures Valid(c) && !c.localMode && !ServerAnswered(reply) ==> r == []
  {
    if c.localMode then LocalSearch(c, query, topK, cos)
    else
      match reply
      case NoReply => LocalSearch(c, query, topK, cos)
      case Replied(status, body) =>
        if status != 200 then LocalSearch(c, query, topK, cos)
        else
          match body
          case None => LocalSearch(c, query, topK, cos)
          case Some(data) =>
            match ResultsList(data)
            case None => LocalSearch(c, query, topK, cos)
            case Some(rows) => DecodeHits(rows, parseJson)
  }

  // ---------------------------------------------------------------------------
  // The wire format, forwards

  /** The row a server sends for a hit: `[score, id, nil, json.dumps(metadata)]`. */
  function HitRow(m: Match, dumps: Metadata -> string): Value {
    List([m.score, m.id, Nil, Str(dumps(m.metadata))])
  }

  function HitRows(ms: seq<Match>, dumps: Metadata -> string): (r: seq<Value>)
    ensures |r| == |ms|
    ensures forall k :: 0 <= k < |ms| ==> r[k] == HitRow(ms[k], dumps)
  {
    seq(|ms|, k requires 0 <= k < |ms| => HitRow(ms[k], dumps))
  }

  /**
   * Decoding undoes the server's encoding, in both body shapes the client
   * accepts (`{"results": rows}` and `[rows]`), when `parseJson` reads back
   * what `dumps` wrote and a dump is never the empty string.
   */
  lemma {:induction false} DecodeOfEncode(c: Client, query: Vector, topK: int, ms: seq<Match>,
                                          dumps: Metadata -> string, parseJson: string -> Option<Metadata>,
                                          cos: (Vector, Vector) -> real)
    requires !c.localMode
    requires forall k :: 0 <= k < |ms| ==> dumps(ms[k].metadata) != "" && parseJson(dumps(ms[k].metadata)) == Some(ms[k].metadata)
    ensures Search(c, query, topK, Replied(200, Some(Dict([(Str("results"), List(HitRows(ms, dumps)))]))), parseJson, cos) == ms
    ensures Search(c, query, topK, Replied(200, Some(List([List(HitRows(ms, dumps))]))), parseJson, cos) == ms
  {
    var rows := HitRows(ms, dumps);
    assert Lookup([(Str("results"), List(rows))], Str("results")) == Some(List(rows));
    assert ResultsList(Dict([(Str("results"), List(rows))])) == Some(rows);
    assert ResultsList(List([List(rows)])) == Some(rows);
    DecodeHitRows(ms, dumps, parseJson);
  }

  lemma {:induction false} DecodeHitRows(ms: seq<Match>, dumps: Metadata -> string, parseJson: string -> Option<Metadata>)
    requires forall k :: 0 <= k < |ms| ==> dumps(ms[k].metadata) != "" && parseJson(dumps(ms[k].metadata)) == Some(ms[k].metadata)
    ensures DecodeHits(HitRows(ms, dumps), parseJson) == ms
  {
    var rows := HitRows(ms, dumps);
    assert forall k :: 0 <= k < |rows| ==> IsHitRow(rows[k]);
    forall k | 0 <= k < |ms|
      ensures HitOf(rows[k], parseJson) == ms[k]
    {
      assert rows[k].items[3] == Str(dumps(ms[k].metadata));
    }
  }

  // ---------------------------------------------------------------------------
  // Sequences of calls

  /** A call on the client. A search leaves the state as it is, since it only reads. */
  datatype Call =
    | InsertCall(id: string, vector: Vector, metadata: Option<Metadata>, vectorWrite: Response)
    | UpdateCall(id: string, newMetadata: Metadata)
    | SearchCall(query: Vector, topK: int, reply: SearchReply)

  function Step(c: Client, call: Call): Client {
    match call
    case InsertCall(id, vector, metadata, vectorWrite) => Insert(c, id, vector, metadata, vectorWrite).client
    case UpdateCall(id, metadata) => UpdateMetadata(c, id, metadata)
    case SearchCall(_, _, _) => c
  }

  function Run(c: Client, calls: seq<Call>): Client
    decreases |calls|
  {
    if |calls| == 0 then c else Run(Step(c, calls[0]), calls[1..])
  }

  /** Once local, always local: no call ever brings the client back to the server. */
  lemma {:induction false} LocalModeIsSticky(c: Client, calls: seq<Call>)
    requires c.localMode
    ensures Run(c, calls).localMode
    decreases |calls|
  {
    if |calls| > 0 {
      LocalModeIsSticky(Step(c, calls[0]), calls[1..]);
    }
  }

  /** Every sequence of calls keeps the client valid: a remote client never holds records in memory. */
  lemma {:induction false} RunKeepsValid(c: Client, calls: seq<Call>)
    requires Valid(c)
    ensures Valid(Run(c, calls))
    decreases |calls|
  {
    if |calls| > 0 {
      RunKeepsValid(Step(c, calls[0]), calls[1..]);
    }
  }

  /**
   * The store only grows: every record already stored keeps its place, id
   * and vector whatever calls follow (only metadata can change).
   */
  lemma {:induction false} StoreOnlyGrows(c: Client, calls: seq<Call>)
    ensures |Run(c, calls).localData| >= |c.localData|
    ensures forall i :: 0 <= i < |c.localData| ==>
      Run(c, calls).localData[i].id == c.localData[i].id &&
      Run(c, calls).localData[i].vector == c.localData[i].vector
    decreases |calls|
  {
    if |calls| > 0 {
      var next := Step(c, calls[0]);
      StoreOnlyGrows(next, calls[1..]);
      if calls[0].InsertCall? {
        var r := Insert(c, calls[0].id, calls[0].vector, calls[0].metadata, calls[0].vectorWrite);
        assert forall i :: 0 <= i < |c.localData| ==> next.localData[i] == c.localData[i];
      }
    }
  }

  /**
   * An insert that lands in memory is found by a search for the same vector:
   * with `cos` never rating another vector above the vector itself, the
   * first hit scores exactly the vector's self-similarity. (On a tie with an
   * earlier stored copy, that earlier record comes first.)
   */
  lemma InsertedVectorRanksFirst(c: Client, id: string, v: Vector, metadata: Option<Metadata>,
                                 vectorWrite: Response, topK: int, reply: SearchReply,
                                 parseJson: string -> Option<Metadata>, cos: (Vector, Vector) -> real)
    requires Insert(c, id, v, metadata, vectorWrite).placement == Memory
    requires NonZero(v)
    requires forall u :: cos(v, u) <= cos(v, v)
    requires 0.0 <= cos(v, v)
    requires topK >= 1
    ensures var r := Search(Insert(c, id, v, metadata, vectorWrite).client, v, topK, reply, parseJson, cos);
      |r| >= 1 && r[0].score == Float(cos(v, v))
  {
    var c' := Insert(c, id, v, metadata, vectorWrite).client;
    var ranking := Ranking(c', v, cos);
    var n := |c.localData|;
    assert c'.localData[n].vector == v;
    assert Ranked(ranking, n);
    var k :| 0 <= k < |ranking| && ranking[k].pos == n;
    if k > 0 {
      PrefixPrecedes(ranking, 1, k);
    }
    SimilarityAtMostSelf(v, ranking[0].item.vector, cos);
  }

  lemma SimilarityAtMostSelf(v: Vector, u: Vector, cos: (Vector, Vector) -> real)
    requires forall w :: cos(v, w) <= cos(v, v)
    requires 0.0 <= cos(v, v)
    ensures Similarity(v, u, cos) <= cos(v, v)
  {
    if NonZero(v) && NonZero(u) {
      assert cos(v, u) <= cos(v, v);
    }
  }
}
