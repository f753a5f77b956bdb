/**
 * The search service `SearchService` (src/search_service.py) and the text
 * search path of the gateway (`search_by_text`, `search_vectors` in
 * src/qdrant_manager.py). The vector index itself is an oracle: given the
 * collection, the query vector, the limit, the score threshold and the filter
 * it returns the scored hits, or `None` when the request raised.
 */
module Search {
  import opened Wrappers
  import opened PyText
  import opened Records
  import opened Seqs
  import opened Embedding
  import opened VectorStore

  /** One scored point as `search_vectors` returns it: `{'id', 'score', 'payload'}`. */
  datatype Hit = Hit(id: string, score: real, payload: Payload)

  type Index = (string, Vector, int, real, Option<QueryFilter>) -> Option<seq<Hit>>

  /** An index that honours its arguments: no more than `limit` hits, each above the threshold and admitted by the filter. */
  ghost predicate Honours(index: Index) {
    forall name: string, q: Vector, limit: int, threshold: real, f: Option<QueryFilter>, hits: seq<Hit> ::
      index(name, q, limit, threshold, f) == Some(hits) ==>
        |hits| <= limit &&
        forall k :: 0 <= k < |hits| ==> hits[k].score >= threshold && Admits(f, hits[k].payload)
  }

  /** A formatted search result; the payload-derived fields keep their dynamic values. */
  datatype SearchResult = SearchResult(
    id: string, score: real, text: Value, documentId: Value, pageNumber: Value, chunkIndex: Value, metadata: Value)

  /**
   * The formatting step of `search`: id and score as-is, the rest from the
   * payload with defaults `''`, `''`, 0, 0 and `{}`.
   */
  function Format(h: Hit): (r: SearchResult)
    ensures r.id == h.id && r.score == h.score
    ensures "text" !in h.payload ==> r.text == VStr("")
    ensures "document_id" !in h.payload ==> r.documentId == VStr("")
    ensures "page_number" !in h.payload ==> r.pageNumber == VInt(0)
    ensures "chunk_index" !in h.payload ==> r.chunkIndex == VInt(0)
    ensures "metadata" !in h.payload ==> r.metadata == VDict(map[])
    ensures "text" in h.payload ==> r.text == h.payload["text"]
    ensures "document_id" in h.payload ==> r.documentId == h.payload["document_id"]
    ensures "page_number" in h.payload ==> r.pageNumber == h.payload["page_number"]
    ensures "chunk_index" in h.payload ==> r.chunkIndex == h.payload["chunk_index"]
    ensures "metadata" in h.payload ==> r.metadata == h.payload["metadata"]
  {
    SearchResult(h.id, h.score,
      Get(h.payload, "text", VStr("")),
      Get(h.payload, "document_id", VStr("")),
      Get(h.payload, "page_number", VInt(0)),
      Get(h.payload, "chunk_index", VInt(0)),
      Get(h.payload, "metadata", VDict(map[])))
  }

  /**
   * `search_by_text`: the query is embedded first; a failed or empty embedding
   * gives no hits without consulting the index, as does a failing index.
   */
  function SearchByText(endpoint: Endpoint, index: Index, name: string, query: string,
                        limit: int, threshold: real, f: Option<QueryFilter>): (hits: seq<Hit>)
    ensures EmbedText(endpoint, query).None? || EmbedText(endpoint, query) == Some([]) ==> hits == []
    ensures EmbedText(endpoint, query).Some? && EmbedText(endpoint, query).value != [] ==>
      hits == index(name, EmbedText(endpoint, query).value, limit, threshold, f).GetOr([])
  {
    match EmbedText(endpoint, query)
    case None => []
    case Some(q) => if q == [] then [] else index(name, q, limit, threshold, f).GetOr([])
  }

  /**
   * `search(query, limit, score_threshold, document_id, page_number)`: the
   * filter is built from the document id and the page number only, and the hits
   * are formatted one to one, in order.
   */
  function SearchDocuments(endpoint: Endpoint, index: Index, name: string, query: string, limit: int,
                           threshold: real, documentId: Option<string>, pageNumber: Option<int>): (r: seq<SearchResult>)
    ensures var hits := SearchByText(endpoint, index, name, query, limit, threshold, CreateFilter(documentId, pageNumber, None));
            |r| == |hits| && forall k :: 0 <= k < |r| ==> r[k] == Format(hits[k])
  {
    Map(SearchByText(endpoint, index, name, query, limit, threshold, CreateFilter(documentId, pageNumber, None)), Format)
  }

  /** `search_similar(text, limit, score_threshold)` */
  function SearchSimilar(endpoint: Endpoint, index: Index, name: string, text: string, limit: int, threshold: real): seq<SearchResult> {
    SearchDocuments(endpoint, index, name, text, limit, threshold, None, None)
  }

  /** `search_by_document(query, document_id, limit)` */
  function SearchByDocument(endpoint: Endpoint, index: Index, name: string, query: string, documentId: string, limit: int): seq<SearchResult> {
    SearchDocuments(endpoint, index, name, query, limit, 0.0, Some(documentId), None)
  }

  /** `search_by_page(query, document_id, page_number, limit)` */
  function SearchByPage(endpoint: Endpoint, index: Index, name: string, query: string, documentId: string,
                        pageNumber: int, limit: int): seq<SearchResult> {
    SearchDocuments(endpoint, index, name, query, limit, 0.0, Some(documentId), Some(pageNumber))
  }

  /** With an index that honours its filter, every result of a search carries the requested document and page, and meets the threshold. */
  lemma SearchHonoursConstraints(endpoint: Endpoint, index: Index, name: string, query: string, limit: int,
                                 threshold: real, documentId: Option<string>, pageNumber: Option<int>)
    requires Honours(index)
    ensures var r := SearchDocuments(endpoint, index, name, query, limit, threshold, documentId, pageNumber);
            |r| <= (if limit < 0 then 0 else limit) &&
            forall k :: 0 <= k < |r| ==>
              r[k].score >= threshold &&
              (documentId.Some? && documentId.value != "" ==> r[k].documentId == VStr(documentId.value)) &&
              (pageNumber.Some? ==> r[k].pageNumber == VInt(pageNumber.value))
  {
    var f := CreateFilter(documentId, pageNumber, None);
    var hits := SearchByText(endpoint, index, name, query, limit, threshold, f);
    var e := EmbedText(endpoint, query);
    if e.Some? && e.value != [] {
      var answer := index(name, e.value, limit, threshold, f);
      if answer.Some? {
        assert |answer.value| <= limit;
        forall k | 0 <= k < |hits|
          ensures Admits(f, hits[k].payload)
        {
        }
        forall k | 0 <= k < |hits|
          ensures documentId.Some? && documentId.value != "" ==> "document_id" in hits[k].payload && hits[k].payload["document_id"] == VStr(documentId.value)
          ensures pageNumber.Some? ==> "page_number" in hits[k].payload && hits[k].payload["page_number"] == VInt(pageNumber.value)
        {
          CreateFilterSemantics(documentId, pageNumber, None, hits[k].payload);
        }
      }
    }
  }

  /** `search_by_document` returns only chunks of that document (given an honest index). */
  lemma SearchByDocumentStaysInDocument(endpoint: Endpoint, index: Index, name: string, query: string, documentId: string, limit: int)
    requires Honours(index) && documentId != ""
    ensures forall r :: r in SearchByDocument(endpoint, index, name, query, documentId, limit) ==> r.documentId == VStr(documentId)
  {
    SearchHonoursConstraints(endpoint, index, name, query, limit, 0.0, Some(documentId), None);
  }

  // --------------------------------------------------- search_with_metadata

  /** The metadata of a result as a dict (a non-dict value offers no keys). */
  function MetadataEntries(r: SearchResult): Payload {
    if r.metadata.VDict? then r.metadata.entries else map[]
  }

  /** A metadata filter: the items of the filter dict, in iteration order. */
  type MetadataFilter = seq<(string, Value)>

  /** Every filter entry is in the result's metadata with an equal value. */
  predicate MatchesMetadata(r: SearchResult, filter: MetadataFilter) {
    forall i :: 0 <= i < |filter| ==> filter[i].0 in MetadataEntries(r) && MetadataEntries(r)[filter[i].0] == filter[i].1
  }

  /** What the filter loop does with one result: keep it, drop it, or raise. */
  datatype Verdict = Keep | Drop | Raise

  /**
   * The filter loop over one metadata value. `key not in metadata` looks up a
   * dict's keys and a string's substrings and raises on any other value; for a
   * string that contains the key, `metadata[key]` raises. The first mismatch
   * ends the loop.
   */
  function FilterVerdict(metadata: Value, filter: MetadataFilter): Verdict {
    if filter == [] then Keep
    else
      var (key, value) := filter[0];
      match metadata
      case VDict(e) => if key !in e || e[key] != value then Drop else FilterVerdict(metadata, filter[1..])
      case VStr(s) => if Contains(s, key) then Raise else Drop
      case _ => Raise
  }

  /** The loop keeps a result exactly when its metadata matches every filter entry. */
  lemma {:induction false} KeepIffMatches(r: SearchResult, filter: MetadataFilter)
    ensures FilterVerdict(r.metadata, filter) == Keep <==> MatchesMetadata(r, filter)
  {
    if filter != [] && r.metadata.VDict? {
      var e := r.metadata.entries;
      var (key, value) := filter[0];
      if key in e && e[key] == value {
        KeepIffMatches(r, filter[1..]);
        assert forall i :: 1 <= i < |filter| ==> filter[i] == filter[1..][i - 1];
      }
    } else if filter != [] {
      assert !MatchesMetadata(r, filter) by {
        assert filter[0].0 !in MetadataEntries(r);
      }
    }
  }

  /**
   * The loop raises exactly when the filter is not empty and the metadata is
   * not a dict, except for a string that lacks the first filter key.
   */
  lemma {:induction false} RaiseIff(metadata: Value, filter: MetadataFilter)
    ensures FilterVerdict(metadata, filter) == Raise <==>
      filter != [] && !metadata.VDict? && (metadata.VStr? ==> Contains(metadata.s, filter[0].0))
  {
    if filter != [] && metadata.VDict? {
      var e := metadata.entries;
      if filter[0].0 in e && e[filter[0].0] == filter[0].1 {
        RaiseIff(metadata, filter[1..]);
      }
    }
  }

  /** Some result makes the filter loop raise. */
  predicate FilterRaises(results: seq<SearchResult>, filter: MetadataFilter) {
    exists k :: 0 <= k < |results| && FilterVerdict(results[k].metadata, filter) == Raise
  }

  /**
   * `search_with_metadata(query, metadata_filter, limit)`: the plain search's
   * results whose metadata matches every filter entry, in order; when the loop
   * raises on some result, the handler returns no results at all.
   */
  function SearchWithMetadata(endpoint: Endpoint, index: Index, name: string, query: string,
                              filter: MetadataFilter, limit: int): (r: seq<SearchResult>)
    ensures var results := SearchDocuments(endpoint, index, name, query, limit, 0.0, None, None);
      FilterRaises(results, filter) ==> r == []
    ensures var results := SearchDocuments(endpoint, index, name, query, limit, 0.0, None, None);
      !FilterRaises(results, filter) ==>
        && IsSubsequence(r, results)
        && (forall k :: 0 <= k < |r| ==> MatchesMetadata(r[k], filter))
        && (forall x :: x in results && MatchesMetadata(x, filter) ==> x in r)
        && |r| == Count(results, x => MatchesMetadata(x, filter))
  {
    var results := SearchDocuments(endpoint, index, name, query, limit, 0.0, None, None);
    if exists k :: 0 <= k < |results| && FilterVerdict(results[k].metadata, filter) == Raise then []
    else
      var keep := (x: SearchResult) => FilterVerdict(x.metadata, filter) == Keep;
      var matches := (x: SearchResult) => MatchesMetadata(x, filter);
      forall x: SearchResult
        ensures keep(x) == matches(x)
      {
        KeepIffMatches(x, filter);
      }
      FilterSame(results, keep, matches);
      FilterIsSubsequence(results, matches);
      CountIsFilterLength(results, matches);
      Filter(results, keep)
  }

  /** An empty metadata filter keeps every result. */
  lemma EmptyMetadataFilterKeepsAll(endpoint: Endpoint, index: Index, name: string, query: string, limit: int)
    ensures SearchWithMetadata(endpoint, index, name, query, [], limit) ==
      SearchDocuments(endpoint, index, name, query, limit, 0.0, None, None)
  {
    var results := SearchDocuments(endpoint, index, name, query, limit, 0.0, None, None);
    FilterAll(results, (x: SearchResult) => FilterVerdict(x.metadata, []) == Keep);
  }

  /** When every result's metadata is a dict, nothing raises and the matching results come back in order. */
  lemma DictMetadataFilters(endpoint: Endpoint, index: Index, name: string, query: string, filter: MetadataFilter, limit: int)
    requires forall r :: r in SearchDocuments(endpoint, index, name, query, limit, 0.0, None, None) ==> r.metadata.VDict?
    ensures SearchWithMetadata(endpoint, index, name, query, filter, limit) ==
      Filter(SearchDocuments(endpoint, index, name, query, limit, 0.0, None, None), x => MatchesMetadata(x, filter))
  {
    var results := SearchDocuments(endpoint, index, name, query, limit, 0.0, None, None);
    forall k | 0 <= k < |results|
      ensures FilterVerdict(results[k].metadata, filter) != Raise
    {
      RaiseIff(results[k].metadata, filter);
    }
    var keep := (x: SearchResult) => FilterVerdict(x.metadata, filter) == Keep;
    var matches := (x: SearchResult) => MatchesMetadata(x, filter);
    forall x: SearchResult
      ensures keep(x) == matches(x)
    {
      KeepIffMatches(x, filter);
    }
    FilterSame(results, keep, matches);
  }

  // -------------------------------------------------- get_search_statistics

  /**
   * The statistics record; `NoResults` is the all-zero record returned for an
   * empty search, `StatisticsFailed` the empty dict of the handler.
   */
  datatype SearchStatistics =
    | NoResults
    | StatisticsFailed
    | Statistics(totalResults: nat, documentCount: nat, pageCount: nat, documents: seq<Value>, pages: seq<Value>)

  function DocumentIdsOf(results: seq<SearchResult>): seq<Value> {
    Map(results, (r: SearchResult) => r.documentId)
  }

  function PageNumbersOf(results: seq<SearchResult>): seq<Value> {
    Map(results, (r: SearchResult) => r.pageNumber)
  }

  /** Every document id and page number can go into a set. */
  predicate HashableKeys(results: seq<SearchResult>) {
    forall k :: 0 <= k < |results| ==> Hashable(results[k].documentId) && Hashable(results[k].pageNumber)
  }

  /**
   * `get_search_statistics(query, limit)`: the counts of results, of distinct
   * document ids and of distinct page numbers, and those distinct values; a
   * dict among the ids or page numbers makes `set(...)` raise.
   */
  function GetSearchStatistics(endpoint: Endpoint, index: Index, name: string, query: string, limit: int): (st: SearchStatistics)
    ensures st.NoResults? <==> SearchDocuments(endpoint, index, name, query, limit, 0.0, None, None) == []
    ensures st.StatisticsFailed? <==>
      var results := SearchDocuments(endpoint, index, name, query, limit, 0.0, None, None);
      results != [] && !HashableKeys(results)
    ensures st.Statistics? ==>
      var results := SearchDocuments(endpoint, index, name, query, limit, 0.0, None, None);
      && st.totalResults == |results|
      && st.documentCount == |Elements(DocumentIdsOf(results))|
      && st.pageCount == |Elements(PageNumbersOf(results))|
      && Elements(st.documents) == Elements(DocumentIdsOf(results))
      && Elements(st.pages) == Elements(PageNumbersOf(results))
      && NoDuplicates(st.documents) && NoDuplicates(st.pages)
  {
    var results := SearchDocuments(endpoint, index, name, query, limit, 0.0, None, None);
    if results == [] then NoResults
    else if !HashableKeys(results) then StatisticsFailed
    else
      DistinctCardinality(DocumentIdsOf(results));
      DistinctCardinality(PageNumbersOf(results));
      Statistics(|results|, |Elements(DocumentIdsOf(results))|, |Elements(PageNumbersOf(results))|,
                 Distinct(DocumentIdsOf(results)), Distinct(PageNumbersOf(results)))
  }

  /**
   * The listed documents and pages are exactly the distinct values counted, and
   * there are at least one and at most as many as results.
   */
  lemma StatisticsCounts(endpoint: Endpoint, index: Index, name: string, query: string, limit: int)
    ensures var st := GetSearchStatistics(endpoint, index, name, query, limit);
            st.Statistics? ==>
              |st.documents| == st.documentCount && |st.pages| == st.pageCount &&
              1 <= st.documentCount <= st.totalResults && 1 <= st.pageCount <= st.totalResults
  {
    var st := GetSearchStatistics(endpoint, index, name, query, limit);
    if st.Statistics? {
      var results := SearchDocuments(endpoint, index, name, query, limit, 0.0, None, None);
      var ds := DocumentIdsOf(results);
      var ps := PageNumbersOf(results);
      NoDuplicatesCardinality(st.documents);
      NoDuplicatesCardinality(st.pages);
      DistinctCardinality(ds);
      DistinctCardinality(ps);
      assert ds[0] in Elements(ds);
      assert ps[0] in Elements(ps);
    }
  }
}
