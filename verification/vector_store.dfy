/**
 * The vector-store gateway `QdrantManager` (src/qdrant_manager.py). The Qdrant
 * server is an in-memory value: unreachable, or a map from collection names to
 * collections, each holding its points in insertion order, which the model's
 * scroll reads in turn. Point ids come from an id-supply function `newId`
 * instead of `uuid.uuid4()`.
 */
module VectorStore {
  import opened Wrappers
  import opened PyText
  import opened Records
  import opened Seqs

  datatype Point = Point(id: string, vector: Vector, payload: Payload)

  /** A collection: the configured vector size and the stored points. */
  datatype Collection = Collection(size: int, points: seq<Point>)

  /** The server as the client sees it: `connect()` fails, or the collections by name. */
  datatype Server = Unreachable | Reachable(collections: map<string, Collection>)

  /** `config.QDRANT_COLLECTION_NAME` with no environment override. */
  const DefaultCollection: string := "pdf_documents"

  /**
   * The collection a `QdrantManager(collection_name=name)` works on: the given
   * name when truthy, else the configured default.
   */
  function TargetCollection(name: string): (r: string)
    ensures r != ""
    ensures name != "" ==> r == name
  {
    if name != "" then name else DefaultCollection
  }

  /** Vector size used when the embedding service cannot even be constructed. */
  const DefaultVectorSize: int := 768

  /** The `limit` of every `scroll` the gateway issues. */
  const ScrollLimit: nat := 10000

  /** Every stored vector has its collection's size (the server enforces it on upsert). */
  ghost predicate WellFormed(s: Server) {
    s.Reachable? ==>
      forall name :: name in s.collections ==>
        forall p :: p in s.collections[name].points ==> |p.vector| == s.collections[name].size
  }

  // -------------------------------------------------------- create_collection

  /**
   * `create_collection(vector_size)`: nothing happens (and the call succeeds)
   * when the name already exists; otherwise an empty collection is created whose
   * size is the requested one, else the embedding service's dimension (`None`
   * when the service could not be constructed), else 768.
   */
  function CreateCollection(s: Server, name: string, vectorSize: Option<int>, dimension: Option<int>): (r: (Server, bool))
    ensures r.1 <==> s.Reachable?
    ensures r.1 ==> r.0.Reachable? && name in r.0.collections
    ensures s.Reachable? && name in s.collections ==> r.0 == s
    ensures s.Reachable? && name !in s.collections ==>
      r.0.collections[name].points == [] &&
      r.0.collections[name].size == (if vectorSize.Some? then vectorSize.value
                                     else if dimension.Some? then dimension.value
                                     else DefaultVectorSize)
    ensures s.Reachable? ==> forall n :: n in s.collections ==> n in r.0.collections && r.0.collections[n] == s.collections[n]
    ensures s.Unreachable? ==> r.0 == s
  {
    match s
    case Unreachable => (s, false)
    case Reachable(cols) =>
      if name in cols then (s, true)
      else
        var size := vectorSize.GetOr(dimension.GetOr(DefaultVectorSize));
        (Reachable(cols[name := Collection(size, [])]), true)
  }

  /** Creating a collection twice is the same as creating it once. */
  lemma CreateCollectionIdempotent(s: Server, name: string, vectorSize: Option<int>, dimension: Option<int>,
                                   vectorSize2: Option<int>, dimension2: Option<int>)
    ensures var once := CreateCollection(s, name, vectorSize, dimension);
            CreateCollection(once.0, name, vectorSize2, dimension2) == once
  {
  }

  lemma CreateCollectionWellFormed(s: Server, name: string, vectorSize: Option<int>, dimension: Option<int>)
    requires WellFormed(s)
    ensures WellFormed(CreateCollection(s, name, vectorSize, dimension).0)
  {
  }

  // ------------------------------------------------------------ store_vectors

  /** `chunk.get('embedding', [])` is truthy. */
  predicate HasEmbedding(c: Chunk) {
    c.embedding.Some? && c.embedding.value != []
  }

  /** `document_id or f"doc_{i}"` */
  function PointDocumentId(documentId: Option<string>, i: nat): (d: string)
    ensures documentId.Some? && documentId.value != "" ==> d == documentId.value
    ensures documentId.None? || documentId.value == "" ==> d == "doc_" + NatToString(i)
  {
    if documentId.Some? && documentId.value != "" then documentId.value else "doc_" + NatToString(i)
  }

  const BaseKeys: set<string> := {"text", "document_id", "chunk_index", "page_number", "chunk_size", "embedding_dimension"}

  /** The six base payload fields of the chunk at position `i`, with their defaults. */
  function BasePayload(c: Chunk, i: nat, documentId: Option<string>, v: Vector): (p: Payload)
    ensures p.Keys == BaseKeys
  {
    map[
      "text" := VStr(c.text),
      "document_id" := VStr(PointDocumentId(documentId, i)),
      "chunk_index" := VInt(c.chunkIndex.GetOr(i)),
      "page_number" := VInt(c.pageNumber.GetOr(0)),
      "chunk_size" := VInt(c.chunkSize.GetOr(0)),
      "embedding_dimension" := VInt(c.embeddingDimension.GetOr(|v|))
    ]
  }

  /**
   * The stored payload: the base fields, then every entry of the chunk's
   * metadata dict copied over them, so metadata wins on a key collision.
   */
  function PointPayload(c: Chunk, i: nat, documentId: Option<string>, v: Vector): (p: Payload)
    ensures p.Keys == BaseKeys + c.metadata.GetOr(map[]).Keys
    ensures forall k :: k in c.metadata.GetOr(map[]) ==> p[k] == c.metadata.value[k]
    ensures forall k :: k in BaseKeys && k !in c.metadata.GetOr(map[]) ==> p[k] == BasePayload(c, i, documentId, v)[k]
  {
    BasePayload(c, i, documentId, v) + c.metadata.GetOr(map[])
  }

  /** The point built for the chunk at position `i` (which has an embedding). */
  function MakePoint(c: Chunk, i: nat, documentId: Option<string>, newId: nat -> string): Point
    requires HasEmbedding(c)
  {
    Point(newId(i), c.embedding.value, PointPayload(c, i, documentId, c.embedding.value))
  }

  /**
   * The points of `chunks`, whose first element sits at position `start` of the
   * input: chunks without an embedding are skipped, every other one yields one point.
   */
  function BuildPoints(chunks: seq<Chunk>, start: nat, documentId: Option<string>, newId: nat -> string): (ps: seq<Point>)
    ensures |ps| <= |chunks|
    ensures forall k :: 0 <= k < |ps| ==> ps[k].vector != []
    decreases |chunks|
  {
    if chunks == [] then []
    else
      (if HasEmbedding(chunks[0]) then [MakePoint(chunks[0], start, documentId, newId)] else [])
      + BuildPoints(chunks[1..], start + 1, documentId, newId)
  }

  /** Building points distributes over concatenation: input order is kept. */
  lemma {:induction false} BuildPointsConcat(xs: seq<Chunk>, ys: seq<Chunk>, start: nat, documentId: Option<string>, newId: nat -> string)
    ensures BuildPoints(xs + ys, start, documentId, newId) ==
      BuildPoints(xs, start, documentId, newId) + BuildPoints(ys, start + |xs|, documentId, newId)
    decreases |xs|
  {
    if xs == [] {
      assert xs + ys == ys;
    } else {
      assert (xs + ys)[1..] == xs[1..] + ys;
      BuildPointsConcat(xs[1..], ys, start + 1, documentId, newId);
    }
  }

  /** One point per chunk that has an embedding. */
  lemma {:induction false} BuildPointsCount(chunks: seq<Chunk>, start: nat, documentId: Option<string>, newId: nat -> string)
    ensures |BuildPoints(chunks, start, documentId, newId)| == Count(chunks, HasEmbedding)
    decreases |chunks|
  {
    if chunks != [] {
      BuildPointsCount(chunks[1..], start + 1, documentId, newId);
    }
  }

  /**
   * Every point comes from the chunk at some input position `j`: its id is
   * `newId(start + j)`, its vector is that chunk's embedding and its payload is
   * built from it.
   */
  lemma {:induction false} BuildPointsOrigin(chunks: seq<Chunk>, start: nat, documentId: Option<string>, newId: nat -> string, k: nat)
      returns (j: nat)
    requires k < |BuildPoints(chunks, start, documentId, newId)|
    ensures j < |chunks| && HasEmbedding(chunks[j])
    ensures BuildPoints(chunks, start, documentId, newId)[k] == MakePoint(chunks[j], start + j, documentId, newId)
  {
    var make := PointMaker(documentId, newId);
    BuildPointsIsKeepMap(chunks, start, documentId, newId);
    j := KeepMapOrigin(chunks, start, HasEmbedding, make, k);
  }

  function PointMaker(documentId: Option<string>, newId: nat -> string): (Chunk, nat) -> Point {
    (c: Chunk, i: nat) => if HasEmbedding(c) then MakePoint(c, i, documentId, newId) else Point("", [], map[])
  }

  lemma {:induction false} BuildPointsIsKeepMap(chunks: seq<Chunk>, start: nat, documentId: Option<string>, newId: nat -> string)
    ensures BuildPoints(chunks, start, documentId, newId) == KeepMap(chunks, start, HasEmbedding, PointMaker(documentId, newId))
    decreases |chunks|
  {
    if chunks != [] {
      BuildPointsIsKeepMap(chunks[1..], start + 1, documentId, newId);
    }
  }

  /** The ids of a list of points. */
  function Ids(ps: seq<Point>): set<string> {
    set p | p in ps :: p.id
  }

  /** `upsert`: points whose id is re-sent are replaced, the new points are added. */
  function Upsert(existing: seq<Point>, incoming: seq<Point>): (r: seq<Point>)
    ensures forall p :: p in incoming ==> p in r
    ensures forall p :: p in existing && p.id !in Ids(incoming) ==> p in r
    ensures forall p :: p in r ==> p in incoming || (p in existing && p.id !in Ids(incoming))
  {
    Filter(existing, (p: Point) => p.id !in Ids(incoming)) + incoming
  }

  /**
   * The vector size of the collection a store writes to: the existing
   * collection's, or the size `create_collection` gives a new one.
   */
  function StoreSize(s: Server, name: string, dimension: Option<int>): int
    requires s.Reachable?
  {
    if name in s.collections then s.collections[name].size else dimension.GetOr(DefaultVectorSize)
  }

  /** Every point's vector has length `size`. */
  predicate FitsSize(ps: seq<Point>, size: int) {
    forall k :: 0 <= k < |ps| ==> |ps[k].vector| == size
  }

  /**
   * `store_vectors(chunks, document_id)`: `False` for an empty list or an
   * unreachable server; otherwise the collection is created if missing (with the
   * embedding service's dimension), the points are built and upserted. The
   * server refuses the upsert, and the call returns `False`, when some vector's
   * length differs from the collection's size.
   */
  function StoreVectors(s: Server, name: string, chunks: seq<Chunk>, documentId: Option<string>,
                        newId: nat -> string, dimension: Option<int>): (r: (Server, bool))
    ensures chunks == [] ==> r == (s, false)
    ensures s.Unreachable? ==> r == (s, false)
    ensures r.1 ==> r.0.Reachable? && name in r.0.collections
    ensures r.1 ==> forall n :: n in r.0.collections && n != name ==> s.Reachable? && n in s.collections && r.0.collections[n] == s.collections[n]
    ensures r.1 <==> chunks != [] && s.Reachable? && FitsSize(BuildPoints(chunks, 0, documentId, newId), StoreSize(s, name, dimension))
  {
    if chunks == [] then (s, false)
    else if s.Unreachable? then (s, false)
    else
      var (s1, _) := CreateCollection(s, name, None, dimension);
      var col := s1.collections[name];
      var ps := BuildPoints(chunks, 0, documentId, newId);
      if !FitsSize(ps, col.size) then (s1, false)
      else (Reachable(s1.collections[name := col.(points := Upsert(col.points, ps))]), true)
  }

  /** A successful store leaves every built point in the collection, and the server well formed. */
  lemma StoreVectorsStores(s: Server, name: string, chunks: seq<Chunk>, documentId: Option<string>,
                           newId: nat -> string, dimension: Option<int>)
    requires WellFormed(s)
    ensures WellFormed(StoreVectors(s, name, chunks, documentId, newId, dimension).0)
    ensures var r := StoreVectors(s, name, chunks, documentId, newId, dimension);
            r.1 ==> forall p :: p in BuildPoints(chunks, 0, documentId, newId) ==> p in r.0.collections[name].points
  {
    if chunks != [] && s.Reachable? {
      var (s1, _) := CreateCollection(s, name, None, dimension);
      CreateCollectionWellFormed(s, name, None, dimension);
      var col := s1.collections[name];
      var ps := BuildPoints(chunks, 0, documentId, newId);
      if FitsSize(ps, col.size) {
        var pts := Upsert(col.points, ps);
        forall p | p in pts
          ensures |p.vector| == col.size
        {
          if p !in ps {
            assert p in col.points;
          }
        }
      }
    }
  }

  // -------------------------------------------------------------- filters

  /** A `FieldCondition` of the filters the gateway builds. */
  datatype Condition =
    | MatchText(key: string, text: string)
    | MatchInt(key: string, n: int)
    | InRange(key: string, lo: int, hi: int)

  /** `Filter(must=conditions)`: every condition must hold. */
  datatype QueryFilter = QueryFilter(must: seq<Condition>)

  predicate Holds(c: Condition, p: Payload) {
    match c
    case MatchText(k, t) => k in p && p[k] == VStr(t)
    case MatchInt(k, n) => k in p && p[k] == VInt(n)
    case InRange(k, lo, hi) => k in p && p[k].VInt? && lo <= p[k].i <= hi
  }

  /** The points a (possibly absent) filter lets through. */
  predicate Admits(f: Option<QueryFilter>, p: Payload) {
    f.None? || forall k :: 0 <= k < |f.value.must| ==> Holds(f.value.must[k], p)
  }

  /**
   * `create_filter(document_id, page_number, chunk_size_range)`: one condition
   * per given constraint, in that order; `None` when there is none. The document
   * id counts only when truthy, the page number whenever it is not `None`.
   */
  function CreateFilter(documentId: Option<string>, pageNumber: Option<int>, sizeRange: Option<(int, int)>): (r: Option<QueryFilter>)
    ensures r.None? <==> (documentId.None? || documentId.value == "") && pageNumber.None? && sizeRange.None?
    ensures r.Some? ==> 1 <= |r.value.must| <= 3
  {
    var byDoc := if documentId.Some? && documentId.value != "" then [MatchText("document_id", documentId.value)] else [];
    var byPage := if pageNumber.Some? then [MatchInt("page_number", pageNumber.value)] else [];
    var bySize := if sizeRange.Some? then [InRange("chunk_size", sizeRange.value.0, sizeRange.value.1)] else [];
    var conditions := byDoc + byPage + bySize;
    if conditions == [] then None else Some(QueryFilter(conditions))
  }

  /** What `create_filter`'s result means for a payload: each given constraint, and nothing else. */
  lemma CreateFilterSemantics(documentId: Option<string>, pageNumber: Option<int>, sizeRange: Option<(int, int)>, p: Payload)
    ensures Admits(CreateFilter(documentId, pageNumber, sizeRange), p) <==>
      (documentId.Some? && documentId.value != "" ==> "document_id" in p && p["document_id"] == VStr(documentId.value)) &&
      (pageNumber.Some? ==> "page_number" in p && p["page_number"] == VInt(pageNumber.value)) &&
      (sizeRange.Some? ==> "chunk_size" in p && p["chunk_size"].VInt? && sizeRange.value.0 <= p["chunk_size"].i <= sizeRange.value.1)
  {
    var f := CreateFilter(documentId, pageNumber, sizeRange);
    if f.Some? {
      var byDoc := if documentId.Some? && documentId.value != "" then [MatchText("document_id", documentId.value)] else [];
      var byPage := if pageNumber.Some? then [MatchInt("page_number", pageNumber.value)] else [];
      var bySize := if sizeRange.Some? then [InRange("chunk_size", sizeRange.value.0, sizeRange.value.1)] else [];
      assert f.value.must == byDoc + byPage + bySize;
      if byDoc != [] {
        assert f.value.must[0] == byDoc[0];
      }
      if byPage != [] {
        assert f.value.must[|byDoc|] == byPage[0];
      }
      if bySize != [] {
        assert f.value.must[|byDoc| + |byPage|] == bySize[0];
      }
    }
  }

  // --------------------------------------------------------- delete_document

  /** The `document_id` match the gateway uses to find a document's points. */
  predicate OfDocument(p: Point, documentId: string) {
    "document_id" in p.payload && p.payload["document_id"] == VStr(documentId)
  }

  /** `scroll(filter=…, limit=n)`: the first `n` points that pass. */
  function Scroll(points: seq<Point>, keep: Point -> bool, limit: nat): (r: seq<Point>)
    ensures |r| <= limit
    ensures forall k :: 0 <= k < |r| ==> keep(r[k]) && r[k] in points
  {
    Take(Filter(points, keep), limit)
  }

  function PointIds(ps: seq<Point>): seq<string> {
    Map(ps, (p: Point) => p.id)
  }

  /**
   * `delete_document(document_id)`: the ids of (at most 10000 of) the document's
   * points are scrolled and exactly those points deleted; `True` without any
   * deletion when the document has no point. A missing collection makes the
   * scroll raise, hence `False`.
   */
  function DeleteDocument(s: Server, name: string, documentId: string): (r: (Server, bool))
    ensures r.1 <==> s.Reachable? && name in s.collections
    ensures !r.1 ==> r.0 == s
    ensures r.1 ==> r.0.Reachable? && r.0.collections.Keys == s.collections.Keys
    ensures r.1 ==> forall n :: n in s.collections && n != name ==> r.0.collections[n] == s.collections[n]
    ensures r.1 ==> r.0.collections[name].size == s.collections[name].size
    ensures r.1 ==> forall p :: p in r.0.collections[name].points ==> p in s.collections[name].points
  {
    if s.Unreachable? || name !in s.collections then (s, false)
    else
      var col := s.collections[name];
      var ids := PointIds(Scroll(col.points, p => OfDocument(p, documentId), ScrollLimit));
      if ids == [] then (s, true)
      else (Reachable(s.collections[name := col.(points := Filter(col.points, (p: Point) => p.id !in ids))]), true)
  }

  /** No two points of a collection share an id. */
  predicate UniqueIds(ps: seq<Point>) {
    forall i, j :: 0 <= i < j < |ps| ==> ps[i].id != ps[j].id
  }

  lemma ScrolledIds(points: seq<Point>, documentId: string, p: Point)
    requires UniqueIds(points) && p in points
    ensures p.id in PointIds(Scroll(points, q => OfDocument(q, documentId), ScrollLimit)) ==> OfDocument(p, documentId)
  {
    var sc := Scroll(points, q => OfDocument(q, documentId), ScrollLimit);
    if p.id in PointIds(sc) {
      var k :| 0 <= k < |sc| && PointIds(sc)[k] == p.id;
      var q := sc[k];
      assert OfDocument(q, documentId) && q in points;
      var i :| 0 <= i < |points| && points[i] == p;
      var j :| 0 <= j < |points| && points[j] == q;
      assert i == j;
    }
  }

  /** Deleting a document keeps every point of every other document. */
  lemma DeleteKeepsOtherDocuments(s: Server, name: string, documentId: string, p: Point)
    requires s.Reachable? && name in s.collections && UniqueIds(s.collections[name].points)
    requires p in s.collections[name].points && !OfDocument(p, documentId)
    ensures p in DeleteDocument(s, name, documentId).0.collections[name].points
  {
    ScrolledIds(s.collections[name].points, documentId, p);
  }

  /**
   * When the document has at most 10000 points, none of them survives the
   * deletion (the scroll limit is the only reason one could).
   */
  lemma DeleteRemovesDocument(s: Server, name: string, documentId: string)
    requires s.Reachable? && name in s.collections
    requires Count(s.collections[name].points, p => OfDocument(p, documentId)) <= ScrollLimit
    ensures forall p :: p in DeleteDocument(s, name, documentId).0.collections[name].points ==> !OfDocument(p, documentId)
  {
    var col := s.collections[name];
    var keep := (p: Point) => OfDocument(p, documentId);
    CountIsFilterLength(col.points, keep);
    var sc := Scroll(col.points, keep, ScrollLimit);
    assert sc == Filter(col.points, keep);
    var ids := PointIds(sc);
    forall p | p in col.points && OfDocument(p, documentId)
      ensures p.id in ids
    {
      var k :| 0 <= k < |sc| && sc[k] == p;
      assert ids[k] == p.id;
    }
  }

  // ------------------------------------------------ listing and metadata

  predicate HasDocumentKey(p: Point) {
    "document_id" in p.payload
  }

  /** The document ids of the points of one scroll page (the first 10000 points). */
  function ScannedDocumentIds(points: seq<Point>): seq<Value> {
    Map(Filter(Take(points, ScrollLimit), HasDocumentKey), DocumentIdOf)
  }

  /** `payload['document_id']` of a point that has the key. */
  function DocumentIdOf(p: Point): Value {
    Get(p.payload, "document_id", VNone)
  }

  /** Some scanned point carries a `document_id` that a set cannot hold (a dict). */
  predicate UnhashableScanned(points: seq<Point>) {
    exists p :: p in Take(points, ScrollLimit) && HasDocumentKey(p) && !Hashable(p.payload["document_id"])
  }

  /**
   * `get_documents()`: the distinct `document_id` values among the scanned
   * points, ignoring points without that key; `[]` when the server is unreachable
   * or the collection is missing, and from the handler when adding an
   * unhashable id to the set raises. (The code returns a set's order; the model
   * fixes first occurrence.)
   */
  function GetDocuments(s: Server, name: string): (r: seq<Value>)
    ensures NoDuplicates(r)
    ensures s.Unreachable? || name !in s.collections ==> r == []
    ensures s.Reachable? && name in s.collections && UnhashableScanned(s.collections[name].points) ==> r == []
    ensures s.Reachable? && name in s.collections && !UnhashableScanned(s.collections[name].points) ==>
      forall v :: v in r <==> exists p :: p in Take(s.collections[name].points, ScrollLimit) && HasDocumentKey(p) && p.payload["document_id"] == v
  {
    if s.Unreachable? || name !in s.collections then []
    else
      var points := s.collections[name].points;
      var scanned := ScannedDocumentIds(points);
      ScannedDocumentIdsSpec(points);
      if exists k :: 0 <= k < |scanned| && !Hashable(scanned[k]) then
        assert UnhashableScanned(points) by {
          var k :| 0 <= k < |scanned| && !Hashable(scanned[k]);
          assert scanned[k] in scanned;
        }
        []
      else
        assert !UnhashableScanned(points) by {
          forall p | p in Take(points, ScrollLimit) && HasDocumentKey(p)
            ensures Hashable(p.payload["document_id"])
          {
            assert p.payload["document_id"] in scanned;
          }
        }
        Distinct(scanned)
  }

  lemma ScannedDocumentIdsSpec(points: seq<Point>)
    ensures forall v :: v in ScannedDocumentIds(points) <==>
      exists p :: p in Take(points, ScrollLimit) && HasDocumentKey(p) && p.payload["document_id"] == v
  {
    var kept := Filter(Take(points, ScrollLimit), HasDocumentKey);
    var ids := ScannedDocumentIds(points);
    forall v | v in ids
      ensures exists p :: p in Take(points, ScrollLimit) && HasDocumentKey(p) && p.payload["document_id"] == v
    {
      var k :| 0 <= k < |ids| && ids[k] == v;
      assert kept[k] in Take(points, ScrollLimit);
    }
    forall v | exists p :: p in Take(points, ScrollLimit) && HasDocumentKey(p) && p.payload["document_id"] == v
      ensures v in ids
    {
      var p :| p in Take(points, ScrollLimit) && HasDocumentKey(p) && p.payload["document_id"] == v;
      var k :| 0 <= k < |kept| && kept[k] == p;
      assert ids[k] == v;
    }
  }

  /**
   * `get_document_metadata(document_id)`: the first matching point's
   * `payload["metadata"]`, or its whole payload when it has no such key; `{}`
   * when no point matches or the server cannot answer.
   */
  function GetDocumentMetadata(s: Server, name: string, documentId: string): (r: Value)
    ensures s.Unreachable? || name !in s.collections ==> r == VDict(map[])
    ensures s.Reachable? && name in s.collections && (forall p :: p in s.collections[name].points ==> !OfDocument(p, documentId)) ==>
      r == VDict(map[])
    ensures r != VDict(map[]) ==> exists p :: (p in s.collections[name].points && OfDocument(p, documentId) &&
      r == Get(p.payload, "metadata", VDict(p.payload)))
    ensures s.Reachable? && name in s.collections ==>
      var ps := s.collections[name].points;
      forall i :: 0 <= i < |ps| && OfDocument(ps[i], documentId) && (forall j :: 0 <= j < i ==> !OfDocument(ps[j], documentId)) ==>
        r == Get(ps[i].payload, "metadata", VDict(ps[i].payload))
    ensures s.Reachable? && name in s.collections && (exists p :: p in s.collections[name].points && OfDocument(p, documentId)) ==>
      exists p :: p in s.collections[name].points && OfDocument(p, documentId) && r == Get(p.payload, "metadata", VDict(p.payload))
  {
    if s.Unreachable? || name !in s.collections then VDict(map[])
    else
      var ps := s.collections[name].points;
      var keep := (p: Point) => OfDocument(p, documentId);
      var first := Scroll(ps, keep, 1);
      forall i | 0 <= i < |ps| && OfDocument(ps[i], documentId) && (forall j :: 0 <= j < i ==> !OfDocument(ps[j], documentId))
        ensures first != [] && first[0] == ps[i]
      {
        FilterFirst(ps, keep, i);
      }
      forall p | p in ps && keep(p)
        ensures first != []
      {
        var k :| 0 <= k < |ps| && ps[k] == p;
        assert p in Filter(ps, keep);
      }
      if first == [] then VDict(map[])
      else Get(first[0].payload, "metadata", VDict(first[0].payload))
  }
}
