/**
 * The embedding client (src/embedding_service.py). The remote embedding
 * endpoint is an oracle: given the prompt it returns the reply's "embedding"
 * (possibly empty), or `None` when the request raised.
 */
module Embedding {
  import opened Wrappers
  import opened PyText
  import opened Records
  import opened Seqs

  type Endpoint = string -> Option<Vector>

  /**
   * `embed_text`: blank text is answered with `[]` without calling the endpoint;
   * otherwise the stripped text is sent and the reply (or the failure) passed on.
   */
  function EmbedText(endpoint: Endpoint, text: string): (r: Option<Vector>)
    ensures IsBlank(text) ==> r == Some([])
    ensures !IsBlank(text) ==> r == endpoint(Strip(text))
  {
    if Strip(text) == "" then Some([]) else endpoint(Strip(text))
  }

  // ------------------------------------------------------------ embed_chunks

  /** A chunk `embed_chunks` keeps: non-blank text whose embedding call did not raise. */
  predicate Embeddable(endpoint: Endpoint, c: Chunk) {
    !IsBlank(c.text) && endpoint(Strip(c.text)).Some?
  }

  /** The copy of `c` with `embedding` and `embedding_dimension` set from `v`. */
  function WithEmbedding(c: Chunk, v: Vector): (r: Chunk)
    ensures r.embedding == Some(v) && r.embeddingDimension == Some(|v|)
    ensures r.(embedding := c.embedding, embeddingDimension := c.embeddingDimension) == c
  {
    c.(embedding := Some(v), embeddingDimension := Some(|v|))
  }

  /** The embedded copy of a chunk `embed_chunks` keeps. */
  function Attach(endpoint: Endpoint, c: Chunk): Chunk {
    WithEmbedding(c, endpoint(Strip(c.text)).GetOr([]))
  }

  /**
   * `embed_chunks`: blank chunks are skipped, a chunk whose embedding call raised
   * is skipped, every other chunk is copied with its embedding attached.
   */
  function EmbedChunks(endpoint: Endpoint, chunks: seq<Chunk>): (r: seq<Chunk>)
    ensures |r| <= |chunks|
    ensures chunks == [] ==> r == []
    ensures forall i :: 0 <= i < |r| ==>
      !IsBlank(r[i].text) && r[i].embedding.Some? && r[i].embeddingDimension == Some(|r[i].embedding.value|)
  {
    if chunks == [] then []
    else EmbedOne(endpoint, chunks[0]) + EmbedChunks(endpoint, chunks[1..])
  }

  /** One step of `embed_chunks`: the embedded copy of `c`, or nothing. */
  function EmbedOne(endpoint: Endpoint, c: Chunk): (r: seq<Chunk>)
    ensures Embeddable(endpoint, c) ==> r == [Attach(endpoint, c)]
    ensures !Embeddable(endpoint, c) ==> r == []
  {
    if IsBlank(c.text) then []
    else
      match EmbedText(endpoint, c.text)
      case Some(v) => [WithEmbedding(c, v)]
      case None => []
  }

  /**
   * `embed_chunks` is exactly "keep the embeddable chunks, in order, and attach
   * their embeddings"; in particular an empty vector that was returned (not
   * raised) is kept with dimension 0.
   */
  lemma {:induction false} EmbedChunksIsFilterMap(endpoint: Endpoint, chunks: seq<Chunk>)
    ensures EmbedChunks(endpoint, chunks) ==
      Map(Filter(chunks, c => Embeddable(endpoint, c)), c => Attach(endpoint, c))
  {
    if chunks != [] {
      var p := c => Embeddable(endpoint, c);
      var f := c => Attach(endpoint, c);
      EmbedChunksIsFilterMap(endpoint, chunks[1..]);
      FilterStep(chunks, p);
      var rest := Filter(chunks[1..], p);
      if p(chunks[0]) {
        MapStep([chunks[0]] + rest, f);
        assert ([chunks[0]] + rest)[1..] == rest;
      }
    }
  }

  /** The number of chunks `embed_chunks` returns is the number of embeddable ones. */
  lemma EmbedChunksCount(endpoint: Endpoint, chunks: seq<Chunk>)
    ensures |EmbedChunks(endpoint, chunks)| == Count(chunks, c => Embeddable(endpoint, c))
  {
    EmbedChunksIsFilterMap(endpoint, chunks);
    CountIsFilterLength(chunks, c => Embeddable(endpoint, c));
  }

  // ------------------------------------------------------------- embed_batch

  /** What `embed_batch` records for one text: its embedding, or `[]` when the call raised. */
  function BatchEntry(endpoint: Endpoint, text: string): Vector {
    EmbedText(endpoint, text).GetOr([])
  }

  /** The `ValueError` that `range` raises for a zero step. */
  const ZeroStepError: string := "range() arg 3 must not be zero"

  /**
   * `embed_batch(texts, batch_size)`: the texts are embedded batch by batch; the
   * result is position-aligned with the input. A zero batch size makes `range`
   * raise; a negative one makes the range empty.
   */
  method EmbedBatch(endpoint: Endpoint, texts: seq<string>, batchSize: int) returns (r: Result<seq<Vector>, string>)
    ensures batchSize == 0 <==> r.Failure?
    ensures batchSize < 0 ==> r == Success([])
    ensures batchSize > 0 ==> r.Success? && |r.value| == |texts|
    ensures batchSize > 0 ==> forall k :: 0 <= k < |texts| ==> r.value[k] == BatchEntry(endpoint, texts[k])
  {
    if batchSize == 0 {
      return Failure(ZeroStepError);
    }
    if batchSize < 0 {
      return Success([]);
    }
    var embeddings := Batched(texts, batchSize, (t: string) => BatchEntry(endpoint, t));
    return Success(embeddings);
  }

  /**
   * The loop of `embed_batch` with the per-text call abstracted as `f`: slices of
   * `size` elements are processed in turn and their results appended.
   */
  method Batched<T, U>(xs: seq<T>, size: nat, f: T -> U) returns (ys: seq<U>)
    requires size > 0
    ensures |ys| == |xs|
    ensures forall k :: 0 <= k < |xs| ==> ys[k] == f(xs[k])
  {
    ys := [];
    var i := 0;
    while i < |xs|
      invariant 0 <= i
      invariant |ys| == if i < |xs| then i else |xs|
      invariant forall k :: 0 <= k < |ys| ==> ys[k] == f(xs[k])
      decreases |xs| - i
    {
      var hi := if i + size < |xs| then i + size else |xs|;
      var batch := EachOf(xs[i..hi], f);
      AppendAligned(xs, ys, batch, i, hi, f);
      ys := ys + batch;
      i := i + size;
    }
  }

  /** One batch: `f` of each element, in order. */
  method EachOf<T, U>(batch: seq<T>, f: T -> U) returns (vs: seq<U>)
    ensures |vs| == |batch|
    ensures forall k :: 0 <= k < |batch| ==> vs[k] == f(batch[k])
  {
    vs := [];
    var j := 0;
    while j < |batch|
      invariant 0 <= j <= |batch|
      invariant |vs| == j
      invariant forall k :: 0 <= k < j ==> vs[k] == f(batch[k])
    {
      vs := vs + [f(batch[j])];
      j := j + 1;
    }
  }

  /** Appending the images of `xs[i..hi]` to those of `xs[..i]` gives those of `xs[..hi]`. */
  lemma AppendAligned<T, U>(xs: seq<T>, ys: seq<U>, vs: seq<U>, i: nat, hi: nat, f: T -> U)
    requires i <= hi <= |xs| && |ys| == i && |vs| == hi - i
    requires forall k :: 0 <= k < i ==> ys[k] == f(xs[k])
    requires forall k :: 0 <= k < |vs| ==> vs[k] == f(xs[i..hi][k])
    ensures forall k :: 0 <= k < hi ==> (ys + vs)[k] == f(xs[k])
  {
    forall k | 0 <= k < hi
      ensures (ys + vs)[k] == f(xs[k])
    {
      if k >= i {
        assert (ys + vs)[k] == vs[k - i];
        assert xs[i..hi][k - i] == xs[k];
      }
    }
  }

  // ----------------------------------------------------- dimension and probe

  const DimensionProbe: string := "This is a test text for dimension check."
  const ValidationProbe: string := "Hello, world!"
  const FallbackDimension: int := 1536

  /** `get_embedding_dimension`: the probe embedding's length, or 1536 when the probe raised. */
  function GetEmbeddingDimension(endpoint: Endpoint): (d: int)
    ensures endpoint(DimensionProbe).None? ==> d == FallbackDimension
    ensures endpoint(DimensionProbe).Some? ==> d == |endpoint(DimensionProbe).value|
  {
    StripNoOp(DimensionProbe);
    match EmbedText(endpoint, DimensionProbe)
    case Some(v) => |v|
    case None => FallbackDimension
  }

  /** `validate_model`: true exactly when the probe returns a non-empty embedding. */
  function ValidateModel(endpoint: Endpoint): (ok: bool)
    ensures ok <==> endpoint(ValidationProbe).Some? && endpoint(ValidationProbe).value != []
  {
    StripNoOp(ValidationProbe);
    match EmbedText(endpoint, ValidationProbe)
    case Some(v) => |v| > 0
    case None => false
  }

  // -------------------------------------------------------------- similarity

  function Dot(a: Vector, b: Vector): real
    requires |a| == |b|
  {
    if a == [] then 0.0 else a[0] * b[0] + Dot(a[1..], b[1..])
  }

  function SquaredNorm(a: Vector): real {
    Dot(a, a)
  }

  /**
   * The cosine similarity `dot / (|a| * |b|)`, kept as its exact ingredients;
   * `Zero` is the 0.0 that the guards return.
   */
  datatype Cosine = Zero | Ratio(dot: real, squaredNorm1: real, squaredNorm2: real)

  /**
   * `calculate_similarity`: 0.0 for an empty vector, for vectors of different
   * lengths and for a vector of norm zero; otherwise the ratio of the dot
   * product and the norms.
   */
  function CalculateSimilarity(a: Vector, b: Vector): (r: Cosine)
    ensures r.Zero? <==> a == [] || b == [] || |a| != |b| || SquaredNorm(a) == 0.0 || SquaredNorm(b) == 0.0
    ensures r.Ratio? ==> |a| == |b| && r.dot == Dot(a, b)
    ensures r.Ratio? ==> r.squaredNorm1 == SquaredNorm(a) != 0.0 && r.squaredNorm2 == SquaredNorm(b) != 0.0
  {
    if a == [] || b == [] then Zero
    else if |a| != |b| then Zero
    else if SquaredNorm(a) == 0.0 || SquaredNorm(b) == 0.0 then Zero
    else Ratio(Dot(a, b), SquaredNorm(a), SquaredNorm(b))
  }

  /** The zero vector has norm zero. */
  lemma {:induction false} ZeroVectorNorm(a: Vector)
    requires forall i :: 0 <= i < |a| ==> a[i] == 0.0
    ensures SquaredNorm(a) == 0.0
  {
    if a != [] {
      ZeroVectorNorm(a[1..]);
    }
  }

  /** A zero vector on either side makes the similarity 0.0, whatever the other vector. */
  lemma ZeroVectorSimilarity(a: Vector, b: Vector)
    requires forall i :: 0 <= i < |a| ==> a[i] == 0.0
    ensures CalculateSimilarity(a, b) == Zero && CalculateSimilarity(b, a) == Zero
  {
    ZeroVectorNorm(a);
  }

  lemma {:induction false} DotSymmetric(a: Vector, b: Vector)
    requires |a| == |b|
    ensures Dot(a, b) == Dot(b, a)
  {
    if a != [] {
      DotSymmetric(a[1..], b[1..]);
    }
  }

  /** Similarity is symmetric: swapping the vectors swaps only the norms. */
  lemma SimilaritySymmetric(a: Vector, b: Vector)
    ensures CalculateSimilarity(a, b).Zero? <==> CalculateSimilarity(b, a).Zero?
    ensures CalculateSimilarity(a, b).Ratio? ==>
      CalculateSimilarity(b, a) == Ratio(CalculateSimilarity(a, b).dot, CalculateSimilarity(a, b).squaredNorm2, CalculateSimilarity(a, b).squaredNorm1)
  {
    if |a| == |b| {
      DotSymmetric(a, b);
    }
  }
}
