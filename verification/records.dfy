/**
 * The dynamically typed values the pipeline passes around as Python dicts,
 * and the chunk record that flows from the chunker to the vector store.
 */
module Records {
  import opened Wrappers
  import opened PyText

  /** A JSON-like Python value as stored in payloads and metadata dicts. */
  datatype Value = VStr(s: string) | VInt(i: int) | VNone | VDict(entries: map<string, Value>)

  /** A Python dict with string keys: chunk metadata, point payloads. */
  type Payload = map<string, Value>

  /** An embedding vector. */
  type Vector = seq<real>

  /** Python truthiness: empty string, 0, None and the empty dict are false. */
  predicate Truthy(v: Value) {
    match v
    case VStr(s) => s != ""
    case VInt(i) => i != 0
    case VNone => false
    case VDict(m) => m != map[]
  }

  /** A value that can be a set element or a dict key: anything but a dict. */
  predicate Hashable(v: Value) {
    !v.VDict?
  }

  /** `d.get(k, default)` */
  function Get(d: Payload, k: string, default: Value): (v: Value)
    ensures k in d ==> v == d[k]
    ensures k !in d ==> v == default
  {
    if k in d then d[k] else default
  }

  /** `str(v)` for the scalar values; a dict renders as a fixed placeholder. */
  function Render(v: Value): string {
    match v
    case VStr(s) => s
    case VInt(i) => IntToString(i)
    case VNone => "None"
    case VDict(_) => "{...}"
  }

  /**
   * A chunk dict. `text` is always present (every producer sets it); every other
   * key may be absent, which `None` records.
   */
  datatype Chunk = Chunk(
    text: string,
    chunkSize: Option<int>,
    chunkIndex: Option<int>,
    pageNumber: Option<int>,
    pageSize: Option<real>,
    endChar: Option<int>,
    embedding: Option<Vector>,
    embeddingDimension: Option<int>,
    metadata: Option<Payload>)

  /** `{'text': t, 'chunk_size': len(t)}` as built by the chunker. */
  function TextChunk(t: string): Chunk {
    Chunk(t, Some(|t|), None, None, None, None, None, None, None)
  }

  /** `chunk.get('chunk_size', 0)` */
  function SizeOf(c: Chunk): int {
    c.chunkSize.GetOr(0)
  }
}
