/**
 * The ingestion routes of the HTTP API (src/api/routes.py): `upload_file`,
 * which registers a progress tracker and answers at once, the background
 * `process_file_task` it schedules (extract, chunk, embed, store, reporting
 * progress along the way), and the document listing of `get_documents`.
 *
 * The background task is a pure function of its inputs: the extraction result
 * of the dispatched processor, the embedding endpoint, the vector server, the
 * point-id supply and today's date are parameters, and the tracker updates it
 * performs are returned as a list (`Progress.Update`) together with the server
 * state it leaves behind.
 */
module Ingestion {
  import opened Wrappers
  import opened PyText
  import opened Records
  import opened Seqs
  import opened Chunker
  import opened Embedding
  import opened VectorStore
  import opened Progress
  import opened Extractors

  /** An `HTTPException(status_code, detail)`. */
  datatype HttpError = HttpError(statusCode: int, detail: string)

  /** `str(HTTPException(status, detail))`, as the outer handler of a route re-raises it. */
  function HttpErrorText(e: HttpError): string {
    IntToString(e.statusCode) + ": " + e.detail
  }

  /** `AttributeError` text for an attribute missing on an instance of `cls`. */
  function MissingAttribute(cls: string, attribute: string): string {
    "'" + cls + "' object has no attribute '" + attribute + "'"
  }

  // ------------------------------------------------------------- upload_file

  const NoExtensionDetail: string := "파일 확장자가 없는 파일은 지원하지 않습니다."
  const QueuedNote: string := "파일 업로드 완료, 처리 대기 중"
  const AcceptedMessage: string := "파일 업로드 완료, 벡터 DB 적재까지 진행상태를 추적합니다."

  /** The `PDFUploadResponse` of an accepted upload (the elapsed time is left out). */
  datatype UploadResponse = UploadResponse(documentId: string, status: string, message: string, chunksCount: nat, metadata: Payload)

  /** The registry after the request, and the response or the error it raised. */
  datatype Upload = Upload(registry: Registry, reply: Result<UploadResponse, HttpError>)

  /**
   * `upload_file`: a file name without an extension is refused; the 400 raised
   * for it is caught by the route's own handler and re-raised as a 500 whose
   * detail is the text of the 400. Otherwise a tracker is registered under the
   * new task id, moved to 10 with the queued note, and the task id is returned
   * as the document id while processing continues in the background.
   */
  function UploadFile(reg: Registry, filename: string, taskId: string): (u: Upload)
    ensures u.reply.Failure? <==> SplitExt(filename).1 == ""
    ensures u.reply.Failure? ==>
      u.registry == reg && u.reply.error == HttpError(500, HttpErrorText(HttpError(400, NoExtensionDetail)))
    ensures u.reply.Success? ==>
      u.reply.value.documentId == taskId && u.reply.value.status == "processing" && u.reply.value.chunksCount == 0 &&
      u.reply.value.message == AcceptedMessage &&
      u.reply.value.metadata == map["filename" := VStr(filename), "file_type" := VStr(Lower(SplitExt(filename).1))]
    ensures u.reply.Success? ==> GetProgress(u.registry, taskId) == Tracker(taskId, 10, Processing, QueuedNote)
    ensures forall id :: id != taskId ==> GetProgress(u.registry, id) == GetProgress(reg, id)
    ensures Progress.WellFormed(reg) ==> Progress.WellFormed(u.registry)
  {
    var ext := SplitExt(filename).1;
    if ext == "" then
      Upload(reg, Failure(HttpError(500, HttpErrorText(HttpError(400, NoExtensionDetail)))))
    else
      Upload(Queued(reg, taskId), Success(UploadResponse(taskId, "processing", AcceptedMessage, 0,
                                                         map["filename" := VStr(filename), "file_type" := VStr(Lower(ext))])))
  }

  /** A fresh tracker for `taskId`, moved to 10 with the queued note. */
  function Queued(reg: Registry, taskId: string): (r: Registry)
    ensures GetProgress(r, taskId) == Tracker(taskId, 10, Processing, QueuedNote)
    ensures forall id :: id != taskId ==> GetProgress(r, id) == GetProgress(reg, id)
    ensures Progress.WellFormed(reg) ==> Progress.WellFormed(r)
  {
    var created := Create(reg, taskId);
    created[taskId := SetProgress(created[taskId], 10, Some(QueuedNote))]
  }

  // ------------------------------------------------------- process_file_task

  const ExtractingNote: string := "텍스트/청크 추출 중..."
  const EmbeddedNote: string := "임베딩 완료, 벡터 DB 적재 중..."
  const CompletedNote: string := "업로드 및 벡터 적재 완료"
  const TextFailure: string := "텍스트 추출 실패"
  const ChunkFailure: string := "청크 생성 실패"
  const EmbeddingFailure: string := "임베딩 생성 실패"
  const StoreFailure: string := "벡터 저장 실패"
  const TaskErrorPrefix: string := "파일 처리 중 오류: "

  /** The note reported once the text is chunked. */
  function ChunksNote(n: nat): string {
    "청크 " + NatToString(n) + "개 생성 완료, 임베딩 중..."
  }

  /**
   * What `processor.extract_text(file_path)` gives: the exception text when it
   * raised, the PDF processor's dict, or the plain text of the other processors.
   */
  datatype Extraction = Threw(message: string) | PdfDict(doc: PdfExtraction) | PlainText(text: string)

  /** The extraction each processor would perform on the uploaded file. */
  type Extractor = Processor -> Extraction

  /** `PDFProcessor.extract_text` as an extraction: its exceptions carry the error's text. */
  function PdfOutcome(r: Result<PdfExtraction, PdfError>): (x: Extraction)
    ensures r.Success? <==> x.PdfDict?
    ensures r.Failure? ==> x == Threw(r.error.message)
  {
    match r
    case Success(doc) => PdfDict(doc)
    case Failure(e) => Threw(e.message)
  }

  /** The class name `type(processor).__name__`. */
  function ClassName(p: Processor): string {
    match p
    case PdfProcessor => "PDFProcessor"
    case WordProcessor => "WordProcessor"
    case ExcelProcessor => "ExcelProcessor"
    case PowerPointProcessor => "PowerPointProcessor"
    case ImageProcessor => "ImageProcessor"
  }

  /**
   * The extraction step: dispatch on the stored path, then either the `.xlsx`
   * branch, which calls `extract_chunks` (no processor defines it, so it
   * raises), or `extract_text`. A failure carries the exception text.
   */
  function Extracted(path: string, ext: string, extract: Extractor): (r: Result<Extraction, string>)
    ensures GetProcessor(path).Failure? ==> r == Failure(UnsupportedFormat)
    ensures GetProcessor(path).Success? && Lower(ext) == ".xlsx" ==>
      r == Failure(MissingAttribute(ClassName(GetProcessor(path).value), "extract_chunks"))
    ensures GetProcessor(path).Success? && Lower(ext) != ".xlsx" ==>
      (r.Success? <==> !extract(GetProcessor(path).value).Threw?) &&
      (r.Success? ==> r.value == extract(GetProcessor(path).value)) &&
      (r.Failure? ==> r.error == extract(GetProcessor(path).value).message)
  {
    match GetProcessor(path)
    case Failure(e) => Failure(e)
    case Success(p) =>
      if Lower(ext) == ".xlsx" then Failure(MissingAttribute(ClassName(p), "extract_chunks"))
      else
        var x := extract(p);
        if x.Threw? then Failure(x.message) else Success(x)
  }

  /** `extracted.get('text', '')` for the dict, the string itself otherwise. */
  function TaskText(x: Extraction): string
    requires !x.Threw?
  {
    match x
    case PdfDict(doc) => doc.text
    case PlainText(t) => t
  }

  /**
   * The metadata attached to every chunk: the PDF's own metadata with the file
   * name as title and the lower-cased extension as file type when the upload is
   * a `.pdf`, just those two entries otherwise.
   */
  function TaskMetadata(filename: string, ext: string, x: Extraction): (m: Payload)
    requires !x.Threw?
    ensures "title" in m && m["title"] == VStr(filename)
    ensures "file_type" in m && m["file_type"] == VStr(Lower(ext))
    ensures x.PdfDict? && Lower(ext) == ".pdf" ==>
      m.Keys == x.doc.metadata.Keys + {"title", "file_type"} &&
      forall k :: k in x.doc.metadata && k !in {"title", "file_type"} ==> m[k] == x.doc.metadata[k]
    ensures !(x.PdfDict? && Lower(ext) == ".pdf") ==> m.Keys == {"title", "file_type"}
  {
    if x.PdfDict? && Lower(ext) == ".pdf" then
      x.doc.metadata["title" := VStr(filename)]["file_type" := VStr(Lower(ext))]
    else
      map["title" := VStr(filename), "file_type" := VStr(Lower(ext))]
  }

  /** `chunk['metadata'] = metadata` for every chunk. */
  function Labelled(chunks: seq<Chunk>, metadata: Payload): (r: seq<Chunk>)
    ensures |r| == |chunks|
    ensures forall k :: 0 <= k < |r| ==> r[k] == chunks[k].(metadata := Some(metadata))
  {
    Map(chunks, (c: Chunk) => c.(metadata := Some(metadata)))
  }

  /**
   * The document id the chunks are stored under: the given one when truthy,
   * else today's date, the collection (or `unknown`) and the file's base name,
   * joined by underscores.
   */
  function DocId(documentId: Option<string>, today: string, collection: Option<string>, filename: string): (d: string)
    ensures d != ""
    ensures documentId.Some? && documentId.value != "" ==> d == documentId.value
    ensures documentId.None? || documentId.value == "" ==>
      StartsWith(d, today + "_") && EndsWith(d, "_" + Basename(filename)) &&
      |d| == |today| + |collection.GetOr("unknown")| + |Basename(filename)| + 2 + (if collection == Some("") then 7 else 0)
    ensures documentId.None? || documentId.value == "" ==>
      |d| >= |today| + |Basename(filename)| + 2 &&
      d[|today| + 1 .. |d| - |Basename(filename)| - 1] == (if collection.Some? && collection.value != "" then collection.value else "unknown")
  {
    if documentId.Some? && documentId.value != "" then documentId.value
    else
      var dept := if collection.Some? && collection.value != "" then collection.value else "unknown";
      var b := Basename(filename);
      var d := (today + "_") + dept + ("_" + b);
      ConcatAffixes(today + "_", dept + ("_" + b));
      ConcatAffixes(today + "_" + dept, "_" + b);
      MiddleSlice(today + "_", dept, "_" + b);
      d
  }

  /** The tracker updates and the server state a run leaves behind. */
  datatype TaskOutcome = TaskOutcome(updates: seq<Update>, server: Server)

  /**
   * The shape of every run's updates: 20 first, strictly rising progress values
   * below 100, and a last update that is a failure or the 100 completion.
   */
  predicate Trace(us: seq<Update>) {
    |us| >= 2 && us[0] == Step(20, Some(ExtractingNote)) &&
    (us[|us| - 1].Fail? || us[|us| - 1] == Step(100, Some(CompletedNote))) &&
    (forall k :: 0 <= k < |us| - 1 ==> us[k].Step? && 20 <= us[k].value < 100) &&
    (forall j, k :: 0 <= j < k < |us| - 1 ==> us[j].Step? && us[k].Step? && us[j].value < us[k].value)
  }

  /** The last update of a run. */
  function Outcome(us: seq<Update>): Update
    requires us != []
  {
    us[|us| - 1]
  }

  /** A run that stops before chunking. */
  lemma ShortTrace(reason: string)
    ensures Trace([Step(20, Some(ExtractingNote)), Fail(reason)])
  {
  }

  /** Runs that chunked the text, stopping at 40 or 80 or going on to the end. */
  lemma ChunkedTrace(n40: string, last: Update)
    requires last.Fail? || last == Step(100, Some(CompletedNote))
    ensures Trace([Step(20, Some(ExtractingNote)), Step(40, Some(n40)), last])
    ensures Trace([Step(20, Some(ExtractingNote)), Step(40, Some(n40)), Step(80, Some(EmbeddedNote)), last])
  {
  }

  /**
   * The part of the task after extraction: the blank check, chunking (40),
   * embedding (80) and storing (100), each failure reported on the tracker.
   */
  function Ingest(text: string, metadata: Payload, docId: string, name: string, endpoint: Endpoint,
                  server: Server, newId: nat -> string, dimension: Option<int>): (o: TaskOutcome)
    ensures Trace(o.updates)
    ensures IsBlank(text) ==> o == TaskOutcome([Step(20, Some(ExtractingNote)), Fail(TextFailure)], server)
    ensures Step(80, Some(EmbeddedNote)) !in o.updates ==> o.server == server
    ensures Outcome(o.updates).Step? <==>
      !IsBlank(text) && ChunkText(text) != [] && EmbedChunks(endpoint, ChunkText(text)) != [] &&
      StoreVectors(server, name, Labelled(EmbedChunks(endpoint, ChunkText(text)), metadata), Some(docId), newId, dimension).1
    ensures Outcome(o.updates).Step? ==>
      o.server == StoreVectors(server, name, Labelled(EmbedChunks(endpoint, ChunkText(text)), metadata), Some(docId), newId, dimension).0
  {
    if IsBlank(text) then
      ShortTrace(TextFailure);
      TaskOutcome([Step(20, Some(ExtractingNote)), Fail(TextFailure)], server)
    else
      var chunks := ChunkText(text);
      var n40 := ChunksNote(|chunks|);
      if chunks == [] then
        ChunkedTrace(n40, Fail(ChunkFailure));
        TaskOutcome([Step(20, Some(ExtractingNote)), Step(40, Some(n40)), Fail(ChunkFailure)], server)
      else
        var embedded := EmbedChunks(endpoint, chunks);
        if embedded == [] then
          ChunkedTrace(n40, Fail(EmbeddingFailure));
          TaskOutcome([Step(20, Some(ExtractingNote)), Step(40, Some(n40)), Step(80, Some(EmbeddedNote)), Fail(EmbeddingFailure)], server)
        else
          var stored := StoreVectors(server, name, Labelled(embedded, metadata), Some(docId), newId, dimension);
          var last := if stored.1 then Step(100, Some(CompletedNote)) else Fail(StoreFailure);
          ChunkedTrace(n40, last);
          TaskOutcome([Step(20, Some(ExtractingNote)), Step(40, Some(n40)), Step(80, Some(EmbeddedNote)), last], stored.0)
  }

  /**
   * `process_file_task`: 20 with the extracting note, then extraction; an
   * exception anywhere ends the run with the prefixed exception text, the
   * explicit checks end it with their own messages, and a stored document ends
   * it at 100.
   */
  function ProcessFileTask(filename: string, path: string, documentId: Option<string>, collection: Option<string>,
                           extract: Extractor, endpoint: Endpoint, server: Server, newId: nat -> string,
                           dimension: Option<int>, today: string): (o: TaskOutcome)
    ensures Trace(o.updates)
    ensures Step(80, Some(EmbeddedNote)) !in o.updates ==> o.server == server
    ensures Extracted(path, SplitExt(filename).1, extract).Failure? ==>
      o == TaskOutcome([Step(20, Some(ExtractingNote)), Fail(TaskErrorPrefix + Extracted(path, SplitExt(filename).1, extract).error)], server)
  {
    var ext := SplitExt(filename).1;
    match Extracted(path, ext, extract)
    case Failure(e) =>
      ShortTrace(TaskErrorPrefix + e);
      TaskOutcome([Step(20, Some(ExtractingNote)), Fail(TaskErrorPrefix + e)], server)
    case Success(x) =>
      Ingest(TaskText(x), TaskMetadata(filename, ext, x), DocId(documentId, today, collection, filename),
             TargetCollection(collection.GetOr("")), endpoint, server, newId, dimension)
  }

  /** A run that reaches the end extracted successfully and then ingested the extraction. */
  lemma RunIsIngest(filename: string, path: string, documentId: Option<string>, collection: Option<string>,
                    extract: Extractor, endpoint: Endpoint, server: Server, newId: nat -> string,
                    dimension: Option<int>, today: string) returns (x: Extraction)
    requires Outcome(ProcessFileTask(filename, path, documentId, collection, extract, endpoint, server, newId, dimension, today).updates).Step?
    ensures Extracted(path, SplitExt(filename).1, extract) == Success(x) && !x.Threw?
    ensures ProcessFileTask(filename, path, documentId, collection, extract, endpoint, server, newId, dimension, today) ==
      Ingest(TaskText(x), TaskMetadata(filename, SplitExt(filename).1, x), DocId(documentId, today, collection, filename),
             TargetCollection(collection.GetOr("")), endpoint, server, newId, dimension)
  {
    x := Extracted(path, SplitExt(filename).1, extract).value;
  }

  /**
   * Whatever happens, the tracker ends done at 100 with the completion message
   * or in error at 0 with the last update's reason; done exactly when the last
   * update is the 100 step.
   */
  lemma TaskEndsDoneOrError(filename: string, path: string, documentId: Option<string>, collection: Option<string>,
                            extract: Extractor, endpoint: Endpoint, server: Server, newId: nat -> string,
                            dimension: Option<int>, today: string, t: Tracker)
    ensures var o := ProcessFileTask(filename, path, documentId, collection, extract, endpoint, server, newId, dimension, today);
            var r := ApplyAll(t, o.updates);
            (r.status == Done <==> Outcome(o.updates).Step?) &&
            (r.status == Done ==> r.progress == 100 && r.message == DoneMessage) &&
            (r.status != Done ==> r.status == Error && r.progress == 0 && r.message == Outcome(o.updates).reason)
  {
    var o := ProcessFileTask(filename, path, documentId, collection, extract, endpoint, server, newId, dimension, today);
    TraceEndsDoneOrError(t, o.updates);
  }

  /** Any run trace leaves a tracker done at 100 or in error at 0, decided by its last update. */
  lemma TraceEndsDoneOrError(t: Tracker, us: seq<Update>)
    requires Trace(us)
    ensures var r := ApplyAll(t, us);
            (r.status == Done <==> Outcome(us).Step?) &&
            (r.status == Done ==> r.progress == 100 && r.message == DoneMessage) &&
            (r.status != Done ==> r.status == Error && r.progress == 0 && r.message == Outcome(us).reason)
  {
    var n := |us| - 1;
    assert us == us[..n] + [us[n]];
    LastUpdateDecides(t, us[..n], us[n]);
    ApplyAllSnoc(t, us[..n], us[n]);
  }

  /** Every `.xlsx` upload ends in error and stores nothing. */
  lemma SpreadsheetUploadFails(filename: string, path: string, documentId: Option<string>, collection: Option<string>,
                               extract: Extractor, endpoint: Endpoint, server: Server, newId: nat -> string,
                               dimension: Option<int>, today: string)
    requires Lower(SplitExt(filename).1) == ".xlsx"
    ensures var o := ProcessFileTask(filename, path, documentId, collection, extract, endpoint, server, newId, dimension, today);
            o.server == server && |o.updates| == 2 && Outcome(o.updates).Fail?
  {
  }

  /** An extraction that yields blank text ends in the text-extraction error, with nothing stored. */
  lemma BlankTextFails(filename: string, path: string, documentId: Option<string>, collection: Option<string>,
                       extract: Extractor, endpoint: Endpoint, server: Server, newId: nat -> string,
                       dimension: Option<int>, today: string)
    requires var r := Extracted(path, SplitExt(filename).1, extract); r.Success? && IsBlank(TaskText(r.value))
    ensures ProcessFileTask(filename, path, documentId, collection, extract, endpoint, server, newId, dimension, today) ==
      TaskOutcome([Step(20, Some(ExtractingNote)), Fail(TextFailure)], server)
  {
  }

  /** The chunk-generation error is never reported: non-blank text always yields a chunk. */
  lemma ChunkFailureUnreachable(filename: string, path: string, documentId: Option<string>, collection: Option<string>,
                                extract: Extractor, endpoint: Endpoint, server: Server, newId: nat -> string,
                                dimension: Option<int>, today: string)
    ensures Fail(ChunkFailure) !in
      ProcessFileTask(filename, path, documentId, collection, extract, endpoint, server, newId, dimension, today).updates
  {
    var ext := SplitExt(filename).1;
    var r := Extracted(path, ext, extract);
    if r.Success? {
      var x := r.value;
      var docId := DocId(documentId, today, collection, filename);
      IngestNoChunkFailure(TaskText(x), TaskMetadata(filename, ext, x), docId,
                           TargetCollection(collection.GetOr("")), endpoint, server, newId, dimension);
    }
  }

  lemma IngestNoChunkFailure(text: string, metadata: Payload, docId: string, name: string, endpoint: Endpoint,
                             server: Server, newId: nat -> string, dimension: Option<int>)
    ensures Fail(ChunkFailure) !in Ingest(text, metadata, docId, name, endpoint, server, newId, dimension).updates
  {
    ChunkTextEmptyIff(text);
  }

  /** A PDF that is not on disk ends the run with the prefixed file-not-found message. */
  lemma MissingPdfReported(filename: string, path: string, documentId: Option<string>, collection: Option<string>,
                           extract: Extractor, endpoint: Endpoint, server: Server, newId: nat -> string,
                           dimension: Option<int>, today: string, file: PdfFile, now: string)
    requires GetProcessor(path) == Success(PdfProcessor) && Lower(SplitExt(filename).1) != ".xlsx"
    requires extract(PdfProcessor) == PdfOutcome(ExtractPdf(path, file, now)) && !file.exists_
    ensures ProcessFileTask(filename, path, documentId, collection, extract, endpoint, server, newId, dimension, today) ==
      TaskOutcome([Step(20, Some(ExtractingNote)), Fail(TaskErrorPrefix + "파일을 찾을 수 없습니다: " + path)], server)
  {
    assert TaskErrorPrefix + ("파일을 찾을 수 없습니다: " + path) == TaskErrorPrefix + "파일을 찾을 수 없습니다: " + path;
  }

  /**
   * The points a completed run writes: one per embedded chunk with a non-empty
   * vector, all labelled with the task's metadata and document id.
   */
  function TaskPoints(filename: string, x: Extraction, documentId: Option<string>, collection: Option<string>,
                      endpoint: Endpoint, newId: nat -> string, today: string): seq<Point>
    requires !x.Threw?
  {
    var ext := SplitExt(filename).1;
    BuildPoints(Labelled(EmbedChunks(endpoint, ChunkText(TaskText(x))), TaskMetadata(filename, ext, x)),
                0, Some(DocId(documentId, today, collection, filename)), newId)
  }

  /** The point's payload holds `v` under `key`. */
  predicate Carries(p: Point, key: string, v: Value) {
    key in p.payload && p.payload[key] == v
  }

  /** Every point built from labelled chunks carries the label's title and file type, and the document id. */
  lemma LabelledPointFields(chunks: seq<Chunk>, metadata: Payload, docId: string, newId: nat -> string, k: nat)
    requires docId != ""
    requires k < |BuildPoints(Labelled(chunks, metadata), 0, Some(docId), newId)|
    ensures var p := BuildPoints(Labelled(chunks, metadata), 0, Some(docId), newId)[k];
            (forall key :: key in metadata ==> Carries(p, key, metadata[key])) &&
            ("document_id" !in metadata ==> Carries(p, "document_id", VStr(docId)))
  {
    var labelled := Labelled(chunks, metadata);
    var j := BuildPointsOrigin(labelled, 0, Some(docId), newId, k);
    var c := labelled[j];
    assert c.metadata == Some(metadata);
    var p := BuildPoints(labelled, 0, Some(docId), newId)[k];
    assert p.payload == PointPayload(c, j, Some(docId), c.embedding.value);
    assert "document_id" in BaseKeys;
    if "document_id" !in metadata {
      assert p.payload["document_id"] == BasePayload(c, j, Some(docId), c.embedding.value)["document_id"];
    }
  }

  /**
   * Once a store of labelled chunks succeeded, every point built from them is
   * in the target collection and carries the metadata and, unless the metadata
   * overrides it, the document id.
   */
  lemma StoredLabelled(embedded: seq<Chunk>, metadata: Payload, docId: string, name: string,
                       server: Server, newId: nat -> string, dimension: Option<int>)
    requires VectorStore.WellFormed(server) && docId != ""
    requires StoreVectors(server, name, Labelled(embedded, metadata), Some(docId), newId, dimension).1
    ensures var s := StoreVectors(server, name, Labelled(embedded, metadata), Some(docId), newId, dimension).0;
            var ps := BuildPoints(Labelled(embedded, metadata), 0, Some(docId), newId);
            s.Reachable? && name in s.collections &&
            forall k :: 0 <= k < |ps| ==>
              ps[k] in s.collections[name].points &&
              (forall key :: key in metadata ==> Carries(ps[k], key, metadata[key])) &&
              ("document_id" !in metadata ==> Carries(ps[k], "document_id", VStr(docId)))
  {
    var labelled := Labelled(embedded, metadata);
    StoreVectorsStores(server, name, labelled, Some(docId), newId, dimension);
    var ps := BuildPoints(labelled, 0, Some(docId), newId);
    forall k | 0 <= k < |ps|
      ensures forall key :: key in metadata ==> Carries(ps[k], key, metadata[key])
      ensures "document_id" !in metadata ==> Carries(ps[k], "document_id", VStr(docId))
    {
      LabelledPointFields(embedded, metadata, docId, newId, k);
    }
  }

  /**
   * A run that ends done has written every one of its points into the target
   * collection, each carrying the file name as title, the lower-cased extension
   * as file type and, unless the metadata overrides it, the document id.
   */
  lemma DoneStoresTaskPoints(filename: string, path: string, documentId: Option<string>, collection: Option<string>,
                             extract: Extractor, endpoint: Endpoint, server: Server, newId: nat -> string,
                             dimension: Option<int>, today: string)
    requires VectorStore.WellFormed(server)
    ensures var o := ProcessFileTask(filename, path, documentId, collection, extract, endpoint, server, newId, dimension, today);
            var ext := SplitExt(filename).1;
            var r := Extracted(path, ext, extract);
            var name := TargetCollection(collection.GetOr(""));
            Outcome(o.updates).Step? ==>
              r.Success? && o.server.Reachable? && name in o.server.collections &&
              var ps := TaskPoints(filename, r.value, documentId, collection, endpoint, newId, today);
              forall k :: 0 <= k < |ps| ==>
                ps[k] in o.server.collections[name].points &&
                Carries(ps[k], "title", VStr(filename)) && Carries(ps[k], "file_type", VStr(Lower(ext))) &&
                ("document_id" !in TaskMetadata(filename, ext, r.value) ==>
                  Carries(ps[k], "document_id", VStr(DocId(documentId, today, collection, filename))))
  {
    var o := ProcessFileTask(filename, path, documentId, collection, extract, endpoint, server, newId, dimension, today);
    var ext := SplitExt(filename).1;
    var r := Extracted(path, ext, extract);
    if Outcome(o.updates).Step? {
      var x := RunIsIngest(filename, path, documentId, collection, extract, endpoint, server, newId, dimension, today);
      var metadata := TaskMetadata(filename, ext, x);
      var docId := DocId(documentId, today, collection, filename);
      var name := TargetCollection(collection.GetOr(""));
      var embedded := EmbedChunks(endpoint, ChunkText(TaskText(x)));
      assert TaskPoints(filename, x, documentId, collection, endpoint, newId, today) ==
        BuildPoints(Labelled(embedded, metadata), 0, Some(docId), newId);
      StoredLabelled(embedded, metadata, docId, name, server, newId, dimension);
    }
  }

  /** A PDF's stored metadata never names a document id, so its points keep the task's. */
  lemma PdfMetadataKeepsDocumentId(filename: string, doc: PdfExtraction, file: PdfFile, path: string, now: string)
    requires ExtractPdf(path, file, now) == Success(doc)
    ensures "document_id" !in TaskMetadata(filename, SplitExt(filename).1, PdfDict(doc))
  {
    assert doc.metadata == ExtractMetadata(file.info);
    InfoMetadataLacksDocumentId(filename, SplitExt(filename).1, doc);
  }

  lemma InfoMetadataLacksDocumentId(filename: string, ext: string, doc: PdfExtraction)
    requires doc.metadata.Keys == InfoKeys.Keys + {"total_pages"}
    ensures "document_id" !in TaskMetadata(filename, ext, PdfDict(doc))
  {
    assert "document_id" !in InfoKeys.Keys;
  }

  /**
   * Without a given id, two uploads of files with the same base name into the
   * same collection on the same day share a document id, whatever directories
   * the names carry.
   */
  lemma SameDaySameNameShareId(today: string, collection: Option<string>, a: string, b: string)
    requires Basename(a) == Basename(b)
    ensures DocId(None, today, collection, a) == DocId(None, today, collection, b)
  {
  }

  /** Without a given id, uploads on different days (same date format) get different document ids. */
  lemma DifferentDaysDifferentIds(day1: string, day2: string, collection: Option<string>, filename: string)
    requires |day1| == |day2| && day1 != day2
    ensures DocId(None, day1, collection, filename) != DocId(None, day2, collection, filename)
  {
    var d1 := DocId(None, day1, collection, filename);
    var d2 := DocId(None, day2, collection, filename);
    assert d1[..|day1|] == day1;
    assert d2[..|day2|] == day2;
  }

  // ---------------------------------------------------------- get_documents

  /** One entry of the document listing (the upload time is a clock reading and is left out). */
  datatype DocumentEntry = DocumentEntry(
    documentId: Value, title: Value, author: Value, description: Value,
    fileType: Value, totalPages: Value, chunksCount: Value, fileSize: Value)

  /** The entry for a document whose metadata is empty or missing. */
  function DefaultEntry(id: Value): DocumentEntry {
    DocumentEntry(id, VStr("Document " + Render(id)), VStr("Unknown"), VStr(""), VStr(""), VInt(0), VInt(0), VInt(0))
  }

  /** A listing field read with `meta.get(key, default)`: the stored value when present, else the default. */
  predicate FieldFrom(m: Payload, key: string, v: Value, default: Value) {
    (key in m ==> v == m[key]) && (key !in m ==> v == default)
  }

  /** `type(v).__name__` of a value that is not a dict. */
  function TypeName(v: Value): string {
    match v
    case VStr(_) => "str"
    case VInt(_) => "int"
    case VNone => "NoneType"
    case VDict(_) => "dict"
  }

  /**
   * The listing entry of one document: each field from the metadata dict with
   * its default, or all defaults when the metadata is falsy. Truthy metadata
   * that is not a dict has no `get`, which raises.
   */
  function EntryOf(id: Value, meta: Value): (r: Result<DocumentEntry, string>)
    ensures r.Failure? <==> Truthy(meta) && !meta.VDict?
    ensures r.Failure? ==> r.error == MissingAttribute(TypeName(meta), "get")
    ensures !Truthy(meta) ==> r == Success(DefaultEntry(id))
    ensures r.Success? ==> r.value.documentId == id
    ensures r.Success? && meta.VDict? ==>
      var m := meta.entries;
      var d := DefaultEntry(id);
      && FieldFrom(m, "title", r.value.title, d.title)
      && FieldFrom(m, "author", r.value.author, d.author)
      && FieldFrom(m, "description", r.value.description, d.description)
      && FieldFrom(m, "file_type", r.value.fileType, d.fileType)
      && FieldFrom(m, "total_pages", r.value.totalPages, d.totalPages)
      && FieldFrom(m, "chunks_count", r.value.chunksCount, d.chunksCount)
      && FieldFrom(m, "file_size", r.value.fileSize, d.fileSize)
  {
    if !Truthy(meta) then Success(DefaultEntry(id))
    else if !meta.VDict? then Failure(MissingAttribute(TypeName(meta), "get"))
    else
      var m := meta.entries;
      var d := DefaultEntry(id);
      Success(DocumentEntry(id, Get(m, "title", d.title), Get(m, "author", d.author), Get(m, "description", d.description),
                            Get(m, "file_type", d.fileType), Get(m, "total_pages", d.totalPages),
                            Get(m, "chunks_count", d.chunksCount), Get(m, "file_size", d.fileSize)))
  }

  /**
   * The metadata the listing looks up for one id in the default collection; the
   * model only matches string ids, and any other id finds nothing.
   */
  function MetadataFor(s: Server, id: Value): Value {
    if id.VStr? then GetDocumentMetadata(s, DefaultCollection, id.s) else VDict(map[])
  }

  /** The entries for `ids` in order, or the first lookup error. */
  function EntriesFor(s: Server, ids: seq<Value>): (r: Result<seq<DocumentEntry>, string>)
    ensures r.Success? <==> forall k :: 0 <= k < |ids| ==> EntryOf(ids[k], MetadataFor(s, ids[k])).Success?
    ensures r.Success? ==> |r.value| == |ids| && forall k :: 0 <= k < |ids| ==> r.value[k] == EntryOf(ids[k], MetadataFor(s, ids[k])).value
    decreases |ids|
  {
    if ids == [] then Success([])
    else
      match EntryOf(ids[0], MetadataFor(s, ids[0]))
      case Failure(e) => Failure(e)
      case Success(entry) =>
        match EntriesFor(s, ids[1..])
        case Failure(e) => Failure(e)
        case Success(rest) =>
          assert forall k :: 1 <= k < |ids| ==> ids[k] == ids[1..][k - 1];
          Success([entry] + rest)
  }

  /**
   * `get_documents` (the route): one entry per stored document id of the
   * default collection, in the order the ids are listed, or a 500 with the
   * error text.
   */
  function ListDocuments(s: Server): (r: Result<seq<DocumentEntry>, HttpError>)
    ensures r.Success? ==>
      var ids := GetDocuments(s, DefaultCollection);
      |r.value| == |ids| && (forall k :: 0 <= k < |ids| ==> r.value[k].documentId == ids[k]) &&
      forall i, j :: 0 <= i < j < |r.value| ==> r.value[i].documentId != r.value[j].documentId
    ensures r.Failure? ==> r.error.statusCode == 500
    ensures (forall v :: v in GetDocuments(s, DefaultCollection) ==> !Truthy(MetadataFor(s, v)) || MetadataFor(s, v).VDict?) ==> r.Success?
  {
    var ids := GetDocuments(s, DefaultCollection);
    match EntriesFor(s, ids)
    case Failure(e) => Failure(HttpError(500, e))
    case Success(entries) => Success(entries)
  }

  /** A dict as some stored `document_id` makes the listing empty. */
  lemma UnhashableIdListsNothing(s: Server)
    requires s.Reachable? && DefaultCollection in s.collections
    requires UnhashableScanned(s.collections[DefaultCollection].points)
    ensures ListDocuments(s) == Success([])
  {
  }

  /** An unreachable server, or a missing collection, lists no documents. */
  lemma NothingStoredNothingListed(s: Server)
    requires s.Unreachable? || DefaultCollection !in s.collections
    ensures ListDocuments(s) == Success([])
  {
  }
}
