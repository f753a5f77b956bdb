/**
 * Answer assembly of `QAService` (src/qa_service.py): `ask_question` retrieves
 * the context, asks the LLM and appends a readable list of sources;
 * `ask_with_metadata` adds per-document counts.
 */
module Answer {
  import opened Wrappers
  import opened PyText
  import opened Records
  import opened Seqs
  import opened Embedding
  import opened VectorStore
  import opened Search
  import opened Prompt

  const NotFoundAnswer: string := "죄송합니다. 관련된 정보를 찾을 수 없습니다."
  const ProcessingErrorAnswer: string := "죄송합니다. 질문을 처리하는 중 오류가 발생했습니다."
  const SourcesHeader: string := "\n\n📄 관련 출처:\n"
  const DefaultDocumentName: string := "문서"

  /** The result keys copied into a source record, in order. */
  const SourceKeys: set<string> := {"document_id", "title", "sheet", "row", "page_number", "chunk_index"}

  // ----------------------------------------------------------------- excerpts

  const PreviewLength: nat := 80
  const Ellipsis: string := "..."

  /**
   * The excerpt of a source: the first 80 characters of the stripped text with
   * line feeds turned into spaces, plus "..." when the raw text is longer than 80.
   */
  function Excerpt(t: string): string {
    Take(ReplaceChar(Strip(t), '\n', ' '), PreviewLength) + (if |t| > PreviewLength then Ellipsis else "")
  }

  /**
   * An excerpt has at most 83 characters and contains no "\n"; a text of at most 80
   * characters appears whole (stripped, flattened), a longer one is cut and
   * marked with "...".
   */
  lemma ExcerptShape(t: string)
    ensures |Excerpt(t)| <= PreviewLength + |Ellipsis|
    ensures '\n' !in Excerpt(t)
    ensures |t| <= PreviewLength ==> Excerpt(t) == ReplaceChar(Strip(t), '\n', ' ')
    ensures |t| > PreviewLength ==>
      (EndsWith(Excerpt(t), Ellipsis) &&
       StartsWith(ReplaceChar(Strip(t), '\n', ' '), Excerpt(t)[..|Excerpt(t)| - |Ellipsis|]))
  {
    var flat := ReplaceChar(Strip(t), '\n', ' ');
    var cut := Take(flat, PreviewLength);
    assert forall i :: 0 <= i < |cut| ==> cut[i] == flat[i];
    if |t| > PreviewLength {
      assert Excerpt(t) == cut + Ellipsis;
      assert Excerpt(t)[..|Excerpt(t)| - |Ellipsis|] == cut;
    }
  }

  // ------------------------------------------------------------------ sources

  /** `result.get("text", "")` is truthy: the result contributes context. */
  predicate HasText(r: SearchResult) {
    Truthy(r.text)
  }

  /** `k in result` for the formatted result's own keys among the source keys. */
  function ResultField(r: SearchResult, k: string): Option<Value> {
    if k == "document_id" then Some(r.documentId)
    else if k == "page_number" then Some(r.pageNumber)
    else if k == "chunk_index" then Some(r.chunkIndex)
    else None
  }

  /**
   * The source record of a result: each source key taken from the result's
   * metadata when present there, else from the result itself.
   */
  function SourceOf(r: SearchResult): (m: Payload)
    ensures m.Keys <= SourceKeys
    ensures "document_id" in m && "page_number" in m && "chunk_index" in m
    ensures forall k :: k in SourceKeys && k in MetadataEntries(r) ==> k in m && m[k] == MetadataEntries(r)[k]
    ensures forall k :: k in SourceKeys && k !in MetadataEntries(r) && ResultField(r, k).Some? ==> m[k] == ResultField(r, k).value
  {
    map k | k in SourceKeys && (k in MetadataEntries(r) || ResultField(r, k).Some?) ::
      if k in MetadataEntries(r) then MetadataEntries(r)[k] else ResultField(r, k).value
  }

  /**
   * `k in result["metadata"]` raises for some source key: the metadata is
   * neither a dict nor a string, or it is a string that contains a key, so that
   * `result["metadata"][k]` indexes a string with a string.
   */
  predicate MetadataRaises(r: SearchResult) {
    match r.metadata
    case VDict(_) => false
    case VStr(s) => exists k :: k in SourceKeys && Contains(s, k)
    case _ => true
  }

  /** Building the source record of some result with text raises. */
  predicate SourcesRaise(results: seq<SearchResult>) {
    exists k :: 0 <= k < |results| && HasText(results[k]) && MetadataRaises(results[k])
  }

  /** Every context passage is a string, so that `_build_prompt` can split it into lines. */
  predicate ContextIsText(results: seq<SearchResult>) {
    forall k :: 0 <= k < |results| && HasText(results[k]) ==> results[k].text.VStr?
  }

  /** The context passages handed to the LLM: the texts of the results that have one, in order. */
  function ContextTexts(results: seq<SearchResult>): seq<string> {
    Map(Filter(results, HasText), (r: SearchResult) => Render(r.text))
  }

  /**
   * `generate_answer` on the passages: a passage that is not a string makes
   * building the prompt raise inside the method's handler.
   */
  function Generated(llm: (string, int) -> LlmReply, question: string, results: seq<SearchResult>,
                     maxTokens: int, history: Option<seq<Turn>>): string {
    if ContextIsText(results) then GenerateAnswer(llm, question, ContextTexts(results), maxTokens, history)
    else GenerationError
  }

  /** The source records: one per result with text (a record is never empty). */
  function Sources(results: seq<SearchResult>): seq<Payload> {
    Map(Filter(results, HasText), SourceOf)
  }

  /** The readable line of one source, quoting `text`. */
  function SourceLine(src: Payload, text: Value): string {
    Quote(Excerpt(Render(text)), SourceLabel(src))
  }

  /** `- "<excerpt>" (<origin>)` */
  function Quote(excerpt: string, origin: string): string {
    "- \"" + excerpt + "\" (" + origin + ")"
  }

  /** The document name, sheet and page of a source, those present, joined by ", ". */
  function SourceLabel(src: Payload): string {
    var title := Get(src, "title", VNone);
    var docName := if Truthy(title) then title else Get(src, "document_id", VStr(DefaultDocumentName));
    var sheet := Get(src, "sheet", VNone);
    var page := Get(src, "page_number", VNone);
    var parts :=
      (if Truthy(docName) then ["문서: " + Render(docName)] else [])
      + (if Truthy(sheet) then ["시트: " + Render(sheet)] else [])
      + (if page != VNone then ["페이지: " + Render(page)] else []);
    Join(", ", parts)
  }

  /**
   * The source lines as the code writes them: the i-th source quotes the text
   * of the i-th search result, although sources were only made for results with text.
   */
  function SourceLinesAsWritten(results: seq<SearchResult>): (lines: seq<string>)
    ensures |lines| == |Sources(results)|
  {
    var srcs := Sources(results);
    seq(|srcs|, i requires 0 <= i < |srcs| => SourceLine(srcs[i], results[i].text))
  }

  /** The source lines as intended: each source quotes the result it was made from. */
  function SourceLines(results: seq<SearchResult>): (lines: seq<string>)
    ensures |lines| == |Sources(results)|
  {
    Map(Filter(results, HasText), (r: SearchResult) => SourceLine(SourceOf(r), r.text))
  }

  /** Each corrected line pairs a source with the text of the very result it came from. */
  lemma SourceLinesAligned(results: seq<SearchResult>, i: nat)
    requires i < |Sources(results)|
    ensures SourceLines(results)[i] == SourceLine(Sources(results)[i], Filter(results, HasText)[i].text)
    ensures Truthy(Filter(results, HasText)[i].text)
  {
  }

  /** The written and the intended lines coincide when every result has text. */
  lemma AsWrittenAgreesWithoutEmptyTexts(results: seq<SearchResult>)
    requires forall k :: 0 <= k < |results| ==> HasText(results[k])
    ensures SourceLinesAsWritten(results) == SourceLines(results)
  {
    FilterAll(results, HasText);
  }

  /** A first result without text and a second with text. */
  const Untexted: SearchResult := SearchResult("p0", 0.9, VStr(""), VStr("d1"), VInt(1), VInt(0), VDict(map[]))
  const Texted: SearchResult := SearchResult("p1", 0.8, VStr("본문"), VStr("d2"), VInt(2), VInt(0), VDict(map[]))

  /** The line of a source quotes its text's excerpt right after `- "`. */
  lemma SourceLineQuotes(src: Payload, text: Value)
    ensures |SourceLine(src, text)| > 3 && SourceLine(src, text)[..3] == "- \""
    ensures Excerpt(Render(text)) == "" ==> SourceLine(src, text)[3] == '"'
    ensures Excerpt(Render(text)) != "" ==> SourceLine(src, text)[3] == Excerpt(Render(text))[0]
  {
    QuoteShape(Excerpt(Render(text)), SourceLabel(src));
  }

  lemma QuoteShape(excerpt: string, origin: string)
    ensures |Quote(excerpt, origin)| > 3 + |excerpt| && Quote(excerpt, origin)[..3] == "- \""
    ensures excerpt == "" ==> Quote(excerpt, origin)[3] == '"'
    ensures excerpt != "" ==> Quote(excerpt, origin)[3] == excerpt[0]
  {
    var line := Quote(excerpt, origin);
    assert line[3 + |excerpt|] == '"';
  }

  lemma ExampleFilter()
    ensures Filter([Untexted, Texted], HasText) == [Texted]
  {
    var results := [Untexted, Texted];
    FilterStep(results, HasText);
    FilterStep(results[1..], HasText);
    assert results[1..][1..] == [];
  }

  lemma ExampleExcerpts()
    ensures Excerpt(Render(Untexted.text)) == ""
    ensures Excerpt(Render(Texted.text)) == "본문"
  {
    StripNoOp("본문");
    var flat := ReplaceChar("본문", '\n', ' ');
    assert flat[0] == '본' && flat[1] == '문';
    assert flat == "본문";
  }

  /**
   * With a first result that has no text, the written code quotes that empty
   * text under the second result's source, where the intended line quotes "본문".
   */
  lemma ExcerptMisaligned()
    ensures SourceLinesAsWritten([Untexted, Texted]) == [SourceLine(SourceOf(Texted), Untexted.text)]
    ensures SourceLines([Untexted, Texted]) == [SourceLine(SourceOf(Texted), Texted.text)]
    ensures SourceLinesAsWritten([Untexted, Texted])[0][3] == '"'
    ensures SourceLines([Untexted, Texted])[0][3] == '본'
  {
    var results := [Untexted, Texted];
    ExampleFilter();
    assert Sources(results) == [SourceOf(Texted)];
    assert SourceLinesAsWritten(results) == [SourceLine(SourceOf(Texted), Untexted.text)] by {
      assert SourceLinesAsWritten(results)[0] == SourceLine(SourceOf(Texted), results[0].text);
    }
    assert SourceLines(results) == [SourceLine(SourceOf(Texted), Texted.text)];
    ExampleExcerpts();
    assert SourceLine(SourceOf(Texted), Untexted.text)[3] == '"' by {
      SourceLineQuotes(SourceOf(Texted), Untexted.text);
    }
    assert SourceLine(SourceOf(Texted), Texted.text)[3] == '본' by {
      SourceLineQuotes(SourceOf(Texted), Texted.text);
    }
  }

  // ------------------------------------------------------------- ask_question

  /**
   * The dict `ask_question` returns; `contextCount` is absent on the not-found
   * and the error path, and `failed` records the error path's `error` key.
   */
  datatype AskResult = AskResult(
    question: string, answer: string, sources: seq<Payload>, searchResults: seq<SearchResult>,
    contextCount: Option<nat>, failed: bool)

  /** The reply of the handler of `ask_question`. */
  function Failed(question: string): AskResult {
    AskResult(question, ProcessingErrorAnswer, [], [], None, true)
  }

  /** The answer with the sources section appended when there are sources. */
  function WithSources(answer: string, lines: seq<string>): string {
    if lines == [] then answer else answer + SourcesHeader + Join("\n", lines)
  }

  /**
   * Quoting the excerpts as written raises: the i-th source quotes the i-th
   * search result, whose text may be no string (`strip` is a string method).
   */
  predicate ExcerptsRaise(results: seq<SearchResult>) {
    exists i :: 0 <= i < |Sources(results)| && i < |results| && !results[i].text.VStr?
  }

  /**
   * `ask_question`: search (limited to `max_results`, filtered by the document
   * id), answer "not found" without consulting the LLM when nothing comes back,
   * otherwise generate from the texts of the results and cite their sources,
   * quoting the excerpts as the code does; a type error on the way gives the
   * handler's reply.
   */
  function AskQuestion(endpoint: Endpoint, index: Index, llm: (string, int) -> LlmReply, question: string,
                       collection: string, maxResults: int, maxTokens: int, documentId: Option<string>,
                       history: Option<seq<Turn>>): (a: AskResult)
    ensures a.question == question
    ensures var results := SearchDocuments(endpoint, index, TargetCollection(collection), question, maxResults, 0.0, documentId, None);
      && (results == [] ==> a == AskResult(question, NotFoundAnswer, [], [], None, false))
      && (a.failed <==> results != [] && (SourcesRaise(results) || ExcerptsRaise(results)))
      && (a.failed ==> a == Failed(question))
      && (!a.failed ==> a.searchResults == results)
    ensures !a.failed && a.searchResults != [] ==>
      && a.contextCount == Some(Count(a.searchResults, HasText))
      && |a.sources| == Count(a.searchResults, HasText) <= |a.searchResults|
      && StartsWith(a.answer, Generated(llm, question, a.searchResults, maxTokens, history))
      && a.sources == Sources(a.searchResults)
      && a.answer == WithSources(Generated(llm, question, a.searchResults, maxTokens, history), SourceLinesAsWritten(a.searchResults))
  {
    var results := SearchDocuments(endpoint, index, TargetCollection(collection), question, maxResults, 0.0, documentId, None);
    if results == [] then AskResult(question, NotFoundAnswer, [], [], None, false)
    else if SourcesRaise(results) then Failed(question)
    else
      var generated := Generated(llm, question, results, maxTokens, history);
      if ExcerptsRaise(results) then Failed(question)
      else
        AnswerShape(generated, results);
        AskResult(question, WithSources(generated, SourceLinesAsWritten(results)), Sources(results), results,
                  Some(|ContextTexts(results)|), false)
  }

  /**
   * `ask_question` as intended: each source quotes the result it was made
   * from, so only a text that is no string can make quoting raise.
   */
  function AskQuestionIntended(endpoint: Endpoint, index: Index, llm: (string, int) -> LlmReply, question: string,
                               collection: string, maxResults: int, maxTokens: int, documentId: Option<string>,
                               history: Option<seq<Turn>>): (a: AskResult)
    ensures a.question == question
    ensures var results := SearchDocuments(endpoint, index, TargetCollection(collection), question, maxResults, 0.0, documentId, None);
      && (results == [] ==> a == AskResult(question, NotFoundAnswer, [], [], None, false))
      && (a.failed <==> results != [] && (SourcesRaise(results) || !ContextIsText(results)))
      && (a.failed ==> a == Failed(question))
      && (!a.failed ==> a.searchResults == results)
    ensures !a.failed && a.searchResults != [] ==>
      && a.contextCount == Some(Count(a.searchResults, HasText))
      && |a.sources| == Count(a.searchResults, HasText) <= |a.searchResults|
      && StartsWith(a.answer, GenerateAnswer(llm, question, ContextTexts(a.searchResults), maxTokens, history))
      && a.sources == Sources(a.searchResults)
      && a.answer == WithSources(GenerateAnswer(llm, question, ContextTexts(a.searchResults), maxTokens, history), SourceLines(a.searchResults))
  {
    var results := SearchDocuments(endpoint, index, TargetCollection(collection), question, maxResults, 0.0, documentId, None);
    if results == [] then AskResult(question, NotFoundAnswer, [], [], None, false)
    else if SourcesRaise(results) || !ContextIsText(results) then Failed(question)
    else
      var generated := GenerateAnswer(llm, question, ContextTexts(results), maxTokens, history);
      AnswerShape(generated, results);
      AskResult(question, WithSources(generated, SourceLines(results)), Sources(results), results,
                Some(|ContextTexts(results)|), false)
  }

  /** The reply starts with the generated text, and there is one source and one context text per result with text. */
  lemma AnswerShape(generated: string, results: seq<SearchResult>)
    ensures StartsWith(WithSources(generated, SourceLinesAsWritten(results)), generated)
    ensures StartsWith(WithSources(generated, SourceLines(results)), generated)
    ensures |Sources(results)| == |ContextTexts(results)| == Count(results, HasText) <= |results|
  {
    CountIsFilterLength(results, HasText);
    SectionPrefix(generated, SourceLinesAsWritten(results));
    SectionPrefix(generated, SourceLines(results));
  }

  lemma SectionPrefix(generated: string, lines: seq<string>)
    ensures StartsWith(WithSources(generated, lines), generated)
  {
    if lines != [] {
      assert WithSources(generated, lines)[..|generated|] == generated;
    }
  }

  /** Results whose texts are strings and whose metadata are dicts never reach the handler. */
  lemma WellTypedNeverFails(endpoint: Endpoint, index: Index, llm: (string, int) -> LlmReply, question: string,
                            collection: string, maxResults: int, maxTokens: int, documentId: Option<string>,
                            history: Option<seq<Turn>>)
    requires forall r :: r in SearchDocuments(endpoint, index, TargetCollection(collection), question, maxResults, 0.0, documentId, None) ==>
      r.text.VStr? && r.metadata.VDict?
    ensures !AskQuestion(endpoint, index, llm, question, collection, maxResults, maxTokens, documentId, history).failed
    ensures !AskQuestionIntended(endpoint, index, llm, question, collection, maxResults, maxTokens, documentId, history).failed
  {
  }

  /** When every result has text, the written and the intended `ask_question` agree. */
  lemma AllTextedAgree(endpoint: Endpoint, index: Index, llm: (string, int) -> LlmReply, question: string,
                       collection: string, maxResults: int, maxTokens: int, documentId: Option<string>,
                       history: Option<seq<Turn>>)
    requires forall r :: r in SearchDocuments(endpoint, index, TargetCollection(collection), question, maxResults, 0.0, documentId, None) ==>
      HasText(r)
    ensures AskQuestion(endpoint, index, llm, question, collection, maxResults, maxTokens, documentId, history) ==
            AskQuestionIntended(endpoint, index, llm, question, collection, maxResults, maxTokens, documentId, history)
  {
    var results := SearchDocuments(endpoint, index, TargetCollection(collection), question, maxResults, 0.0, documentId, None);
    FilterAll(results, HasText);
    AsWrittenAgreesWithoutEmptyTexts(results);
  }

  /** A first result whose text is `None` and a second with text. */
  const NoneText: SearchResult := SearchResult("p0", 0.9, VNone, VStr("d1"), VInt(1), VInt(0), VDict(map[]))

  /**
   * With a first result whose text is `None`, quoting as written calls `strip`
   * on `None`: the code answers with the handler's reply where the intended
   * quoting succeeds.
   */
  lemma NoneTextMisquoted()
    ensures ExcerptsRaise([NoneText, Texted])
    ensures ContextIsText([NoneText, Texted]) && !SourcesRaise([NoneText, Texted])
  {
    var results := [NoneText, Texted];
    FilterStep(results, HasText);
    FilterStep(results[1..], HasText);
    assert results[1..][1..] == [];
    assert Filter(results, HasText) == [Texted];
    assert |Sources(results)| == 1;
    assert !results[0].text.VStr?;
  }

  /** Without search results the LLM plays no part in the reply. */
  lemma NoResultsNoGeneration(endpoint: Endpoint, index: Index, llm1: (string, int) -> LlmReply, llm2: (string, int) -> LlmReply,
                              question: string, collection: string, maxResults: int, maxTokens: int,
                              documentId: Option<string>, history: Option<seq<Turn>>)
    requires SearchDocuments(endpoint, index, TargetCollection(collection), question, maxResults, 0.0, documentId, None) == []
    ensures AskQuestion(endpoint, index, llm1, question, collection, maxResults, maxTokens, documentId, history) ==
            AskQuestion(endpoint, index, llm2, question, collection, maxResults, maxTokens, documentId, history)
  {
  }

  /** The sources section is appended exactly when some result has text, one line per source. */
  lemma SourcesSectionIff(answer: string, results: seq<SearchResult>)
    ensures WithSources(answer, SourceLinesAsWritten(results)) == answer <==> Sources(results) == []
    ensures Sources(results) != [] ==>
      WithSources(answer, SourceLinesAsWritten(results)) == answer + SourcesHeader + Join("\n", SourceLinesAsWritten(results))
    ensures WithSources(answer, SourceLines(results)) == answer <==> Sources(results) == []
    ensures Sources(results) != [] ==>
      WithSources(answer, SourceLines(results)) == answer + SourcesHeader + Join("\n", SourceLines(results))
  {
    if Sources(results) != [] {
      assert |answer + SourcesHeader + Join("\n", SourceLinesAsWritten(results))| > |answer|;
      assert |answer + SourcesHeader + Join("\n", SourceLines(results))| > |answer|;
    }
  }

  // -------------------------------------------------------- ask_with_metadata

  /** One entry of `documents`: the id, the first result's metadata, the number of results. */
  datatype DocumentGroup = DocumentGroup(documentId: Value, metadata: Value, chunksCount: nat)

  /** Count one more result into the groups, opening a group for a new document id. */
  function Tally(groups: seq<DocumentGroup>, r: SearchResult): (g: seq<DocumentGroup>)
    ensures |g| == |groups| || |g| == |groups| + 1
  {
    if groups == [] then [DocumentGroup(r.documentId, r.metadata, 1)]
    else if groups[0].documentId == r.documentId then [groups[0].(chunksCount := groups[0].chunksCount + 1)] + groups[1..]
    else [groups[0]] + Tally(groups[1..], r)
  }

  /** The `documents` dict of `ask_with_metadata`, in insertion order. */
  function GroupByDocument(results: seq<SearchResult>): seq<DocumentGroup>
    decreases |results|
  {
    if results == [] then [] else Tally(GroupByDocument(results[..|results| - 1]), results[|results| - 1])
  }

  function GroupIds(groups: seq<DocumentGroup>): seq<Value> {
    Map(groups, (g: DocumentGroup) => g.documentId)
  }

  function TotalCount(groups: seq<DocumentGroup>): nat {
    if groups == [] then 0 else groups[0].chunksCount + TotalCount(groups[1..])
  }

  lemma {:induction false} TallyIds(groups: seq<DocumentGroup>, r: SearchResult)
    ensures GroupIds(Tally(groups, r)) == if r.documentId in GroupIds(groups) then GroupIds(groups) else GroupIds(groups) + [r.documentId]
  {
    if groups != [] {
      TallyIds(groups[1..], r);
      MapStep(groups, (g: DocumentGroup) => g.documentId);
      var t := Tally(groups, r);
      MapStep(t, (g: DocumentGroup) => g.documentId);
      assert t[1..] == if groups[0].documentId == r.documentId then groups[1..] else Tally(groups[1..], r);
    }
  }

  lemma {:induction false} TallyTotal(groups: seq<DocumentGroup>, r: SearchResult)
    ensures TotalCount(Tally(groups, r)) == TotalCount(groups) + 1
  {
    if groups != [] && groups[0].documentId != r.documentId {
      TallyTotal(groups[1..], r);
    }
  }

  /** The group of `id` grows by one exactly when the result belongs to it. */
  lemma {:induction false} TallyCount(groups: seq<DocumentGroup>, r: SearchResult, k: nat)
    requires k < |groups|
    ensures k < |Tally(groups, r)| && Tally(groups, r)[k].documentId == groups[k].documentId
    ensures Tally(groups, r)[k].metadata == groups[k].metadata
    ensures Tally(groups, r)[k].chunksCount == groups[k].chunksCount + (if groups[k].documentId == r.documentId && (forall j :: 0 <= j < k ==> groups[j].documentId != r.documentId) then 1 else 0)
  {
    if k > 0 && groups[0].documentId != r.documentId {
      TallyCount(groups[1..], r, k - 1);
    }
  }

  /**
   * The groups list every distinct document id once, in order of first
   * appearance, and their counts add up to the number of results.
   */
  lemma {:induction false} GroupByDocumentIds(results: seq<SearchResult>)
    ensures GroupIds(GroupByDocument(results)) == Distinct(DocumentIdsOf(results))
    ensures TotalCount(GroupByDocument(results)) == |results|
    decreases |results|
  {
    if results != [] {
      var init := results[..|results| - 1];
      var last := results[|results| - 1];
      GroupByDocumentIds(init);
      TallyIds(GroupByDocument(init), last);
      TallyTotal(GroupByDocument(init), last);
      DistinctIdsSnoc(results);
    }
  }

  /** The distinct ids of the results are those of all but the last, plus the last's if it is new. */
  lemma DistinctIdsSnoc(results: seq<SearchResult>)
    requires results != []
    ensures var init := DocumentIdsOf(results[..|results| - 1]);
            var id := results[|results| - 1].documentId;
            Distinct(DocumentIdsOf(results)) == if id in Distinct(init) then Distinct(init) else Distinct(init) + [id]
  {
    var ids := DocumentIdsOf(results);
    assert ids[..|ids| - 1] == DocumentIdsOf(results[..|results| - 1]);
    assert ids[|ids| - 1] == results[|results| - 1].documentId;
    DistinctSnoc(ids);
  }

  /** A group past the old ones is the new group of `r`, whose id was not grouped before. */
  lemma TallyAppends(groups: seq<DocumentGroup>, r: SearchResult, k: nat)
    requires |groups| <= k < |Tally(groups, r)|
    ensures r.documentId !in GroupIds(groups)
    ensures Tally(groups, r)[k] == DocumentGroup(r.documentId, r.metadata, 1)
  {
    TallyIds(groups, r);
    assert |GroupIds(Tally(groups, r))| == |Tally(groups, r)|;
    forall j | 0 <= j < |groups|
      ensures groups[j].documentId != r.documentId
    {
      assert GroupIds(groups)[j] == groups[j].documentId;
    }
    TallyNew(groups, r);
  }

  /** `results[i]` is the first result carrying its document id. */
  predicate FirstOfDocument(results: seq<SearchResult>, i: nat) {
    i < |results| && forall j :: 0 <= j < i ==> results[j].documentId != results[i].documentId
  }

  /** A group keeps the metadata of the first result carrying its document id. */
  lemma {:induction false} GroupMetadataFirst(results: seq<SearchResult>, k: nat, i: nat)
    requires k < |GroupByDocument(results)| && FirstOfDocument(results, i)
    requires results[i].documentId == GroupByDocument(results)[k].documentId
    ensures GroupByDocument(results)[k].metadata == results[i].metadata
    decreases |results|
  {
    var init := results[..|results| - 1];
    var last := results[|results| - 1];
    var groups := GroupByDocument(init);
    assert GroupByDocument(results) == Tally(groups, last);
    GroupByDocumentIds(init);
    if k < |groups| {
      TallyCount(groups, last, k);
      OldGroupFirstBefore(results, groups, k, i);
      GroupMetadataFirst(init, k, i);
    } else {
      TallyAppends(groups, last, k);
      NewGroupFirstIsLast(results, groups, i);
    }
  }

  /** The first result of an id grouped before the last result comes before it, and stays first without it. */
  lemma OldGroupFirstBefore(results: seq<SearchResult>, groups: seq<DocumentGroup>, k: nat, i: nat)
    requires FirstOfDocument(results, i) && k < |groups|
    requires GroupIds(groups) == Distinct(DocumentIdsOf(results[..|results| - 1]))
    requires results[i].documentId == groups[k].documentId
    ensures i < |results| - 1 && FirstOfDocument(results[..|results| - 1], i)
    ensures results[..|results| - 1][i] == results[i]
  {
    var j := GroupedIdOccurs(results[..|results| - 1], groups, k);
    assert results[j].documentId == results[..|results| - 1][j].documentId;
  }

  /** The first result of an id new with the last result is the last result. */
  lemma NewGroupFirstIsLast(results: seq<SearchResult>, groups: seq<DocumentGroup>, i: nat)
    requires FirstOfDocument(results, i) && results != []
    requires GroupIds(groups) == Distinct(DocumentIdsOf(results[..|results| - 1]))
    requires results[|results| - 1].documentId !in GroupIds(groups)
    requires results[i].documentId == results[|results| - 1].documentId
    ensures i == |results| - 1
  {
    var init := results[..|results| - 1];
    UngroupedIdAbsent(init, groups, results[|results| - 1].documentId);
    assert forall j :: 0 <= j < |init| ==> init[j] == results[j];
  }

  /** Every grouped id is the id of some result. */
  lemma GroupedIdOccurs(results: seq<SearchResult>, groups: seq<DocumentGroup>, k: nat) returns (j: nat)
    requires GroupIds(groups) == Distinct(DocumentIdsOf(results)) && k < |groups|
    ensures j < |results| && results[j].documentId == groups[k].documentId
  {
    var ids := DocumentIdsOf(results);
    assert GroupIds(groups)[k] == groups[k].documentId;
    j :| 0 <= j < |ids| && ids[j] == groups[k].documentId;
  }

  /** An id missing from the groups belongs to no result. */
  lemma UngroupedIdAbsent(results: seq<SearchResult>, groups: seq<DocumentGroup>, id: Value)
    requires GroupIds(groups) == Distinct(DocumentIdsOf(results)) && id !in GroupIds(groups)
    ensures forall j :: 0 <= j < |results| ==> results[j].documentId != id
  {
    var ids := DocumentIdsOf(results);
    forall j | 0 <= j < |results|
      ensures results[j].documentId != id
    {
      assert ids[j] in Distinct(ids);
    }
  }

  /** Each group counts exactly the results carrying its document id. */
  lemma {:induction false} GroupByDocumentCounts(results: seq<SearchResult>, k: nat)
    requires k < |GroupByDocument(results)|
    ensures var g := GroupByDocument(results)[k];
            g.chunksCount == Count(results, (r: SearchResult) => r.documentId == g.documentId)
    decreases |results|
  {
    var init := results[..|results| - 1];
    var last := results[|results| - 1];
    var groups := GroupByDocument(init);
    var g := GroupByDocument(results)[k];
    var same := (r: SearchResult) => r.documentId == g.documentId;
    assert results == init + [last];
    assert GroupByDocument(results) == Tally(groups, last);
    CountSnoc(init, last, same);
    if k < |groups| {
      TallyCount(groups, last, k);
      GroupByDocumentCounts(init, k);
      EarlierGroupsDiffer(init, k);
    } else {
      GroupByDocumentIds(init);
      TallyAppends(groups, last, k);
      UngroupedIdAbsent(init, groups, last.documentId);
      CountZeroIff(init, same);
    }
  }

  /** No group before the `k`-th shares its document id. */
  lemma EarlierGroupsDiffer(results: seq<SearchResult>, k: nat)
    requires k < |GroupByDocument(results)|
    ensures forall j :: 0 <= j < k ==> GroupByDocument(results)[j].documentId != GroupByDocument(results)[k].documentId
  {
    var groups := GroupByDocument(results);
    GroupIdsDistinct(results);
    assert GroupIds(groups)[k] == groups[k].documentId;
    forall j | 0 <= j < k
      ensures groups[j].documentId != groups[k].documentId
    {
      assert GroupIds(groups)[j] == groups[j].documentId;
    }
  }

  lemma GroupIdsDistinct(results: seq<SearchResult>)
    ensures NoDuplicates(GroupIds(GroupByDocument(results)))
  {
    GroupByDocumentIds(results);
  }

  /** A new group is appended at the end with a count of one. */
  lemma {:induction false} TallyNew(groups: seq<DocumentGroup>, r: SearchResult)
    requires forall j :: 0 <= j < |groups| ==> groups[j].documentId != r.documentId
    ensures Tally(groups, r) == groups + [DocumentGroup(r.documentId, r.metadata, 1)]
  {
    if groups != [] {
      TallyNew(groups[1..], r);
    }
  }

  /** A document id with no group has no result. */
  lemma NoOtherGroup(results: seq<SearchResult>, id: Value)
    requires forall j :: 0 <= j < |GroupByDocument(results)| ==> GroupByDocument(results)[j].documentId != id
    ensures Count(results, (r: SearchResult) => r.documentId == id) == 0
  {
    GroupByDocumentIds(results);
    var ids := DocumentIdsOf(results);
    var groups := GroupByDocument(results);
    forall i | 0 <= i < |results|
      ensures results[i].documentId != id
    {
      assert ids[i] == results[i].documentId;
      var j :| 0 <= j < |Distinct(ids)| && Distinct(ids)[j] == ids[i];
      assert GroupIds(groups)[j] == groups[j].documentId;
    }
    CountZeroIff(results, (r: SearchResult) => r.documentId == id);
  }

  /** The `stats` of `ask_with_metadata` (the average score is left out). */
  datatype MetadataStats = MetadataStats(totalResults: nat, uniqueDocuments: nat)

  /**
   * `ask_with_metadata`'s reply: the plain answer and, when there were results,
   * the documents and stats; or the handler's reply, which has no sources.
   */
  datatype DetailedAnswer =
    | DetailedAnswer(base: AskResult, documents: Option<seq<DocumentGroup>>, stats: Option<MetadataStats>)
    | DetailFailed(question: string, answer: string)

  /**
   * `ask_with_metadata`: `ask_question` without history, then, when the search
   * found anything, one entry per distinct document id and the totals; a dict
   * as a document id cannot be a key of `documents`, and the handler replies.
   */
  function AskWithMetadata(endpoint: Endpoint, index: Index, llm: (string, int) -> LlmReply, question: string,
                           collection: string, maxResults: int, maxTokens: int, documentId: Option<string>): (d: DetailedAnswer)
    ensures var base := AskQuestion(endpoint, index, llm, question, collection, maxResults, maxTokens, documentId, None);
      && (d.DetailFailed? <==> exists k :: 0 <= k < |base.searchResults| && !Hashable(base.searchResults[k].documentId))
      && (d.DetailFailed? ==> d == DetailFailed(question, ProcessingErrorAnswer))
      && (d.DetailedAnswer? ==> d.base == base)
    ensures d.DetailedAnswer? ==>
      && (d.documents.None? <==> d.base.searchResults == [])
      && (d.stats.None? <==> d.base.searchResults == [])
      && (d.stats.Some? ==> d.stats.value.totalResults == |d.base.searchResults|)
      && (d.stats.Some? && d.documents.Some? ==> d.stats.value.uniqueDocuments == |d.documents.value|)
      && (d.base.searchResults != [] ==> d.documents == Some(GroupByDocument(d.base.searchResults)))
  {
    var base := AskQuestion(endpoint, index, llm, question, collection, maxResults, maxTokens, documentId, None);
    if base.searchResults == [] then DetailedAnswer(base, None, None)
    else if exists k :: 0 <= k < |base.searchResults| && !Hashable(base.searchResults[k].documentId) then
      DetailFailed(question, ProcessingErrorAnswer)
    else
      var groups := GroupByDocument(base.searchResults);
      DetailedAnswer(base, Some(groups), Some(MetadataStats(|base.searchResults|, |groups|)))
  }

  /**
   * The per-document counts add up to `total_results`, and `unique_documents`
   * is the number of distinct document ids among the results.
   */
  lemma AskWithMetadataCounts(endpoint: Endpoint, index: Index, llm: (string, int) -> LlmReply, question: string,
                              collection: string, maxResults: int, maxTokens: int, documentId: Option<string>)
    ensures var d := AskWithMetadata(endpoint, index, llm, question, collection, maxResults, maxTokens, documentId);
            d.DetailedAnswer? && d.documents.Some? && d.stats.Some? ==>
              TotalCount(d.documents.value) == d.stats.value.totalResults &&
              d.stats.value.uniqueDocuments == |Elements(DocumentIdsOf(d.base.searchResults))|
  {
    var d := AskWithMetadata(endpoint, index, llm, question, collection, maxResults, maxTokens, documentId);
    if d.DetailedAnswer? && d.documents.Some? {
      var results := d.base.searchResults;
      GroupByDocumentIds(results);
      DistinctCardinality(DocumentIdsOf(results));
    }
  }
}
