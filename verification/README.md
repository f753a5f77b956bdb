# RAG ingestion and retrieval pipeline, modelled in Dafny

This project models the sequential text-and-record logic of a Python RAG service. The service's pipeline runs as follows:

- An upload is dispatched to a file-type extractor (PDF, Excel, Word, PowerPoint, image OCR).
- Its text is cut into chunks by a structure-aware chunker.
- The chunks are embedded by a remote model and stored as points in a Qdrant collection.
- A background task reports each stage on an in-memory progress tracker.

On the query side:

- a question is embedded and searched;
- the hits are formatted;
- table blocks in the retrieved context are filtered by a numeric threshold read from the question (`<column> N명 이상`);
- a prompt is assembled with the conversation history;
- the LLM answer is extended with a list of quoted sources and per-document counts.

One Dafny module per source file (no module nesting):

| file | module | models |
|---|---|---|
| wrappers.dfy | Wrappers | `Option` and `Result` |
| pytext.dfy | PyText | the Python `str` primitives the code relies on: `isspace`, `strip`, `splitlines`, `join`, `split`, `in` on strings, `int()`, `str(int)`, `lower`, `os.path.splitext`, `os.path.basename` |
| records.dfy | Records | dynamic dict values (`Value`, `Payload`), their truthiness and hashability, chunk records, `dict.get` |
| seqs.dfy | Seqs | generic sequence helpers (filter, map, distinct, count) |
| chunker.dfy | Chunker | src/text_chunker.py |
| progress.dfy | Progress | src/api/upload_progress.py |
| threshold.dfy | Threshold | the regular expression of src/qa_service.py:81, as a hand-written matcher |
| prompt.dfy | Prompt | `_build_prompt` and `generate_answer` of src/qa_service.py |
| answer.dfy | Answer | `ask_question` and `ask_with_metadata` of src/qa_service.py |
| embedding.dfy | Embedding | src/embedding_service.py |
| vector_store.dfy | VectorStore | src/qdrant_manager.py |
| search.dfy | Search | src/search_service.py and the text-search path of src/qdrant_manager.py |
| extractors.dfy | Extractors | src/pdf_processor.py |
| ingestion.dfy | Ingestion | `upload_file`, its background `process_file_task`, and `get_documents` of src/api/routes.py |

Remote services are function-typed parameters that return `None` when the call raised:

- the embedding endpoint;
- the LLM;
- the Qdrant ranking (`Search.Index`);
- the OCR engines and PDF libraries.

The Qdrant server is an immutable value: it is either unreachable or a map from collection names to a vector size and a sequence of points. Point ids come from a `newId: nat -> string` supply. Today's date, the file's extraction time and the PDF file contents are parameters. The background task is a pure function that returns the tracker updates it performs, together with the server state it leaves behind.

Behaviour of the code worth noting:

- A tracker in state `done` or `error` is not terminal. `set_progress` below 100 keeps the status but overwrites the progress, and `set_error` applies from any state (src/api/upload_progress.py:16-29; `Progress.NoReturnToProcessing`, `Progress.LastUpdateDecides`).
- Block coalescing does not make every merged block at least `min_chunk` long. What holds is that a short merged entry is always followed by a long one or comes last (`Chunker.CoalesceShape`).
- `get_documents` returns `list(set(...))`, whose order is unspecified. The model lists the distinct ids in first-occurrence order and states only membership and distinctness.

## Model

| member | source | states |
|---|---|---|
| PyText.Strip | src/qa_service.py:66 | `str.strip()`: the result is the input with its leading and trailing whitespace cut, empty exactly when the input is blank, and its ends are not whitespace |
| PyText.SplitLinesOfJoin | src/qa_service.py:66 | `splitlines` undoes a `"\n"`-join of break-free lines whose last line is non-empty |
| PyText.ParseIntOfIntToString | src/qa_service.py:101 | `int()` reads back every integer that `str()` writes, negative ones included |
| PyText.SplitExt | src/api/routes.py:116 | `os.path.splitext`: root and extension concatenate to the path; a non-empty extension starts with the one dot and holds no other dot or slash; the extension is non-empty exactly when the path has a cut point, a dot with no later dot or slash and a non-dot earlier in the last component, and it is then cut there |
| PyText.Basename | src/api/routes.py:181 | `os.path.basename`: a slash-free suffix of the path that is either the whole path or starts right after a slash, so it is everything after the last `/` |
| Records.Get | src/search_service.py:53-65 | `dict.get(k, default)`: the stored value when the key is present, else the default |
| Chunker.SegmentShape | src/text_chunker.py:43-56 | segmentation keeps exactly the non-blank lines, in order; every block is a single table row or a non-empty run of non-blank, non-row lines |
| Chunker.SegmentFromLines | src/text_chunker.py:43-56 | the lines of the blocks produced from a pending paragraph and the remaining lines are the pending lines followed by the non-blank remaining lines |
| Chunker.SegmentFromWellFormed | src/text_chunker.py:43-56 | every emitted block is a lone table row or a non-empty paragraph of non-blank, non-row lines |
| Chunker.SegmentFromStep | src/text_chunker.py:44-54 | one line of segmentation: a table row flushes the paragraph and stands alone, a blank line only flushes, any other line joins the paragraph |
| Chunker.WellFormedBlockNonBlank | src/text_chunker.py:43-56 | no block's text is blank |
| Chunker.JoinTexts | src/text_chunker.py:46-56 | `"\n"`-joining the block texts gives the `"\n"`-join of the kept lines; no blocks exactly when no kept lines |
| Chunker.BlockTextsNonBlank | src/text_chunker.py:43-56 | every block text of a segmentation is non-blank |
| Chunker.CoalesceShape | src/text_chunker.py:58-73 | in the coalesced list, an entry shorter than `min_chunk` is last or is followed by an entry of at least `min_chunk`; there are never more entries than blocks |
| Chunker.CoalesceFromShape | src/text_chunker.py:61-73 | the short-then-long shape and the count bound, from any pending buffer |
| Chunker.CoalesceFromStep | src/text_chunker.py:61-71 | one block of coalescing: a short block is appended to the buffer, which is emitted once long enough; a long block first flushes the buffer and is then emitted alone |
| Chunker.CoalesceLossless | src/text_chunker.py:58-73 | coalescing is lossless: the `"\n"`-join of the merged entries equals the `"\n"`-join of the blocks, and no merged entry is empty |
| Chunker.CoalesceFromLossless | src/text_chunker.py:61-73 | lossless from any pending buffer: the merged entries join to the buffer glued before the joined blocks |
| Chunker.LongBlockLossless | src/text_chunker.py:67-71 | the flush-then-emit step of a long block keeps the joined text |
| Chunker.CoalesceBlocks | src/text_chunker.py:58-73 | the imperative loop, with its mutable buffer, computes the same list as the recursive definition |
| Chunker.CoalesceAt | src/text_chunker.py:61-71 | the four cases of the loop body at position i, stated against the recursive definition |
| Chunker.WindowsFrom | src/text_chunker.py:77-78 | every window is non-empty and at most 500 long; there is none exactly when the start is past the block |
| Chunker.WindowsFromAt | src/text_chunker.py:77-78 | the k-th window is the block slice starting at offset k·450 and at most 500 long |
| Chunker.ReassembleWindows | src/text_chunker.py:77-78 | window round trip: the first 450 characters of each window but the last, then the whole last window, rebuild the block |
| Chunker.ReassembleWindowsFrom | src/text_chunker.py:77-78 | the round trip for windows starting at any offset rebuilds the block's suffix from that offset |
| Chunker.ReassembleBlank | src/text_chunker.py:79 | windows that are all blank reassemble to blank text, so dropping them drops no visible content |
| Chunker.ChunkText | src/text_chunker.py:28-84 | every chunk records its own length as `chunk_size`, is at most 500 long, is non-blank, and carries no other field |
| Chunker.ChunkingIsLossless | src/text_chunker.py:43-78 | the merged blocks join to the non-blank lines of the input, and each merged block is rebuilt from its windows |
| Chunker.ChunkTextEmptyIff | src/text_chunker.py:38-39 | `chunk_text` returns no chunks exactly when the text is empty or whitespace-only |
| Chunker.BlankTextNoChunks | src/text_chunker.py:38-39 | blank text yields no chunks |
| Chunker.NonBlankTextHasBlock | src/text_chunker.py:43-56 | non-blank text yields at least one block |
| Chunker.NonBlankMergedBlock | src/text_chunker.py:58-73 | non-blank text yields a non-blank merged block |
| Chunker.NonBlankWindow | src/text_chunker.py:76-79 | a non-blank block has a non-blank window, which survives the whitespace filter |
| Chunker.PageChunks | src/text_chunker.py:102-109 | a page contributes exactly the chunks `chunk_text` makes of its text, in order and with the same texts, each stamped with the page's number (default 0) and size (default 0) and at most the window long |
| Chunker.PageChunksEmptyIff | src/text_chunker.py:102 | a page contributes no chunks exactly when its text is blank |
| Chunker.ChunkTextByPages | src/text_chunker.py:86-114 | every chunk of the page-wise chunking records its own length and is non-blank |
| Chunker.ChunkTextByPagesConcat | src/text_chunker.py:98-111 | page-wise chunking distributes over concatenation of page lists, so chunks come in page order |
| Chunker.ChunkTextByPagesEmptyIff | src/text_chunker.py:98-111 | page-wise chunking is empty exactly when every page is blank |
| Chunker.FilterChunksBySize | src/text_chunker.py:182-192 | the result is the order-preserving subsequence of chunks with `min_size <= chunk_size` and, when a maximum is given, `chunk_size <= max_size`; every such chunk is kept, and there are exactly as many results as such chunks |
| Chunker.MergeSmallChunks | src/text_chunker.py:206-231 | empty exactly for empty input, never longer than the input, and every entry but the last reaches `min_size` |
| Chunker.MergeFrom | src/text_chunker.py:212-228 | from a current chunk: at least one and at most one more than the rest, every entry but the last reaching `min_size` |
| Chunker.MergeSmallChunksKeepsText | src/text_chunker.py:206-231 | merging keeps the text: the `" "`-join of the merged texts equals the `" "`-join of the input texts |
| Chunker.MergeFromKeepsText | src/text_chunker.py:212-228 | the same text preservation from any current chunk |
| Chunker.GetChunkStatistics | src/text_chunker.py:149-167 | the all-zero record for no chunks; otherwise the count is the number of chunks, min and max bound every `chunk_size` and are attained, and `total_text_length` is the sum of the sizes, between count × min and count × max |
| Chunker.MinSize | src/text_chunker.py:164 | `min` of the sizes: a lower bound that is attained |
| Chunker.MaxSize | src/text_chunker.py:165 | `max` of the sizes: an upper bound that is attained |
| Chunker.SumSizesAtLeast | src/text_chunker.py:158-159 | the total text length is at least the count times any lower bound on the sizes |
| Chunker.SumSizesAtMost | src/text_chunker.py:158-159 | the total text length is at most the count times any upper bound on the sizes |
| Progress.StatusName | src/api/upload_progress.py:11 | the four status names are distinct and each names its status |
| Progress.Create | src/api/upload_progress.py:8-14 | a new tracker is registered at progress 0, status processing and message `처리 중`, replacing any entry with that id and leaving other ids alone |
| Progress.SetProgress | src/api/upload_progress.py:16-23 | the progress becomes the value; at 100 or more the status is done with the fixed completion message; below 100 the status is unchanged and the message is replaced only by a truthy one |
| Progress.SetError | src/api/upload_progress.py:25-29 | from any state: error status, the given message, progress 0 |
| Progress.GetProgress | src/api/upload_progress.py:31-44 | a registered id reports its tracker; an unknown id reports progress 0, status unknown and `진행 정보 없음` under the asked id |
| Progress.StillProcessingIff | src/api/upload_progress.py:16-29 | a tracker is still processing after a series of updates exactly when it was processing and no update was an error or reached 100 |
| Progress.ApplyAllKeepsId | src/api/upload_progress.py:16-29 | updates never change the task id |
| Progress.ApplyAllSnoc | src/api/upload_progress.py:16-29 | applying a series then one more update is the same as applying the extended series |
| Progress.LastUpdateDecides | src/api/upload_progress.py:21-29 | a final error sets error, its message and progress 0 whatever came before; a final step of 100 or more sets done |
| Progress.HappyPath | src/api/upload_progress.py:8-23 | a new tracker driven through 20, 40, 80, 100 ends done at 100 with the completion message |
| Progress.SetProgressIdempotent | src/api/upload_progress.py:16-23 | setting the same progress twice is the same as setting it once |
| Progress.NoReturnToProcessing | src/api/upload_progress.py:16-29 | once done or in error, no update makes a tracker processing again |
| Progress.UpdateInRegistry | src/api/upload_progress.py:14 | updating one tracker in the registry keeps every entry under its own id and leaves the other ids' reports unchanged |
| Threshold.SpaceEnd | src/qa_service.py:81 | `\s*`: the end of the longest whitespace run from a position |
| Threshold.SpaceEndSpans | src/qa_service.py:81 | everything `\s*` consumed is whitespace |
| Threshold.DigitEnd | src/qa_service.py:81 | `[0-9]*`: the end of the longest digit run |
| Threshold.DigitEndSpans | src/qa_service.py:81 | everything the digit run consumed is a digit |
| Threshold.WordEnd | src/qa_service.py:81 | `[가-힣A-Za-z0-9_]*`: the end of the longest run of column characters |
| Threshold.WordEndSpans | src/qa_service.py:81 | everything the column run consumed is a column character |
| Threshold.TailAtIff | src/qa_service.py:81 | after a column ending at e1, the tail `\s*([0-9]+)명\s*이상` matches exactly when the pattern matches there |
| Threshold.TailAtSound | src/qa_service.py:81 | a tail the matcher finds is a real match of the whole pattern |
| Threshold.TailAtComplete | src/qa_service.py:81 | every real match is found by the matcher, with the same number span |
| Threshold.TailAtDigits | src/qa_service.py:81 | the captured number consists of ASCII digits only |
| Threshold.GreedyEnd | src/qa_service.py:81 | backtracking from the longest column: the longest column end after which the tail matches, or none if no end does |
| Threshold.LazyEnd | src/qa_service.py:81 | the shortest column end after which the tail matches, or none |
| Threshold.EndAt | src/qa_service.py:81 | the column end chosen at a start, greedy or lazy, is one after which the tail matches, and it is the last or first such end |
| Threshold.EndAtIff | src/qa_service.py:81 | a column end is found at a start exactly when the pattern matches from there |
| Threshold.SearchFrom | src/qa_service.py:81 | `re.search` semantics: the first start at which a column end is found |
| Threshold.SearchIsLeftmostMatch | src/qa_service.py:81 | the search finds nothing exactly when no position starts a match; otherwise it returns a match at the leftmost such position |
| Threshold.TailStepBack | src/qa_service.py:81 | a column ending in a digit directly before the number can be shortened by one, and the tail still matches |
| Threshold.LazyKeepsWholeNumber | src/qa_service.py:81 | the lazy column never steals a digit from the number: it is one character long, does not end in a digit, or is followed by spaces |
| Threshold.UnspacedFacts | src/qa_service.py:81 | for `진학수40명 이상`, the tail matches after `진학수` and after `진학수4`, and at no other column end |
| Threshold.GreedySplitsNumber | src/qa_service.py:81 | as written (greedy column): `진학수40명 이상` gives column `진학수4` and threshold 0 |
| Threshold.LazyReadsWholeNumber | src/qa_service.py:81 | corrected (lazy column): `진학수40명 이상` gives column `진학수` and threshold 40 |
| Prompt.StrippedLinesOf | src/qa_service.py:66 | exactly the non-blank lines, in order, each trimmed: no more than the input, each non-empty and already trimmed |
| Prompt.StrippedLinesOfJoin | src/qa_service.py:66 | trimmed, non-empty, break-free lines joined by `"\n"` come back unchanged |
| Prompt.Classify | src/qa_service.py:65-79 | table exactly when the first trimmed line is `\|`-bounded; list exactly when otherwise every trimmed line starts with `-` or an ASCII digit; text in every other case, a blank block included |
| PyText.Split | src/qa_service.py:91 | `str.split` on one character: one more piece than there are separators, no piece contains the separator, and joining the pieces with it gives back the string |
| Prompt.Cells | src/qa_service.py:91 | one more cell than there are `|` inside the row with its outer `|` removed; the cells are the trimmed pieces between those `|`, each free of `|` and already trimmed |
| Prompt.FilterTable | src/qa_service.py:90-106 | a table whose header lacks the column passes through unchanged |
| Prompt.FilterTableContents | src/qa_service.py:97-106 | a filtered table is its header followed, in order, by exactly the rows whose cell at the column parses as an int of at least N; it is removed when no row survives, and it is still a table |
| Prompt.KeptRowsClean | src/qa_service.py:97-104 | the kept rows are still trimmed, non-empty, single-line |
| Prompt.FilterContext | src/qa_service.py:86-107 | filtering never adds blocks |
| Prompt.FilterContextKeepsNonTables | src/qa_service.py:86-89 | the non-table blocks of the context survive unchanged and in order |
| Prompt.PromptContext | src/qa_service.py:80-109 | as written, with the greedy matcher: without a threshold in the query the context passes verbatim; filtering never adds blocks and keeps every non-table block, in order |
| Prompt.PromptContextIntended | src/qa_service.py:80-107 | as intended, with the lazy matcher: the same guarantees, the threshold being read with the whole number |
| Prompt.FilterContextWithoutColumn | src/qa_service.py:90-96 | a threshold whose column no table header names (`LacksColumn` for every block) leaves the context unchanged |
| Prompt.UnspacedQueryContext | src/qa_service.py:81-84 | for `진학수40명 이상` the code filters on column `진학수4` with minimum 0, so every table lacking that column stays whole, while the intended filter uses column `진학수` and minimum 40 |
| Prompt.FirstTruthy | src/qa_service.py:121-122 | `d.get(k1) or d.get(k2) or …`: a truthy result is the value under one of the keys; the result is falsy exactly when no key holds a truthy value |
| Prompt.TurnLines | src/qa_service.py:123-126 | a turn contributes at most two history lines |
| Prompt.HistoryLines | src/qa_service.py:120-126 | at most two history lines per turn |
| Prompt.HistoryLinesEmptyIff | src/qa_service.py:127-128 | there are no history lines exactly when no turn has a truthy question or answer |
| Prompt.BuildPrompt | src/qa_service.py:129 | the prompt (context as written) starts with the history text and the fixed preamble, and ends with `[질문]`, the query and `[답변]` |
| Prompt.BuildPromptParts | src/qa_service.py:109-129 | the prompt is history, preamble, the context filtered as written and joined by blank lines, then the question section; without a threshold the context appears verbatim |
| Prompt.GenerateAnswer | src/qa_service.py:27-57 | a failed LLM call gives the fixed apology; a successful one gives the trimmed response to the built prompt |
| Answer.ExcerptShape | src/qa_service.py:177-178 | an excerpt is at most 80 characters plus `...`, contains no `\n`, is the whole flattened text when the text is at most 80 long, and otherwise is a prefix of it followed by `...` |
| Answer.SourceOf | src/qa_service.py:162-167 | a source holds only the six source keys; a key found in the result's metadata wins over the result's own field; document id, page number and chunk index are always present |
| Answer.SourceLinesAsWritten | src/qa_service.py:173-191 | as written: exactly one line per source (which text line i quotes is exhibited by `Answer.ExcerptMisaligned`) |
| Answer.ExcerptMisaligned | src/qa_service.py:175-178 | with one result without text before one with text, the as-written line quotes the empty text while the corrected line quotes `본문` |
| Answer.SourceLines | src/qa_service.py:173-191 | corrected: one line per source |
| Answer.SourceLinesAligned | src/qa_service.py:158-178 | corrected: the i-th line quotes the text of the i-th result that has text, the one the source came from |
| Answer.AsWrittenAgreesWithoutEmptyTexts | src/qa_service.py:158-178 | when every result has text, the as-written and the corrected lines coincide |
| Answer.SourceLineQuotes | src/qa_service.py:190 | a source line opens with `- "` followed by the excerpt's first character, or by the closing quote when the excerpt is empty |
| Answer.AskQuestion | src/qa_service.py:132-208 | as written: the search runs with the question, limit and document id; no results give the fixed not-found answer with no sources; a metadata lookup or an excerpt that raises gives exactly the handler's reply; otherwise the context count is the number of results with text, the sources are the source records of those results, and the answer is the generated one followed by the sources section quoting the excerpts by position |
| Answer.AskQuestionIntended | src/qa_service.py:132-208 | as intended, each source quoting its own result: the same, except that only a context text that is no string makes quoting raise, and the answer is the LLM's answer to the context texts followed by the sources section, each line quoting its own result |
| Answer.WellTypedNeverFails | src/qa_service.py:158-192 | when every result's text is a string and its metadata a dict, neither version reaches the handler |
| Answer.AllTextedAgree | src/qa_service.py:158-192 | when every result has text, the code as written and the intended version give the same reply |
| Answer.NoneTextMisquoted | src/qa_service.py:175-178 | with a first result whose text is `None` before one with text, quoting as written raises although every context text is a string and no metadata lookup raises |
| Answer.NoResultsNoGeneration | src/qa_service.py:147-154 | with no search results the LLM is never consulted: any two LLMs give the same reply |
| Answer.AnswerShape | src/qa_service.py:156-192 | with the lines as written or as intended, the answer extends the generated text, and sources and context texts are as many as the results with text |
| Answer.SourcesSectionIff | src/qa_service.py:173-192 | with the lines as written or as intended, the sources section is appended exactly when there are sources, as the header followed by the lines joined by newlines |
| Answer.Tally | src/qa_service.py:220-228 | tallying one result adds at most one group |
| Answer.GroupByDocumentIds | src/qa_service.py:219-230 | the groups are the distinct document ids in first-occurrence order, and their counts add up to the number of results |
| Answer.GroupByDocumentCounts | src/qa_service.py:219-228 | each group counts exactly the results with its document id |
| Answer.GroupMetadataFirst | src/qa_service.py:219-228 | each group carries the metadata of the first result with its document id |
| Answer.GroupIdsDistinct | src/qa_service.py:219-230 | no document id has two groups |
| Answer.NoOtherGroup | src/qa_service.py:219-228 | a document id without a group has no results |
| Answer.TallyIds | src/qa_service.py:221-227 | tallying adds a group exactly for an unseen document id |
| Answer.TallyTotal | src/qa_service.py:228 | every tally adds one to the total count |
| Answer.TallyCount | src/qa_service.py:222-228 | tallying increments the count of the result's group and no other |
| Answer.TallyNew | src/qa_service.py:222-228 | an unseen document id opens a group with count 1 and the result's metadata |
| Answer.AskWithMetadata | src/qa_service.py:210-247 | the handler's reply exactly when a result's document id is a dict; otherwise the base reply is `ask_question`'s, documents and stats are present exactly when there are results, `total_results` is the result count, `documents` is the grouping of the results by document id, and `unique_documents` the number of groups |
| Answer.AskWithMetadataCounts | src/qa_service.py:233-236 | the group counts sum to `total_results`, and `unique_documents` is the number of distinct document ids |
| Embedding.EmbedText | src/embedding_service.py:24-58 | blank text gives the empty vector without calling the endpoint; other text sends its stripped form |
| Embedding.WithEmbedding | src/embedding_service.py:83-85 | the chunk gains the vector and its length as dimension, and nothing else changes |
| Embedding.EmbedOne | src/embedding_service.py:76-95 | a chunk is kept, with its embedding, exactly when its text is non-blank and the endpoint answered |
| Embedding.EmbedChunks | src/embedding_service.py:60-98 | no more chunks than given, none for none; each kept chunk is non-blank and carries an embedding with its length as dimension |
| Embedding.EmbedChunksIsFilterMap | src/embedding_service.py:60-98 | the output is the embeddable chunks, in order, each with its embedding attached; an empty vector that is returned is kept |
| Embedding.EmbedChunksCount | src/embedding_service.py:60-98 | the output length is the number of embeddable chunks |
| Embedding.EmbedBatch | src/embedding_service.py:100-130 | for a positive batch size the output is position-aligned with the input, a failed text giving `[]`; a batch size of 0 raises; a negative one gives no vectors |
| Embedding.Batched | src/embedding_service.py:113-126 | batch-wise processing gives exactly the element-wise results, in order |
| Embedding.EachOf | src/embedding_service.py:117-124 | one batch gives the element-wise results, in order |
| Embedding.GetEmbeddingDimension | src/embedding_service.py:132-147 | the probe embedding's length, or 1536 when the probe raised |
| Embedding.ValidateModel | src/embedding_service.py:149-170 | true exactly when the probe embedding was returned and is non-empty |
| Embedding.CalculateSimilarity | src/embedding_service.py:200-241 | zero exactly when either vector is empty, the lengths differ, or either norm is zero; otherwise the dot product over the two norms |
| Embedding.ZeroVectorSimilarity | src/embedding_service.py:226-231 | an all-zero vector has similarity zero with anything, on either side |
| Embedding.SimilaritySymmetric | src/embedding_service.py:200-241 | similarity is symmetric |
| VectorStore.TargetCollection | src/qdrant_manager.py:25 | the given collection name, or the default one when it is empty |
| VectorStore.CreateCollection | src/qdrant_manager.py:48-96 | an existing collection is left as it is and reported created; a new one is empty with the requested size, else the embedding dimension, else 768; other collections are untouched; an unreachable server fails |
| VectorStore.CreateCollectionIdempotent | src/qdrant_manager.py:59-61 | creating a collection a second time changes nothing, whatever sizes are requested |
| VectorStore.CreateCollectionWellFormed | src/qdrant_manager.py:68-80 | creation keeps every point's vector the size of its collection |
| VectorStore.PointDocumentId | src/qdrant_manager.py:135 | the given document id when truthy, otherwise `doc_` followed by the chunk's index |
| VectorStore.BasePayload | src/qdrant_manager.py:133-140 | the base payload has exactly the six base fields |
| VectorStore.PointPayload | src/qdrant_manager.py:142-144 | the chunk's metadata entries are copied in and override the base fields on a key collision; the other base fields keep their defaults |
| VectorStore.BuildPoints | src/qdrant_manager.py:124-152 | no more points than chunks, each with a non-empty vector |
| VectorStore.BuildPointsIsKeepMap | src/qdrant_manager.py:126-152 | the points are exactly the chunks with a non-empty embedding, in order, each numbered by its position in the input |
| VectorStore.BuildPointsCount | src/qdrant_manager.py:126-152 | one point per chunk with a non-empty embedding |
| VectorStore.BuildPointsOrigin | src/qdrant_manager.py:126-152 | every point was built from an input chunk with a non-empty embedding, at that chunk's index |
| VectorStore.BuildPointsConcat | src/qdrant_manager.py:126-152 | building distributes over concatenation, the second part's indices continuing after the first |
| VectorStore.Upsert | src/qdrant_manager.py:155-158 | the collection afterwards holds every new point, keeps the old points whose ids were not overwritten, and holds nothing else |
| VectorStore.StoreVectors | src/qdrant_manager.py:98-165 | no chunks or an unreachable server fail and write nothing; a success leaves the target collection present and every other collection untouched; it succeeds exactly when there are chunks, the server is reachable and every built point has the collection's vector size (the existing one, else the embedding dimension, else 768) |
| VectorStore.StoreVectorsStores | src/qdrant_manager.py:124-158 | after a successful store every built point is in the collection, and vector sizes stay consistent |
| VectorStore.CreateFilter | src/qdrant_manager.py:363-406 | no filter exactly when no constraint is given; otherwise one to three conditions |
| VectorStore.CreateFilterSemantics | src/qdrant_manager.py:376-406 | a payload passes exactly when it has the document id (if truthy), the page number (if given, 0 included) and a chunk size inside the inclusive range (if given) |
| VectorStore.Scroll | src/qdrant_manager.py:307-312 | a scroll returns at most the limit of points, all matching and all stored |
| VectorStore.DeleteDocument | src/qdrant_manager.py:284-325 | deleting needs a reachable server with the collection; it changes only that collection, keeps its size, and only removes points |
| VectorStore.ScrolledIds | src/qdrant_manager.py:307-312 | with unique ids, a point whose id was scrolled carries the document id |
| VectorStore.DeleteKeepsOtherDocuments | src/qdrant_manager.py:307-322 | points of other documents survive a delete |
| VectorStore.DeleteRemovesDocument | src/qdrant_manager.py:307-322 | when the document has no more points than the scroll limit, none of them survives |
| VectorStore.GetDocuments | src/qdrant_manager.py:328-361 | distinct ids; none for an unreachable server or a missing collection, and none from the handler when a scanned id is a dict; otherwise exactly the document ids carried by the scanned points that have the key |
| VectorStore.ScannedDocumentIdsSpec | src/qdrant_manager.py:347-353 | the listed ids are exactly the document ids of the scanned points that have the key |
| VectorStore.GetDocumentMetadata | src/qdrant_manager.py:408-438 | an empty dict when nothing matches; otherwise the metadata of the first point of that document in scroll order, or its whole payload when it has none, and in any case that of some point of the document |
| Search.Format | src/search_service.py:53-65 | id and score as-is; text, document id, page number, chunk index and metadata are the payload's values under their keys when present, else `''`, `''`, 0, 0 and `{}` |
| Search.SearchByText | src/qdrant_manager.py:209-242 | a failed or empty query embedding gives no hits without consulting the index; otherwise the index's hits, or none when it raised |
| Search.SearchDocuments | src/search_service.py:22-72 | the hits are formatted one to one and in order, under a filter built from document id and page number only |
| Search.SearchHonoursConstraints | src/search_service.py:37-72 | with an index that honours its arguments, no more results than the limit, each meeting the threshold and carrying the requested document and page |
| Search.SearchByDocumentStaysInDocument | src/search_service.py:88-100 | `search_by_document` returns only chunks of that document |
| Search.SearchWithMetadata | src/search_service.py:147-183 | no results when the filter loop raises on some result; otherwise the order-preserving subsequence of the results whose metadata holds every filter entry, every such result kept, as many as there are such results |
| Search.KeepIffMatches | src/search_service.py:166-176 | the loop keeps a result exactly when its metadata holds every filter entry with an equal value |
| Search.RaiseIff | src/search_service.py:167-173 | the loop raises exactly when the filter is not empty and the metadata is not a dict, unless it is a string lacking the first filter key |
| Search.DictMetadataFilters | src/search_service.py:160-179 | when every result's metadata is a dict, the reply is exactly the results whose metadata matches |
| Search.EmptyMetadataFilterKeepsAll | src/search_service.py:164-176 | an empty metadata filter keeps every result |
| Search.GetSearchStatistics | src/search_service.py:185-226 | the all-zero record exactly when there are no results; the empty handler reply exactly when a document id or page number is a dict; otherwise the result count, the numbers of distinct document ids and page numbers, and lists without repetitions holding exactly those ids and pages |
| Search.StatisticsCounts | src/search_service.py:199-220 | the listed documents and pages are as many as counted, between one and the number of results |
| Extractors.GetProcessor | src/pdf_processor.py:119-132 | dispatch on the lower-cased extension: pdf, docx, xlsx, pptx and jpg/jpeg/png each to its processor; any other extension is refused |
| Extractors.DispatchedPdfHasPdfSuffix | src/pdf_processor.py:119-151 | a path dispatched to the PDF processor passes its own `.pdf` suffix check |
| Extractors.UpperCaseSuffix | src/pdf_processor.py:121 | upper-case extensions dispatch like lower-case ones |
| Extractors.HiddenPdfIsRefused | src/pdf_processor.py:119-132 | a file named just `.pdf` ends in `.pdf` yet has no extension, so it is refused |
| Extractors.SheetLines | src/pdf_processor.py:96-104 | a sheet renders as its `[title]` line followed by one `\| … \|` line per row |
| Extractors.RowLineIsTableRow | src/pdf_processor.py:100-104 | every rendered row is a table row for the chunker |
| Extractors.TitleLineIsText | src/pdf_processor.py:98 | the title line is neither blank nor a table row |
| Extractors.ExcelTextEmptyIff | src/pdf_processor.py:91-106 | the text is empty exactly when every sheet is skipped, for having no rows or only blank cells |
| Extractors.ExcelLinesJoin | src/pdf_processor.py:105-106 | the rendered sheets joined by blank lines are the `"\n"`-join of one line list |
| Extractors.ExcelRowsSegmentAlone | src/pdf_processor.py:100-104 | when no cell holds a line break, the chunker segments the Excel text into each sheet's title paragraph followed by each rendered row as its own block |
| Extractors.ExcelLinesSegments | src/pdf_processor.py:96-106 | the line-level form of that segmentation, sheet by sheet |
| Extractors.ExtractMetadata | src/pdf_processor.py:166-194 | never fails; the fixed info fields default to `''` and the page count to 0 |
| Extractors.ExtractTextContent | src/pdf_processor.py:196-221 | the pdfplumber text when it is not blank, else the PyPDF2 text when that is not blank, else a failure |
| Extractors.ExtractPdf | src/pdf_processor.py:140-164 | a missing file or a non-`.pdf` path fails with its message; otherwise it succeeds exactly when text extraction does, with that text, the path, the size, the metadata and the given time, and a failed extraction reports its message |
| Extractors.GuardsPrecedeExtraction | src/pdf_processor.py:148-151 | the existence and suffix checks decide before any content is read |
| Extractors.NumberPages | src/pdf_processor.py:230-245 | pages with empty text are omitted; the numbers are strictly increasing and each entry has its page's text and size |
| Extractors.NumberPagesComplete | src/pdf_processor.py:230-245 | every page with text appears under its number |
| Extractors.ExtractTextByPages | src/pdf_processor.py:223-249 | pdfplumber pages when it yields any, else the PyPDF2 pages; numbers start at 1 and texts are non-empty |
| Extractors.PyPdfTextIsPages | src/pdf_processor.py:208-215 | the PyPDF2 full text is the numbered pages' texts, each followed by a line break |
| Extractors.ImageText | src/pdf_processor.py:20-39 | the easyocr text when it is not blank, else the pytesseract text if it ran, else the (blank) easyocr text |
| Extractors.TesseractOnlyAsFallback | src/pdf_processor.py:25-33 | pytesseract is never consulted when easyocr read something |
| Extractors.ImageTextOrigin | src/pdf_processor.py:20-39 | non-blank text comes from one of the two engines; with both failing the result is `""` |
| Ingestion.Queued | src/api/routes.py:121-122 | the task's tracker reads 10, processing, with the queued note; every other id reads as before; a well-formed registry stays well-formed |
| Ingestion.UploadFile | src/api/routes.py:99-206 | a name without extension is refused with a 500 carrying the 400's text and registers nothing; otherwise a tracker at 10 is registered under the task id, which is returned with status processing and chunk count 0; other trackers are untouched |
| Ingestion.PdfOutcome | src/api/routes.py:137 | the PDF processor's failures surface as exceptions carrying their message |
| Ingestion.Extracted | src/api/routes.py:126-137 | dispatch failure, the missing `extract_chunks` for `.xlsx`, or the extractor's exception ends extraction; otherwise its result |
| Ingestion.TaskMetadata | src/api/routes.py:138-154 | title is the file name and file type the lower-cased extension; a PDF keeps its other metadata |
| Ingestion.Labelled | src/api/routes.py:173-175 | every chunk's metadata is replaced by the document-level dict |
| Ingestion.DocId | src/api/routes.py:176-182 | the given id when truthy, otherwise `{today}_{collection or 'unknown'}_{basename}`: it starts with the date and `_`, ends with `_` and the base name, and between them is the collection, or `unknown` when it is absent or empty |
| Ingestion.Ingest | src/api/routes.py:156-189 | blank text stops with the text-extraction error; the run completes exactly when chunking, embedding and the store all succeed, leaving the stored server; nothing is stored before the 80 step |
| Ingestion.ProcessFileTask | src/api/routes.py:123-193 | every run follows the trace shape (20 first, rising steps below 100, then an error or 100); an extraction failure ends it with the prefixed exception text |
| Ingestion.ShortTrace | src/api/routes.py:125-159 | a run stopping before chunking has the trace shape |
| Ingestion.ChunkedTrace | src/api/routes.py:160-189 | runs stopping at 40 or 80, or completing, have the trace shape |
| Ingestion.RunIsIngest | src/api/routes.py:123-189 | a completed run extracted successfully and then ingested that extraction under the derived document id and target collection |
| Ingestion.TaskEndsDoneOrError | src/api/routes.py:121-193 | the tracker ends done at 100 with the completion message exactly when the run completed, and otherwise in error at 0 with the last reason |
| Ingestion.TraceEndsDoneOrError | src/api/routes.py:121-193 | any run trace leaves the tracker done or in error, decided by its last update |
| Ingestion.SpreadsheetUploadFails | src/api/routes.py:127-129 | every `.xlsx` upload ends in error after two updates and stores nothing |
| Ingestion.BlankTextFails | src/api/routes.py:156-159 | a blank extraction ends in the text-extraction error with nothing stored |
| Ingestion.ChunkFailureUnreachable | src/api/routes.py:162-165 | the chunk-generation error is never reported |
| Ingestion.MissingPdfReported | src/api/routes.py:191-193 | a missing PDF ends the run with the prefixed file-not-found message |
| Ingestion.LabelledPointFields | src/api/routes.py:173-188 | every point built from labelled chunks carries the label's entries and, unless overridden, the document id |
| Ingestion.StoredLabelled | src/api/routes.py:184-188 | after a successful store every labelled point is in the collection with the label's entries and the document id |
| Ingestion.DoneStoresTaskPoints | src/api/routes.py:166-189 | a completed run has stored all its points in the target collection, each with the file name as title, the extension as file type and the document id |
| Ingestion.PdfMetadataKeepsDocumentId | src/api/routes.py:140-143 | PDF metadata never holds a document id, so it cannot override the task's |
| Ingestion.SameDaySameNameShareId | src/api/routes.py:179-182 | without a given id, same-day uploads of files with the same base name into the same collection share a document id |
| Ingestion.DifferentDaysDifferentIds | src/api/routes.py:179-182 | without a given id, uploads on different days get different document ids |
| Ingestion.EntryOf | src/api/routes.py:264-274 | each of the seven listing fields is the metadata's value when the key is present and its default otherwise (`Document {id}`, `Unknown`, `''`, 0), all defaults for missing metadata; non-dict metadata raises |
| Ingestion.EntriesFor | src/api/routes.py:252-274 | one entry per id, in order, unless a lookup raises |
| Ingestion.ListDocuments | src/api/routes.py:242-281 | one entry per stored document id with distinct ids, or a 500; it succeeds whenever all metadata is a dict or falsy |
| Ingestion.NothingStoredNothingListed | src/api/routes.py:242-281 | an unreachable server or a missing collection lists no documents |
| Ingestion.UnhashableIdListsNothing | src/qdrant_manager.py:349-361 | a dict as a stored `document_id` makes `get_documents` raise inside its handler, so the listing is empty |

## Left out

- Network calls are function parameters: the Ollama embedding and generation endpoints, and the Qdrant client's ranking (`Search.Index`, which returns the scored hits). Timeouts, retries and HTTP status handling beyond success or failure are not modelled.
- The document and OCR libraries (pdfplumber, PyPDF2, python-docx, python-pptx, openpyxl cell reading, easyocr, pytesseract) and the cv2 preprocessing are oracles. Their outputs are parameters, and `preprocess_image_for_ocr` and `ocr_image` are not modelled.
- The Word and PowerPoint extractors are opaque `Extractor` results; they read library objects only.
- The `threading.Lock` of the tracker and the background-task scheduling: runs are sequential.
- Floating point: `avg_score`, min and max scores, `avg_chunk_size`, `processing_time` are not computed. Scores, thresholds and pdfplumber's page size (`width * height`) are `real`, an exact product with no rounding.
- Embedding.CalculateSimilarity: returns the dot product with the two squared norms instead of the cosine, because the square root and the division are floating point; the zero cases are exact.
- uuid generation, `time.strftime`, `datetime.now()` and `fromisoformat` are parameters or left out. The listing's `upload_time` is not modelled.
- File I/O: writing the upload to disk, `get_file_hash` and `validate_pdf`.
- `get_all_collections_info`, `get_collection_info`, `validate_search`, `test_llm_connection`, `get_available_models` and `get_model_info` only relay or parse remote state.
- `chunk_text_with_metadata` (src/text_chunker.py:116-137) is not part of this model: no route uses it.
- The langchain `RecursiveCharacterTextSplitter`, which is built but never used by `chunk_text`.
- Exceptions inside the services: the handlers of `ask_question`, `ask_with_metadata`, `search_with_metadata`, `get_search_statistics` and `get_documents` are modelled for the type errors a payload value can cause (metadata that is not a dict, a text that is not a string, a dict as an id). Other exceptions come from the remote services, whose oracles report them as `None`. The exception message is not modelled: `Answer.AskResult.failed` records only that the reply has an `error` key.
- VectorStore.DeleteDocument: assumes that the client's `scroll` accepts `filter=`. A client that rejects the argument (the case named at src/qdrant_manager.py:435-436) makes the call raise, and deletion then returns False; the model does not cover such a client.
- VectorStore.GetDocumentMetadata: assumes that the client's `scroll` accepts `filter=`. A client that rejects it gives the empty dict from the handler at src/qdrant_manager.py:433-438; the model does not cover such a client.
- Prompt.Classify: a list line starts with `-` or an ASCII digit, while `str.isdigit` also accepts other Unicode digits (`①`, `１`, `²`). A block of such lines is a list for the code and text for the model. Only the table/non-table distinction reaches the prompt, so the built prompt is the same.
- `str()` of dicts and floats: `Records.Render` renders strings, integers, None and dicts, the last only by a fixed marker.
- PyText.Lower: lowers ASCII letters only, because the strings it compares (file extensions) are ASCII.
- PyText.ParseIntOfIntToString: `int()` is modelled for ASCII digits with single underscores, an optional sign and surrounding whitespace; Unicode decimal digits are not modelled.
- Ingestion.ListDocuments: only string document ids are looked up, because the model's metadata lookup is keyed by string; integer and `None` ids get the default entry. A dict id empties the listing, as in the code.
- VectorStore.GetDocuments: the ids are listed in first-occurrence order, because Python's `list(set(...))` order is unspecified; only membership and distinctness are stated.
- VectorStore.CreateCollection: the embedding dimension is the parameter `dimension`, and `None` stands for a failed lookup, which falls back to 768 (src/qdrant_manager.py:73-80). The source builds a fresh `EmbeddingService` at that point. The model does not tie `dimension` to `Embedding.GetEmbeddingDimension` of the endpoint the pipeline embeds with; a caller that passes a size unrelated to the embeddings gets the `FitsSize` failure of `VectorStore.StoreVectors`.
- VectorStore.Upsert: appends the new points after the kept ones, while Qdrant's `scroll` returns points by ascending id. The model's scroll therefore reads points in insertion order. Once a collection holds more than 10000 points, `GetDocuments` and `DeleteDocument` may scan a different page than the server returns; at any size, `GetDocumentMetadata` and the listing may report the metadata of a different matching point than the server's first. Ordering by uuid is left out because ids come from an opaque supply function.
- HTTP wiring: route registration (the router is rebound partway through the routes file), the pydantic response models and app start-up.

## Findings

| source | as written | input that shows it | evidently intended | confidence | as-written member | corrected member |
|---|---|---|---|---|---|---|
| src/qa_service.py:81 | the column group `[가-힣A-Za-z0-9_]+` is greedy and admits digits, so backtracking hands only the last digit to the number | `진학수40명 이상` gives column `진학수4` and threshold 0, so the table filter looks for a column that does not exist and keeps the table whole | the column is `진학수` and the threshold 40 | not executed | Threshold.GreedySplitsNumber | Threshold.LazyReadsWholeNumber |
| src/qa_service.py:175-178 | the excerpt for source i is taken from `search_results[i]`, but sources skip the results without text, so the indices drift apart | results `[r0 without text, r1 with text 본문]` give one source, r1's, quoted with r0's empty text: `- "" (…)` | each source quotes the text of the result it came from | not executed | Answer.ExcerptMisaligned | Answer.SourceLinesAligned |

The pipeline follows the code as written: the prompt (`Prompt.PromptContext`) reads the threshold with the greedy matcher, and `Answer.AskQuestion` quotes the excerpts by position. The corrected definitions stand beside them. `Prompt.PromptContextIntended` uses the lazy matcher, and `Prompt.UnspacedQueryContext` compares the two on `진학수40명 이상`. `Answer.AskQuestionIntended` quotes each source's own text; `Answer.AllTextedAgree` shows the two agree when every result has text, and `Answer.NoneTextMisquoted` shows a first result whose text is `None` makes the written code fail. `Threshold.LazyKeepsWholeNumber` states the corrected property for every query: the column never takes a digit that belongs to the number.

Other observations about the code as written:

- The chunk-generation error of the background task can never be reported, since non-blank text always yields a chunk (`Ingestion.ChunkFailureUnreachable`).
- Every `.xlsx` upload ends in error, because the Excel processor has no `extract_chunks` (`Ingestion.SpreadsheetUploadFails`).
- A run can complete while storing no point at all. Every embedding can come back as an empty vector: `embed_chunks` keeps such a chunk (`Embedding.EmbedChunksIsFilterMap`), `store_vectors` skips it (`VectorStore.BuildPointsCount`) and still reports success.
