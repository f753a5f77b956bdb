/**
 * Prompt construction of `QAService` (src/qa_service.py): classification of
 * context blocks, the threshold filter over markdown-table blocks, rendering of
 * the conversation history, the final prompt, and `generate_answer` around an
 * LLM oracle.
 */
module Prompt {
  import opened Wrappers
  import opened PyText
  import opened Records
  import opened Seqs
  import opened Threshold

  // ------------------------------------------------------------ block lines

  /** `[l.strip() for l in ls if l.strip()]` */
  function StrippedLinesOf(ls: seq<string>): (r: seq<string>)
    ensures |r| <= |ls|
    ensures forall k :: 0 <= k < |r| ==> r[k] != "" && Strip(r[k]) == r[k]
    ensures r == Map(Filter(ls, NonBlank), Strip)
  {
    if ls == [] then []
    else
      StripIdempotent(ls[0]);
      StrippedLinesStep(ls);
      (if Strip(ls[0]) != "" then [Strip(ls[0])] else []) + StrippedLinesOf(ls[1..])
  }

  lemma StrippedLinesStep(ls: seq<string>)
    requires ls != []
    ensures Map(Filter(ls, NonBlank), Strip)
      == (if Strip(ls[0]) != "" then [Strip(ls[0])] else []) + Map(Filter(ls[1..], NonBlank), Strip)
  {
    var kept := Filter(ls[1..], NonBlank);
    FilterStep(ls, NonBlank);
    if NonBlank(ls[0]) {
      assert ([ls[0]] + kept)[1..] == kept;
      MapStep([ls[0]] + kept, Strip);
    }
  }

  /** The stripped, non-empty lines of a block. */
  function StrippedLines(block: string): seq<string> {
    StrippedLinesOf(SplitLines(block))
  }

  lemma StripKeepsNoBreaks(l: string)
    requires NoBreaks(l)
    ensures NoBreaks(Strip(l))
  {
    var a := LeadingSpaces(l);
    var r := Strip(l);
    assert forall k :: 0 <= k < |r| ==> r[k] == l[a + k];
  }

  lemma {:induction false} StrippedLinesOfNoBreaks(ls: seq<string>)
    requires forall k :: 0 <= k < |ls| ==> NoBreaks(ls[k])
    ensures forall k :: 0 <= k < |StrippedLinesOf(ls)| ==> NoBreaks(StrippedLinesOf(ls)[k])
  {
    if ls != [] {
      StripKeepsNoBreaks(ls[0]);
      StrippedLinesOfNoBreaks(ls[1..]);
    }
  }

  lemma {:induction false} StrippedLinesOfFixed(ls: seq<string>)
    requires forall k :: 0 <= k < |ls| ==> ls[k] != "" && Strip(ls[k]) == ls[k]
    ensures StrippedLinesOf(ls) == ls
  {
    if ls != [] {
      StrippedLinesOfFixed(ls[1..]);
      assert Strip(ls[0]) == ls[0];
      assert StrippedLinesOf(ls) == [ls[0]] + StrippedLinesOf(ls[1..]);
    }
  }

  /**
   * Lines that are already stripped, non-empty and free of line boundaries come
   * back unchanged from joining with "\n" and re-reading the block.
   */
  lemma StrippedLinesOfJoin(ls: seq<string>)
    requires forall k :: 0 <= k < |ls| ==> CleanLine(ls[k])
    ensures StrippedLines(Join("\n", ls)) == ls
  {
    SplitLinesOfJoin(ls);
    StrippedLinesOfFixed(ls);
  }

  // --------------------------------------------------------- classification

  datatype BlockKind = Table | List | Text

  /** A list line: starts with '-' or with a digit. */
  predicate IsListLine(l: string) {
    StartsWith(l, "-") || (|l| > 0 && IsAsciiDigit(l[0]))
  }

  /**
   * A block whose first stripped line starts and ends with '|' is a table; one
   * whose every stripped line is a list line is a list; anything else,
   * including a block with no non-blank line, is text.
   */
  function Classify(block: string): (k: BlockKind)
    ensures k == Table <==> StrippedLines(block) != [] && BoundedBy(StrippedLines(block)[0], '|')
    ensures k == List <==> StrippedLines(block) != [] && !BoundedBy(StrippedLines(block)[0], '|')
                           && forall i :: 0 <= i < |StrippedLines(block)| ==> IsListLine(StrippedLines(block)[i])
  {
    var lines := StrippedLines(block);
    if lines == [] then Text
    else if StartsWith(lines[0], "|") && EndsWith(lines[0], "|") then Table
    else if forall i :: 0 <= i < |lines| ==> IsListLine(lines[i]) then List
    else Text
  }

  // ------------------------------------------------------------ table filter

  /** `[c.strip() for c in row.strip("|").split("|")]` */
  function Cells(row: string): (r: seq<string>)
    ensures |r| == CountChar(StripChar(row, '|'), '|') + 1
    ensures forall i :: 0 <= i < |r| ==> '|' !in r[i] && Strip(r[i]) == r[i]
    ensures exists parts: seq<string> ::
              && |parts| == |r| && Join("|", parts) == StripChar(row, '|')
              && forall i :: 0 <= i < |parts| ==> '|' !in parts[i] && r[i] == Strip(parts[i])
  {
    var parts := Split(StripChar(row, '|'), '|');
    StrippedPieces(parts);
    assert Join("|", parts) == StripChar(row, '|');
    seq(|parts|, i requires 0 <= i < |parts| => Strip(parts[i]))
  }

  /** Stripping a piece without '|' gives a stripped cell without '|'. */
  lemma StrippedPieces(parts: seq<string>)
    requires forall i :: 0 <= i < |parts| ==> '|' !in parts[i]
    ensures forall i :: 0 <= i < |parts| ==> '|' !in Strip(parts[i]) && Strip(Strip(parts[i])) == Strip(parts[i])
  {
    forall i | 0 <= i < |parts|
      ensures '|' !in Strip(parts[i]) && Strip(Strip(parts[i])) == Strip(parts[i])
    {
      StripIdempotent(parts[i]);
      var a := LeadingSpaces(parts[i]);
      var r := Strip(parts[i]);
      assert forall k :: 0 <= k < |r| ==> r[k] == parts[i][a + k];
    }
  }

  /** A data row survives when its cell in the column parses as an integer of at least `minValue`. */
  predicate KeepRow(row: string, col: nat, minValue: int) {
    var cells := Cells(row);
    col < |cells| && ParseInt(cells[col]).Some? && ParseInt(cells[col]).value >= minValue
  }

  /**
   * The threshold filter on one table block: `Some(block)` unchanged when the
   * header lacks the column; otherwise the header line followed by the
   * surviving rows, or `None` (the block is dropped) when no row survives.
   */
  function FilterTable(block: string, t: Threshold): (r: Option<string>)
    requires Classify(block) == Table
    ensures IndexOf(Cells(StrippedLines(block)[0]), t.column).None? ==> r == Some(block)
  {
    var lines := StrippedLines(block);
    var header := Cells(lines[0]);
    match IndexOf(header, t.column)
    case None => Some(block)
    case Some(col) =>
      var rows := KeptRows(lines, col, t.minValue);
      if |rows| > 1 then Some(Join("\n", rows)) else None
  }

  /** A line as the block reader produces it. */
  predicate CleanLine(l: string) {
    l != "" && Strip(l) == l && NoBreaks(l)
  }

  lemma StrippedLinesClean(block: string)
    ensures forall k :: 0 <= k < |StrippedLines(block)| ==> CleanLine(StrippedLines(block)[k])
  {
    StrippedLinesOfNoBreaks(SplitLines(block));
  }

  /** The kept rows of a filtered table, header first. */
  function KeptRows(lines: seq<string>, col: nat, minValue: int): seq<string>
    requires lines != []
  {
    [lines[0]] + Filter(lines[1..], row => KeepRow(row, col, minValue))
  }

  lemma KeptRowsClean(lines: seq<string>, col: nat, minValue: int)
    requires lines != []
    requires forall k :: 0 <= k < |lines| ==> CleanLine(lines[k])
    ensures forall k :: 0 <= k < |KeptRows(lines, col, minValue)| ==> CleanLine(KeptRows(lines, col, minValue)[k])
  {
    var keep := row => KeepRow(row, col, minValue);
    FilterPreserves(lines[1..], keep, CleanLine);
  }

  /**
   * A filtered table reads back as its header line followed by exactly the data
   * rows whose column value reaches the minimum, in their original order; and it
   * is still a table.
   */
  lemma FilterTableContents(block: string, t: Threshold)
    requires Classify(block) == Table
    requires IndexOf(Cells(StrippedLines(block)[0]), t.column).Some?
    ensures var lines := StrippedLines(block);
            var col := IndexOf(Cells(lines[0]), t.column).value;
            var kept := Filter(lines[1..], row => KeepRow(row, col, t.minValue));
            && (FilterTable(block, t).None? <==> kept == [])
            && (FilterTable(block, t).Some? ==>
                  && StrippedLines(FilterTable(block, t).value) == [lines[0]] + kept
                  && Classify(FilterTable(block, t).value) == Table)
  {
    var lines := StrippedLines(block);
    var col := IndexOf(Cells(lines[0]), t.column).value;
    var rows := KeptRows(lines, col, t.minValue);
    assert FilterTable(block, t) == if |rows| > 1 then Some(Join("\n", rows)) else None;
    StrippedLinesClean(block);
    KeptRowsClean(lines, col, t.minValue);
    StrippedLinesOfJoin(rows);
  }

  // ---------------------------------------------------------------- context

  /** The table filter over the whole context: non-table blocks pass untouched. */
  function FilterContext(context: seq<string>, t: Threshold): (r: seq<string>)
    ensures |r| <= |context|
  {
    if context == [] then []
    else
      var block := context[0];
      var head := if Classify(block) != Table then [block]
                  else match FilterTable(block, t)
                    case None => []
                    case Some(b) => [b];
      head + FilterContext(context[1..], t)
  }

  predicate NotTable(block: string) {
    Classify(block) != Table
  }

  /** Filtering keeps every non-table block, in order, and only reshapes or drops tables. */
  lemma {:induction false} FilterContextKeepsNonTables(context: seq<string>, t: Threshold)
    ensures Filter(FilterContext(context, t), NotTable) == Filter(context, NotTable)
  {
    if context != [] {
      var block := context[0];
      FilterContextKeepsNonTables(context[1..], t);
      var rest := FilterContext(context[1..], t);
      if Classify(block) != Table {
        assert FilterContext(context, t) == [block] + rest;
        assert ([block] + rest)[1..] == rest;
      } else {
        match FilterTable(block, t)
        case None =>
          assert FilterContext(context, t) == rest;
        case Some(b) =>
          assert FilterContext(context, t) == [b] + rest;
          assert ([b] + rest)[1..] == rest;
          if IndexOf(Cells(StrippedLines(block)[0]), t.column).Some? {
            FilterTableContents(block, t);
          }
          assert Classify(b) == Table;
      }
    }
  }

  /** The threshold the query states, read with the pattern as written (greedy first group). */
  function QueryThreshold(query: string): Option<Threshold> {
    GreedyThreshold(query)
  }

  /** The context blocks that reach the prompt. */
  function PromptContext(query: string, context: seq<string>): (r: seq<string>)
    ensures QueryThreshold(query).None? ==> r == context
    ensures |r| <= |context|
    ensures Filter(r, NotTable) == Filter(context, NotTable)
  {
    match QueryThreshold(query)
    case None => context
    case Some(t) =>
      FilterContextKeepsNonTables(context, t);
      FilterContext(context, t)
  }

  /**
   * The context as intended: the threshold read with a lazy first group, so
   * that the whole number before "명" is the minimum.
   */
  function PromptContextIntended(query: string, context: seq<string>): (r: seq<string>)
    ensures LazyThreshold(query).None? ==> r == context
    ensures |r| <= |context|
    ensures Filter(r, NotTable) == Filter(context, NotTable)
  {
    match LazyThreshold(query)
    case None => context
    case Some(t) =>
      FilterContextKeepsNonTables(context, t);
      FilterContext(context, t)
  }

  /** `block` is no table, or a table whose header has no cell named `t.column`. */
  predicate LacksColumn(block: string, t: Threshold) {
    Classify(block) == Table ==> IndexOf(Cells(StrippedLines(block)[0]), t.column).None?
  }

  /** A threshold whose column no table header names leaves the context as it is. */
  lemma {:induction false} FilterContextWithoutColumn(context: seq<string>, t: Threshold)
    requires forall i :: 0 <= i < |context| ==> LacksColumn(context[i], t)
    ensures FilterContext(context, t) == context
  {
    if context != [] {
      var block := context[0];
      var rest := context[1..];
      assert forall i :: 0 <= i < |rest| ==> rest[i] == context[i + 1];
      FilterContextWithoutColumn(rest, t);
      assert LacksColumn(block, t);
      if Classify(block) == Table {
        assert FilterTable(block, t) == Some(block);
      }
      assert FilterContext(context, t) == [block] + FilterContext(rest, t);
      assert context == [block] + rest;
    }
  }

  /**
   * For "진학수40명 이상" the prompt as written filters on a column "진학수4" with
   * minimum 0, and so leaves every table without such a column untouched, where
   * the intended prompt keeps only the rows of "진학수" of at least 40.
   */
  lemma UnspacedQueryContext(context: seq<string>)
    ensures PromptContext(Unspaced, context) == FilterContext(context, Threshold("진학수4", 0))
    ensures PromptContextIntended(Unspaced, context) == FilterContext(context, Threshold("진학수", 40))
    ensures (forall i :: 0 <= i < |context| ==> LacksColumn(context[i], Threshold("진학수4", 0))) ==>
            PromptContext(Unspaced, context) == context
  {
    GreedySplitsNumber();
    LazyReadsWholeNumber();
    if forall i :: 0 <= i < |context| ==> LacksColumn(context[i], Threshold("진학수4", 0)) {
      FilterContextWithoutColumn(context, Threshold("진학수4", 0));
    }
  }

  // ---------------------------------------------------------------- history

  /** One history entry: a dict that may carry its question/answer under several keys. */
  type Turn = Payload

  /** `d.get(k1) or d.get(k2) or d.get(k3) or ""` */
  function FirstTruthy(d: Turn, keys: seq<string>): (v: Value)
    ensures Truthy(v) ==> exists i :: 0 <= i < |keys| && keys[i] in d && d[keys[i]] == v
    ensures !Truthy(v) <==> forall i :: 0 <= i < |keys| ==> keys[i] !in d || !Truthy(d[keys[i]])
  {
    if keys == [] then VStr("")
    else if keys[0] in d && Truthy(d[keys[0]]) then d[keys[0]]
    else
      var v := FirstTruthy(d, keys[1..]);
      assert forall i :: 1 <= i < |keys| ==> keys[i] == keys[1..][i - 1];
      v
  }

  const QuestionKeys: seq<string> := ["question", "content", "user"]
  const AnswerKeys: seq<string> := ["answer", "response", "assistant"]

  function TurnLines(turn: Turn): (r: seq<string>)
    ensures |r| <= 2
  {
    var q := FirstTruthy(turn, QuestionKeys);
    var a := FirstTruthy(turn, AnswerKeys);
    (if Truthy(q) then ["이전 질문: " + Render(q)] else []) + (if Truthy(a) then ["이전 답변: " + Render(a)] else [])
  }

  function HistoryLines(turns: seq<Turn>): (r: seq<string>)
    ensures |r| <= 2 * |turns|
  {
    if turns == [] then [] else TurnLines(turns[0]) + HistoryLines(turns[1..])
  }

  predicate Silent(turn: Turn) {
    !Truthy(FirstTruthy(turn, QuestionKeys)) && !Truthy(FirstTruthy(turn, AnswerKeys))
  }

  /** The history block of the prompt: one line per non-empty question/answer, or nothing. */
  function HistoryText(history: Option<seq<Turn>>): string {
    if history.None? then ""
    else
      var ls := HistoryLines(history.value);
      if ls == [] then "" else Join("\n", ls) + "\n"
  }

  /** The history adds nothing exactly when no turn has a question or an answer. */
  lemma {:induction false} HistoryLinesEmptyIff(turns: seq<Turn>)
    ensures HistoryLines(turns) == [] <==> forall i :: 0 <= i < |turns| ==> Silent(turns[i])
  {
    if turns != [] {
      HistoryLinesEmptyIff(turns[1..]);
      assert forall i :: 1 <= i < |turns| ==> turns[i] == turns[1..][i - 1];
    }
  }

  // ----------------------------------------------------------------- prompt

  const Intro: string := "아래 참고 내용을 바탕으로 사용자의 질문에 대해 자연스럽고 친근하게 답변해 주세요."
  const StyleGuide: string :=
    "- 답변은 표/리스트/데이터 복사 느낌이 아니라, 실제 상담원이 안내하는 것처럼 자연스럽고 친근하게 작성해 주세요.\n"
    + "- 필요시 예시, 추가 설명도 포함해 주세요.\n"
    + "- 표가 포함된 경우 마크다운 표 형식으로, 리스트는 번호 또는 기호로, 일반 텍스트는 자연스럽게 요약해 주세요.\n"
    + "- 답변에는 반드시 관련 근거(출처, 문서명, 시트명, 행/열, 페이지 등)를 명확히 표기하세요."

  /** Everything between the history and the context text. */
  const Preamble: string := Intro + "\n" + StyleGuide + "\n\n[참고 내용]\n"

  function QuestionSection(query: string): string {
    "\n\n[질문]\n" + query + "\n[답변]"
  }

  /** `body` between a fixed `head` and `tail`. */
  function Framed(head: string, body: string, tail: string): (p: string)
    ensures StartsWith(p, head) && EndsWith(p, tail)
  {
    ConcatAffixes(head, body + tail);
    ConcatAffixes(head + body, tail);
    head + body + tail
  }

  /** `_build_prompt(query, context, history)` */
  function BuildPrompt(query: string, context: seq<string>, history: Option<seq<Turn>>): (p: string)
    ensures StartsWith(p, HistoryText(history) + Preamble)
    ensures EndsWith(p, QuestionSection(query))
  {
    Framed(HistoryText(history) + Preamble, Join("\n\n", PromptContext(query, context)), QuestionSection(query))
  }

  /** The prompt is the history, the fixed instructions, the context and the question, in that order. */
  lemma BuildPromptParts(query: string, context: seq<string>, history: Option<seq<Turn>>)
    ensures BuildPrompt(query, context, history)
      == HistoryText(history) + Preamble + Join("\n\n", PromptContext(query, context)) + QuestionSection(query)
    ensures QueryThreshold(query).None? ==>
      BuildPrompt(query, context, history) == HistoryText(history) + Preamble + Join("\n\n", context) + QuestionSection(query)
  {
  }

  // -------------------------------------------------------- generate_answer

  const GenerationError: string := "죄송합니다. 답변을 생성하는 중 오류가 발생했습니다."

  /** What the LLM endpoint did: answered (with its "response" text, "" if absent) or failed. */
  datatype LlmReply = Answered(response: string) | LlmFailed

  /** `generate_answer`: the stripped response, or the apology when the call fails. */
  function GenerateAnswer(llm: (string, int) -> LlmReply, query: string, context: seq<string>,
                          maxTokens: int, history: Option<seq<Turn>>): (a: string)
    ensures llm(BuildPrompt(query, context, history), maxTokens).LlmFailed? ==> a == GenerationError
    ensures llm(BuildPrompt(query, context, history), maxTokens).Answered? ==>
      a == Strip(llm(BuildPrompt(query, context, history), maxTokens).response)
  {
    match llm(BuildPrompt(query, context, history), maxTokens)
    case Answered(r) => Strip(r)
    case LlmFailed => GenerationError
  }
}
