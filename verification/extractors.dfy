/**
 * The file processors of src/pdf_processor.py: extension dispatch, the Excel
 * sheet-to-pipe-table rendering, and the fallback order between the PDF and OCR
 * engines. The document libraries themselves (pdfplumber, PyPDF2, openpyxl,
 * easyocr, pytesseract) are oracles: their outputs are parameters, `None` or
 * `Raised` standing for a call that raised.
 */
module Extractors {
  import opened Wrappers
  import opened PyText
  import opened Records
  import opened Seqs
  import opened Chunker

  // ------------------------------------------------------------- dispatch

  datatype Processor = PdfProcessor | WordProcessor | ExcelProcessor | PowerPointProcessor | ImageProcessor

  const UnsupportedFormat: string := "지원하지 않는 파일 형식입니다."

  /** `os.path.splitext(path)[-1].lower()` */
  function Extension(path: string): string {
    Lower(SplitExt(path).1)
  }

  /** The processor class for a lower-cased extension, if there is one. */
  function ProcessorFor(ext: string): Option<Processor> {
    if ext == ".pdf" then Some(PdfProcessor)
    else if ext == ".docx" then Some(WordProcessor)
    else if ext == ".xlsx" then Some(ExcelProcessor)
    else if ext == ".pptx" then Some(PowerPointProcessor)
    else if ext in [".jpg", ".jpeg", ".png"] then Some(ImageProcessor)
    else None
  }

  /** `get_processor(path)`: dispatch on the lower-cased suffix; any other suffix is a `ValueError`. */
  function GetProcessor(path: string): (r: Result<Processor, string>)
    ensures r.Success? <==> Extension(path) in {".pdf", ".docx", ".xlsx", ".pptx", ".jpg", ".jpeg", ".png"}
    ensures r.Success? <==> ProcessorFor(Extension(path)).Some?
    ensures r.Success? ==> r.value == ProcessorFor(Extension(path)).value
    ensures r.Failure? ==> r.error == UnsupportedFormat
  {
    match ProcessorFor(Extension(path))
    case Some(p) => Success(p)
    case None => Failure(UnsupportedFormat)
  }

  /** A path dispatched to the PDF processor passes that processor's own suffix check. */
  lemma DispatchedPdfHasPdfSuffix(path: string)
    requires GetProcessor(path) == Success(PdfProcessor)
    ensures EndsWith(Lower(path), ".pdf")
  {
    var ext := SplitExt(path).1;
    assert Lower(ext) == ".pdf";
    LowerSuffix(SplitExt(path).0, ext);
  }

  lemma LowerSuffix(root: string, ext: string)
    ensures EndsWith(Lower(root + ext), Lower(ext))
  {
    var p := root + ext;
    forall i | 0 <= i < |ext|
      ensures Lower(p)[|root| + i] == Lower(ext)[i]
    {
      assert p[|root| + i] == ext[i];
    }
    assert Lower(p)[|p| - |ext|..] == Lower(ext);
  }

  lemma RFindIs(s: string, c: char, i: int)
    requires -1 <= i < |s|
    requires i >= 0 ==> s[i] == c
    requires forall k :: i < k < |s| ==> s[k] != c
    ensures RFind(s, c) == i
  {
  }

  /** The suffix is matched whatever its case. */
  lemma UpperCaseSuffix()
    ensures GetProcessor("report.PDF") == Success(PdfProcessor)
    ensures GetProcessor("sheet.XLSX") == Success(ExcelProcessor)
  {
    var p := "report.PDF";
    RFindIs(p, '/', -1);
    RFindIs(p, '.', 6);
    assert p[0] != '.';
    assert SplitExt(p).1 == ".PDF";
    assert Lower(".PDF") == ".pdf";
    var q := "sheet.XLSX";
    RFindIs(q, '/', -1);
    RFindIs(q, '.', 5);
    assert q[0] != '.';
    assert SplitExt(q).1 == ".XLSX";
    assert Lower(".XLSX") == ".xlsx";
  }

  /**
   * A hidden file named ".pdf" has no extension for `splitext`, so it is refused
   * by the dispatcher although it ends in ".pdf".
   */
  lemma HiddenPdfIsRefused()
    ensures EndsWith(Lower(".pdf"), ".pdf")
    ensures GetProcessor(".pdf") == Failure(UnsupportedFormat)
  {
    RFindIs(".pdf", '/', -1);
    RFindIs(".pdf", '.', 0);
    assert SplitExt(".pdf").1 == "";
  }

  // ---------------------------------------------------------------- Excel

  /** A cell value as `str(cell)`, or `None` for an empty cell. */
  type Cell = Option<string>

  datatype Sheet = Sheet(title: string, rows: seq<seq<Cell>>)

  /** `str(cell) if cell is not None else ""` */
  function CellText(c: Cell): string {
    c.GetOr("")
  }

  predicate BlankCell(c: Cell) {
    c.None? || IsBlank(c.value)
  }

  /** A sheet `extract_text` skips: no rows, or every cell empty or blank. */
  predicate SkippedSheet(sh: Sheet) {
    forall i, j :: 0 <= i < |sh.rows| && 0 <= j < |sh.rows[i]| ==> BlankCell(sh.rows[i][j])
  }

  predicate RenderedSheet(sh: Sheet) {
    !SkippedSheet(sh)
  }

  function TitleLine(sh: Sheet): string {
    "[" + sh.title + "]"
  }

  /** `f"| {' | '.join(cells)} |"` */
  function RowLine(row: seq<Cell>): string {
    "| " + Join(" | ", Map(row, CellText)) + " |"
  }

  /** The title line followed by one line per row, the header first. */
  function SheetLines(sh: Sheet): (ls: seq<string>)
    ensures |ls| == |sh.rows| + 1 && ls[0] == TitleLine(sh)
    ensures forall k :: 1 <= k < |ls| ==> ls[k] == RowLine(sh.rows[k - 1])
  {
    [TitleLine(sh)] + Map(sh.rows, RowLine)
  }

  function SheetBlock(sh: Sheet): string {
    Join("\n", SheetLines(sh))
  }

  /** `ExcelProcessor.extract_text`: the blocks of the non-skipped sheets joined by a blank line. */
  function ExcelText(sheets: seq<Sheet>): string {
    Join("\n\n", Map(Filter(sheets, RenderedSheet), SheetBlock))
  }

  /** Every row line is a table row for the chunker, whatever its cells hold. */
  lemma RowLineIsTableRow(row: seq<Cell>)
    ensures IsTableRow(RowLine(row))
  {
    var l := RowLine(row);
    assert l[0] == '|' && l[|l| - 1] == '|';
    StripNoOp(l);
  }

  /** The title line is a non-blank line that is not a table row. */
  lemma TitleLineIsText(sh: Sheet)
    ensures !IsBlank(TitleLine(sh)) && !IsTableRow(TitleLine(sh))
  {
    var l := TitleLine(sh);
    assert l[0] == '[' && l[|l| - 1] == ']';
    StripNoOp(l);
  }

  /** The output is empty exactly when every sheet is skipped. */
  lemma ExcelTextEmptyIff(sheets: seq<Sheet>)
    ensures ExcelText(sheets) == "" <==> forall k :: 0 <= k < |sheets| ==> SkippedSheet(sheets[k])
  {
    var kept := Filter(sheets, RenderedSheet);
    var blocks := Map(kept, SheetBlock);
    if kept != [] {
      var b := blocks[0];
      assert b == Join("\n", [TitleLine(kept[0])] + Map(kept[0].rows, RowLine));
      if |SheetLines(kept[0])| > 1 {
        JoinCons("\n", TitleLine(kept[0]), Map(kept[0].rows, RowLine));
      }
      assert |b| > 0;
      if |blocks| > 1 {
        JoinCons("\n\n", b, blocks[1..]);
        assert blocks == [b] + blocks[1..];
      }
      assert ExcelText(sheets) != "";
      assert kept[0] in sheets;
    }
  }

  // -------------------------------------------- Excel output and the chunker

  /** No line-break character in the title or any cell. */
  predicate SingleLineCells(sh: Sheet) {
    && NoBreaks(sh.title)
    && forall i, j :: 0 <= i < |sh.rows| && 0 <= j < |sh.rows[i]| ==> NoBreaks(CellText(sh.rows[i][j]))
  }

  lemma NoBreaksConcat(a: string, b: string)
    requires NoBreaks(a) && NoBreaks(b)
    ensures NoBreaks(a + b)
  {
    forall i | 0 <= i < |a + b|
      ensures !IsLineBreak((a + b)[i])
    {
      if i >= |a| {
        assert (a + b)[i] == b[i - |a|];
      }
    }
  }

  lemma {:induction false} JoinNoBreaks(sep: string, xs: seq<string>)
    requires NoBreaks(sep)
    requires forall k :: 0 <= k < |xs| ==> NoBreaks(xs[k])
    ensures NoBreaks(Join(sep, xs))
  {
    if |xs| > 1 {
      JoinNoBreaks(sep, xs[1..]);
      NoBreaksConcat(xs[0], sep);
      NoBreaksConcat(xs[0] + sep, Join(sep, xs[1..]));
    }
  }

  lemma SheetLinesSingle(sh: Sheet)
    requires SingleLineCells(sh)
    ensures forall k :: 0 <= k < |SheetLines(sh)| ==> NoBreaks(SheetLines(sh)[k]) && SheetLines(sh)[k] != ""
  {
    NoBreaksConcat("[", sh.title);
    NoBreaksConcat("[" + sh.title, "]");
    forall i | 0 <= i < |sh.rows|
      ensures NoBreaks(RowLine(sh.rows[i]))
    {
      var cells := Map(sh.rows[i], CellText);
      assert forall j :: 0 <= j < |cells| ==> cells[j] == CellText(sh.rows[i][j]);
      JoinNoBreaks(" | ", cells);
      NoBreaksConcat("| ", Join(" | ", cells));
      NoBreaksConcat("| " + Join(" | ", cells), " |");
    }
  }

  /** The lines of the whole output: the sheets' lines with an empty line between sheets. */
  function ExcelLines(kept: seq<Sheet>): (ls: seq<string>)
    ensures kept != [] ==> ls != []
    decreases |kept|
  {
    if kept == [] then []
    else if |kept| == 1 then SheetLines(kept[0])
    else SheetLines(kept[0]) + ([""] + ExcelLines(kept[1..]))
  }

  lemma JoinWithBlankLine(a: seq<string>, rest: seq<string>)
    requires a != [] && rest != []
    ensures Join("\n", a + ([""] + rest)) == Join("\n", a) + "\n\n" + Join("\n", rest)
  {
    JoinConcat("\n", a, [""] + rest);
    JoinCons("\n", "", rest);
  }

  lemma {:induction false} ExcelLinesJoin(kept: seq<Sheet>)
    ensures Join("\n", ExcelLines(kept)) == Join("\n\n", Map(kept, SheetBlock))
    decreases |kept|
  {
    if |kept| > 1 {
      ExcelLinesJoin(kept[1..]);
      var a := SheetLines(kept[0]);
      var rest := ExcelLines(kept[1..]);
      JoinWithBlankLine(a, rest);
      var blocks := Map(kept, SheetBlock);
      MapStep(kept, SheetBlock);
      JoinCons("\n\n", SheetBlock(kept[0]), Map(kept[1..], SheetBlock));
    }
  }

  lemma {:induction false} ExcelLinesShape(kept: seq<Sheet>)
    requires forall k :: 0 <= k < |kept| ==> SingleLineCells(kept[k])
    ensures forall k :: 0 <= k < |ExcelLines(kept)| ==> NoBreaks(ExcelLines(kept)[k])
    ensures kept != [] ==> ExcelLines(kept) != [] && ExcelLines(kept)[|ExcelLines(kept)| - 1] != ""
    decreases |kept|
  {
    if kept != [] {
      SheetLinesSingle(kept[0]);
      if |kept| > 1 {
        ExcelLinesShape(kept[1..]);
      }
    }
  }

  /** What the chunker's first pass makes of one sheet: the title as a paragraph, then each row alone. */
  function SheetSegments(sh: Sheet): seq<Block> {
    [Para([TitleLine(sh)])] + Map(Map(sh.rows, RowLine), AsRow)
  }

  function AsRow(l: string): Block {
    Row(l)
  }

  function ExcelSegments(kept: seq<Sheet>): seq<Block>
    decreases |kept|
  {
    if kept == [] then [] else SheetSegments(kept[0]) + ExcelSegments(kept[1..])
  }

  /** A table row at the head of the input is emitted on its own, after the pending paragraph. */
  lemma RowStep(l: string, rest: seq<string>, cur: seq<string>)
    requires IsTableRow(l)
    ensures SegmentFrom([l] + rest, cur) == Flush(cur) + ([Row(l)] + SegmentFrom(rest, []))
  {
    assert ([l] + rest)[1..] == rest;
  }

  lemma FirstRowStep(l: string, rest: seq<string>)
    requires IsTableRow(l)
    ensures SegmentFrom([l] + rest, []) == [Row(l)] + SegmentFrom(rest, [])
  {
    RowStep(l, rest, []);
  }

  /** A text line at the head of the input joins the pending paragraph. */
  lemma TextStep(l: string, rest: seq<string>, cur: seq<string>)
    requires !IsBlank(l) && !IsTableRow(l)
    ensures SegmentFrom([l] + rest, cur) == SegmentFrom(rest, cur + [l])
  {
    assert ([l] + rest)[1..] == rest;
  }

  lemma {:induction false} SegmentRows(rows: seq<string>, tail: seq<string>)
    requires forall k :: 0 <= k < |rows| ==> IsTableRow(rows[k])
    ensures SegmentFrom(rows + tail, []) == Map(rows, AsRow) + SegmentFrom(tail, [])
    decreases |rows|
  {
    if rows == [] {
      assert rows + tail == tail;
    } else {
      var l := rows[0];
      var more := rows[1..];
      SegmentRows(more, tail);
      ConsSplit(rows, tail);
      FirstRowStep(l, more + tail);
      MapStep(rows, AsRow);
      Chain(SegmentFrom(rows + tail, []), SegmentFrom(more + tail, []), Map(rows, AsRow), Map(more, AsRow), SegmentFrom(tail, []), Row(l));
    }
  }

  /** A blank line at the head of the input emits the pending paragraph. */
  lemma BlankStep(l: string, rest: seq<string>, cur: seq<string>)
    requires IsBlank(l) && !IsTableRow(l)
    ensures SegmentFrom([l] + rest, cur) == Flush(cur) + SegmentFrom(rest, [])
  {
    assert ([l] + rest)[1..] == rest;
  }

  /** Before a table row, a blank line or the end of the input, the pending paragraph is emitted. */
  lemma FlushAtBoundary(lines: seq<string>, cur: seq<string>)
    requires lines == [] || IsTableRow(lines[0]) || IsBlank(lines[0])
    ensures SegmentFrom(lines, cur) == Flush(cur) + SegmentFrom(lines, [])
  {
    if lines != [] {
      var l := lines[0];
      var rest := lines[1..];
      assert lines == [l] + rest;
      if IsTableRow(l) {
        RowStep(l, rest, cur);
        RowStep(l, rest, []);
        assert [] + ([Row(l)] + SegmentFrom(rest, [])) == [Row(l)] + SegmentFrom(rest, []);
      } else {
        BlankStep(l, rest, cur);
        BlankStep(l, rest, []);
        assert [] + SegmentFrom(rest, []) == SegmentFrom(rest, []);
      }
    }
  }

  lemma SheetLinesSplit(sh: Sheet, tail: seq<string>)
    ensures SheetLines(sh) + tail == [TitleLine(sh)] + (Map(sh.rows, RowLine) + tail)
  {
  }

  /** After the title come the rows, then a blank line or the end. */
  lemma SheetBodyBoundary(sh: Sheet, tail: seq<string>)
    requires tail == [] || IsBlank(tail[0])
    ensures var body := Map(sh.rows, RowLine) + tail;
            body == [] || IsTableRow(body[0]) || IsBlank(body[0])
  {
    var rows := Map(sh.rows, RowLine);
    if rows != [] {
      assert (rows + tail)[0] == RowLine(sh.rows[0]);
      RowLineIsTableRow(sh.rows[0]);
    } else {
      assert rows + tail == tail;
    }
  }

  lemma SheetRowsSegment(sh: Sheet, tail: seq<string>)
    ensures SegmentFrom(Map(sh.rows, RowLine) + tail, []) == Map(Map(sh.rows, RowLine), AsRow) + SegmentFrom(tail, [])
  {
    var rows := Map(sh.rows, RowLine);
    forall k | 0 <= k < |rows|
      ensures IsTableRow(rows[k])
    {
      RowLineIsTableRow(sh.rows[k]);
    }
    SegmentRows(rows, tail);
  }

  lemma SheetSegment(sh: Sheet, tail: seq<string>)
    requires tail == [] || IsBlank(tail[0])
    ensures SegmentFrom(SheetLines(sh) + tail, []) == SheetSegments(sh) + SegmentFrom(tail, [])
  {
    var t := TitleLine(sh);
    var body := Map(sh.rows, RowLine) + tail;
    SheetLinesSplit(sh, tail);
    TitleLineIsText(sh);
    TextStep(t, body, []);
    assert [] + [t] == [t];
    SheetBodyBoundary(sh, tail);
    FlushAtBoundary(body, [t]);
    SheetRowsSegment(sh, tail);
    Chain(SegmentFrom(SheetLines(sh) + tail, []), SegmentFrom(body, []), SheetSegments(sh),
          Map(Map(sh.rows, RowLine), AsRow), SegmentFrom(tail, []), Para([t]));
  }

  lemma {:induction false} ExcelLinesSegments(kept: seq<Sheet>)
    ensures SegmentFrom(ExcelLines(kept), []) == ExcelSegments(kept)
    decreases |kept|
  {
    if |kept| == 1 {
      OneSheetSegments(kept);
    } else if |kept| > 1 {
      ExcelLinesSegments(kept[1..]);
      NextSheetSegments(kept);
    }
  }

  lemma {:induction false} OneSheetSegments(kept: seq<Sheet>)
    requires |kept| == 1
    ensures SegmentFrom(ExcelLines(kept), []) == ExcelSegments(kept)
  {
    SheetSegment(kept[0], []);
    assert SheetLines(kept[0]) + [] == SheetLines(kept[0]);
    assert kept[1..] == [];
  }

  lemma {:induction false} NextSheetSegments(kept: seq<Sheet>)
    requires |kept| > 1
    requires SegmentFrom(ExcelLines(kept[1..]), []) == ExcelSegments(kept[1..])
    ensures SegmentFrom(ExcelLines(kept), []) == ExcelSegments(kept)
  {
    var rest := ExcelLines(kept[1..]);
    var head := SheetSegments(kept[0]);
    assert ExcelLines(kept) == SheetLines(kept[0]) + ([""] + rest);
    assert ExcelSegments(kept) == head + ExcelSegments(kept[1..]);
    BlankLine();
    assert SegmentFrom([""] + rest, []) == SegmentFrom(rest, []) by {
      BlankStep("", rest, []);
      assert Flush([]) == [];
    }
    SheetSegment(kept[0], [""] + rest);
  }

  lemma BlankLine()
    ensures IsBlank("") && !IsTableRow("")
  {
  }

  /**
   * When no title or cell spans lines, the chunker's segmentation of the Excel
   * output is, sheet by sheet, the title as a one-line paragraph followed by
   * every row (header included) as a block of its own.
   */
  lemma ExcelRowsSegmentAlone(sheets: seq<Sheet>)
    requires forall k :: 0 <= k < |sheets| ==> SingleLineCells(sheets[k])
    ensures Segment(ExcelText(sheets)) == ExcelSegments(Filter(sheets, RenderedSheet))
  {
    var kept := Filter(sheets, RenderedSheet);
    KeptSingleLine(sheets);
    var ls := ExcelLines(kept);
    assert ExcelText(sheets) == Join("\n", ls) by {
      ExcelLinesJoin(kept);
    }
    assert SplitLines(Join("\n", ls)) == ls by {
      ExcelLinesShape(kept);
      SplitLinesOfJoin(ls);
    }
    ExcelLinesSegments(kept);
  }

  lemma KeptSingleLine(sheets: seq<Sheet>)
    requires forall k :: 0 <= k < |sheets| ==> SingleLineCells(sheets[k])
    ensures forall k :: 0 <= k < |Filter(sheets, RenderedSheet)| ==> SingleLineCells(Filter(sheets, RenderedSheet)[k])
  {
    var kept := Filter(sheets, RenderedSheet);
    forall k | 0 <= k < |kept|
      ensures SingleLineCells(kept[k])
    {
      var i :| 0 <= i < |sheets| && sheets[i] == kept[k];
    }
  }

  // ------------------------------------------------------------------ PDF

  /** A pdfplumber page: its `extract_text()` (`None` when it found nothing) and its size. */
  datatype PlumberPage = PlumberPage(text: Option<string>, width: real, height: real)

  /**
   * What the PDF libraries report for one file; `None` stands for a call that
   * raised. `info` is PyPDF2's document information with the page count.
   */
  datatype PdfInfo = PdfInfo(entries: map<string, string>, pageCount: nat)

  datatype PdfFile = PdfFile(
    exists_: bool, size: nat, info: Option<PdfInfo>,
    plumber: Option<seq<PlumberPage>>, pypdf: Option<seq<Option<string>>>)

  datatype PdfError = FileNotFound(message: string) | BadFormat(message: string) | ExtractionFailed(message: string)

  const TextExtractionFailure: string := "텍스트 추출에 실패했습니다"

  /** The dict `PDFProcessor.extract_text` returns. */
  datatype PdfExtraction = PdfExtraction(text: string, metadata: Payload, filePath: string, fileSize: nat, extractionTime: string)

  /** The metadata fields and the information keys they are read from. */
  const InfoKeys: map<string, string> := map[
    "title" := "/Title", "author" := "/Author", "subject" := "/Subject", "creator" := "/Creator",
    "producer" := "/Producer", "creation_date" := "/CreationDate", "modification_date" := "/ModDate"]

  /**
   * `_extract_metadata`: never raises; the string fields default to `''` and
   * `total_pages` to 0, and a readable file supplies whatever its information
   * dictionary holds and its page count.
   */
  function ExtractMetadata(info: Option<PdfInfo>): (m: Payload)
    ensures m.Keys == InfoKeys.Keys + {"total_pages"}
    ensures m["total_pages"] == VInt(if info.Some? then info.value.pageCount else 0)
    ensures forall k :: k in InfoKeys ==>
      m[k] == VStr(if info.Some? && InfoKeys[k] in info.value.entries then info.value.entries[InfoKeys[k]] else "")
  {
    match info
    case None => (map k | k in InfoKeys :: VStr(""))["total_pages" := VInt(0)]
    case Some(PdfInfo(entries, pages)) =>
      var fields := if entries == map[] then map k | k in InfoKeys :: VStr("")
                    else map k | k in InfoKeys :: VStr(if InfoKeys[k] in entries then entries[InfoKeys[k]] else "");
      fields["total_pages" := VInt(pages)]
  }

  /** pdfplumber's text: every page's text (empty when it found none) joined by line feeds. */
  function PlumberText(pages: seq<PlumberPage>): string {
    Join("\n", Map(pages, (p: PlumberPage) => p.text.GetOr("")))
  }

  /** PyPDF2's text: each non-empty page text followed by a line feed. */
  function PyPdfText(pages: seq<Option<string>>): string
    decreases |pages|
  {
    if pages == [] then ""
    else (if pages[0].Some? && pages[0].value != "" then pages[0].value + "\n" else "") + PyPdfText(pages[1..])
  }

  /**
   * `_extract_text_content`: pdfplumber's text when it is not blank, else
   * PyPDF2's when that is not blank, else an error.
   */
  function ExtractTextContent(plumber: Option<seq<PlumberPage>>, pypdf: Option<seq<Option<string>>>): (r: Result<string, string>)
    ensures r.Success? ==> !IsBlank(r.value)
    ensures plumber.Some? && !IsBlank(PlumberText(plumber.value)) ==> r == Success(PlumberText(plumber.value))
    ensures (plumber.None? || IsBlank(PlumberText(plumber.value))) && pypdf.Some? && !IsBlank(PyPdfText(pypdf.value)) ==>
      r == Success(PyPdfText(pypdf.value))
    ensures r.Failure? <==> (plumber.None? || IsBlank(PlumberText(plumber.value))) && (pypdf.None? || IsBlank(PyPdfText(pypdf.value)))
    ensures r.Failure? ==> r.error == TextExtractionFailure
  {
    if plumber.Some? && !IsBlank(PlumberText(plumber.value)) then Success(PlumberText(plumber.value))
    else if pypdf.Some? && !IsBlank(PyPdfText(pypdf.value)) then Success(PyPdfText(pypdf.value))
    else Failure(TextExtractionFailure)
  }

  /**
   * `PDFProcessor.extract_text(path)`: a missing file and a name not ending in
   * ".pdf" (any case) are refused before any extraction; otherwise the text and
   * the metadata, the size and the time of extraction.
   */
  function ExtractPdf(path: string, file: PdfFile, now: string): (r: Result<PdfExtraction, PdfError>)
    ensures !file.exists_ ==> r == Failure(FileNotFound("파일을 찾을 수 없습니다: " + path))
    ensures file.exists_ && !EndsWith(Lower(path), ".pdf") ==> r == Failure(BadFormat("지원하지 않는 파일 형식입니다: " + path))
    ensures r.Success? ==> !IsBlank(r.value.text) && r.value.filePath == path && r.value.fileSize == file.size
    ensures r.Success? ==> r.value.metadata == ExtractMetadata(file.info)
    ensures r.Failure? && r.error.ExtractionFailed? ==> ExtractTextContent(file.plumber, file.pypdf).Failure?
    ensures file.exists_ && EndsWith(Lower(path), ".pdf") ==>
      (r.Success? <==> ExtractTextContent(file.plumber, file.pypdf).Success?)
    ensures r.Success? ==> r.value.text == ExtractTextContent(file.plumber, file.pypdf).value && r.value.extractionTime == now
    ensures r.Failure? && r.error.ExtractionFailed? ==> r.error.message == TextExtractionFailure
  {
    if !file.exists_ then Failure(FileNotFound("파일을 찾을 수 없습니다: " + path))
    else if !EndsWith(Lower(path), ".pdf") then Failure(BadFormat("지원하지 않는 파일 형식입니다: " + path))
    else match ExtractTextContent(file.plumber, file.pypdf)
      case Failure(e) => Failure(ExtractionFailed(e))
      case Success(t) => Success(PdfExtraction(t, ExtractMetadata(file.info), path, file.size, now))
  }

  /** The guards come first: a refused path gives the same error whatever the libraries would report. */
  lemma GuardsPrecedeExtraction(path: string, a: PdfFile, b: PdfFile, now: string)
    requires a.exists_ == b.exists_
    requires !a.exists_ || !EndsWith(Lower(path), ".pdf")
    ensures ExtractPdf(path, a, now) == ExtractPdf(path, b, now)
    ensures ExtractPdf(path, a, now).Failure? && !ExtractPdf(path, a, now).error.ExtractionFailed?
  {
  }

  /** One page of `extract_text_by_pages`. */
  datatype PageText = PageText(pageNumber: nat, text: string, pageSize: real)

  /** A page as the numbering step sees it: its text and its size. */
  datatype RawPage = RawPage(text: Option<string>, size: real)

  /** pdfplumber's size: `width * height` when both are non-zero, else 0. */
  function PlumberRaw(p: PlumberPage): RawPage {
    RawPage(p.text, if p.width != 0.0 && p.height != 0.0 then p.width * p.height else 0.0)
  }

  function PyPdfRaw(t: Option<string>): RawPage {
    RawPage(t, 0.0)
  }

  predicate HasPageText(p: RawPage) {
    p.text.Some? && p.text.value != ""
  }

  /** `enumerate(pages, first)`, keeping the pages with text. */
  function NumberPages(pages: seq<RawPage>, first: nat): (r: seq<PageText>)
    ensures |r| <= |pages|
    ensures forall k :: 0 <= k < |r| ==>
      first <= r[k].pageNumber < first + |pages| &&
      HasPageText(pages[r[k].pageNumber - first]) &&
      r[k].text == pages[r[k].pageNumber - first].text.value &&
      r[k].pageSize == pages[r[k].pageNumber - first].size
    ensures forall j, k :: 0 <= j < k < |r| ==> r[j].pageNumber < r[k].pageNumber
    decreases |pages|
  {
    if pages == [] then []
    else
      var rest := NumberPages(pages[1..], first + 1);
      if HasPageText(pages[0]) then [PageText(first, pages[0].text.value, pages[0].size)] + rest else rest
  }

  /** Every page with text is listed, under its own number. */
  lemma {:induction false} NumberPagesComplete(pages: seq<RawPage>, first: nat, i: nat) returns (k: nat)
    requires i < |pages| && HasPageText(pages[i])
    ensures k < |NumberPages(pages, first)| && NumberPages(pages, first)[k].pageNumber == first + i
    decreases |pages|
  {
    if i == 0 {
      k := 0;
    } else {
      var k' := NumberPagesComplete(pages[1..], first + 1, i - 1);
      k := if HasPageText(pages[0]) then k' + 1 else k';
    }
  }

  /**
   * `extract_text_by_pages`: pdfplumber's pages with text, numbered from 1;
   * PyPDF2 is read only when pdfplumber produced no page, and its pages have size
   * 0. Any library error is raised (`None`).
   */
  function ExtractTextByPages(plumber: Option<seq<PlumberPage>>, pypdf: Option<seq<Option<string>>>): (r: Option<seq<PageText>>)
    ensures plumber.None? ==> r.None?
    ensures plumber.Some? && NumberPages(Map(plumber.value, PlumberRaw), 1) != [] ==>
      r == Some(NumberPages(Map(plumber.value, PlumberRaw), 1))
    ensures plumber.Some? && NumberPages(Map(plumber.value, PlumberRaw), 1) == [] ==>
      r == (if pypdf.None? then None else Some(NumberPages(Map(pypdf.value, PyPdfRaw), 1)))
    ensures r.Some? ==> forall k :: 0 <= k < |r.value| ==> r.value[k].pageNumber >= 1 && r.value[k].text != ""
  {
    match plumber
    case None => None
    case Some(ps) =>
      var fromPlumber := NumberPages(Map(ps, PlumberRaw), 1);
      if fromPlumber != [] then Some(fromPlumber)
      else match pypdf
        case None => None
        case Some(qs) => Some(NumberPages(Map(qs, PyPdfRaw), 1))
  }

  /** A page's line in PyPDF2's whole-document text. */
  function PageLine(p: PageText): string {
    p.text + "\n"
  }

  /**
   * PyPDF2's whole-document text is the page-wise extraction's texts, each
   * followed by a line feed: the two readings agree.
   */
  lemma {:induction false} PyPdfTextIsPages(qs: seq<Option<string>>, first: nat)
    ensures PyPdfText(qs) == Flatten(Map(NumberPages(Map(qs, PyPdfRaw), first), PageLine))
    decreases |qs|
  {
    if qs != [] {
      PyPdfTextIsPages(qs[1..], first + 1);
      var raw := Map(qs, PyPdfRaw);
      MapStep(qs, PyPdfRaw);
      assert raw[1..] == Map(qs[1..], PyPdfRaw);
      var rest := NumberPages(raw[1..], first + 1);
      if HasPageText(raw[0]) {
        var ps := [PageText(first, raw[0].text.value, 0.0)] + rest;
        assert NumberPages(raw, first) == ps;
        MapStep(ps, PageLine);
        assert ps[1..] == rest;
      } else {
        assert NumberPages(raw, first) == rest;
      }
    }
  }

  // ------------------------------------------------------------------ OCR

  /** An OCR engine: not installed, raised, or read something. */
  datatype OcrEngine<T> = Missing | Raised | Read(output: T)

  /** easyocr's text: the recognised fragments joined by line feeds. */
  function EasyText(easy: OcrEngine<seq<string>>): string {
    if easy.Read? then Join("\n", easy.output) else ""
  }

  /**
   * `ImageProcessor.extract_text`: easyocr first; pytesseract only when that gave
   * nothing but whitespace. Both may fail, and the result may be empty.
   */
  function ImageText(easy: OcrEngine<seq<string>>, tess: OcrEngine<string>): (t: string)
    ensures !IsBlank(EasyText(easy)) ==> t == EasyText(easy)
    ensures IsBlank(EasyText(easy)) && tess.Read? ==> t == tess.output
    ensures IsBlank(EasyText(easy)) && !tess.Read? ==> t == EasyText(easy)
  {
    var first := EasyText(easy);
    if IsBlank(first) && !tess.Missing? then
      (if tess.Read? then tess.output else first)
    else first
  }

  /** pytesseract plays no part once easyocr has read something. */
  lemma TesseractOnlyAsFallback(easy: OcrEngine<seq<string>>, tess1: OcrEngine<string>, tess2: OcrEngine<string>)
    requires !IsBlank(EasyText(easy))
    ensures ImageText(easy, tess1) == ImageText(easy, tess2)
  {
  }

  /** Without a working engine the result is blank, not an error; a non-blank result came from one engine. */
  lemma ImageTextOrigin(easy: OcrEngine<seq<string>>, tess: OcrEngine<string>)
    ensures !easy.Read? && !tess.Read? ==> ImageText(easy, tess) == ""
    ensures !IsBlank(ImageText(easy, tess)) ==>
      (easy.Read? && ImageText(easy, tess) == Join("\n", easy.output)) || (tess.Read? && ImageText(easy, tess) == tess.output)
  {
  }
}
