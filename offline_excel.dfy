/**
 * The offline spreadsheet writer: a workbook in the SpreadsheetML 2003 XML
 * format, one `Worksheet` per sheet, one `Row` per row and one `Cell` per
 * value. Cell text is XML-escaped; a data cell whose text is a plain
 * decimal is typed `Number`, everything else `String`.
 */
module OfflineExcel {
  import opened Wrappers
  import opened Text
  import opened Numeric
  import Exports

  /** A cell value as the sheets hold it: missing (`null`/`undefined`), text, or a number. */
  datatype Value = Missing | Str(s: string) | Num(x: real)

  /** A sheet as handed to the writer; `None` stands for a value that is not an array. */
  datatype SheetIn = SheetIn(name: Option<string>, aoa: Option<seq<Option<seq<Value>>>>)

  /** `String(v)` of a present value. */
  function ValueText(v: Value): string {
    match v
    case Missing => ""
    case Str(s) => s
    case Num(x) => NumberText(x)
  }

  // ---------------------------------------------------------------------------
  // File name
  // ---------------------------------------------------------------------------

  /** The name ends in ".xls" or ".xml", in any letter case. */
  predicate HasSheetExtension(n: string) {
    |n| >= 4 && n[|n| - 4] == '.' && (Lower(n[|n| - 3..]) == "xls" || Lower(n[|n| - 3..]) == "xml")
  }

  /** `ensureXlsExtension`: a blank name is "export.xls"; a name without the extension gets ".xls". */
  function EnsureXlsExtension(name: Option<string>): (r: string)
    ensures HasSheetExtension(r)
    ensures name.Some? && name.value != "" && HasSheetExtension(name.value) ==> r == name.value
    ensures name.Some? && name.value != "" && !HasSheetExtension(name.value) ==> r == name.value + ".xls"
  {
    var n := if name.Some? && name.value != "" then name.value else "export.xls";
    var withExt := n + ".xls";
    assert withExt[|withExt| - 3..] == "xls";
    assert Lower("xls") == "xls";
    if HasSheetExtension(n) then n else withExt
  }

  /** Adding the extension once is enough. */
  lemma EnsureXlsExtensionIdempotent(name: Option<string>)
    ensures EnsureXlsExtension(Some(EnsureXlsExtension(name))) == EnsureXlsExtension(name)
  {
  }

  // ---------------------------------------------------------------------------
  // Escaping and number detection
  // ---------------------------------------------------------------------------

  /** `escXml`: the five markup characters escaped, the apostrophe as `&apos;`; safe inside markup and decoding back to the text. */
  function EscXml(s: string): (r: string)
    ensures MarkupSafe(r, "&apos;")
    ensures Unescape(r, "&apos;") == s
  {
    EscapeIsSafe(s, "&apos;");
    UnescapeEscape(s, "&apos;");
    Escape(s, "&apos;")
  }

  /** `isNumberLike`: a present value whose trimmed text is `-?\d+(\.\d+)?`. */
  predicate IsNumberLike(v: Value): (b: bool)
    ensures b ==> v != Missing && var t := Trim(ValueText(v));
      |t| >= 1 && (t[0] == '-' || IsDigit(t[0])) && IsDigit(t[|t| - 1])
  {
    var t := Trim(ValueText(v));
    if v != Missing && IsDecimalLiteral(t) then DecimalLiteralEnds(t); true else false
  }

  /** Every number is written as a plain decimal, so it is number-like. */
  lemma NumbersAreNumberLike(x: real)
    ensures IsNumberLike(Num(x))
  {
    var t := NumberText(x);
    LiteralIsTrimmed(t);
    assert ValueText(Num(x)) == t;
  }

  /** A text that starts with a sign or digit and ends in a digit has no blank to trim. */
  lemma LiteralIsTrimmed(t: string)
    requires |t| >= 1 && (t[0] == '-' || IsDigit(t[0])) && IsDigit(t[|t| - 1])
    ensures Trim(t) == t
  {
    TrimUnchanged(t);
  }

  /** A missing value and blank text are not number-like. */
  lemma BlankIsNotNumberLike()
    ensures !IsNumberLike(Missing) && !IsNumberLike(Str(""))
  {
  }

  /** The pattern refuses a bare point at either end and a plus sign. */
  lemma NotNumberLikeExamples()
    ensures !IsNumberLike(Str("1.")) && !IsNumberLike(Str(".5")) && !IsNumberLike(Str("+1"))
  {
    TrimUnchanged("1.");
    TrimUnchanged(".5");
    TrimUnchanged("+1");
    assert LeadingDigits("1.") == 1;
  }

  /** A negative decimal with a fraction is number-like. */
  lemma NumberLikeExample()
    ensures IsNumberLike(Str("-12.50"))
  {
    TrimUnchanged("-12.50");
    assert "-12.50"[1..] == "12.50";
    assert LeadingDigits("12.50") == 2;
    assert "12.50"[3..] == "50";
  }

  // ---------------------------------------------------------------------------
  // Cells, rows, worksheets, workbook
  // ---------------------------------------------------------------------------

  function CellStyle(isHeader: bool): string {
    if isHeader then "sHeader" else "sCell"
  }

  /** The data type of a cell: `Number` exactly for a number-like value outside the header row. */
  function CellType(v: Value, isHeader: bool): (t: string)
    ensures t == "Number" <==> !isHeader && IsNumberLike(v)
    ensures t == "String" || t == "Number"
  {
    if IsNumberLike(v) && !isHeader then "Number" else "String"
  }

  /** Header cells are always text, whatever they hold. */
  lemma HeaderCellsAreText(v: Value)
    ensures CellType(v, true) == "String" && CellStyle(true) == "sHeader"
  {
  }

  /** A number in a data row is typed `Number`. */
  lemma DataNumbersAreNumbers(x: real)
    ensures CellType(Num(x), false) == "Number" && CellStyle(false) == "sCell"
  {
    NumbersAreNumberLike(x);
  }

  /** The opening tags of a cell: the `Cell` with its style, the `Data` with its type. */
  function CellHead(isHeader: bool, typ: string): string {
    "<Cell ss:StyleID=\"" + CellStyle(isHeader) + "\"><Data ss:Type=\"" + typ + "\">"
  }

  const CellTail: string := "</Data></Cell>"

  /**
   * `buildCell`: one `Cell` element with its style and its type, whose data
   * is markup-safe and decodes back to the text of `value ?? ''`.
   */
  function BuildCell(value: Value, isHeader: bool): (r: string)
    ensures var v := if value == Missing then Str("") else value;
      var head := CellHead(isHeader, CellType(v, isHeader));
      && |head| + |CellTail| <= |r| && r[..|head|] == head && r[|r| - |CellTail|..] == CellTail
      && MarkupSafe(r[|head|..|r| - |CellTail|], "&apos;") && Unescape(r[|head|..|r| - |CellTail|], "&apos;") == ValueText(v)
  {
    var v := if value == Missing then Str("") else value;
    var head, data := CellHead(isHeader, CellType(v, isHeader)), EscXml(ValueText(v));
    var r := head + data + CellTail;
    assert r[|head|..|r| - |CellTail|] == data;
    r
  }

  /** The `Cell` elements of a row, one per value, in order. */
  function CellTexts(row: seq<Value>, isHeader: bool): (r: seq<string>)
    ensures |r| == |row| && forall i :: 0 <= i < |row| ==> r[i] == BuildCell(row[i], isHeader)
  {
    seq(|row|, i requires 0 <= i < |row| => BuildCell(row[i], isHeader))
  }

  /** The concatenation of the cells of a row. */
  function CellsXml(row: seq<Value>, isHeader: bool): string {
    Flatten(CellTexts(row, isHeader))
  }

  /** `buildRow`: one `Row` element holding a `Cell` per value, in order; a non-array row is an empty `Row`. */
  function BuildRow(row: Option<seq<Value>>, isHeader: bool): (r: string)
    ensures |r| >= 11 && r[..5] == "<Row>" && r[|r| - 6..] == "</Row>"
    ensures row.None? || row.value == [] ==> r == "<Row></Row>"
  {
    "<Row>" + CellsXml(row.GetOr([]), isHeader) + "</Row>"
  }

  /** The rows of a sheet, the first one as the header row. */
  function RowsXml(rows: seq<Option<seq<Value>>>): (r: seq<string>)
    ensures |r| == |rows|
    ensures forall i :: 0 <= i < |rows| ==> r[i] == BuildRow(rows[i], i == 0)
  {
    seq(|rows|, i requires 0 <= i < |rows| => BuildRow(rows[i], i == 0))
  }

  /** The sheet name as written: the name or "Sheet", cut to 31 characters, then escaped. */
  function SheetNameXml(name: Option<string>): (r: string)
    ensures Unescape(r, "&apos;") == Exports.Prefix(if name.Some? && name.value != "" then name.value else "Sheet", 31)
  {
    EscXml(Exports.Prefix(if name.Some? && name.value != "" then name.value else "Sheet", 31))
  }

  /** `buildWorksheet`: one `Worksheet` element named after the sheet, holding its rows joined by line breaks. */
  function BuildWorksheet(name: Option<string>, aoa: Option<seq<Option<seq<Value>>>>): (r: string)
    ensures var n := SheetNameXml(name);
      |r| >= |WorksheetOpen| + |n| && r[..|WorksheetOpen|] == WorksheetOpen && r[|WorksheetOpen|..|WorksheetOpen| + |n|] == n
  {
    var n := SheetNameXml(name);
    var rest := "\">\n  <Table>\n   " + Join(RowsXml(aoa.GetOr([])), "\n") + WorksheetClose;
    var r := WorksheetOpen + (n + rest);
    assert r[..|WorksheetOpen|] == WorksheetOpen;
    assert r[|WorksheetOpen|..] == n + rest;
    assert (n + rest)[..|n|] == n;
    r
  }

  const WorksheetOpen: string := "<Worksheet ss:Name=\""
  const WorksheetClose: string := "\n  </Table>\n </Worksheet>"



  /** The workbook text before the worksheets: the XML declaration, the root element and the two styles. */
  const WorkbookHead: string :=
    "<?xml version=\"1.0\" encoding=\"UTF-8\"?>\n<?mso-application progid=\"Excel.Sheet\"?>\n"
    + "<Workbook xmlns=\"urn:schemas-microsoft-com:office:spreadsheet\"\n"
    + " xmlns:o=\"urn:schemas-microsoft-com:office:office\"\n"
    + " xmlns:x=\"urn:schemas-microsoft-com:office:excel\"\n"
    + " xmlns:ss=\"urn:schemas-microsoft-com:office:spreadsheet\"\n"
    + " xmlns:html=\"http://www.w3.org/TR/REC-html40\">\n <Styles>\n"
    + "  <Style ss:ID=\"sHeader\">\n   <Font ss:Bold=\"1\"/>\n"
    + "   <Interior ss:Color=\"#F2F5F9\" ss:Pattern=\"Solid\"/>\n"
    + "   <Alignment ss:Horizontal=\"Center\" ss:Vertical=\"Center\"/>\n  </Style>\n"
    + "  <Style ss:ID=\"sCell\">\n   <Alignment ss:Horizontal=\"Center\" ss:Vertical=\"Center\"/>\n  </Style>\n"
    + " </Styles>\n "

  const WorkbookTail: string := "\n</Workbook>"

  /** The worksheets of the sheets, in order; a missing sheet has no name and no rows. */
  function WorksheetsXml(sheets: seq<Option<SheetIn>>): (r: seq<string>)
    ensures |r| == |sheets|
    ensures forall i :: 0 <= i < |sheets| ==>
              r[i] == if sheets[i].Some? then BuildWorksheet(sheets[i].value.name, sheets[i].value.aoa) else BuildWorksheet(None, None)
  {
    seq(|sheets|, i requires 0 <= i < |sheets| =>
      if sheets[i].Some? then BuildWorksheet(sheets[i].value.name, sheets[i].value.aoa) else BuildWorksheet(None, None))
  }

  /** `buildSpreadsheetML`: the workbook holding one worksheet per sheet, none when the input is not an array. */
  function BuildSpreadsheetML(sheets: Option<seq<Option<SheetIn>>>): (r: string)
    ensures sheets.None? || sheets.value == [] ==> r == Workbook("")
  {
    Workbook(Join(WorksheetsXml(sheets.GetOr([])), "\n"))
  }

  /** The workbook around the text of its worksheets. */
  function Workbook(worksheets: string): string {
    WorkbookHead + worksheets + WorkbookTail
  }

  /** The worksheet of one sheet, as `map` writes it. */
  function WorksheetOf(s: Option<SheetIn>): string {
    if s.Some? then BuildWorksheet(s.value.name, s.value.aoa) else BuildWorksheet(None, None)
  }

  /** `join` of one more part: the old text, the separator, the part. */
  lemma {:induction false} JoinSnoc(parts: seq<string>, x: string, sep: string)
    requires parts != []
    ensures Join(parts + [x], sep) == Join(parts, sep) + sep + x
    decreases |parts|
  {
    if |parts| > 1 {
      assert (parts + [x])[1..] == parts[1..] + [x];
      JoinSnoc(parts[1..], x, sep);
    }
  }

  /** A workbook of one sheet is the head, that sheet's worksheet, and the tail. */
  lemma WorkbookOfOneSheet(s: Option<SheetIn>)
    ensures BuildSpreadsheetML(Some([s])) == Workbook(WorksheetOf(s))
  {
  }

  /**
   * One more sheet adds its worksheet, after a line break, just before the
   * closing tail: the worksheets stand in the order of the sheets.
   */
  lemma WorkbookAppendsSheet(sheets: seq<Option<SheetIn>>, s: Option<SheetIn>)
    requires sheets != []
    ensures BuildSpreadsheetML(Some(sheets + [s])) == Workbook(Join(WorksheetsXml(sheets), "\n") + "\n" + WorksheetOf(s))
  {
    var all, ws := WorksheetsXml(sheets + [s]), WorksheetsXml(sheets);
    assert all == ws + [WorksheetOf(s)] by {
      forall i | 0 <= i < |all| ensures all[i] == (ws + [WorksheetOf(s)])[i] {
        if i < |sheets| {
          assert (sheets + [s])[i] == sheets[i];
        }
      }
    }
    JoinSnoc(ws, WorksheetOf(s), "\n");
  }

  /** Without an array of sheets the workbook holds no worksheet. */
  lemma NoSheetsWithoutArray()
    ensures BuildSpreadsheetML(None) == BuildSpreadsheetML(Some([])) == Workbook("")
  {
  }

  /** Cells are written in the order of the values: the cells of joined rows are the joined cells. */
  lemma CellsXmlConcat(a: seq<Value>, b: seq<Value>, isHeader: bool)
    ensures CellsXml(a + b, isHeader) == CellsXml(a, isHeader) + CellsXml(b, isHeader)
  {
    var whole, left, right := CellTexts(a + b, isHeader), CellTexts(a, isHeader), CellTexts(b, isHeader);
    forall i | 0 <= i < |whole|
      ensures whole[i] == (left + right)[i]
    {
      if i < |a| {
        assert (a + b)[i] == a[i];
      } else {
        assert (a + b)[i] == b[i - |a|];
      }
    }
    assert whole == left + right;
    FlattenConcat(CellTexts(a, isHeader), CellTexts(b, isHeader));
  }

  /** A row of one value is exactly that value's cell. */
  lemma CellsXmlSingle(v: Value, isHeader: bool)
    ensures CellsXml([v], isHeader) == BuildCell(v, isHeader)
  {
    assert CellTexts([v], isHeader) == [BuildCell(v, isHeader)];
    assert Flatten([BuildCell(v, isHeader)]) == Flatten([]) + BuildCell(v, isHeader);
  }
}
