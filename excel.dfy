/** Local text extraction from spreadsheets (services/excel.ts): every worksheet that renders
    to non-blank CSV contributes a headed section, in workbook order. Reading the file and
    parsing the workbook are done by a library; their outcome is a parameter. */
module Excel {
  import opened Outcomes
  import opened Strings

  const ReadError := "No se pudo leer el archivo Excel"

  /** A worksheet: its name and the CSV text `sheet_to_csv` renders for it. */
  datatype Sheet = Sheet(name: string, csv: string)

  /** What reading the picked file gave: a reader error, a workbook the parser rejected, or
      the worksheets in workbook order. */
  datatype WorkbookRead = ReaderFailed(message: string) | ParseFailed | Parsed(sheets: seq<Sheet>)

  /** The section a worksheet contributes. */
  function Section(sheet: Sheet): string {
    "--- Hoja: " + sheet.name + " ---\n" + sheet.csv + "\n\n"
  }

  /** What a worksheet adds to the text: its section, or nothing when its CSV is blank. */
  function Contribution(sheet: Sheet): string {
    if IsBlank(sheet.csv) then "" else Section(sheet)
  }

  /** The extracted text of the worksheets: their contributions one after the other. */
  function SheetsText(sheets: seq<Sheet>): string {
    if sheets == [] then "" else Contribution(sheets[0]) + SheetsText(sheets[1..])
  }

  /** What extraction settles with: the reader's error, the fixed parse error, or the text of the sheets. */
  function ExcelText(read: WorkbookRead): Result<string> {
    match read
    case ReaderFailed(message) => Err(message)
    case ParseFailed => Err(ReadError)
    case Parsed(sheets) => Ok(SheetsText(sheets))
  }

  /** `extractTextFromExcel(file)`. */
  method ExtractTextFromExcel(read: WorkbookRead) returns (r: Result<string>)
    ensures r == ExcelText(read)
  {
    match read
    case ReaderFailed(message) =>
      r := Err(message);
    case ParseFailed =>
      r := Err(ReadError);
    case Parsed(sheets) =>
      var fullText := "";
      for i := 0 to |sheets|
        invariant fullText == SheetsText(sheets[..i])
      {
        TextOfPrefix(sheets, i);
        var text := sheets[i].csv;
        if !IsBlank(text) {
          fullText := fullText + ("--- Hoja: " + sheets[i].name + " ---\n" + text + "\n\n");
        }
      }
      assert sheets[..|sheets|] == sheets;
      r := Ok(fullText);
  }

  /** The text of two runs of worksheets is the text of the first followed by that of the second. */
  lemma {:induction false} SheetsTextAppend(a: seq<Sheet>, b: seq<Sheet>)
    ensures SheetsText(a + b) == SheetsText(a) + SheetsText(b)
  {
    if a == [] {
      assert a + b == b;
    } else {
      assert (a + b)[1..] == a[1..] + b;
      SheetsTextAppend(a[1..], b);
    }
  }

  lemma TextOfPrefix(sheets: seq<Sheet>, i: nat)
    requires i < |sheets|
    ensures SheetsText(sheets[..i + 1]) == SheetsText(sheets[..i]) + Contribution(sheets[i])
  {
    assert sheets[..i + 1] == sheets[..i] + [sheets[i]];
    SheetsTextAppend(sheets[..i], [sheets[i]]);
    SheetOnly(sheets[i]);
  }

  lemma SheetOnly(sheet: Sheet)
    ensures SheetsText([sheet]) == Contribution(sheet)
  {
    assert [sheet][1..] == [];
  }

  /** Each worksheet with non-blank CSV appears as its own section, between the text of the
      sheets before it and the text of the sheets after it. */
  lemma SheetInPlace(sheets: seq<Sheet>, i: nat)
    requires i < |sheets| && !IsBlank(sheets[i].csv)
    ensures SheetsText(sheets) == SheetsText(sheets[..i]) + Section(sheets[i]) + SheetsText(sheets[i + 1..])
  {
    var before, sheet, after := sheets[..i], sheets[i], sheets[i + 1..];
    assert sheets == before + [sheet] + after;
    SheetsTextAppend(before + [sheet], after);
    SheetsTextAppend(before, [sheet]);
    SheetOnly(sheet);
    assert Contribution(sheet) == Section(sheet);
  }

  /** The text is empty exactly when every worksheet's CSV is blank, and it is never blank
      without being empty: every section carries its visible header. */
  lemma SheetsTextEmpty(sheets: seq<Sheet>)
    ensures SheetsText(sheets) == "" <==> forall i :: 0 <= i < |sheets| ==> IsBlank(sheets[i].csv)
    ensures IsBlank(SheetsText(sheets)) <==> SheetsText(sheets) == ""
  {
    EmptyExactlyForBlankSheets(sheets);
    StartsWithHeader(sheets);
  }

  lemma {:induction false} EmptyExactlyForBlankSheets(sheets: seq<Sheet>)
    ensures SheetsText(sheets) == "" <==> forall i :: 0 <= i < |sheets| ==> IsBlank(sheets[i].csv)
  {
    if sheets != [] {
      var rest := sheets[1..];
      EmptyExactlyForBlankSheets(rest);
      forall i | 1 <= i < |sheets| ensures sheets[i] == rest[i - 1] { }
      if IsBlank(sheets[0].csv) {
        assert SheetsText(sheets) == SheetsText(rest);
      } else {
        assert |SheetsText(sheets)| >= |Section(sheets[0])| > 0;
      }
    }
  }

  lemma {:induction false} StartsWithHeader(sheets: seq<Sheet>)
    ensures SheetsText(sheets) == "" || SheetsText(sheets)[0] == '-'
  {
    if sheets != [] {
      StartsWithHeader(sheets[1..]);
      if !IsBlank(sheets[0].csv) {
        assert SheetsText(sheets) == Section(sheets[0]) + SheetsText(sheets[1..]);
        assert Section(sheets[0])[0] == '-';
      }
    }
  }
}
