/** The SpreadsheetML content the library produces and consumes, as plain values:
    a workbook is its sheets, the number-format id of each cell format in the
    style sheet, and the shared-string table. */
module OpenXml {
  import opened Wrappers

  /** ST_CellType, section 18.18.11 of ECMA-376 Part 1 (b, n, e, s, str, inlineStr, d). */
  datatype CellValues = Boolean | Number | Error | SharedString | String | InlineString | Date

  /** A `c` element (section 18.3.1.4 of ECMA-376 Part 1): its `r` reference, its `t`
      type, its `s` style index and the text of its `v` child (None when the cell
      has no value element). The cell's own inner text is taken to be the value's
      text. */
  datatype Cell = Cell(
    reference: Option<string>,
    dataType: Option<CellValues>,
    styleIndex: Option<nat>,
    text: Option<string>)

  /** A physical row: its cells in document order; empty cells may be left out. */
  type Row = seq<Cell>

  /** An `si` item of the shared-string table: the text of its plain `t` child
      (None for a rich-text item) and the concatenated text of all its runs. */
  datatype SharedStringItem = SharedStringItem(t: Option<string>, innerText: string)

  datatype Sheet = Sheet(name: string, sheetId: nat, rows: seq<Row>)

  /** A workbook: its sheets in document order; the `numFmtId` of each `xf` of the
      style sheet's `cellXfs` (None for the whole list when the workbook has no
      styles part, None for one format that carries no `numFmtId`); and the items
      of the shared-string table (None when the workbook has no such part). */
  datatype Workbook = Workbook(
    sheets: seq<Sheet>,
    cellFormats: Option<seq<Option<nat>>>,
    sharedStrings: Option<seq<SharedStringItem>>)

  function CellInnerText(c: Cell): string {
    c.text.GetOr("")
  }
}
