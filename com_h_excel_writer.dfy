/** The writer of the `Com.H.Excel` package: the same sheet, header and cell
    generation as the NetStandard2.0 writer, with its own copy of the type table
    and without the check for empty sheet names. */
module ComExcelWriter {
  import opened Wrappers
  import opened Clr
  import opened OpenXml
  import TypeClassifier
  import opened ExcelWriter

  /** This package's copy of `OpenXmlTypesDic`. */
  const OpenXmlTypesDic: map<ClrType, CellValues> := map[
    StringType := String,
    NullableOf(Int32) := Number,
    NullableOf(Decimal) := Number,
    NullableOf(Double) := Number,
    NullableOf(Single) := Number,
    NullableOf(Int64) := Number,
    NullableOf(Bool) := Boolean,
    NullableOf(DateTime) := Number,
    ValueOf(Int32) := Number,
    ValueOf(Decimal) := Number,
    ValueOf(Double) := Number,
    ValueOf(Single) := Number,
    ValueOf(Int64) := Number,
    ValueOf(Bool) := Boolean,
    ValueOf(DateTime) := Number
  ]

  /** This package's `GetOpenXmlType`: the tabled cell type, `String` otherwise. */
  function GetOpenXmlType(t: ClrType): CellValues {
    if t in OpenXmlTypesDic then OpenXmlTypesDic[t] else String
  }

  /** The lookup is total: every type outside the table is written as `String`,
      and this package's table agrees with the NetStandard2.0 one entry for entry. */
  lemma GetOpenXmlTypeTotal(t: ClrType)
    ensures t !in OpenXmlTypesDic ==> GetOpenXmlType(t) == String
    ensures OpenXmlTypesDic == TypeClassifier.OpenXmlTypesDic
    ensures GetOpenXmlType(t) == TypeClassifier.GetOpenXmlType(t)
  {
  }

  /** `WriteExcel` of this package: every collection gets its sheet, whatever its
      name. */
  function ComWriteExcelSpec(inputs: seq<SheetInput>, excludeHeaders: bool, rd: Renderers): Workbook {
    WrittenWorkbook(WrittenSheets(inputs, excludeHeaders, rd, GetOpenXmlType))
  }

  /** The sheet loop: `sheetNumber` counts the sheets appended so far. */
  method WriteExcel(inputs: seq<SheetInput>, excludeHeaders: bool, rd: Renderers) returns (wb: Workbook)
    ensures wb == ComWriteExcelSpec(inputs, excludeHeaders, rd)
  {
    var sheets: seq<Sheet> := [];
    var sheetNumber := 0;
    for k := 0 to |inputs|
      invariant sheetNumber == k
      invariant sheets == WrittenSheets(inputs[..k], excludeHeaders, rd, GetOpenXmlType)
    {
      var input := inputs[k];
      sheetNumber := sheetNumber + 1;
      var sheetData: seq<Row> := [];
      if input.1.Some? {
        sheetData := FillSheetData(input.1.value, excludeHeaders, rd, GetOpenXmlType);
      }
      sheets := sheets + [Sheet(input.0, sheetNumber, sheetData)];
    }
    assert inputs[..|inputs|] == inputs;
    return WrittenWorkbook(sheets);
  }

  /** The two writers agree wherever the NetStandard2.0 one does not raise; this
      one accepts empty sheet names, which that one rejects. */
  lemma WritersAgree(inputs: seq<SheetInput>, excludeHeaders: bool, rd: Renderers)
    ensures ExcelWriter.WriteExcelSpec(inputs, excludeHeaders, rd) ==
              if exists k :: 0 <= k < |inputs| && inputs[k].0 == "" then Err(InvalidData)
              else Ok(ComWriteExcelSpec(inputs, excludeHeaders, rd))
    ensures |ComWriteExcelSpec(inputs, excludeHeaders, rd).sheets| == |inputs|
    ensures forall k :: 0 <= k < |inputs| ==>
              ComWriteExcelSpec(inputs, excludeHeaders, rd).sheets[k].name == inputs[k].0 &&
              ComWriteExcelSpec(inputs, excludeHeaders, rd).sheets[k].sheetId == k + 1
  {
    forall t {
      GetOpenXmlTypeTotal(t);
    }
    WrittenSheetsSameTags(inputs, excludeHeaders, rd, GetOpenXmlType, TypeClassifier.GetOpenXmlType);
  }
}
