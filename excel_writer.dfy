/** `WriteExcel`: one worksheet per named collection. Each collection becomes a
    header row of property names (unless headers are excluded) followed by one
    row per record, and each record becomes one cell per property. The workbook
    carries two cell formats, General and a date format. */
module ExcelWriter {
  import opened Wrappers
  import opened Clr
  import opened OpenXml
  import opened TypeClassifier
  import opened Sequences

  /** The culture-dependent renderings the writer calls: `valueRaw.ToString()` and
      `((DateTime)valueRaw).ToOADate().ToString(CultureInfo.InvariantCulture)`. */
  datatype Renderers = Renderers(toString: Val -> string, oaDate: Val -> string)

  /** A named collection to write: the dictionary key and the collection, null or
      a sequence of records, each null or a record. */
  type SheetInput = (string, Option<seq<Option<Record>>>)

  /** The local function `GetCell`: a null value gives empty text tagged with the
      property type's cell type and no style; a `DateTime` or `DateTime?` value
      gives its OLE Automation date, tagged `Number`, in the date style (1); any
      other value gives its `ToString()` text, tagged with the property type's cell
      type, in the General style (0). The cell carries no reference. */
  function GetCell(f: Field, rd: Renderers, tagOf: ClrType -> CellValues): Cell {
    if f.value == Null then Cell(None, Some(tagOf(f.ty)), None, Some(""))
    else if f.ty == ValueOf(DateTime) || f.ty == NullableOf(DateTime) then
      Cell(None, Some(Number), Some(1), Some(rd.oaDate(f.value)))
    else Cell(None, Some(tagOf(f.ty)), Some(0), Some(rd.toString(f.value)))
  }

  /** The header row: one `String`-tagged cell per property, holding its name. */
  function HeaderRow(rec: Record): Row {
    seq(|rec|, i requires 0 <= i < |rec| => Cell(None, Some(String), None, Some(rec[i].name)))
  }

  /** The data row of a record: one cell per property, in property order. */
  function DataRow(rec: Record, rd: Renderers, tagOf: ClrType -> CellValues): Row {
    seq(|rec|, i requires 0 <= i < |rec| => GetCell(rec[i], rd, tagOf))
  }

  /** The records that are written: null records and records without properties
      are skipped, every other record is kept. */
  function Kept(items: seq<Option<Record>>): (r: seq<Record>)
    ensures |r| <= |items|
    ensures forall i :: 0 <= i < |r| ==> |r[i]| >= 1 && Some(r[i]) in items
  {
    if items == [] then []
    else if items[0].None? || |items[0].value| < 1 then Kept(items[1..])
    else [items[0].value] + Kept(items[1..])
  }

  /** A record is written exactly when it is a non-null record of the collection
      with at least one property. */
  lemma {:induction false} KeptMembers(items: seq<Option<Record>>, x: Record)
    ensures x in Kept(items) <==> Some(x) in items && |x| >= 1
    decreases |items|
  {
    if items != [] {
      KeptMembers(items[1..], x);
      assert Some(x) in items <==> items[0] == Some(x) || Some(x) in items[1..];
    }
  }

  lemma KeptStep(items: seq<Option<Record>>)
    requires items != []
    ensures items[0].None? || |items[0].value| < 1 ==> Kept(items) == Kept(items[1..])
    ensures items[0].Some? && |items[0].value| >= 1 ==> Kept(items) == [items[0].value] + Kept(items[1..])
  {
  }

  /** The records are written in the collection's order: keeping commutes with
      concatenation, so what comes first in the collection comes first on the
      sheet. */
  lemma {:induction false} KeptAppend(a: seq<Option<Record>>, b: seq<Option<Record>>)
    ensures Kept(a + b) == Kept(a) + Kept(b)
    decreases |a|
  {
    if a == [] {
      assert a + b == b;
    } else {
      assert (a + b)[0] == a[0] && (a + b)[1..] == a[1..] + b;
      KeptAppend(a[1..], b);
    }
  }

  /** The rows of one data row per record. */
  function RecordRows(recs: seq<Record>, rd: Renderers, tagOf: ClrType -> CellValues): seq<Row> {
    seq(|recs|, i requires 0 <= i < |recs| => DataRow(recs[i], rd, tagOf))
  }

  /** The loop over a collection's records, `headersSet` telling whether the header
      row has been appended. */
  function SheetRows(items: seq<Option<Record>>, excludeHeaders: bool, headersSet: bool,
                     rd: Renderers, tagOf: ClrType -> CellValues): seq<Row>
    decreases |items|
  {
    if items == [] then []
    else if items[0].None? || |items[0].value| < 1 then SheetRows(items[1..], excludeHeaders, headersSet, rd, tagOf)
    else
      var rec := items[0].value;
      var emit := !excludeHeaders && !headersSet;
      (if emit then [HeaderRow(rec)] else []) + [DataRow(rec, rd, tagOf)] +
      SheetRows(items[1..], excludeHeaders, headersSet || emit, rd, tagOf)
  }

  /** The sheet written for the k-th collection (0-based): numbered k + 1, empty
      for a null collection. */
  function SheetOf(k: nat, input: SheetInput, excludeHeaders: bool, rd: Renderers, tagOf: ClrType -> CellValues): Sheet {
    Sheet(input.0, k + 1, if input.1.None? then [] else SheetRows(input.1.value, excludeHeaders, false, rd, tagOf))
  }

  function WrittenSheets(inputs: seq<SheetInput>, excludeHeaders: bool, rd: Renderers, tagOf: ClrType -> CellValues): seq<Sheet> {
    seq(|inputs|, k requires 0 <= k < |inputs| => SheetOf(k, inputs[k], excludeHeaders, rd, tagOf))
  }

  /** The workbook as written: the sheets, the two cell formats `AddDateStyle`
      installs, and no shared-string table. */
  function WrittenWorkbook(sheets: seq<Sheet>): Workbook {
    Workbook(sheets, Some(seq(|DateStyleFormatIds|, i requires 0 <= i < |DateStyleFormatIds| => Some(DateStyleFormatIds[i]))), None)
  }

  /** `WriteExcel`: an empty sheet name raises `InvalidDataException`. */
  function WriteExcelSpec(inputs: seq<SheetInput>, excludeHeaders: bool, rd: Renderers): Result<Workbook, Exception> {
    if exists k :: 0 <= k < |inputs| && inputs[k].0 == "" then Err(InvalidData)
    else Ok(WrittenWorkbook(WrittenSheets(inputs, excludeHeaders, rd, GetOpenXmlType)))
  }

  // ---------------------------------------------------------------------------
  // The writer's loops

  /** The record loop of one sheet: rows are appended to the sheet data, the
      header row once, before the first record written. */
  method FillSheetData(items: seq<Option<Record>>, excludeHeaders: bool, rd: Renderers, tagOf: ClrType -> CellValues)
    returns (sheetData: seq<Row>)
    ensures sheetData == SheetRows(items, excludeHeaders, false, rd, tagOf)
  {
    sheetData := [];
    var headersSet := false;
    var i := 0;
    while i < |items|
      invariant 0 <= i <= |items|
      invariant SheetRows(items, excludeHeaders, false, rd, tagOf) == sheetData + SheetRows(items[i..], excludeHeaders, headersSet, rd, tagOf)
    {
      SheetRowsUnfold(items[i..], excludeHeaders, headersSet, rd, tagOf);
      assert items[i..][0] == items[i] && items[i..][1..] == items[i + 1..];
      var item := items[i];
      i := i + 1;
      if item.None? || |item.value| < 1 {
        continue;
      }
      var properties := item.value;
      ghost var before := sheetData;
      ghost var rest := SheetRows(items[i..], excludeHeaders, headersSet || !excludeHeaders, rd, tagOf);
      if !excludeHeaders && !headersSet {
        sheetData := sheetData + [HeaderRow(properties)];
        headersSet := true;
        Append3(before, [HeaderRow(properties)], [DataRow(properties, rd, tagOf)], rest);
      } else {
        AppendAssoc(before, [DataRow(properties, rd, tagOf)], rest);
      }
      sheetData := sheetData + [DataRow(properties, rd, tagOf)];
    }
    assert items[i..] == [];
  }

  /** One step of the record loop. */
  lemma SheetRowsUnfold(items: seq<Option<Record>>, excludeHeaders: bool, headersSet: bool,
                        rd: Renderers, tagOf: ClrType -> CellValues)
    requires items != []
    ensures items[0].None? || |items[0].value| < 1 ==>
              SheetRows(items, excludeHeaders, headersSet, rd, tagOf) == SheetRows(items[1..], excludeHeaders, headersSet, rd, tagOf)
    ensures items[0].Some? && |items[0].value| >= 1 && !excludeHeaders && !headersSet ==>
              SheetRows(items, excludeHeaders, headersSet, rd, tagOf) ==
                [HeaderRow(items[0].value)] + [DataRow(items[0].value, rd, tagOf)] + SheetRows(items[1..], excludeHeaders, true, rd, tagOf)
    ensures items[0].Some? && |items[0].value| >= 1 && (excludeHeaders || headersSet) ==>
              SheetRows(items, excludeHeaders, headersSet, rd, tagOf) ==
                [DataRow(items[0].value, rd, tagOf)] + SheetRows(items[1..], excludeHeaders, headersSet, rd, tagOf)
  {
    if items[0].Some? && |items[0].value| >= 1 && (excludeHeaders || headersSet) {
      assert [] + [DataRow(items[0].value, rd, tagOf)] == [DataRow(items[0].value, rd, tagOf)];
    }
  }

  /** The sheet loop: `sheetNumber` counts the sheets appended so far. */
  method WriteExcel(inputs: seq<SheetInput>, excludeHeaders: bool, rd: Renderers) returns (r: Result<Workbook, Exception>)
    ensures r == WriteExcelSpec(inputs, excludeHeaders, rd)
  {
    var sheets: seq<Sheet> := [];
    var sheetNumber := 0;
    for k := 0 to |inputs|
      invariant sheetNumber == k
      invariant sheets == WrittenSheets(inputs[..k], excludeHeaders, rd, GetOpenXmlType)
      invariant forall j :: 0 <= j < k ==> inputs[j].0 != ""
    {
      var input := inputs[k];
      if input.0 == "" {
        return Err(InvalidData);
      }
      sheetNumber := sheetNumber + 1;
      var sheetData: seq<Row> := [];
      if input.1.Some? {
        sheetData := FillSheetData(input.1.value, excludeHeaders, rd, GetOpenXmlType);
      }
      sheets := sheets + [Sheet(input.0, sheetNumber, sheetData)];
    }
    assert inputs[..|inputs|] == inputs;
    return Ok(WrittenWorkbook(sheets));
  }

  // ---------------------------------------------------------------------------
  // Properties

  /** The rows of a sheet: the header row of the first record written (unless
      headers are excluded or already set), then one data row per record
      written, in order. */
  lemma {:induction false} SheetRowsSpec(items: seq<Option<Record>>, excludeHeaders: bool, headersSet: bool,
                                         rd: Renderers, tagOf: ClrType -> CellValues)
    ensures SheetRows(items, excludeHeaders, headersSet, rd, tagOf) ==
              (if !excludeHeaders && !headersSet && Kept(items) != [] then [HeaderRow(Kept(items)[0])] else []) +
              RecordRows(Kept(items), rd, tagOf)
    decreases |items|
  {
    if items != [] {
      KeptStep(items);
      if items[0].None? || |items[0].value| < 1 {
        SheetRowsSpec(items[1..], excludeHeaders, headersSet, rd, tagOf);
      } else {
        var rec := items[0].value;
        var emit := !excludeHeaders && !headersSet;
        SheetRowsSpec(items[1..], excludeHeaders, headersSet || emit, rd, tagOf);
        assert RecordRows(Kept(items), rd, tagOf) == [DataRow(rec, rd, tagOf)] + RecordRows(Kept(items[1..]), rd, tagOf);
      }
    }
  }

  /** The writer raises exactly when some sheet name is empty. Otherwise it writes
      one sheet per collection, in order, the k-th (0-based) named by its key and
      numbered k + 1; a null collection gives a sheet without rows, any other the
      header row of its first written record (unless excluded) and then one row
      per written record; the cell formats are General and d-mmm-yy. */
  lemma WriteExcelSpecOutcome(inputs: seq<SheetInput>, excludeHeaders: bool, rd: Renderers)
    ensures WriteExcelSpec(inputs, excludeHeaders, rd).Err? <==> exists k :: 0 <= k < |inputs| && inputs[k].0 == ""
    ensures WriteExcelSpec(inputs, excludeHeaders, rd).Err? ==> WriteExcelSpec(inputs, excludeHeaders, rd).error == InvalidData
    ensures WriteExcelSpec(inputs, excludeHeaders, rd).Ok? ==>
              var wb := WriteExcelSpec(inputs, excludeHeaders, rd).value;
              wb.cellFormats == Some([Some(0), Some(15)]) && wb.sharedStrings.None? &&
              |wb.sheets| == |inputs| &&
              forall k :: 0 <= k < |inputs| ==>
                wb.sheets[k].name == inputs[k].0 && wb.sheets[k].name != "" && wb.sheets[k].sheetId == k + 1 &&
                (inputs[k].1.None? ==> wb.sheets[k].rows == []) &&
                (inputs[k].1.Some? ==>
                   var kept := Kept(inputs[k].1.value);
                   wb.sheets[k].rows ==
                     (if !excludeHeaders && kept != [] then [HeaderRow(kept[0])] else []) +
                     RecordRows(kept, rd, GetOpenXmlType))
  {
    var formats := seq(|DateStyleFormatIds|, i requires 0 <= i < |DateStyleFormatIds| => Some(DateStyleFormatIds[i]));
    assert formats == [Some(0), Some(15)];
    forall k | 0 <= k < |inputs| && inputs[k].1.Some? {
      SheetRowsSpec(inputs[k].1.value, excludeHeaders, false, rd, GetOpenXmlType);
    }
  }

  /** The rows depend on the tag mapping only through its values. */
  lemma {:induction false} SheetRowsSameTags(items: seq<Option<Record>>, excludeHeaders: bool, headersSet: bool,
                                             rd: Renderers, tagA: ClrType -> CellValues, tagB: ClrType -> CellValues)
    requires forall t :: tagA(t) == tagB(t)
    ensures SheetRows(items, excludeHeaders, headersSet, rd, tagA) == SheetRows(items, excludeHeaders, headersSet, rd, tagB)
    decreases |items|
  {
    if items != [] {
      if items[0].None? || |items[0].value| < 1 {
        SheetRowsSameTags(items[1..], excludeHeaders, headersSet, rd, tagA, tagB);
      } else {
        var emit := !excludeHeaders && !headersSet;
        assert DataRow(items[0].value, rd, tagA) == DataRow(items[0].value, rd, tagB);
        SheetRowsSameTags(items[1..], excludeHeaders, headersSet || emit, rd, tagA, tagB);
      }
    }
  }

  lemma WrittenSheetsSameTags(inputs: seq<SheetInput>, excludeHeaders: bool, rd: Renderers,
                              tagA: ClrType -> CellValues, tagB: ClrType -> CellValues)
    requires forall t :: tagA(t) == tagB(t)
    ensures WrittenSheets(inputs, excludeHeaders, rd, tagA) == WrittenSheets(inputs, excludeHeaders, rd, tagB)
  {
    forall k | 0 <= k < |inputs| && inputs[k].1.Some? {
      SheetRowsSameTags(inputs[k].1.value, excludeHeaders, false, rd, tagA, tagB);
    }
  }

  /** No cell the writer emits carries a reference, so a reader must place every
      cell by its position in the row. */
  lemma {:induction false} SheetRowsHaveNoReferences(items: seq<Option<Record>>, excludeHeaders: bool, headersSet: bool,
                                                     rd: Renderers, tagOf: ClrType -> CellValues)
    ensures forall r, c :: r in SheetRows(items, excludeHeaders, headersSet, rd, tagOf) && c in r ==> c.reference.None?
    decreases |items|
  {
    if items != [] {
      if items[0].None? || |items[0].value| < 1 {
        SheetRowsHaveNoReferences(items[1..], excludeHeaders, headersSet, rd, tagOf);
      } else {
        var emit := !excludeHeaders && !headersSet;
        SheetRowsHaveNoReferences(items[1..], excludeHeaders, headersSet || emit, rd, tagOf);
      }
    }
  }
}
