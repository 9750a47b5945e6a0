/** What the NetStandard2.0 reader makes of what the writer writes: every cell the
    writer emits is tagged and unreferenced, so the reader decodes it by its tag
    alone and places it by its position in the row. */
module RoundTrip {
  import opened Wrappers
  import opened Clr
  import opened OpenXml
  import opened TypeClassifier
  import opened JoinExtensions
  import opened CellReader
  import opened Expandos
  import opened Sequences
  import ExcelWriter
  import ExcelReader

  /** The property types written in the date style. */
  predicate IsDateType(t: ClrType) {
    t == ValueOf(DateTime) || t == NullableOf(DateTime)
  }

  /** The value the reader decodes from the cell written for `f`, stated in the
      writer's terms: a null reads back as the empty text (as false when its type
      is tagged `Boolean`), a date as its OLE Automation text, a boolean as true
      exactly when its rendering is "0", anything else as its rendering. */
  function ReadBack(f: Field, rd: ExcelWriter.Renderers): Val {
    if f.value == Null then
      if GetOpenXmlType(f.ty) == Boolean then BoolVal(false) else Str("")
    else if IsDateType(f.ty) then Str(rd.oaDate(f.value))
    else if GetOpenXmlType(f.ty) == Boolean then BoolVal(rd.toString(f.value) == "0")
    else Str(rd.toString(f.value))
  }

  /** The property names of a record, in order. */
  function FieldNames(rec: Record): (r: seq<string>)
    ensures |r| == |rec|
    ensures forall i :: 0 <= i < |rec| ==> r[i] == rec[i].name
  {
    seq(|rec|, i requires 0 <= i < |rec| => rec[i].name)
  }

  /** A written type reads back as `bool?` when it is tagged `Boolean`, as
      `decimal?` when it is tagged `Number` (dates included), and as `string`
      otherwise; so the reader never infers the written CLR type of a number or
      a date. */
  lemma ReadBackType(t: ClrType)
    ensures GetTypeFromOpenXml(GetOpenXmlType(t)) ==
              if t == ValueOf(Bool) || t == NullableOf(Bool) then NullableOf(Bool)
              else if t == StringType || t.OtherType? then StringType
              else NullableOf(Decimal)
  {
    GetOpenXmlTypeSpec(t);
  }

  /** The cell written for a field carries no reference, is tagged with the cell
      type of the property's type, is inferred as the type that tag reads back as,
      and decodes without error to `ReadBack`. */
  lemma WrittenCellDecodes(f: Field, rd: ExcelWriter.Renderers, wb: Workbook, p: Parsers)
    ensures var c := ExcelWriter.GetCell(f, rd, GetOpenXmlType);
            c.reference.None? && c.dataType == Some(GetOpenXmlType(f.ty)) &&
            GetDataTypeOtherThanString(c, wb) == Ok(Some(GetTypeFromOpenXml(GetOpenXmlType(f.ty)))) &&
            GetObject(c, wb, p) == Ok(ReadBack(f, rd))
  {
    GetOpenXmlTypeSpec(f.ty);
  }

  /** A boolean written with .NET's "True"/"False" rendering always reads back as
      false: the writer stores the rendering and the reader takes only "0" as
      true. */
  lemma BooleanReadsBackFalse(f: Field, rd: ExcelWriter.Renderers, wb: Workbook, p: Parsers, b: bool)
    requires f.ty == ValueOf(Bool) || f.ty == NullableOf(Bool)
    requires f.value == BoolVal(b)
    requires rd.toString(BoolVal(b)) == if b then "True" else "False"
    ensures GetObject(ExcelWriter.GetCell(f, rd, GetOpenXmlType), wb, p) == Ok(BoolVal(false))
  {
    WrittenCellDecodes(f, rd, wb, p);
  }

  /** The header row reads back as the record's property names, and the header
      dictionary is built exactly when those names are distinct. */
  lemma HeaderRowReadsBack(rec: Record, rows: seq<Row>, wb: Workbook, p: Parsers)
    ensures ExcelReader.HeaderNames([ExcelWriter.HeaderRow(rec)] + rows, false, wb, p).Ok? <==>
              NoDuplicates(FieldNames(rec))
    ensures NoDuplicates(FieldNames(rec)) ==>
              ExcelReader.HeaderNames([ExcelWriter.HeaderRow(rec)] + rows, false, wb, p) == Ok(FieldNames(rec))
  {
    var all := [ExcelWriter.HeaderRow(rec)] + rows;
    var header := all[0];
    assert forall i :: 0 <= i < |header| ==> GetText(header[i], wb, p) == Ok(rec[i].name);
    assert ExcelReader.Texts(header, wb, p) == FieldNames(rec);
    ExcelReader.HeaderNamesSpec(all, false, wb, p);
  }

  /** The record read from a written row that fits the columns. */
  function ReadRecord(names: seq<string>, rec: Record, rd: ExcelWriter.Renderers): Expando
    requires |rec| <= |names|
  {
    seq(|rec|, i requires 0 <= i < |rec| => (names[i], ReadBack(rec[i], rd)))
  }

  /** The records read from written rows that fit the columns, in order. */
  function ReadRecords(names: seq<string>, recs: seq<Record>, rd: ExcelWriter.Renderers): (r: seq<Expando>)
    requires forall j :: 0 <= j < |recs| ==> |recs[j]| <= |names|
    ensures |r| == |recs|
    decreases |recs|
  {
    if recs == [] then [] else [ReadRecord(names, recs[0], rd)] + ReadRecords(names, recs[1..], rd)
  }

  /** A written data row is read by position: it is read exactly when the record
      has no more properties than there are columns, and then its i-th property's
      value, as decoded, lands under the i-th column name. */
  lemma DataRowReadsBack(names: seq<string>, types: map<string, ClrType>, rec: Record,
                         rd: ExcelWriter.Renderers, wb: Workbook, p: Parsers)
    requires NoDuplicates(names)
    requires ExcelReader.AllNullDefaulted(types)
    ensures var row := ExcelWriter.DataRow(rec, rd, GetOpenXmlType);
            var r := ExcelReader.RowFold(names, ExcelReader.Cursor(-1, [], types), row, wb, p);
            (r.Ok? <==> |rec| <= |names|) &&
            (r.Ok? ==> r.value.record == ReadRecord(names, rec, rd) && ExcelReader.AllNullDefaulted(r.value.types))
  {
    var row := ExcelWriter.DataRow(rec, rd, GetOpenXmlType);
    forall i | 0 <= i < |row|
      ensures row[i].reference.None? && GetDataTypeOtherThanString(row[i], wb).Ok?
      ensures ExcelReader.CellValue(row[i], wb, p) == ReadBack(rec[i], rd)
    {
      WrittenCellDecodes(rec[i], rd, wb, p);
    }
    ExcelReader.PositionalRow(names, types, row, wb, p);
    RowFoldKeepsTypes(names, ExcelReader.Cursor(-1, [], types), row, wb, p);
  }

  /** Reading cells that carry no reference and whose type can be inferred keeps
      every cached type null-defaulted. */
  lemma {:induction false} RowFoldKeepsTypes(names: seq<string>, st: ExcelReader.Cursor, cells: seq<Cell>,
                                             wb: Workbook, p: Parsers)
    requires -1 <= st.index
    requires ExcelReader.AllNullDefaulted(st.types)
    requires forall i :: 0 <= i < |cells| ==> cells[i].reference.None? && GetDataTypeOtherThanString(cells[i], wb).Ok?
    ensures ExcelReader.RowFold(names, st, cells, wb, p).Ok? ==>
              ExcelReader.AllNullDefaulted(ExcelReader.RowFold(names, st, cells, wb, p).value.types)
    decreases |cells|
  {
    if cells != [] {
      ExcelReader.StepRaises(names, st, cells[0], wb, p);
      if st.index + 1 < |names| {
        ExcelReader.StepInPlace(names, st, cells[0], wb, p);
        var st' := ExcelReader.Step(names, st, cells[0], wb, p).value;
        assert forall i :: 0 <= i < |cells[1..]| ==> cells[1..][i] == cells[i + 1];
        RowFoldKeepsTypes(names, st', cells[1..], wb, p);
      }
    }
  }

  /** Every record has exactly the given property names (and so as many
      properties as there are names). */
  predicate Homogeneous(recs: seq<Record>, names: seq<string>) {
    forall j :: 0 <= j < |recs| ==> |recs[j]| == |names| && FieldNames(recs[j]) == names
  }

  /** The written data rows of records that all have the column names read back
      one record per row, in order, each with its values under their names. */
  lemma {:induction false} RecordRowsReadBack(names: seq<string>, types: map<string, ClrType>, recs: seq<Record>,
                                              rd: ExcelWriter.Renderers, wb: Workbook, p: Parsers, acc: seq<Expando>)
    requires NoDuplicates(names)
    requires ExcelReader.AllNullDefaulted(types)
    requires Homogeneous(recs, names)
    ensures ExcelReader.SheetRows(names, types, ExcelWriter.RecordRows(recs, rd, GetOpenXmlType), wb, p, acc) ==
              Ok(acc + ReadRecords(names, recs, rd))
    decreases |recs|
  {
    var rows := ExcelWriter.RecordRows(recs, rd, GetOpenXmlType);
    if recs == [] {
      assert acc + [] == acc;
    } else {
      assert rows[0] == ExcelWriter.DataRow(recs[0], rd, GetOpenXmlType);
      DataRowReadsBack(names, types, recs[0], rd, wb, p);
      var st := ExcelReader.RowFold(names, ExcelReader.Cursor(-1, [], types), rows[0], wb, p).value;
      assert ExcelReader.SheetRows(names, types, rows, wb, p, acc) ==
             ExcelReader.SheetRows(names, st.types, rows[1..], wb, p, acc + [st.record]);
      assert rows[1..] == ExcelWriter.RecordRows(recs[1..], rd, GetOpenXmlType);
      assert Homogeneous(recs[1..], names) by {
        forall j | 0 <= j < |recs[1..]| ensures |recs[1..][j]| == |names| && FieldNames(recs[1..][j]) == names {
          assert recs[1..][j] == recs[j + 1];
        }
      }
      RecordRowsReadBack(names, st.types, recs[1..], rd, wb, p, acc + [st.record]);
      assert st.record == ReadRecord(names, recs[0], rd);
      assert ReadRecords(names, recs, rd) == [st.record] + ReadRecords(names, recs[1..], rd);
      AppendAssoc(acc, [st.record], ReadRecords(names, recs[1..], rd));
    }
  }

  /** A collection written with headers, whose written records all have the same
      distinct property names, reads back through `ParseExcel`'s sheet step as
      those names and, per written record in order, its decoded values under
      them. A collection with no record written gives a sheet without rows, on
      which the reader raises. */
  lemma SheetReadsBack(items: seq<Option<Record>>, rd: ExcelWriter.Renderers, wb: Workbook, p: Parsers)
    requires ExcelWriter.Kept(items) != [] ==>
               NoDuplicates(FieldNames(ExcelWriter.Kept(items)[0])) &&
               Homogeneous(ExcelWriter.Kept(items), FieldNames(ExcelWriter.Kept(items)[0]))
    ensures var rows := ExcelWriter.SheetRows(items, false, false, rd, GetOpenXmlType);
            var kept := ExcelWriter.Kept(items);
            (kept == [] ==> ExcelReader.HeaderNames(rows, false, wb, p) == Err(NullReference)) &&
            (kept != [] ==>
               var names := FieldNames(kept[0]);
               ExcelReader.HeaderNames(rows, false, wb, p) == Ok(names) &&
               ExcelReader.SheetRows(names, ExcelReader.TypesSeed(names), ExcelReader.DataRows(rows, false), wb, p, []) ==
                 Ok(ReadRecords(names, kept, rd)))
  {
    var rows := ExcelWriter.SheetRows(items, false, false, rd, GetOpenXmlType);
    var kept := ExcelWriter.Kept(items);
    ExcelWriter.SheetRowsSpec(items, false, false, rd, GetOpenXmlType);
    if kept != [] {
      var names := FieldNames(kept[0]);
      var data := ExcelWriter.RecordRows(kept, rd, GetOpenXmlType);
      assert rows == [ExcelWriter.HeaderRow(kept[0])] + data;
      HeaderRowReadsBack(kept[0], data, wb, p);
      assert ExcelReader.DataRows(rows, false) == data;
      RecordRowsReadBack(names, ExcelReader.TypesSeed(names), kept, rd, wb, p, []);
      assert [] + ReadRecords(names, kept, rd) == ReadRecords(names, kept, rd);
    }
  }

  /** A collection the reader can read back: not null, with at least one record
      written, and every written record having the same distinct property names. */
  predicate Readable(input: ExcelWriter.SheetInput) {
    input.1.Some? &&
    var kept := ExcelWriter.Kept(input.1.value);
    kept != [] && NoDuplicates(FieldNames(kept[0])) && Homogeneous(kept, FieldNames(kept[0]))
  }

  /** What `ParseExcel` should return for readable collections: per collection, in
      order, its name and its written records as read back. */
  function ReadSheets(inputs: seq<ExcelWriter.SheetInput>, rd: ExcelWriter.Renderers): (r: seq<(string, seq<Expando>)>)
    requires forall k :: 0 <= k < |inputs| ==> Readable(inputs[k])
    ensures |r| == |inputs|
    decreases |inputs|
  {
    if inputs == [] then []
    else
      assert Readable(inputs[0]);
      var kept := ExcelWriter.Kept(inputs[0].1.value);
      [(inputs[0].0, ReadRecords(FieldNames(kept[0]), kept, rd))] + ReadSheets(inputs[1..], rd)
  }

  lemma {:induction false} ParseSheetsReadBack(sheets: seq<Sheet>, inputs: seq<ExcelWriter.SheetInput>,
                                               rd: ExcelWriter.Renderers, wb: Workbook, p: Parsers,
                                               acc: seq<(string, seq<Expando>)>)
    requires |sheets| == |inputs|
    requires forall k :: 0 <= k < |inputs| ==> Readable(inputs[k])
    requires forall k :: 0 <= k < |inputs| ==>
               sheets[k].name == inputs[k].0 && inputs[k].1.Some? &&
               sheets[k].rows == ExcelWriter.SheetRows(inputs[k].1.value, false, false, rd, GetOpenXmlType)
    ensures ExcelReader.ParseSheets(sheets, false, wb, p, acc) == Ok(acc + ReadSheets(inputs, rd))
    decreases |sheets|
  {
    if sheets == [] {
      assert acc + [] == acc;
    } else {
      var kept := ExcelWriter.Kept(inputs[0].1.value);
      var names := FieldNames(kept[0]);
      SheetReadsBack(inputs[0].1.value, rd, wb, p);
      var entry := (sheets[0].name, ReadRecords(names, kept, rd));
      assert ExcelReader.ParseSheets(sheets, false, wb, p, acc) ==
             ExcelReader.ParseSheets(sheets[1..], false, wb, p, acc + [entry]);
      assert forall k :: 0 <= k < |inputs[1..]| ==> inputs[1..][k] == inputs[k + 1] && sheets[1..][k] == sheets[k + 1];
      ParseSheetsReadBack(sheets[1..], inputs[1..], rd, wb, p, acc + [entry]);
      var rest := ReadSheets(inputs[1..], rd);
      assert ReadSheets(inputs, rd) == [entry] + rest;
      AppendAssoc(acc, [entry], rest);
    }
  }

  /** Round trip: a workbook written with headers from readable collections under
      distinct names reads back, through `ParseExcel` with headers, as those names
      in order, each with its written records: every property name is restored,
      and every value as `ReadBack` decodes it. */
  lemma WorkbookReadsBack(inputs: seq<ExcelWriter.SheetInput>, rd: ExcelWriter.Renderers, p: Parsers)
    requires NoDuplicates(seq(|inputs|, k requires 0 <= k < |inputs| => inputs[k].0))
    requires forall k :: 0 <= k < |inputs| ==> inputs[k].0 != "" && Readable(inputs[k])
    ensures ExcelWriter.WriteExcelSpec(inputs, false, rd).Ok?
    ensures ExcelReader.ParseExcelSpec(ExcelWriter.WriteExcelSpec(inputs, false, rd).value, false, p) ==
              Ok(ReadSheets(inputs, rd))
  {
    ExcelWriter.WriteExcelSpecOutcome(inputs, false, rd);
    var wb := ExcelWriter.WriteExcelSpec(inputs, false, rd).value;
    var names := ExcelReader.SheetNames(wb.sheets);
    assert names == seq(|inputs|, k requires 0 <= k < |inputs| => inputs[k].0);
    forall k | 0 <= k < |inputs|
      ensures wb.sheets[k].rows == ExcelWriter.SheetRows(inputs[k].1.value, false, false, rd, GetOpenXmlType)
    {
      ExcelWriter.SheetRowsSpec(inputs[k].1.value, false, false, rd, GetOpenXmlType);
    }
    ParseSheetsReadBack(wb.sheets, inputs, rd, wb, p, []);
    assert [] + ReadSheets(inputs, rd) == ReadSheets(inputs, rd);
  }
}
