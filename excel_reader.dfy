/** The untyped reader `ParseExcel`: every sheet becomes a list of ExpandoObjects,
    one per data row, keyed by the header row's texts (or by `column_<i>` names).
    A physical row lists only its non-empty cells, so the reader walks the cells
    with a cursor and uses each cell's reference to jump over gaps. */
module ExcelReader {
  import opened Wrappers
  import opened Clr
  import opened OpenXml
  import opened JoinExtensions
  import opened CellReader
  import opened Expandos

  // ---------------------------------------------------------------------------
  // Header names

  function DigitChar(d: nat): char
    requires d < 10
  {
    ('0' as int + d) as char
  }

  /** `x.ToString()` of a non-negative int: its decimal digits, most significant first. */
  function NatToString(n: nat): string {
    if n < 10 then [DigitChar(n)] else NatToString(n / 10) + [DigitChar(n % 10)]
  }

  /** The number a string of decimal digits spells. */
  function DigitsValue(s: string): int {
    if s == [] then 0 else 10 * DigitsValue(s[..|s| - 1]) + (s[|s| - 1] as int - '0' as int)
  }

  lemma {:induction false} NatToStringInverse(n: nat)
    ensures DigitsValue(NatToString(n)) == n
  {
    if n >= 10 {
      NatToStringInverse(n / 10);
      var s := NatToString(n);
      assert s[..|s| - 1] == NatToString(n / 10);
    }
  }

  /** `$"column_{x}"`, the name of column x of a sheet read without headers. */
  function ColumnKey(i: nat): string {
    "column_" + NatToString(i)
  }

  /** Different positions get different names. */
  lemma ColumnKeyInjective(i: nat, j: nat)
    ensures ColumnKey(i) == ColumnKey(j) ==> i == j
  {
    if ColumnKey(i) == ColumnKey(j) {
      assert ColumnKey(i)[7..] == NatToString(i);
      assert ColumnKey(j)[7..] == NatToString(j);
      NatToStringInverse(i);
      NatToStringInverse(j);
    }
  }

  /** The texts of the header row added one by one to a dictionary: a text equal
      to an earlier one raises, and so does a cell whose text cannot be read. */
  function HeaderTexts(cells: seq<Cell>, wb: Workbook, p: Parsers, acc: seq<string>): Result<seq<string>, Exception>
    decreases |cells|
  {
    if cells == [] then Ok(acc)
    else
      var text :- GetText(cells[0], wb, p);
      if text in acc then Err(DuplicateKey) else HeaderTexts(cells[1..], wb, p, acc + [text])
  }

  /** The column names of a sheet. Without headers: `column_0` .. `column_{n-2}` for
      a sheet of n rows (no rows at all makes `Enumerable.Range` raise). With
      headers: the first row's texts (a sheet without rows raises on the null
      dictionary). */
  function HeaderNames(rows: seq<Row>, noHeaders: bool, wb: Workbook, p: Parsers): Result<seq<string>, Exception> {
    if noHeaders then
      if |rows| == 0 then Err(ArgumentOutOfRange) else Ok(seq(|rows| - 1, i requires 0 <= i => ColumnKey(i)))
    else if rows == [] then Err(NullReference)
    else HeaderTexts(rows[0], wb, p, [])
  }

  /** The rows holding data: all of them without headers, all but the first with. */
  function DataRows(rows: seq<Row>, noHeaders: bool): seq<Row> {
    if noHeaders || rows == [] then rows else rows[1..]
  }

  /** The per-sheet type cache as `ToDictionary(key => key, value => typeof(string))` seeds it. */
  function TypesSeed(names: seq<string>): map<string, ClrType> {
    map n | n in names :: StringType
  }

  // ---------------------------------------------------------------------------
  // One cell

  /** The state of the walk over one row: the cursor `headerIndex`, the record
      filled so far and the per-sheet type cache `headers`. */
  datatype Cursor = Cursor(index: int, record: Expando, types: map<string, ClrType>)

  /** `headers[name] ?? typeof(string)`; every column name is a key of the cache. */
  function Lookup(types: map<string, ClrType>, name: string): ClrType {
    if name in types then types[name] else StringType
  }

  /** `cell.GetDataTypeOtherThanString(..) ?? headers[name] ?? typeof(string)`. */
  function CellType(t: Option<ClrType>, types: map<string, ClrType>, name: string): ClrType {
    match t
    case Some(ty) => ty
    case None => Lookup(types, name)
  }

  /** `(cell.GetCellColIndex() - 1) ?? headerIndex`, in 32-bit arithmetic. */
  function TargetIndex(c: Cell, cursor: int): int {
    match GetCellColIndex(c)
    case None => cursor
    case Some(col) => Wrap32(col - 1)
  }

  /** What `GetObject` yields inside the reader's `try`: the value, or null when it raises. */
  function CellValue(c: Cell, wb: Workbook, p: Parsers): Val {
    match GetObject(c, wb, p)
    case Ok(v) => v
    case Err(_) => Null
  }

  /** `value ?? type.GetDefault()`. */
  function StoredValue(c: Cell, wb: Workbook, p: Parsers, ty: ClrType): Val {
    var v := CellValue(c, wb, p);
    if v == Null then DefaultOf(ty) else v
  }

  /** The `Aggregate` over the skipped positions `lo` .. `hi - 1`: each position's
      cached type is refreshed, and the default of that type is written under the
      captured `name` (the cursor's column), not under the skipped column. */
  function GapFill(names: seq<string>, t: Option<ClrType>, name: string, lo: int, hi: int,
                   types: map<string, ClrType>, d: Expando): (map<string, ClrType>, Expando)
    requires 0 <= lo <= hi <= |names|
    decreases hi - lo
  {
    if lo == hi then (types, d)
    else
      var types' := types[names[lo] := CellType(t, types, names[lo])];
      GapFill(names, t, name, lo + 1, hi, types', Put(d, name, DefaultOf(types'[names[lo]])))
  }

  /** One iteration of the cell loop. */
  function Step(names: seq<string>, st: Cursor, c: Cell, wb: Workbook, p: Parsers): Result<Cursor, Exception> {
    var k := st.index + 1;
    if k < 0 || k >= |names| then Err(ArgumentOutOfRange)
    else
      var t :- GetDataTypeOtherThanString(c, wb);
      var name := names[k];
      var ty := CellType(t, st.types, name);
      var types1 := st.types[name := ty];
      var index := TargetIndex(c, k);
      if index > k then
        if index >= |names| then Err(ArgumentOutOfRange)
        else
          var filled := GapFill(names, t, name, k, index, types1, st.record);
          Ok(Cursor(index, Put(filled.1, names[index], StoredValue(c, wb, p, ty)), filled.0))
      else
        Ok(Cursor(k, Put(st.record, name, StoredValue(c, wb, p, ty)), types1))
  }

  /** The cell loop over a row, from a given state. */
  function RowFold(names: seq<string>, st: Cursor, cells: seq<Cell>, wb: Workbook, p: Parsers): Result<Cursor, Exception>
    decreases |cells|
  {
    if cells == [] then Ok(st)
    else
      var st' :- Step(names, st, cells[0], wb, p);
      RowFold(names, st', cells[1..], wb, p)
  }

  /** The row loop over a sheet: each row starts a fresh record at cursor -1, the
      type cache carries over from row to row. */
  function SheetRows(names: seq<string>, types: map<string, ClrType>, rows: seq<Row>, wb: Workbook, p: Parsers,
                     acc: seq<Expando>): Result<seq<Expando>, Exception>
    decreases |rows|
  {
    if rows == [] then Ok(acc)
    else
      var st :- RowFold(names, Cursor(-1, [], types), rows[0], wb, p);
      SheetRows(names, st.types, rows[1..], wb, p, acc + [st.record])
  }

  /** The records of one sheet: its column names, then its data rows read one by one. */
  function SheetRecords(sheet: Sheet, noHeaders: bool, wb: Workbook, p: Parsers): Result<seq<Expando>, Exception> {
    var names :- HeaderNames(sheet.rows, noHeaders, wb, p);
    SheetRows(names, TypesSeed(names), DataRows(sheet.rows, noHeaders), wb, p, [])
  }

  /** The sheet loop. */
  function ParseSheets(sheets: seq<Sheet>, noHeaders: bool, wb: Workbook, p: Parsers,
                       acc: seq<(string, seq<Expando>)>): Result<seq<(string, seq<Expando>)>, Exception>
    decreases |sheets|
  {
    if sheets == [] then Ok(acc)
    else
      var records :- SheetRecords(sheets[0], noHeaders, wb, p);
      ParseSheets(sheets[1..], noHeaders, wb, p, acc + [(sheets[0].name, records)])
  }

  function SheetNames(sheets: seq<Sheet>): (r: seq<string>)
    ensures |r| == |sheets|
    ensures forall i :: 0 <= i < |sheets| ==> r[i] == sheets[i].name
  {
    if sheets == [] then [] else [sheets[0].name] + SheetNames(sheets[1..])
  }

  /** The whole reader: the sheets' dictionary rejects a repeated sheet name before
      any sheet is read. */
  function ParseExcelSpec(wb: Workbook, noHeaders: bool, p: Parsers): Result<seq<(string, seq<Expando>)>, Exception> {
    if !NoDuplicates(SheetNames(wb.sheets)) then Err(DuplicateKey)
    else ParseSheets(wb.sheets, noHeaders, wb, p, [])
  }

  // ---------------------------------------------------------------------------
  // The reader's loops

  /** The cell loop of one row: the cursor `headerIndex` moves one step per cell and
      jumps to a referenced column beyond it; the record and the type cache are
      updated in place. */
  method ParseRow(names: seq<string>, types: map<string, ClrType>, cells: seq<Cell>, wb: Workbook, p: Parsers)
    returns (r: Result<Cursor, Exception>)
    ensures r == RowFold(names, Cursor(-1, [], types), cells, wb, p)
  {
    var cursor := Cursor(-1, [], types);
    var i := 0;
    while i < |cells|
      invariant 0 <= i <= |cells|
      invariant RowFold(names, Cursor(-1, [], types), cells, wb, p) == RowFold(names, cursor, cells[i..], wb, p)
    {
      assert cells[i..][0] == cells[i] && cells[i..][1..] == cells[i + 1..];
      var next := ParseCell(names, cursor, cells[i], wb, p);
      if next.Err? {
        return Err(next.error);
      }
      cursor := next.value;
      i := i + 1;
    }
    assert cells[i..] == [];
    return Ok(cursor);
  }

  /** The body of the cell loop: `headerIndex`, the record and the type cache of
      the cursor are updated for one cell. */
  method ParseCell(names: seq<string>, cursor: Cursor, cell: Cell, wb: Workbook, p: Parsers)
    returns (r: Result<Cursor, Exception>)
    ensures r == Step(names, cursor, cell, wb, p)
  {
    var headerIndex := cursor.index;
    var d := cursor.record;
    var headers := cursor.types;
    headerIndex := headerIndex + 1;
    if headerIndex < 0 || headerIndex >= |names| {
      return Err(ArgumentOutOfRange);
    }
    var headerName := names[headerIndex];
    var t := GetDataTypeOtherThanString(cell, wb);
    if t.Err? {
      return Err(t.error);
    }
    var ty := CellType(t.value, headers, headerName);
    headers := headers[headerName := ty];
    var index := TargetIndex(cell, headerIndex);
    if index > headerIndex {
      if index >= |names| {
        return Err(ArgumentOutOfRange);
      }
      ghost var types0, d0 := headers, d;
      var j := headerIndex;
      while j < index
        invariant headerIndex <= j <= index
        invariant GapFill(names, t.value, headerName, headerIndex, index, types0, d0)
               == GapFill(names, t.value, headerName, j, index, headers, d)
        decreases index - j
      {
        headers := headers[names[j] := CellType(t.value, headers, names[j])];
        d := Put(d, headerName, DefaultOf(headers[names[j]]));
        j := j + 1;
      }
      headerIndex := index;
      headerName := names[index];
    }
    d := Put(d, headerName, StoredValue(cell, wb, p, ty));
    return Ok(Cursor(headerIndex, d, headers));
  }

  /** The row loop of one sheet: a fresh record per row, appended to the sheet's list. */
  method ParseSheet(names: seq<string>, rows: seq<Row>, wb: Workbook, p: Parsers)
    returns (r: Result<seq<Expando>, Exception>)
    ensures r == SheetRows(names, TypesSeed(names), rows, wb, p, [])
  {
    var headers := TypesSeed(names);
    var result: seq<Expando> := [];
    var i := 0;
    while i < |rows|
      invariant 0 <= i <= |rows|
      invariant SheetRows(names, TypesSeed(names), rows, wb, p, [])
             == SheetRows(names, headers, rows[i..], wb, p, result)
    {
      assert rows[i..][0] == rows[i] && rows[i..][1..] == rows[i + 1..];
      var row := ParseRow(names, headers, rows[i], wb, p);
      if row.Err? {
        return Err(row.error);
      }
      headers := row.value.types;
      result := result + [row.value.record];
      i := i + 1;
    }
    assert rows[i..] == [];
    return Ok(result);
  }

  /** One sheet: the header names, then the row loop. */
  method ReadSheet(sheet: Sheet, noHeaders: bool, wb: Workbook, p: Parsers) returns (r: Result<seq<Expando>, Exception>)
    ensures r == SheetRecords(sheet, noHeaders, wb, p)
  {
    var names := HeaderNames(sheet.rows, noHeaders, wb, p);
    if names.Err? {
      return Err(names.error);
    }
    r := ParseSheet(names.value, DataRows(sheet.rows, noHeaders), wb, p);
  }

  /** `ParseExcel`: the sheets' dictionary, then one list of records per sheet, in
      sheet order. */
  method ParseExcel(wb: Workbook, noHeaders: bool, p: Parsers)
    returns (r: Result<seq<(string, seq<Expando>)>, Exception>)
    ensures r == ParseExcelSpec(wb, noHeaders, p)
  {
    if !NoDuplicates(SheetNames(wb.sheets)) {
      return Err(DuplicateKey);
    }
    r := ReadSheets(wb.sheets, noHeaders, wb, p);
  }

  lemma ParseSheetsStep(sheets: seq<Sheet>, i: nat, noHeaders: bool, wb: Workbook, p: Parsers,
                        acc: seq<(string, seq<Expando>)>)
    requires i < |sheets|
    ensures SheetRecords(sheets[i], noHeaders, wb, p).Err? ==>
              ParseSheets(sheets[i..], noHeaders, wb, p, acc) == Err(SheetRecords(sheets[i], noHeaders, wb, p).error)
    ensures SheetRecords(sheets[i], noHeaders, wb, p).Ok? ==>
              ParseSheets(sheets[i..], noHeaders, wb, p, acc) ==
                ParseSheets(sheets[i + 1..], noHeaders, wb, p, acc + [(sheets[i].name, SheetRecords(sheets[i], noHeaders, wb, p).value)])
  {
    assert sheets[i..][0] == sheets[i] && sheets[i..][1..] == sheets[i + 1..];
  }

  /** The sheet loop of `ParseExcel`. */
  method ReadSheets(sheets: seq<Sheet>, noHeaders: bool, wb: Workbook, p: Parsers)
    returns (r: Result<seq<(string, seq<Expando>)>, Exception>)
    ensures r == ParseSheets(sheets, noHeaders, wb, p, [])
  {
    var result: seq<(string, seq<Expando>)> := [];
    var i := 0;
    while i < |sheets|
      invariant 0 <= i <= |sheets|
      invariant ParseSheets(sheets, noHeaders, wb, p, []) == ParseSheets(sheets[i..], noHeaders, wb, p, result)
    {
      var sheet := sheets[i];
      ParseSheetsStep(sheets, i, noHeaders, wb, p, result);
      var records := ReadSheet(sheet, noHeaders, wb, p);
      if records.Err? {
        return Err(records.error);
      }
      result := result + [(sheet.name, records.value)];
      i := i + 1;
    }
    assert sheets[i..] == [];
    return Ok(result);
  }

  // ---------------------------------------------------------------------------
  // What the reader promises

  /** Every type in the cache has a null default. */
  predicate AllNullDefaulted(types: map<string, ClrType>) {
    forall n :: n in types ==> NullDefaulted(types[n])
  }

  /** With a null-defaulted type, the stored value is exactly what `GetObject`
      yields, null when it raises. */
  lemma StoredValueIsCellValue(c: Cell, wb: Workbook, p: Parsers, ty: ClrType)
    requires NullDefaulted(ty)
    ensures StoredValue(c, wb, p, ty) == CellValue(c, wb, p)
  {
  }

  /** A gap writes null under the cursor's column, however many positions it
      spans, and leaves every cached type null-defaulted. */
  lemma {:induction false} GapFillWritesNull(names: seq<string>, t: Option<ClrType>, name: string, lo: int, hi: int,
                                             types: map<string, ClrType>, d: Expando)
    requires 0 <= lo < hi <= |names|
    requires AllNullDefaulted(types)
    requires t.Some? ==> NullDefaulted(t.value)
    ensures GapFill(names, t, name, lo, hi, types, d).1 == Put(d, name, Null)
    ensures AllNullDefaulted(GapFill(names, t, name, lo, hi, types, d).0)
    decreases hi - lo
  {
    var types' := types[names[lo] := CellType(t, types, names[lo])];
    assert AllNullDefaulted(types');
    NullDefaultedIsNull(types'[names[lo]]);
    if lo + 1 < hi {
      GapFillWritesNull(names, t, name, lo + 1, hi, types', Put(d, name, Null));
      PutPut(d, name, Null, Null);
    }
  }

  /** The errors of one cell: the cursor moves to the next column, and a position
      at or beyond the header count raises, as does a failing type inference and
      a jump to a column at or beyond the header count. */
  lemma StepRaises(names: seq<string>, st: Cursor, c: Cell, wb: Workbook, p: Parsers)
    requires st.index >= -1
    ensures st.index + 1 >= |names| ==> Step(names, st, c, wb, p) == Err(ArgumentOutOfRange)
    ensures st.index + 1 < |names| && GetDataTypeOtherThanString(c, wb).Err? ==>
              Step(names, st, c, wb, p) == Err(GetDataTypeOtherThanString(c, wb).error)
    ensures st.index + 1 < |names| && GetDataTypeOtherThanString(c, wb).Ok? ==>
              (Step(names, st, c, wb, p).Err? <==> TargetIndex(c, st.index + 1) >= |names|)
  {
  }

  /** The facts common to every successful step: the type the cell is stored with
      has a null default, and the cache stays null-defaulted. */
  lemma StepTypes(names: seq<string>, st: Cursor, c: Cell, wb: Workbook, p: Parsers)
    requires 0 <= st.index + 1 < |names|
    requires AllNullDefaulted(st.types)
    requires GetDataTypeOtherThanString(c, wb).Ok?
    ensures NullDefaulted(CellType(GetDataTypeOtherThanString(c, wb).value, st.types, names[st.index + 1]))
    ensures AllNullDefaulted(st.types[names[st.index + 1] :=
                               CellType(GetDataTypeOtherThanString(c, wb).value, st.types, names[st.index + 1])])
  {
    if GetDataTypeOtherThanString(c, wb).value.Some? {
      InferredTypesAreNullDefaulted(c, wb);
    }
  }

  /** A cell that does not jump ahead stores its value under the next column. */
  lemma StepInPlace(names: seq<string>, st: Cursor, c: Cell, wb: Workbook, p: Parsers)
    requires 0 <= st.index + 1 < |names|
    requires AllNullDefaulted(st.types)
    requires GetDataTypeOtherThanString(c, wb).Ok?
    requires TargetIndex(c, st.index + 1) <= st.index + 1
    ensures Step(names, st, c, wb, p).Ok?
    ensures Step(names, st, c, wb, p).value.index == st.index + 1
    ensures Step(names, st, c, wb, p).value.record == Put(st.record, names[st.index + 1], CellValue(c, wb, p))
    ensures AllNullDefaulted(Step(names, st, c, wb, p).value.types)
  {
    StepTypes(names, st, c, wb, p);
    var ty := CellType(GetDataTypeOtherThanString(c, wb).value, st.types, names[st.index + 1]);
    StoredValueIsCellValue(c, wb, p, ty);
  }

  /** A cell that jumps ahead to column `index` stores its value under that column
      and null under the column the cursor had reached; no column strictly between
      the two gets a key. */
  lemma StepJump(names: seq<string>, st: Cursor, c: Cell, wb: Workbook, p: Parsers)
    requires 0 <= st.index + 1 < |names|
    requires AllNullDefaulted(st.types)
    requires GetDataTypeOtherThanString(c, wb).Ok?
    requires st.index + 1 < TargetIndex(c, st.index + 1) < |names|
    ensures Step(names, st, c, wb, p).Ok?
    ensures Step(names, st, c, wb, p).value.index == TargetIndex(c, st.index + 1)
    ensures Step(names, st, c, wb, p).value.record ==
              Put(Put(st.record, names[st.index + 1], Null), names[TargetIndex(c, st.index + 1)], CellValue(c, wb, p))
    ensures NoDuplicates(names) ==>
              forall j :: st.index + 1 < j < TargetIndex(c, st.index + 1) ==>
                (names[j] in Keys(Step(names, st, c, wb, p).value.record) <==> names[j] in Keys(st.record))
    ensures AllNullDefaulted(Step(names, st, c, wb, p).value.types)
  {
    var k := st.index + 1;
    var index := TargetIndex(c, k);
    var t := GetDataTypeOtherThanString(c, wb).value;
    StepTypes(names, st, c, wb, p);
    var ty := CellType(t, st.types, names[k]);
    StoredValueIsCellValue(c, wb, p, ty);
    var filled := GapFill(names, t, names[k], k, index, st.types[names[k] := ty], st.record);
    GapFillWritesNull(names, t, names[k], k, index, st.types[names[k] := ty], st.record);
    var rec := Put(filled.1, names[index], CellValue(c, wb, p));
    assert Step(names, st, c, wb, p) == Ok(Cursor(index, rec, filled.0));
    if NoDuplicates(names) {
      assert Keys(rec) == Keys(st.record) + {names[k], names[index]};
      forall j | k < j < index
        ensures names[j] in Keys(rec) <==> names[j] in Keys(st.record)
      {
        assert names[j] != names[k] && names[j] != names[index];
      }
    }
  }

  /** A step keeps every key of the record among the columns up to the cursor. */
  lemma StepKeys(names: seq<string>, st: Cursor, c: Cell, wb: Workbook, p: Parsers)
    requires -1 <= st.index < |names|
    requires AllNullDefaulted(st.types)
    requires forall key :: key in Keys(st.record) ==> key in names[..st.index + 1]
    requires Step(names, st, c, wb, p).Ok?
    ensures var st' := Step(names, st, c, wb, p).value;
            st.index < st'.index < |names| && AllNullDefaulted(st'.types) &&
            forall key :: key in Keys(st'.record) ==> key in names[..st'.index + 1]
  {
    var st' := Step(names, st, c, wb, p).value;
    var k := st.index + 1;
    StepRaises(names, st, c, wb, p);
    if TargetIndex(c, k) <= k {
      StepInPlace(names, st, c, wb, p);
    } else {
      StepJump(names, st, c, wb, p);
    }
    assert Keys(st'.record) <= Keys(st.record) + {names[k], names[st'.index]};
    forall key | key in Keys(st'.record)
      ensures key in names[..st'.index + 1]
    {
      if key in Keys(st.record) {
        var j :| 0 <= j < |names[..k]| && names[..k][j] == key;
        assert names[..st'.index + 1][j] == key;
      } else if key == names[k] {
        assert names[..st'.index + 1][k] == key;
      } else {
        assert names[..st'.index + 1][st'.index] == key;
      }
    }
  }

  /** Every key of a row's record names a column at or before the final cursor,
      so columns after the row's last cell are never filled. */
  lemma {:induction false} RowFoldKeys(names: seq<string>, st: Cursor, cells: seq<Cell>, wb: Workbook, p: Parsers)
    requires -1 <= st.index < |names|
    requires AllNullDefaulted(st.types)
    requires forall key :: key in Keys(st.record) ==> key in names[..st.index + 1]
    ensures RowFold(names, st, cells, wb, p).Ok? ==>
              var fin := RowFold(names, st, cells, wb, p).value;
              st.index <= fin.index < |names| && AllNullDefaulted(fin.types) &&
              forall key :: key in Keys(fin.record) ==> key in names[..fin.index + 1]
    decreases |cells|
  {
    if cells != [] && Step(names, st, cells[0], wb, p).Ok? {
      StepKeys(names, st, cells[0], wb, p);
      RowFoldKeys(names, Step(names, st, cells[0], wb, p).value, cells[1..], wb, p);
    }
  }

  /** The record of a row read from scratch has no key for any column after the
      final cursor. */
  lemma TrailingColumnsAbsent(names: seq<string>, types: map<string, ClrType>, cells: seq<Cell>, wb: Workbook, p: Parsers, j: int)
    requires NoDuplicates(names)
    requires AllNullDefaulted(types)
    requires RowFold(names, Cursor(-1, [], types), cells, wb, p).Ok?
    requires RowFold(names, Cursor(-1, [], types), cells, wb, p).value.index < j < |names|
    requires 0 <= j
    ensures names[j] !in Keys(RowFold(names, Cursor(-1, [], types), cells, wb, p).value.record)
  {
    var fin := RowFold(names, Cursor(-1, [], types), cells, wb, p).value;
    RowFoldKeys(names, Cursor(-1, [], types), cells, wb, p);
    assert forall i :: 0 <= i <= fin.index ==> names[i] != names[j];
    assert names[j] !in names[..fin.index + 1];
  }

  /** The record cells read purely by position produce: the i-th cell's value
      under the i-th column name. */
  function Positional(names: seq<string>, cells: seq<Cell>, wb: Workbook, p: Parsers): Expando
    requires |cells| <= |names|
  {
    seq(|cells|, i requires 0 <= i < |cells| => (names[i], CellValue(cells[i], wb, p)))
  }

  /** One cell read by position appends its value under the next column name. */
  lemma PositionalStep(names: seq<string>, st: Cursor, done: seq<Cell>, c: Cell, wb: Workbook, p: Parsers)
    requires NoDuplicates(names)
    requires AllNullDefaulted(st.types)
    requires |done| < |names| && st.index == |done| - 1
    requires st.record == Positional(names, done, wb, p)
    requires c.reference.None? && GetDataTypeOtherThanString(c, wb).Ok?
    ensures Step(names, st, c, wb, p).Ok?
    ensures Step(names, st, c, wb, p).value.index == |done|
    ensures Step(names, st, c, wb, p).value.record == Positional(names, done + [c], wb, p)
    ensures AllNullDefaulted(Step(names, st, c, wb, p).value.types)
  {
    var k := |done|;
    StepInPlace(names, st, c, wb, p);
    KeysAreEntries(st.record, names[k]);
    assert names[k] !in Keys(st.record);
  }

  lemma {:induction false} PositionalFrom(names: seq<string>, st: Cursor, done: seq<Cell>, cells: seq<Cell>, wb: Workbook, p: Parsers)
    requires NoDuplicates(names)
    requires AllNullDefaulted(st.types)
    requires |done| <= |names| && st.index == |done| - 1
    requires st.record == Positional(names, done, wb, p)
    requires forall i :: 0 <= i < |cells| ==> cells[i].reference.None? && GetDataTypeOtherThanString(cells[i], wb).Ok?
    ensures RowFold(names, st, cells, wb, p).Ok? <==> |done| + |cells| <= |names|
    ensures RowFold(names, st, cells, wb, p).Ok? ==>
              RowFold(names, st, cells, wb, p).value.record == Positional(names, done + cells, wb, p)
    decreases |cells|
  {
    if cells == [] {
      assert done + cells == done;
    } else {
      StepRaises(names, st, cells[0], wb, p);
      if |done| < |names| {
        PositionalStep(names, st, done, cells[0], wb, p);
        var st' := Step(names, st, cells[0], wb, p).value;
        assert (done + [cells[0]]) + cells[1..] == done + cells;
        assert forall i :: 0 <= i < |cells[1..]| ==> cells[1..][i] == cells[i + 1];
        PositionalFrom(names, st', done + [cells[0]], cells[1..], wb, p);
      }
    }
  }

  /** A row whose cells carry no references is read by position: it is read
      exactly when it has no more cells than there are columns, and then its
      i-th cell's value is stored under the i-th column name. */
  lemma PositionalRow(names: seq<string>, types: map<string, ClrType>, cells: seq<Cell>, wb: Workbook, p: Parsers)
    requires NoDuplicates(names)
    requires AllNullDefaulted(types)
    requires forall i :: 0 <= i < |cells| ==> cells[i].reference.None? && GetDataTypeOtherThanString(cells[i], wb).Ok?
    ensures RowFold(names, Cursor(-1, [], types), cells, wb, p).Ok? <==> |cells| <= |names|
    ensures RowFold(names, Cursor(-1, [], types), cells, wb, p).Ok? ==>
              RowFold(names, Cursor(-1, [], types), cells, wb, p).value.record == Positional(names, cells, wb, p)
  {
    assert [] + cells == cells;
    PositionalFrom(names, Cursor(-1, [], types), [], cells, wb, p);
  }

  /** The texts of the cells, where each can be read. */
  function Texts(cells: seq<Cell>, wb: Workbook, p: Parsers): seq<string>
    requires forall i :: 0 <= i < |cells| ==> GetText(cells[i], wb, p).Ok?
  {
    seq(|cells|, i requires 0 <= i < |cells| => GetText(cells[i], wb, p).value)
  }

  /** The header dictionary is built exactly when the texts are readable and
      distinct, and its keys are then the texts in order. */
  lemma {:induction false} HeaderTextsSpec(cells: seq<Cell>, wb: Workbook, p: Parsers, acc: seq<string>)
    requires NoDuplicates(acc)
    ensures HeaderTexts(cells, wb, p, acc).Ok? ==>
              NoDuplicates(HeaderTexts(cells, wb, p, acc).value) &&
              |HeaderTexts(cells, wb, p, acc).value| == |acc| + |cells|
    ensures (forall i :: 0 <= i < |cells| ==> GetText(cells[i], wb, p).Ok?) ==>
              (HeaderTexts(cells, wb, p, acc).Ok? <==> NoDuplicates(acc + Texts(cells, wb, p))) &&
              (HeaderTexts(cells, wb, p, acc).Ok? ==> HeaderTexts(cells, wb, p, acc).value == acc + Texts(cells, wb, p))
    decreases |cells|
  {
    if cells == [] {
      assert acc + [] == acc;
    } else if GetText(cells[0], wb, p).Ok? {
      var t := GetText(cells[0], wb, p).value;
      if t in acc {
        if forall i :: 0 <= i < |cells| ==> GetText(cells[i], wb, p).Ok? {
          var j :| 0 <= j < |acc| && acc[j] == t;
          assert (acc + Texts(cells, wb, p))[|acc|] == t;
          assert (acc + Texts(cells, wb, p))[j] == t;
        }
      } else {
        assert NoDuplicates(acc + [t]);
        HeaderTextsSpec(cells[1..], wb, p, acc + [t]);
        if forall i :: 0 <= i < |cells| ==> GetText(cells[i], wb, p).Ok? {
          assert forall i :: 0 <= i < |cells[1..]| ==> GetText(cells[1..][i], wb, p).Ok? by {
            forall i | 0 <= i < |cells[1..]| ensures GetText(cells[1..][i], wb, p).Ok? {
              assert cells[1..][i] == cells[i + 1];
            }
          }
          assert acc + Texts(cells, wb, p) == (acc + [t]) + Texts(cells[1..], wb, p);
        }
      }
    }
  }

  /** The column names: without headers, `column_0` .. `column_{n-2}` for n rows
      (no rows raises); with headers, the first row's texts, which must be
      distinct (no rows raises). The names are always distinct. */
  lemma HeaderNamesSpec(rows: seq<Row>, noHeaders: bool, wb: Workbook, p: Parsers)
    ensures HeaderNames(rows, noHeaders, wb, p).Ok? ==> NoDuplicates(HeaderNames(rows, noHeaders, wb, p).value)
    ensures noHeaders && rows == [] ==> HeaderNames(rows, noHeaders, wb, p) == Err(ArgumentOutOfRange)
    ensures noHeaders && rows != [] ==>
              HeaderNames(rows, noHeaders, wb, p).Ok? &&
              |HeaderNames(rows, noHeaders, wb, p).value| == |rows| - 1 &&
              forall i :: 0 <= i < |rows| - 1 ==> HeaderNames(rows, noHeaders, wb, p).value[i] == ColumnKey(i)
    ensures !noHeaders && rows == [] ==> HeaderNames(rows, noHeaders, wb, p) == Err(NullReference)
    ensures !noHeaders && rows != [] && (forall i :: 0 <= i < |rows[0]| ==> GetText(rows[0][i], wb, p).Ok?) ==>
              (HeaderNames(rows, noHeaders, wb, p).Ok? <==> NoDuplicates(Texts(rows[0], wb, p))) &&
              (HeaderNames(rows, noHeaders, wb, p).Ok? ==> HeaderNames(rows, noHeaders, wb, p).value == Texts(rows[0], wb, p))
  {
    if noHeaders && rows != [] {
      var names := HeaderNames(rows, noHeaders, wb, p).value;
      forall i, j | 0 <= i < j < |names| ensures names[i] != names[j] {
        ColumnKeyInjective(i, j);
      }
    } else if !noHeaders && rows != [] {
      HeaderTextsSpec(rows[0], wb, p, []);
      if forall i :: 0 <= i < |rows[0]| ==> GetText(rows[0][i], wb, p).Ok? {
        assert [] + Texts(rows[0], wb, p) == Texts(rows[0], wb, p);
      }
    }
  }

  lemma ReferenceColumn(letter: string, n: nat, text: string)
    requires 1 <= n <= 26 && letter == [('A' as int + n - 1) as char]
    ensures TargetIndex(Cell(Some(letter + "2"), Some(String), None, Some(text)), 0) == n - 1
    ensures TargetIndex(Cell(Some(letter + "2"), Some(String), None, Some(text)), 1) == n - 1
  {
    assert ColumnName(n) == ColumnName(0) + [letter[0]];
    assert ColumnName(n) == letter;
    ColumnNameDecodes(n, "2");
    assert GetCellColIndex(Cell(Some(letter + "2"), Some(String), None, Some(text))) == Some(n);
  }

  lemma SparseRowPuts()
    ensures Put(Put([("Col1", Str("a"))], "Col2", Null), "Col5", Str("e")) ==
              [("Col1", Str("a")), ("Col2", Null), ("Col5", Str("e"))]
  {
    assert "Col2"[3] != "Col1"[3] && "Col5"[3] != "Col1"[3] && "Col5"[3] != "Col2"[3];
  }

  lemma SparseRowFirstCell(names: seq<string>, a2: Cell, wb: Workbook, p: Parsers, st0: Cursor)
    requires names == ["Col1", "Col2", "Col3", "Col4", "Col5"]
    requires a2 == Cell(Some("A2"), Some(String), None, Some("a"))
    requires st0.index == -1 && st0.record == [] && AllNullDefaulted(st0.types)
    ensures Step(names, st0, a2, wb, p).Ok?
    ensures Step(names, st0, a2, wb, p).value.index == 0
    ensures Step(names, st0, a2, wb, p).value.record == [("Col1", Str("a"))]
    ensures AllNullDefaulted(Step(names, st0, a2, wb, p).value.types)
  {
    ReferenceColumn("A", 1, "a");
    assert "A" + "2" == "A2";
    StepInPlace(names, st0, a2, wb, p);
    assert CellValue(a2, wb, p) == Str("a");
  }

  lemma SparseRowSecondCell(names: seq<string>, e2: Cell, wb: Workbook, p: Parsers, st1: Cursor)
    requires names == ["Col1", "Col2", "Col3", "Col4", "Col5"]
    requires e2 == Cell(Some("E2"), Some(String), None, Some("e"))
    requires st1.index == 0 && st1.record == [("Col1", Str("a"))] && AllNullDefaulted(st1.types)
    ensures Step(names, st1, e2, wb, p).Ok?
    ensures Step(names, st1, e2, wb, p).value.index == 4
    ensures Step(names, st1, e2, wb, p).value.record == [("Col1", Str("a")), ("Col2", Null), ("Col5", Str("e"))]
  {
    SparseRowE2(e2, wb, p);
    StepJump(names, st1, e2, wb, p);
    assert names[1] == "Col2" && names[4] == "Col5";
    SparseRowPuts();
  }

  lemma SparseRowE2(e2: Cell, wb: Workbook, p: Parsers)
    requires e2 == Cell(Some("E2"), Some(String), None, Some("e"))
    ensures TargetIndex(e2, 1) == 4
    ensures GetDataTypeOtherThanString(e2, wb).Ok?
    ensures CellValue(e2, wb, p) == Str("e")
  {
    ReferenceColumn("E", 5, "e");
    assert "E" + "2" == "E2";
  }

  /** A row of a five-column sheet holding only A2 and E2: the value of E2 lands
      under the fifth column, the second column gets null, and the third and
      fourth columns get no key at all. */
  lemma SparseRowExample(names: seq<string>, a2: Cell, e2: Cell, wb: Workbook, p: Parsers, types: map<string, ClrType>)
    requires names == ["Col1", "Col2", "Col3", "Col4", "Col5"]
    requires a2 == Cell(Some("A2"), Some(String), None, Some("a"))
    requires e2 == Cell(Some("E2"), Some(String), None, Some("e"))
    requires AllNullDefaulted(types)
    ensures RowFold(names, Cursor(-1, [], types), [a2, e2], wb, p).Ok?
    ensures RowFold(names, Cursor(-1, [], types), [a2, e2], wb, p).value.index == 4
    ensures RowFold(names, Cursor(-1, [], types), [a2, e2], wb, p).value.record ==
              [("Col1", Str("a")), ("Col2", Null), ("Col5", Str("e"))]
  {
    var st0 := Cursor(-1, [], types);
    SparseRowFirstCell(names, a2, wb, p, st0);
    var st1 := Step(names, st0, a2, wb, p).value;
    SparseRowSecondCell(names, e2, wb, p, st1);
    var st2 := Step(names, st1, e2, wb, p).value;
    assert [e2][1..] == [];
    assert RowFold(names, st1, [e2], wb, p) == Ok(st2);
    assert [a2, e2][1..] == [e2];
    assert RowFold(names, st0, [a2, e2], wb, p) == RowFold(names, st1, [e2], wb, p);
  }
}
