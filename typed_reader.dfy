/** The typed reader `ParseExcel<T>`: one sheet, chosen by name, becomes a list of
    instances of T. Header cells are bound to T's properties by a case-insensitive
    left join; each data cell is converted to its property's type. */
module TypedReader {
  import opened Wrappers
  import opened Clr
  import opened OpenXml
  import opened TextExtensions
  import opened JoinExtensions
  import opened CellReader
  import opened ExcelReader

  /** An instance of T as far as the reader can see it: one value per property of
      T, in property order. */
  type Instance = seq<Val>

  /** T as reflection and `Activator.CreateInstance<T>()` present it: its
      properties and the values a new instance holds. */
  datatype Shape = Shape(props: seq<Prop>, initial: Instance)

  // ---------------------------------------------------------------------------
  // Sheet selection

  /** The position of the first sheet whose name equals `sheetName` ignoring case. */
  function FirstNamed(sheets: seq<Sheet>, sheetName: Option<string>): (r: Option<nat>)
    ensures r.Some? ==> r.value < |sheets| && EqualsIgnoreCaseIntended(Some(sheets[r.value].name), sheetName)
    ensures r.Some? ==> forall j :: 0 <= j < r.value ==> !EqualsIgnoreCaseIntended(Some(sheets[j].name), sheetName)
    ensures r.None? ==> forall j :: 0 <= j < |sheets| ==> !EqualsIgnoreCaseIntended(Some(sheets[j].name), sheetName)
  {
    if sheets == [] then None
    else if EqualsIgnoreCaseIntended(Some(sheets[0].name), sheetName) then Some(0)
    else match FirstNamed(sheets[1..], sheetName)
      case None => None
      case Some(i) => Some(i + 1)
  }

  /** The sheet `ParseExcel<T>` reads: the first whose name matches, else the first
      sheet, else none. A sheet name is never null, so the comparison never meets
      a null receiver. */
  function SelectSheet(sheets: seq<Sheet>, sheetName: Option<string>): (r: Option<Sheet>)
    ensures r.None? <==> sheets == []
    ensures r.Some? ==> r.value in sheets
    ensures forall i :: 0 <= i < |sheets| && EqualsIgnoreCaseIntended(Some(sheets[i].name), sheetName) ==>
              r.Some? && EqualsIgnoreCaseIntended(Some(r.value.name), sheetName)
    ensures sheets != [] && !EqualsIgnoreCaseIntended(Some(r.value.name), sheetName) ==> r == Some(sheets[0])
  {
    match FirstNamed(sheets, sheetName)
    case Some(i) => Some(sheets[i])
    case None => if sheets == [] then None else Some(sheets[0])
  }

  // ---------------------------------------------------------------------------
  // Headers

  /** The texts of a row's cells, up to the first that cannot be read. */
  function ReadTexts(cells: seq<Cell>, wb: Workbook, p: Parsers): Result<seq<string>, Exception>
    decreases |cells|
  {
    if cells == [] then Ok([])
    else
      var t :- GetText(cells[0], wb, p);
      var rest :- ReadTexts(cells[1..], wb, p);
      Ok([t] + rest)
  }

  /** The header texts left-joined to T's properties by upper-cased name: for each
      text, the position of every property it names, or None when it names none. */
  function BindHeaders(texts: seq<string>, props: seq<Prop>): seq<Option<nat>> {
    LeftJoin(texts, Indexed(props), HeaderKey, PropKey, BoundPosition)
  }

  /** `e?.ToUpperInvariant()`: the join key of a header text. */
  function HeaderKey(e: string): string {
    ToUpper(e)
  }

  /** `p.Name?.ToUpperInvariant()`: the join key of a property. */
  function PropKey(x: (nat, Prop)): string {
    ToUpper(x.1.name)
  }

  /** The property a join result binds its column to, if any. */
  function BoundPosition(e: string, x: Option<(nat, Prop)>): Option<nat> {
    if x.None? then None else Some(x.value.0)
  }

  /** The `headers` dictionary from column position to property (None for a column
      bound to no property); None when the reader returns null. Without headers
      the properties are taken in order. */
  function TypedHeaders(sheet: Sheet, props: seq<Prop>, noHeaders: bool, wb: Workbook, p: Parsers)
    : Result<Option<seq<Option<nat>>>, Exception>
  {
    if noHeaders then
      var headers := seq(|props|, i requires 0 <= i < |props| => Some(i));
      Ok(if |headers| < 1 then None else Some(headers))
    else if sheet.rows == [] then Ok(None)
    else
      var texts :- ReadTexts(sheet.rows[0], wb, p);
      var headers := BindHeaders(texts, props);
      Ok(if |headers| < 1 then None else Some(headers))
  }

  // ---------------------------------------------------------------------------
  // Cells

  /** `(cell.GetCellColIndex() - 1) ?? ++index`, in 32-bit arithmetic. */
  function NextIndex(c: Cell, index: int): int {
    match GetCellColIndex(c)
    case None => Wrap32(index + 1)
    case Some(col) => Wrap32(col - 1)
  }

  /** The loop guard as written: `index > hCount && noHeaders`. */
  predicate BreaksAsWritten(index: int, hCount: int, noHeaders: bool) {
    index > hCount && noHeaders
  }

  /** The loop guard as evidently intended: stop at the first position past the
      last property, `index >= hCount && noHeaders`. */
  predicate Breaks(index: int, hCount: int, noHeaders: bool) {
    index >= hCount && noHeaders
  }

  /** The body of the `try`: a cell bound to property `h` stores the property
      type's default when its value is null and the converted value otherwise.
      Nothing changes when `GetObject`, the conversion or the store raises (a
      property without a setter). */
  function Assign(d: Instance, h: Option<nat>, c: Cell, props: seq<Prop>, wb: Workbook, p: Parsers, coerce: Coerce): (r: Instance)
    ensures |r| == |d|
    ensures forall k :: 0 <= k < |d| && h != Some(k) ==> r[k] == d[k]
    ensures h.Some? && h.value < |d| && h.value < |props| && !props[h.value].canWrite ==> r == d
    ensures h.Some? && h.value < |d| && h.value < |props| && props[h.value].canWrite && GetObject(c, wb, p) == Ok(Null) ==>
              r[h.value] == DefaultOf(props[h.value].ty)
    ensures h.Some? && h.value < |d| && h.value < |props| && GetObject(c, wb, p).Ok? && GetObject(c, wb, p).value != Null ==>
              r[h.value] == ConvertAndSet(coerce, GetObject(c, wb, p).value, props[h.value]).GetOr(d[h.value])
    ensures GetObject(c, wb, p).Err? ==> r == d
  {
    match h
    case None => d
    case Some(i) =>
      if i >= |d| || i >= |props| then d
      else match GetObject(c, wb, p)
        case Err(_) => d
        case Ok(v) =>
          if v == Null then Store(d, i, SetValue(props[i], DefaultOf(props[i].ty)))
          else Store(d, i, ConvertAndSet(coerce, v, props[i]))
  }

  /** The instance after a store that may have raised. */
  function Store(d: Instance, i: nat, stored: Option<Val>): (r: Instance)
    requires i < |d|
    ensures |r| == |d|
    ensures forall k :: 0 <= k < |d| && k != i ==> r[k] == d[k]
    ensures r[i] == stored.GetOr(d[i])
  {
    if stored.None? then d else d[i := stored.value]
  }

  /** The cell loop of one row from position `index`, under a given loop guard. A
      position outside the headers that the guard lets through makes the
      dictionary look-up raise. */
  function RowFill(headers: seq<Option<nat>>, props: seq<Prop>, cells: seq<Cell>, index: int, d: Instance,
                   noHeaders: bool, stop: (int, int, bool) -> bool, wb: Workbook, p: Parsers, coerce: Coerce)
    : Result<Instance, Exception>
    decreases |cells|
  {
    if cells == [] then Ok(d)
    else
      var next := NextIndex(cells[0], index);
      if stop(next, |headers|, noHeaders) then Ok(d)
      else if next < 0 || next >= |headers| then Err(KeyNotFound)
      else RowFill(headers, props, cells[1..], next, Assign(d, headers[next], cells[0], props, wb, p, coerce),
                   noHeaders, stop, wb, p, coerce)
  }

  const IntendedGuard: (int, int, bool) -> bool := (index: int, hCount: int, noHeaders: bool) => Breaks(index, hCount, noHeaders)
  const WrittenGuard: (int, int, bool) -> bool := (index: int, hCount: int, noHeaders: bool) => BreaksAsWritten(index, hCount, noHeaders)

  /** The row loop: a new instance per data row. */
  function RowsFill(headers: seq<Option<nat>>, shape: Shape, rows: seq<Row>, noHeaders: bool, stop: (int, int, bool) -> bool,
                    wb: Workbook, p: Parsers, coerce: Coerce, acc: seq<Instance>): Result<seq<Instance>, Exception>
    decreases |rows|
  {
    if rows == [] then Ok(acc)
    else
      var d :- RowFill(headers, shape.props, rows[0], -1, shape.initial, noHeaders, stop, wb, p, coerce);
      RowsFill(headers, shape, rows[1..], noHeaders, stop, wb, p, coerce, acc + [d])
  }

  /** The instance a row yields has one value per property. */
  lemma {:induction false} RowFillLength(headers: seq<Option<nat>>, props: seq<Prop>, cells: seq<Cell>, index: int, d: Instance,
                                         noHeaders: bool, stop: (int, int, bool) -> bool, wb: Workbook, p: Parsers, coerce: Coerce)
    ensures RowFill(headers, props, cells, index, d, noHeaders, stop, wb, p, coerce).Ok? ==>
              |RowFill(headers, props, cells, index, d, noHeaders, stop, wb, p, coerce).value| == |d|
    decreases |cells|
  {
    if cells != [] {
      var next := NextIndex(cells[0], index);
      if !stop(next, |headers|, noHeaders) && 0 <= next < |headers| {
        RowFillLength(headers, props, cells[1..], next, Assign(d, headers[next], cells[0], props, wb, p, coerce),
                      noHeaders, stop, wb, p, coerce);
      }
    }
  }

  /** A property that no column is bound to keeps the value the new instance was
      created with. */
  lemma {:induction false} RowFillKeepsUnbound(headers: seq<Option<nat>>, props: seq<Prop>, cells: seq<Cell>, index: int, d: Instance,
                                              noHeaders: bool, stop: (int, int, bool) -> bool, wb: Workbook, p: Parsers, coerce: Coerce, k: nat)
    requires k < |d|
    requires Some(k) !in headers
    ensures RowFill(headers, props, cells, index, d, noHeaders, stop, wb, p, coerce).Ok? ==>
              |RowFill(headers, props, cells, index, d, noHeaders, stop, wb, p, coerce).value| == |d| &&
              RowFill(headers, props, cells, index, d, noHeaders, stop, wb, p, coerce).value[k] == d[k]
    decreases |cells|
  {
    RowFillLength(headers, props, cells, index, d, noHeaders, stop, wb, p, coerce);
    if cells != [] {
      var next := NextIndex(cells[0], index);
      if !stop(next, |headers|, noHeaders) && 0 <= next < |headers| {
        assert headers[next] != Some(k);
        RowFillKeepsUnbound(headers, props, cells[1..], next, Assign(d, headers[next], cells[0], props, wb, p, coerce),
                            noHeaders, stop, wb, p, coerce, k);
      }
    }
  }

  /** The row loop yields one instance per row, each with one value per property. */
  lemma {:induction false} RowsFillShape(headers: seq<Option<nat>>, shape: Shape, rows: seq<Row>, noHeaders: bool,
                                         stop: (int, int, bool) -> bool, wb: Workbook, p: Parsers, coerce: Coerce, acc: seq<Instance>)
    ensures RowsFill(headers, shape, rows, noHeaders, stop, wb, p, coerce, acc).Ok? ==>
              var xs := RowsFill(headers, shape, rows, noHeaders, stop, wb, p, coerce, acc).value;
              |xs| == |acc| + |rows| &&
              (forall i :: 0 <= i < |acc| ==> xs[i] == acc[i]) &&
              (forall i :: |acc| <= i < |xs| ==> |xs[i]| == |shape.initial|)
    decreases |rows|
  {
    if rows != [] {
      var d := RowFill(headers, shape.props, rows[0], -1, shape.initial, noHeaders, stop, wb, p, coerce);
      RowFillLength(headers, shape.props, rows[0], -1, shape.initial, noHeaders, stop, wb, p, coerce);
      if d.Ok? {
        var more := acc + [d.value];
        assert RowsFill(headers, shape, rows, noHeaders, stop, wb, p, coerce, acc)
            == RowsFill(headers, shape, rows[1..], noHeaders, stop, wb, p, coerce, more);
        RowsFillShape(headers, shape, rows[1..], noHeaders, stop, wb, p, coerce, more);
      }
    }
  }

  /** `ParseExcel<T>` under a given cell-loop guard: None where it returns null
      (no sheet, no header row, no bound column). */
  function ParseTypedSpec(wb: Workbook, sheetName: Option<string>, noHeaders: bool, shape: Shape, p: Parsers, coerce: Coerce,
                          stop: (int, int, bool) -> bool)
    : Result<Option<seq<Instance>>, Exception>
  {
    if !NoDuplicates(SheetNames(wb.sheets)) then Err(DuplicateKey)
    else match SelectSheet(wb.sheets, sheetName)
      case None => Ok(None)
      case Some(sheet) =>
        var headers :- TypedHeaders(sheet, shape.props, noHeaders, wb, p);
        match headers
        case None => Ok(None)
        case Some(h) =>
          var instances :- RowsFill(h, shape, DataRows(sheet.rows, noHeaders), noHeaders, stop, wb, p, coerce, []);
          Ok(Some(instances))
  }

  // ---------------------------------------------------------------------------
  // The reader's loops

  /** The cell loop: the `index` cursor advances per cell or jumps to the cell's
      referenced column, the loop stops past `hCount` when there are no headers,
      and the instance's properties are set in place. */
  method FillRow(headers: seq<Option<nat>>, props: seq<Prop>, cells: seq<Cell>, initial: Instance, noHeaders: bool,
                 wb: Workbook, p: Parsers, coerce: Coerce) returns (r: Result<Instance, Exception>)
    ensures r == RowFill(headers, props, cells, -1, initial, noHeaders, WrittenGuard, wb, p, coerce)
  {
    var d := initial;
    var index := -1;
    var i := 0;
    var hCount := |headers|;
    while i < |cells|
      invariant 0 <= i <= |cells|
      invariant RowFill(headers, props, cells, -1, initial, noHeaders, WrittenGuard, wb, p, coerce)
             == RowFill(headers, props, cells[i..], index, d, noHeaders, WrittenGuard, wb, p, coerce)
    {
      assert cells[i..][0] == cells[i] && cells[i..][1..] == cells[i + 1..];
      var cell := cells[i];
      index := NextIndex(cell, index);
      if index > hCount && noHeaders {
        break;
      }
      if index < 0 || index >= hCount {
        return Err(KeyNotFound);
      }
      d := Assign(d, headers[index], cell, props, wb, p, coerce);
      i := i + 1;
    }
    if i == |cells| {
      assert cells[i..] == [];
    }
    return Ok(d);
  }

  /** `ParseExcel<T>`. */
  method ParseTyped(wb: Workbook, sheetName: Option<string>, noHeaders: bool, shape: Shape, p: Parsers, coerce: Coerce)
    returns (r: Result<Option<seq<Instance>>, Exception>)
    ensures r == ParseTypedSpec(wb, sheetName, noHeaders, shape, p, coerce, WrittenGuard)
  {
    if !NoDuplicates(SheetNames(wb.sheets)) {
      return Err(DuplicateKey);
    }
    var sheet := SelectSheet(wb.sheets, sheetName);
    if sheet.None? {
      return Ok(None);
    }
    var headers := TypedHeaders(sheet.value, shape.props, noHeaders, wb, p);
    if headers.Err? {
      return Err(headers.error);
    }
    if headers.value.None? {
      return Ok(None);
    }
    var instances := FillRows(headers.value.value, shape, DataRows(sheet.value.rows, noHeaders), noHeaders, wb, p, coerce);
    if instances.Err? {
      return Err(instances.error);
    }
    return Ok(Some(instances.value));
  }

  /** The row loop: a new instance per data row, added to the result list. */
  lemma RowsFillStep(h: seq<Option<nat>>, shape: Shape, rows: seq<Row>, i: nat, noHeaders: bool, stop: (int, int, bool) -> bool,
                     wb: Workbook, p: Parsers, coerce: Coerce, acc: seq<Instance>)
    requires i < |rows|
    ensures var d := RowFill(h, shape.props, rows[i], -1, shape.initial, noHeaders, stop, wb, p, coerce);
            (d.Err? ==> RowsFill(h, shape, rows[i..], noHeaders, stop, wb, p, coerce, acc) == Err(d.error)) &&
            (d.Ok? ==> RowsFill(h, shape, rows[i..], noHeaders, stop, wb, p, coerce, acc) ==
                         RowsFill(h, shape, rows[i + 1..], noHeaders, stop, wb, p, coerce, acc + [d.value]))
  {
    assert rows[i..][0] == rows[i] && rows[i..][1..] == rows[i + 1..];
  }

  method FillRows(h: seq<Option<nat>>, shape: Shape, rows: seq<Row>, noHeaders: bool, wb: Workbook, p: Parsers, coerce: Coerce)
    returns (r: Result<seq<Instance>, Exception>)
    ensures r == RowsFill(h, shape, rows, noHeaders, WrittenGuard, wb, p, coerce, [])
  {
    var result: seq<Instance> := [];
    var i := 0;
    while i < |rows|
      invariant 0 <= i <= |rows|
      invariant RowsFill(h, shape, rows, noHeaders, WrittenGuard, wb, p, coerce, [])
             == RowsFill(h, shape, rows[i..], noHeaders, WrittenGuard, wb, p, coerce, result)
    {
      RowsFillStep(h, shape, rows, i, noHeaders, WrittenGuard, wb, p, coerce, result);
      var d := FillRow(h, shape.props, rows[i], shape.initial, noHeaders, wb, p, coerce);
      if d.Err? {
        return Err(d.error);
      }
      result := result + [d.value];
      i := i + 1;
    }
    assert rows[i..] == [];
    return Ok(result);
  }

  // ---------------------------------------------------------------------------
  // Properties

  /** Without headers every property is bound in order; with headers, each header
      text is bound once to every property it names ignoring case, or once to none,
      and when no two properties share a name ignoring case that is one binding per
      header column. */
  lemma TypedHeadersSpec(sheet: Sheet, props: seq<Prop>, noHeaders: bool, wb: Workbook, p: Parsers)
    ensures noHeaders ==>
              TypedHeaders(sheet, props, noHeaders, wb, p) ==
              Ok(if props == [] then None else Some(seq(|props|, i requires 0 <= i < |props| => Some(i))))
    ensures !noHeaders && sheet.rows == [] ==> TypedHeaders(sheet, props, noHeaders, wb, p) == Ok(None)
    ensures !noHeaders && sheet.rows != [] && ReadTexts(sheet.rows[0], wb, p).Err? ==>
              TypedHeaders(sheet, props, noHeaders, wb, p) == Err(ReadTexts(sheet.rows[0], wb, p).error)
    ensures !noHeaders && sheet.rows != [] && ReadTexts(sheet.rows[0], wb, p).Ok? ==>
              var texts := ReadTexts(sheet.rows[0], wb, p).value;
              TypedHeaders(sheet, props, noHeaders, wb, p) == Ok(if texts == [] then None else Some(BindHeaders(texts, props)))
    ensures forall texts: seq<string> :: BindHeaders(texts, props) == AllBindings(texts, props)
    ensures (forall i, j :: 0 <= i < j < |props| ==> ToUpper(props[i].name) != ToUpper(props[j].name)) ==>
              forall texts: seq<string> :: |BindHeaders(texts, props)| == |texts|
  {
    forall texts: seq<string> {
      BindHeadersAll(texts, props);
    }
    if forall i, j :: 0 <= i < j < |props| ==> ToUpper(props[i].name) != ToUpper(props[j].name) {
      forall texts: seq<string> {
        BindHeadersSpec(texts, props);
      }
    }
  }

  /** A header text is bound to the property whose upper-cased name equals its
      upper-cased form, and to none when no property has that name. */
  lemma BindHeadersSpec(texts: seq<string>, props: seq<Prop>)
    requires forall i, j :: 0 <= i < j < |props| ==> ToUpper(props[i].name) != ToUpper(props[j].name)
    ensures |BindHeaders(texts, props)| == |texts|
    ensures forall i :: 0 <= i < |texts| ==>
              match BindHeaders(texts, props)[i]
              case None => forall j :: 0 <= j < |props| ==> ToUpper(props[j].name) != ToUpper(texts[i])
              case Some(j) => j < |props| && ToUpper(props[j].name) == ToUpper(texts[i])
  {
    var inner := Indexed(props);
    var ok := HeaderKey;
    var ik := PropKey;
    var sel := BoundPosition;
    assert forall i, j :: 0 <= i < j < |inner| ==> ik(inner[i]) != ik(inner[j]);
    forall i | 0 <= i < |texts| {
      MatchingAtMostOne(inner, ik, ok(texts[i]));
    }
    LeftJoinOneToOne(texts, inner, ok, ik, sel);
    forall i | 0 <= i < |texts|
      ensures match BindHeaders(texts, props)[i]
              case None => forall j :: 0 <= j < |props| ==> ToUpper(props[j].name) != ToUpper(texts[i])
              case Some(j) => j < |props| && ToUpper(props[j].name) == ToUpper(texts[i])
    {
      var m := Matching(inner, ik, ok(texts[i]));
      if m == [] {
        forall j | 0 <= j < |props|
          ensures ToUpper(props[j].name) != ToUpper(texts[i])
        {
          assert inner[j] in inner;
          assert inner[j] !in m;
        }
      } else {
        assert m[0] in m;
      }
    }
  }

  /** The positions, counted from `offset`, of the properties whose upper-cased
      name is `key`, in increasing order. */
  function NamedPositions(key: string, props: seq<Prop>, offset: nat): seq<nat>
    decreases |props|
  {
    if props == [] then []
    else (if ToUpper(props[0].name) == key then [offset] else []) + NamedPositions(key, props[1..], offset + 1)
  }

  /** The bindings one header text contributes, independently of the join: one
      per property whose name equals it ignoring case, in property order, or a
      single unbound one when none does. */
  function TextBindings(text: string, props: seq<Prop>): seq<Option<nat>> {
    var ps := NamedPositions(ToUpper(text), props, 0);
    if ps == [] then [None] else seq(|ps|, i requires 0 <= i < |ps| => Some(ps[i]))
  }

  /** The bindings of a header row: each text's bindings, in column order. */
  function AllBindings(texts: seq<string>, props: seq<Prop>): seq<Option<nat>>
    decreases |texts|
  {
    if texts == [] then [] else TextBindings(texts[0], props) + AllBindings(texts[1..], props)
  }

  /** Every position listed names a property called `key`. */
  lemma {:induction false} NamedPositionsSound(key: string, props: seq<Prop>, offset: nat)
    ensures forall i :: 0 <= i < |NamedPositions(key, props, offset)| ==>
              offset <= NamedPositions(key, props, offset)[i] < offset + |props| &&
              ToUpper(props[NamedPositions(key, props, offset)[i] - offset].name) == key
    decreases |props|
  {
    if props != [] {
      var rest := NamedPositions(key, props[1..], offset + 1);
      NamedPositionsSound(key, props[1..], offset + 1);
      var head: seq<nat> := if ToUpper(props[0].name) == key then [offset] else [];
      var r := head + rest;
      assert NamedPositions(key, props, offset) == r;
      forall i | 0 <= i < |r|
        ensures offset <= r[i] < offset + |props| && ToUpper(props[r[i] - offset].name) == key
      {
        if i >= |head| {
          var k := i - |head|;
          assert r[i] == rest[k];
          assert props[1..][rest[k] - (offset + 1)] == props[rest[k] - offset];
        }
      }
    }
  }

  /** Every property called `key` has its position listed. */
  lemma {:induction false} NamedPositionsComplete(key: string, props: seq<Prop>, offset: nat)
    ensures forall j :: 0 <= j < |props| && ToUpper(props[j].name) == key ==> offset + j in NamedPositions(key, props, offset)
    decreases |props|
  {
    if props != [] {
      var rest := NamedPositions(key, props[1..], offset + 1);
      NamedPositionsComplete(key, props[1..], offset + 1);
      var head: seq<nat> := if ToUpper(props[0].name) == key then [offset] else [];
      assert NamedPositions(key, props, offset) == head + rest;
      forall j | 1 <= j < |props| && ToUpper(props[j].name) == key
        ensures offset + j in head + rest
      {
        assert props[1..][j - 1] == props[j];
        assert offset + 1 + (j - 1) in rest;
      }
    }
  }

  /** The positions are listed in increasing order. */
  lemma {:induction false} NamedPositionsSorted(key: string, props: seq<Prop>, offset: nat)
    ensures forall i, i' :: 0 <= i < i' < |NamedPositions(key, props, offset)| ==>
              NamedPositions(key, props, offset)[i] < NamedPositions(key, props, offset)[i']
    decreases |props|
  {
    if props != [] {
      var rest := NamedPositions(key, props[1..], offset + 1);
      NamedPositionsSorted(key, props[1..], offset + 1);
      NamedPositionsSound(key, props[1..], offset + 1);
      var head: seq<nat> := if ToUpper(props[0].name) == key then [offset] else [];
      assert NamedPositions(key, props, offset) == head + rest;
    }
  }

  /** A header text that no property name equals ignoring case is bound once, to
      no property; any other text is bound only to properties. */
  lemma TextBindingsUnbound(text: string, props: seq<Prop>)
    ensures |TextBindings(text, props)| >= 1
    ensures TextBindings(text, props) == [None] <==> forall j :: 0 <= j < |props| ==> ToUpper(props[j].name) != ToUpper(text)
    ensures TextBindings(text, props) != [None] ==> forall i :: 0 <= i < |TextBindings(text, props)| ==> TextBindings(text, props)[i].Some?
  {
    var key := ToUpper(text);
    var ps := NamedPositions(key, props, 0);
    if ps == [] {
      NamedPositionsComplete(key, props, 0);
      assert forall j :: 0 <= j < |props| && ToUpper(props[j].name) == key ==> 0 + j in ps;
    } else {
      NamedPositionsSound(key, props, 0);
      assert TextBindings(text, props)[0] == Some(ps[0]);
      assert ToUpper(props[ps[0]].name) == key;
    }
  }

  /** A bound text's bindings are its listed positions, one each. */
  lemma TextBindingsArePositions(text: string, props: seq<Prop>)
    requires NamedPositions(ToUpper(text), props, 0) != []
    ensures |TextBindings(text, props)| == |NamedPositions(ToUpper(text), props, 0)|
    ensures forall i :: 0 <= i < |TextBindings(text, props)| ==>
              TextBindings(text, props)[i] == Some(NamedPositions(ToUpper(text), props, 0)[i])
  {
  }

  /** A text is bound only to properties whose name equals it ignoring case. */
  lemma TextBindingsSound(text: string, props: seq<Prop>)
    ensures forall i :: 0 <= i < |TextBindings(text, props)| && TextBindings(text, props)[i].Some? ==>
              TextBindings(text, props)[i].value < |props| &&
              ToUpper(props[TextBindings(text, props)[i].value].name) == ToUpper(text)
  {
    var key := ToUpper(text);
    var ps := NamedPositions(key, props, 0);
    if ps != [] {
      var r := TextBindings(text, props);
      NamedPositionsSound(key, props, 0);
      TextBindingsArePositions(text, props);
      forall i | 0 <= i < |r|
        ensures r[i].Some? && r[i].value < |props| && ToUpper(props[r[i].value].name) == key
      {
        assert r[i] == Some(ps[i]);
        assert 0 <= ps[i] < |props| && ToUpper(props[ps[i] - 0].name) == key;
      }
    }
  }

  /** A text is bound to every property whose name equals it ignoring case. */
  lemma TextBindingsComplete(text: string, props: seq<Prop>)
    ensures forall j :: 0 <= j < |props| && ToUpper(props[j].name) == ToUpper(text) ==> Some(j) in TextBindings(text, props)
  {
    var key := ToUpper(text);
    var ps := NamedPositions(key, props, 0);
    NamedPositionsComplete(key, props, 0);
    forall j | 0 <= j < |props| && ToUpper(props[j].name) == key
      ensures Some(j) in TextBindings(text, props)
    {
      assert 0 + j in ps;
      TextBindingsArePositions(text, props);
      var i :| 0 <= i < |ps| && ps[i] == j;
      assert TextBindings(text, props)[i] == Some(j);
    }
  }

  /** A text's property bindings follow the property order. */
  lemma TextBindingsSorted(text: string, props: seq<Prop>)
    ensures forall i, i' ::
              (0 <= i < i' < |TextBindings(text, props)| && TextBindings(text, props)[i].Some? && TextBindings(text, props)[i'].Some?) ==>
              TextBindings(text, props)[i].value < TextBindings(text, props)[i'].value
  {
    var ps := NamedPositions(ToUpper(text), props, 0);
    if ps != [] {
      NamedPositionsSorted(ToUpper(text), props, 0);
      TextBindingsArePositions(text, props);
    }
  }

  /** The join's group of property matches from position `m` on lists the
      positions `NamedPositions` names, in the same order. */
  lemma {:induction false} MatchingIndexedFrom(props: seq<Prop>, m: nat, key: string)
    requires m <= |props|
    ensures var g := Matching(Indexed(props)[m..], PropKey, key);
            var ps := NamedPositions(key, props[m..], m);
            |g| == |ps| && forall i :: 0 <= i < |g| ==> g[i].0 == ps[i]
    decreases |props| - m
  {
    if m < |props| {
      var inner := Indexed(props)[m..];
      assert inner[0] == (m, props[m]) && inner[1..] == Indexed(props)[m + 1..];
      assert props[m..][0] == props[m] && props[m..][1..] == props[m + 1..];
      MatchingIndexedFrom(props, m + 1, key);
    }
  }

  /** A header text's group in the join is its independent bindings. */
  lemma GroupIsTextBindings(text: string, props: seq<Prop>)
    ensures Group(text, Indexed(props), HeaderKey, PropKey, BoundPosition) == TextBindings(text, props)
  {
    var m := Matching(Indexed(props), PropKey, HeaderKey(text));
    MatchingIndexedFrom(props, 0, HeaderKey(text));
    assert Indexed(props)[0..] == Indexed(props) && props[0..] == props;
    if m != [] {
      var g := Group(text, Indexed(props), HeaderKey, PropKey, BoundPosition);
      var t := TextBindings(text, props);
      assert |g| == |t|;
      forall i | 0 <= i < |g|
        ensures g[i] == t[i]
      {
        assert g[i] == BoundPosition(text, Some(m[i]));
      }
    }
  }

  /** Header binding for any property names: the header row's bindings are, per
      text in column order, one for each property its name equals ignoring case,
      in property order, or a single unbound one. So two properties whose names
      differ only in case bind one header column twice, and every later column's
      cells go to the binding one position earlier than its text. */
  lemma {:induction false} BindHeadersAll(texts: seq<string>, props: seq<Prop>)
    ensures BindHeaders(texts, props) == AllBindings(texts, props)
    decreases |texts|
  {
    if texts != [] {
      GroupIsTextBindings(texts[0], props);
      BindHeadersAll(texts[1..], props);
    }
  }

  /** Example: headers "id" and "name" against properties `Id`, `ID` and `Name`
      give three bindings, so the "name" column is bound to `ID`. */
  lemma CaseEqualNamesShiftColumns(t: ClrType)
    ensures var props := [Prop("Id", t, true), Prop("ID", t, true), Prop("Name", t, true)];
            BindHeaders(["id", "name"], props) == [Some(0), Some(1), Some(2)]
  {
    var props := [Prop("Id", t, true), Prop("ID", t, true), Prop("Name", t, true)];
    BindHeadersAll(["id", "name"], props);
    assert ToUpper("id") == "ID" && ToUpper("Id") == "ID" && ToUpper("ID") == "ID";
    assert ToUpper("name") == "NAME" && ToUpper("Name") == "NAME";
    assert props[1..] == props[1..] && props[1..][1..] == [props[2]] && props[1..][1..][1..] == [];
    assert NamedPositions("ID", props[1..][1..], 2) == [];
    assert NamedPositions("ID", props[1..], 1) == [1];
    assert NamedPositions("ID", props, 0) == [0, 1];
    assert NamedPositions("NAME", props[1..][1..], 2) == [2];
    assert NamedPositions("NAME", props[1..], 1) == [2];
    assert NamedPositions("NAME", props, 0) == [2];
  }

  /** With noHeaders and no cell references, the guard as written lets the column
      one past the last property through to the dictionary look-up: the row raises
      exactly when it has more cells than properties are left. */
  lemma {:induction false} WrittenGuardRaises(headers: seq<Option<nat>>, props: seq<Prop>, cells: seq<Cell>, index: int, d: Instance,
                                              wb: Workbook, p: Parsers, coerce: Coerce)
    requires forall i :: 0 <= i < |cells| ==> cells[i].reference.None?
    requires -1 <= index < |headers| < TwoTo31
    ensures (RowFill(headers, props, cells, index, d, true, WrittenGuard, wb, p, coerce) == Err(KeyNotFound))
            == (|cells| >= |headers| - index)
    ensures RowFill(headers, props, cells, index, d, true, WrittenGuard, wb, p, coerce).Ok?
            == (|cells| < |headers| - index)
    decreases |cells|
  {
    if cells != [] {
      var next := NextIndex(cells[0], index);
      assert next == index + 1;
      assert !WrittenGuard(next, |headers|, true);
      if next < |headers| {
        WrittenGuardRaises(headers, props, cells[1..], next, Assign(d, headers[next], cells[0], props, wb, p, coerce), wb, p, coerce);
      }
    }
  }

  /** With noHeaders and no cell references, the corrected guard stops at the first
      column past the last property, so such a row never raises. */
  lemma {:induction false} IntendedGuardNeverRaises(headers: seq<Option<nat>>, props: seq<Prop>, cells: seq<Cell>, index: int, d: Instance,
                                                    wb: Workbook, p: Parsers, coerce: Coerce)
    requires forall i :: 0 <= i < |cells| ==> cells[i].reference.None?
    requires -1 <= index < |headers| < TwoTo31
    ensures RowFill(headers, props, cells, index, d, true, IntendedGuard, wb, p, coerce).Ok?
    decreases |cells|
  {
    if cells != [] {
      var next := NextIndex(cells[0], index);
      assert next == index + 1;
      if next < |headers| {
        assert !IntendedGuard(next, |headers|, true);
        IntendedGuardNeverRaises(headers, props, cells[1..], next, Assign(d, headers[next], cells[0], props, wb, p, coerce), wb, p, coerce);
      } else {
        assert IntendedGuard(next, |headers|, true);
      }
    }
  }

  /** The outcomes of `ParseExcel<T>`: duplicate sheet names raise; no sheet, no
      property to bind or no header row give null; otherwise one instance per data
      row of the selected sheet, each with one value per property. This holds
      under either cell-loop guard. */
  lemma ParseTypedOutcomes(wb: Workbook, sheetName: Option<string>, noHeaders: bool, shape: Shape, p: Parsers, coerce: Coerce,
                           stop: (int, int, bool) -> bool)
    ensures !NoDuplicates(SheetNames(wb.sheets)) ==> ParseTypedSpec(wb, sheetName, noHeaders, shape, p, coerce, stop) == Err(DuplicateKey)
    ensures NoDuplicates(SheetNames(wb.sheets)) && wb.sheets == [] ==> ParseTypedSpec(wb, sheetName, noHeaders, shape, p, coerce, stop) == Ok(None)
    ensures NoDuplicates(SheetNames(wb.sheets)) && wb.sheets != [] && noHeaders && shape.props == [] ==>
              ParseTypedSpec(wb, sheetName, noHeaders, shape, p, coerce, stop) == Ok(None)
    ensures NoDuplicates(SheetNames(wb.sheets)) && wb.sheets != [] && !noHeaders && SelectSheet(wb.sheets, sheetName).value.rows == [] ==>
              ParseTypedSpec(wb, sheetName, noHeaders, shape, p, coerce, stop) == Ok(None)
    ensures ParseTypedSpec(wb, sheetName, noHeaders, shape, p, coerce, stop).Ok? && ParseTypedSpec(wb, sheetName, noHeaders, shape, p, coerce, stop).value.Some? ==>
              var xs := ParseTypedSpec(wb, sheetName, noHeaders, shape, p, coerce, stop).value.value;
              SelectSheet(wb.sheets, sheetName).Some? &&
              |xs| == |DataRows(SelectSheet(wb.sheets, sheetName).value.rows, noHeaders)| &&
              forall i :: 0 <= i < |xs| ==> |xs[i]| == |shape.initial|
  {
    if NoDuplicates(SheetNames(wb.sheets)) {
      match SelectSheet(wb.sheets, sheetName)
      case None =>
      case Some(sheet) =>
        var headers := TypedHeaders(sheet, shape.props, noHeaders, wb, p);
        if headers.Ok? && headers.value.Some? {
          RowsFillShape(headers.value.value, shape, DataRows(sheet.rows, noHeaders), noHeaders, stop, wb, p, coerce, []);
        }
    }
  }

  /** No cell of any row names its column: the cursor then advances one column
      per cell. */
  predicate Unreferenced(rows: seq<Row>) {
    forall i, j :: 0 <= i < |rows| && 0 <= j < |rows[i]| ==> rows[i][j].reference.None?
  }

  lemma UnreferencedTail(rows: seq<Row>)
    requires rows != [] && Unreferenced(rows)
    ensures Unreferenced(rows[1..])
    ensures forall j :: 0 <= j < |rows[0]| ==> rows[0][j].reference.None?
  {
    forall i, j | 0 <= i < |rows| - 1 && 0 <= j < |rows[1..][i]|
      ensures rows[1..][i][j].reference.None?
    {
      assert rows[1..][i] == rows[i + 1];
    }
  }

  /** Without headers and without cell references, the row loop under the guard as
      written fails exactly when some row has more cells than there are
      properties, and then with `KeyNotFoundException`. */
  lemma {:induction false} RowsFillWrittenRaises(headers: seq<Option<nat>>, shape: Shape, rows: seq<Row>, wb: Workbook, p: Parsers,
                                                 coerce: Coerce, acc: seq<Instance>)
    requires Unreferenced(rows)
    requires |headers| < TwoTo31
    ensures RowsFill(headers, shape, rows, true, WrittenGuard, wb, p, coerce, acc).Ok? <==>
              forall i :: 0 <= i < |rows| ==> |rows[i]| <= |headers|
    ensures RowsFill(headers, shape, rows, true, WrittenGuard, wb, p, coerce, acc).Err? ==>
              RowsFill(headers, shape, rows, true, WrittenGuard, wb, p, coerce, acc).error == KeyNotFound
    decreases |rows|
  {
    if rows != [] {
      UnreferencedTail(rows);
      WrittenGuardRaises(headers, shape.props, rows[0], -1, shape.initial, wb, p, coerce);
      var d := RowFill(headers, shape.props, rows[0], -1, shape.initial, true, WrittenGuard, wb, p, coerce);
      if d.Ok? {
        RowsFillWrittenRaises(headers, shape, rows[1..], wb, p, coerce, acc + [d.value]);
        assert (forall i :: 0 <= i < |rows| ==> |rows[i]| <= |headers|) <==>
               (forall i :: 0 <= i < |rows[1..]| ==> |rows[1..][i]| <= |headers|) by {
          forall i | 0 < i < |rows|
            ensures rows[i] == rows[1..][i - 1]
          {
          }
        }
      }
    }
  }

  /** Without headers and without cell references, the row loop under the
      corrected guard never fails. */
  lemma {:induction false} RowsFillIntendedReads(headers: seq<Option<nat>>, shape: Shape, rows: seq<Row>, wb: Workbook, p: Parsers,
                                                 coerce: Coerce, acc: seq<Instance>)
    requires Unreferenced(rows)
    requires |headers| < TwoTo31
    ensures RowsFill(headers, shape, rows, true, IntendedGuard, wb, p, coerce, acc).Ok?
    decreases |rows|
  {
    if rows != [] {
      UnreferencedTail(rows);
      IntendedGuardNeverRaises(headers, shape.props, rows[0], -1, shape.initial, wb, p, coerce);
      var d := RowFill(headers, shape.props, rows[0], -1, shape.initial, true, IntendedGuard, wb, p, coerce);
      RowsFillIntendedReads(headers, shape, rows[1..], wb, p, coerce, acc + [d.value]);
    }
  }

  /** `ParseExcel<T>` with noHeaders on a sheet without cell references, as
      written: it raises `KeyNotFoundException` exactly when some row has more
      cells than T has properties, and otherwise reads one instance per row. */
  lemma ParseTypedWrittenRaises(wb: Workbook, sheetName: Option<string>, shape: Shape, p: Parsers, coerce: Coerce)
    requires NoDuplicates(SheetNames(wb.sheets)) && wb.sheets != []
    requires 1 <= |shape.props| < TwoTo31
    requires Unreferenced(SelectSheet(wb.sheets, sheetName).value.rows)
    ensures var rows := SelectSheet(wb.sheets, sheetName).value.rows;
            (ParseTypedSpec(wb, sheetName, true, shape, p, coerce, WrittenGuard) == Err(KeyNotFound)) <==>
            (exists i :: 0 <= i < |rows| && |rows[i]| > |shape.props|)
    ensures var rows := SelectSheet(wb.sheets, sheetName).value.rows;
            ParseTypedSpec(wb, sheetName, true, shape, p, coerce, WrittenGuard).Ok? <==>
            (forall i :: 0 <= i < |rows| ==> |rows[i]| <= |shape.props|)
  {
    var sheet := SelectSheet(wb.sheets, sheetName).value;
    var h := TypedHeaders(sheet, shape.props, true, wb, p).value.value;
    assert |h| == |shape.props|;
    RowsFillWrittenRaises(h, shape, sheet.rows, wb, p, coerce, []);
  }

  /** `ParseExcel<T>` with noHeaders on a sheet without cell references, under the
      corrected guard: it reads one instance per row, whatever the rows' lengths. */
  lemma ParseTypedIntendedReads(wb: Workbook, sheetName: Option<string>, shape: Shape, p: Parsers, coerce: Coerce)
    requires NoDuplicates(SheetNames(wb.sheets)) && wb.sheets != []
    requires 1 <= |shape.props| < TwoTo31
    requires Unreferenced(SelectSheet(wb.sheets, sheetName).value.rows)
    ensures var r := ParseTypedSpec(wb, sheetName, true, shape, p, coerce, IntendedGuard);
            r.Ok? && r.value.Some? && |r.value.value| == |SelectSheet(wb.sheets, sheetName).value.rows|
  {
    var sheet := SelectSheet(wb.sheets, sheetName).value;
    var h := TypedHeaders(sheet, shape.props, true, wb, p).value.value;
    assert |h| == |shape.props|;
    RowsFillIntendedReads(h, shape, sheet.rows, wb, p, coerce, []);
    RowsFillShape(h, shape, sheet.rows, true, IntendedGuard, wb, p, coerce, []);
  }
}
