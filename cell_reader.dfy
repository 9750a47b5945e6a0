/** Decoding one cell of a worksheet: the type its tag or style implies, its text,
    its value, and the column its reference names. */
module CellReader {
  import opened Wrappers
  import opened Clr
  import opened OpenXml
  import opened TypeClassifier
  import opened TextExtensions

  /** What `double.TryParse` followed by `DateTime.FromOADate` makes of a text:
      no number at all, an instant (its ticks), or a number outside the range of
      OLE Automation dates, for which `FromOADate` raises. */
  datatype OaDate = NotANumber | Instant(ticks: int) | OutOfRange

  /** The culture-dependent parsers the decoder calls: the date parse above, and
      `decimal.TryParse` and `int.TryParse` (which also stands for `int.Parse` of a
      shared-string index), each None where the .NET parse fails. */
  datatype Parsers = Parsers(
    oaDate: string -> OaDate,
    decimal: string -> Option<real>,
    integer: string -> Option<int>)

  // ---------------------------------------------------------------------------
  // Look-ups into the workbook

  /** The number-format id of cell format `k` (`CellFormats.ElementAt(k).NumberFormatId.Value`). */
  function FormatIdAt(wb: Workbook, k: nat): Result<nat, Exception> {
    match wb.cellFormats
    case None => Err(NullReference)
    case Some(formats) =>
      if k >= |formats| then Err(ArgumentOutOfRange)
      else if formats[k].None? then Err(NullReference)
      else Ok(formats[k].value)
  }

  /** The shared-string item a cell's value indexes: the table is looked up first,
      then the value's text is parsed as an integer and used as a position. */
  function SharedStringAt(wb: Workbook, text: Option<string>, p: Parsers): Result<SharedStringItem, Exception> {
    match wb.sharedStrings
    case None => Err(NullReference)
    case Some(items) =>
      if text.None? then Err(NullReference)
      else match p.integer(text.value)
        case None => Err(Format)
        case Some(i) =>
          if i < 0 || i >= |items| then Err(ArgumentOutOfRange) else Ok(items[i])
  }

  /** `cell.CellValue?.Text`: the value's text, null when the cell has none. */
  function TextOrNull(text: Option<string>): Val {
    match text
    case None => Null
    case Some(s) => Str(s)
  }

  // ---------------------------------------------------------------------------
  // GetDataTypeOtherThanString, GetText, GetObject

  /** The type a cell's tag implies (`GetTypeFromOpenXml`); without a tag, the
      family of its style's number format; without either, none. */
  function GetDataTypeOtherThanString(c: Cell, wb: Workbook): (r: Result<Option<ClrType>, Exception>)
    ensures c.dataType.Some? ==> r == Ok(Some(GetTypeFromOpenXml(c.dataType.value)))
    ensures c.dataType.None? && c.styleIndex.None? ==> r == Ok(None)
    ensures c.dataType.None? && c.styleIndex.Some? ==>
              r == (match FormatIdAt(wb, c.styleIndex.value)
                    case Ok(id) => Ok(FormatFamily(id))
                    case Err(e) => Err(e))
  {
    if c.dataType.Some? then Ok(Some(GetTypeFromOpenXml(c.dataType.value)))
    else if c.styleIndex.None? then Ok(None)
    else
      var id :- FormatIdAt(wb, c.styleIndex.value);
      Ok(FormatFamily(id))
  }

  /** The text of a header cell: for a shared-string cell, the full text of the
      table entry its value's text indexes; the value's text otherwise. A cell
      without a value raises, and so does a shared-string cell whose table is
      missing, whose text is not an integer or whose index is out of range. */
  function GetText(c: Cell, wb: Workbook, p: Parsers): (r: Result<string, Exception>)
    ensures c.dataType != Some(SharedString) ==>
              r == (if c.text.None? then Err(NullReference) else Ok(c.text.value))
    ensures c.dataType == Some(SharedString) && wb.sharedStrings.None? ==> r == Err(NullReference)
    ensures c.dataType == Some(SharedString) && wb.sharedStrings.Some? && c.text.None? ==> r == Err(NullReference)
    ensures (c.dataType == Some(SharedString) && wb.sharedStrings.Some? && c.text.Some? &&
             p.integer(c.text.value).None?) ==>
              r == Err(Format)
    ensures (c.dataType == Some(SharedString) && wb.sharedStrings.Some? && c.text.Some? &&
             p.integer(c.text.value).Some? && !(0 <= p.integer(c.text.value).value < |wb.sharedStrings.value|)) ==>
              r == Err(ArgumentOutOfRange)
    ensures (c.dataType == Some(SharedString) && wb.sharedStrings.Some? && c.text.Some? &&
             p.integer(c.text.value).Some? && 0 <= p.integer(c.text.value).value < |wb.sharedStrings.value|) ==>
              r == Ok(wb.sharedStrings.value[p.integer(c.text.value).value].innerText)
    ensures c.dataType == Some(SharedString) && r.Ok? ==>
              wb.sharedStrings.Some? && r.value in set item | item in wb.sharedStrings.value :: item.innerText
  {
    if c.dataType == Some(SharedString) then
      var item :- SharedStringAt(wb, c.text, p);
      Ok(item.innerText)
    else if c.text.None? then Err(NullReference)
    else Ok(c.text.value)
  }

  /** The value of a data cell. A tagged cell is decoded by its tag alone: a shared
      string dereferences the table, a boolean is true exactly when its text is
      "0", any other tag gives the raw text. An untagged cell without a style gives
      its text (or null); with a style, the style's format family decides which
      parser is tried (date, then decimal, then integer) and a failed or
      inapplicable parse gives the text; a date format whose text is a number
      outside the OLE Automation range raises. */
  function GetObject(c: Cell, wb: Workbook, p: Parsers): Result<Val, Exception> {
    match c.dataType
    case Some(SharedString) =>
      var item :- SharedStringAt(wb, c.text, p);
      if item.t.None? then Err(NullReference) else Ok(Str(item.t.value))
    case Some(Boolean) => Ok(BoolVal(c.text == Some("0")))
    case Some(_) => if c.text.None? then Err(NullReference) else Ok(Str(c.text.value))
    case None =>
      if c.styleIndex.None? then Ok(TextOrNull(c.text))
      else
        var id :- FormatIdAt(wb, c.styleIndex.value);
        var inner := CellInnerText(c);
        if id in DateTimeFormatIds && !p.oaDate(inner).NotANumber? then
          (if p.oaDate(inner).OutOfRange? then Err(Argument) else Ok(DateVal(p.oaDate(inner).ticks)))
        else if id in DecimalFormatIds && p.decimal(inner).Some? then Ok(DecVal(p.decimal(inner).value))
        else if id in IntFormatIds && p.integer(inner).Some? then Ok(IntVal(p.integer(inner).value))
        else Ok(TextOrNull(c.text))
  }

  /** A present tag decides both the inferred type and the value: the style index
      is then irrelevant, whatever it is. */
  lemma TagOverridesStyle(c: Cell, wb: Workbook, p: Parsers, style: Option<nat>)
    requires c.dataType.Some?
    ensures GetDataTypeOtherThanString(c.(styleIndex := style), wb) == GetDataTypeOtherThanString(c, wb)
    ensures GetObject(c.(styleIndex := style), wb, p) == GetObject(c, wb, p)
  {
  }

  /** A Number-tagged cell decodes to its raw text ("25" stays the string "25"),
      whatever its style and whatever the parsers accept. */
  lemma NumberTagGivesRawText(c: Cell, wb: Workbook, p: Parsers)
    requires c.dataType == Some(Number) && c.text.Some?
    ensures GetObject(c, wb, p) == Ok(Str(c.text.value))
  {
  }

  /** A Boolean-tagged cell decodes to true exactly when its text is "0": "1", the
      value section 18.18.11 of ECMA-376 Part 1 reserves for true, decodes to false. */
  lemma BooleanTagIsInverted(c: Cell, wb: Workbook, p: Parsers)
    requires c.dataType == Some(Boolean)
    ensures GetObject(c, wb, p).Ok? && GetObject(c, wb, p).value.BoolVal?
    ensures GetObject(c, wb, p).value.b <==> c.text == Some("0")
    ensures c.text == Some("1") ==> GetObject(c, wb, p) == Ok(BoolVal(false))
  {
  }

  /** Every type the inference can yield has a null default. */
  lemma InferredTypesAreNullDefaulted(c: Cell, wb: Workbook)
    requires GetDataTypeOtherThanString(c, wb).Ok? && GetDataTypeOtherThanString(c, wb).value.Some?
    ensures NullDefaulted(GetDataTypeOtherThanString(c, wb).value.value)
    ensures DefaultOf(GetDataTypeOtherThanString(c, wb).value.value) == Null
  {
    var t := GetDataTypeOtherThanString(c, wb).value.value;
    if c.dataType.Some? {
      GetTypeFromOpenXmlSpec(c.dataType.value);
    } else {
      FormatFamilySpec(FormatIdAt(wb, c.styleIndex.value).value);
    }
  }

  /** An untagged, styled cell whose format is a date format and whose text is a
      number that `DateTime.FromOADate` rejects. */
  predicate OaDateRaises(c: Cell, wb: Workbook, p: Parsers) {
    c.dataType.None? && c.styleIndex.Some? && FormatIdAt(wb, c.styleIndex.value).Ok? &&
    FormatIdAt(wb, c.styleIndex.value).value in DateTimeFormatIds &&
    p.oaDate(CellInnerText(c)).OutOfRange?
  }

  /** A parsed value of an untagged cell always has the type the inference reports
      for the same cell: a date comes only from a date format, a decimal only from
      a decimal format, an integer only from an integer format. The decoder fails
      where the inference fails, with the same exception, and in one case more: a
      date-formatted number out of the OLE Automation range. */
  lemma {:induction false} ParsedValueMatchesInferredType(c: Cell, wb: Workbook, p: Parsers)
    requires c.dataType.None?
    ensures GetObject(c, wb, p).Ok? <==> GetDataTypeOtherThanString(c, wb).Ok? && !OaDateRaises(c, wb, p)
    ensures OaDateRaises(c, wb, p) ==> GetObject(c, wb, p) == Err(Argument)
    ensures GetDataTypeOtherThanString(c, wb).Err? ==> GetObject(c, wb, p) == Err(GetDataTypeOtherThanString(c, wb).error)
    ensures GetObject(c, wb, p).Ok? && GetObject(c, wb, p).value.DateVal? ==>
              GetDataTypeOtherThanString(c, wb) == Ok(Some(NullableOf(DateTime)))
    ensures GetObject(c, wb, p).Ok? && GetObject(c, wb, p).value.DecVal? ==>
              GetDataTypeOtherThanString(c, wb) == Ok(Some(NullableOf(Decimal)))
    ensures GetObject(c, wb, p).Ok? && GetObject(c, wb, p).value.IntVal? ==>
              GetDataTypeOtherThanString(c, wb) == Ok(Some(NullableOf(Int32)))
  {
    if c.styleIndex.Some? && FormatIdAt(wb, c.styleIndex.value).Ok? {
      FormatIdListsDisjoint(FormatIdAt(wb, c.styleIndex.value).value);
    }
  }

  // ---------------------------------------------------------------------------
  // GetCellColIndex

  const TwoTo31: int := 0x8000_0000
  const TwoTo32: int := 0x1_0000_0000

  /** C# unchecked `int` arithmetic: the value reduced into [-2^31, 2^31). */
  function Wrap32(x: int): (r: int)
    ensures -TwoTo31 <= r < TwoTo31
    ensures (r - x) % TwoTo32 == 0
    ensures -TwoTo31 <= x < TwoTo31 ==> r == x
  {
    var m := x % TwoTo32;
    if m >= TwoTo31 then m - TwoTo32 else m
  }

  /** `n - 'A' + 1`: the letter's place in the alphabet for an upper-case letter. */
  function LetterDigit(ch: char): int {
    ch as int - 'A' as int + 1
  }

  /** The `Aggregate(0, (i, n) => 26 * i + n - 'A' + 1)` of `GetCellColIndex`, in
      32-bit arithmetic. */
  function ColumnFold(acc: int, letters: string): int
    decreases |letters|
  {
    if letters == [] then acc
    else ColumnFold(Wrap32(26 * acc + LetterDigit(letters[0])), letters[1..])
  }

  /** The 1-based column of a cell: null without a reference, otherwise the fold
      over the upper-cased letters of the reference. */
  function GetCellColIndex(c: Cell): Option<int> {
    match c.reference
    case None => None
    case Some(r) => Some(ColumnFold(0, ToUpper(ExtractAlphabet(r))))
  }

  predicate IsUpperWord(s: string) {
    forall i :: 0 <= i < |s| ==> 'A' <= s[i] <= 'Z'
  }

  /** The bijective base-26 value of a column name in unbounded arithmetic, read
      from its last letter: A = 1, Z = 26, AA = 27. */
  function ColumnValue(s: string): int {
    if s == [] then 0 else 26 * ColumnValue(s[..|s| - 1]) + LetterDigit(s[|s| - 1])
  }

  /** The column name of a 1-based index: the inverse of `ColumnValue`. */
  function ColumnName(n: nat): string {
    if n == 0 then [] else ColumnName((n - 1) / 26) + [('A' as int + (n - 1) % 26) as char]
  }

  /** Every index has an upper-case name whose value is that index. */
  lemma {:induction false} ColumnNameIsInverse(n: nat)
    ensures IsUpperWord(ColumnName(n))
    ensures ColumnValue(ColumnName(n)) == n
  {
    if n != 0 {
      ColumnNameIsInverse((n - 1) / 26);
      var s := ColumnName(n);
      assert s[..|s| - 1] == ColumnName((n - 1) / 26);
    }
  }

  /** Every upper-case name is the name of its value: distinct names have distinct values. */
  lemma {:induction false} ColumnValueIsInverse(s: string)
    requires IsUpperWord(s)
    ensures ColumnValue(s) >= 0
    ensures ColumnName(ColumnValue(s)) == s
  {
    if s != [] {
      var p := s[..|s| - 1];
      ColumnValueIsInverse(p);
      var d := LetterDigit(s[|s| - 1]);
      assert 1 <= d <= 26;
      var v := ColumnValue(s);
      assert v == 26 * ColumnValue(p) + d;
      assert (v - 1) / 26 == ColumnValue(p);
      assert (v - 1) % 26 == d - 1;
      assert s == p + [s[|s| - 1]];
    }
  }

  lemma ColumnValueInjective(s: string, t: string)
    requires IsUpperWord(s) && IsUpperWord(t)
    requires ColumnValue(s) == ColumnValue(t)
    ensures s == t
  {
    ColumnValueIsInverse(s);
    ColumnValueIsInverse(t);
  }

  /** The largest value of a name of `k` letters (ZZ...Z). */
  function MaxColumnValue(k: nat): nat {
    if k == 0 then 0 else 26 * MaxColumnValue(k - 1) + 26
  }

  lemma {:induction false} ColumnValueBounded(s: string)
    requires IsUpperWord(s)
    ensures 0 <= ColumnValue(s) <= MaxColumnValue(|s|)
  {
    if s != [] {
      ColumnValueBounded(s[..|s| - 1]);
    }
  }

  lemma {:induction false} MaxColumnValueMonotone(j: nat, k: nat)
    requires j <= k
    ensures MaxColumnValue(j) <= MaxColumnValue(k)
    decreases k
  {
    if j < k {
      MaxColumnValueMonotone(j, k - 1);
    }
  }

  /** Appending a letter to the folded prefix is one more wrapped step. */
  lemma {:induction false} ColumnFoldSnoc(acc: int, s: string, ch: char)
    ensures ColumnFold(acc, s + [ch]) == Wrap32(26 * ColumnFold(acc, s) + LetterDigit(ch))
    decreases |s|
  {
    if s == [] {
      assert (s + [ch])[1..] == [];
    } else {
      assert (s + [ch])[1..] == s[1..] + [ch];
      ColumnFoldSnoc(Wrap32(26 * acc + LetterDigit(s[0])), s[1..], ch);
    }
  }

  /** Up to six letters (column ZZZZZZ = 321,272,406) the 32-bit fold never
      overflows and equals the unbounded value. */
  lemma {:induction false} ColumnFoldIsValue(s: string)
    requires IsUpperWord(s) && |s| <= 6
    ensures ColumnFold(0, s) == ColumnValue(s)
  {
    if s != [] {
      var p := s[..|s| - 1];
      var ch := s[|s| - 1];
      ColumnFoldIsValue(p);
      assert s == p + [ch];
      ColumnFoldSnoc(0, p, ch);
      ColumnValueBounded(s);
      MaxColumnValueMonotone(|s|, 6);
      assert MaxColumnValue(6) == 321272406;
    }
  }

  lemma {:induction false} ToUpperOfLettersIsUpperWord(s: string)
    requires forall c :: c in s ==> IsLetter(c)
    ensures IsUpperWord(ToUpper(s))
  {
    forall i | 0 <= i < |ToUpper(s)|
      ensures 'A' <= ToUpper(s)[i] <= 'Z'
    {
      assert s[i] in s;
    }
  }

  /** `GetCellColIndex` is null exactly when the reference is absent, 0 when the
      reference has no letters, and otherwise (for references of up to six
      letters) the bijective base-26 value of the upper-cased letters, so that
      references with different letters name different columns. */
  lemma GetCellColIndexSpec(c: Cell, d: Cell)
    ensures GetCellColIndex(c).None? <==> c.reference.None?
    ensures c.reference.Some? && Letters(c.reference.value) == [] ==> GetCellColIndex(c) == Some(0)
    ensures c.reference.Some? && |Letters(c.reference.value)| <= 6 ==>
              GetCellColIndex(c) == Some(ColumnValue(ToUpper(Letters(c.reference.value))))
    ensures c.reference.Some? && |Letters(c.reference.value)| <= 6 &&
            d.reference.Some? && |Letters(d.reference.value)| <= 6 &&
            GetCellColIndex(c) == GetCellColIndex(d) ==>
              ToUpper(Letters(c.reference.value)) == ToUpper(Letters(d.reference.value))
  {
    if c.reference.Some? {
      var r := c.reference.value;
      ExtractAlphabetIsLetters(r);
      ToUpperOfLettersIsUpperWord(Letters(r));
      if |Letters(r)| <= 6 {
        ColumnFoldIsValue(ToUpper(Letters(r)));
      }
      if d.reference.Some? {
        var q := d.reference.value;
        ExtractAlphabetIsLetters(q);
        ToUpperOfLettersIsUpperWord(Letters(q));
        if |Letters(q)| <= 6 {
          ColumnFoldIsValue(ToUpper(Letters(q)));
          if |Letters(r)| <= 6 && GetCellColIndex(c) == GetCellColIndex(d) {
            ColumnValueInjective(ToUpper(Letters(r)), ToUpper(Letters(q)));
          }
        }
      }
    }
  }

  /** The letters of a written reference for column n (with any row digits after
      them) decode to n. */
  lemma ColumnNameDecodes(n: nat, rowDigits: string)
    requires 1 <= n <= MaxColumnValue(6)
    requires forall ch :: ch in rowDigits ==> '0' <= ch <= '9'
    ensures GetCellColIndex(Cell(Some(ColumnName(n) + rowDigits), None, None, None)) == Some(n)
  {
    ColumnNameIsInverse(n);
    NameLengthBound(n);
    var s := ColumnName(n);
    UpperWordFacts(s);
    LettersOfLettersOnly(s);
    LettersEmptyWhenNoLetter(rowDigits);
    LettersAppend(s, rowDigits);
    ExtractAlphabetIsLetters(s + rowDigits);
    assert ExtractAlphabet(s + rowDigits) == s;
    ColumnFoldIsValue(s);
    assert ColumnFold(0, ToUpper(ExtractAlphabet(s + rowDigits))) == n;
  }

  lemma UpperWordFacts(s: string)
    requires IsUpperWord(s)
    ensures forall ch :: ch in s ==> IsLetter(ch)
    ensures ToUpper(s) == s
  {
  }

  lemma {:induction false} NameLengthBound(n: nat)
    ensures n <= MaxColumnValue(6) ==> |ColumnName(n)| <= 6
  {
    ColumnNameIsInverse(n);
    var s := ColumnName(n);
    if |s| > 6 {
      // a name of k letters is worth at least the value of k letters "A...A" > MaxColumnValue(k - 1)
      ColumnValueLowerBound(s);
      MaxColumnValueMonotone(6, |s| - 1);
    }
  }

  /** A name of k > 0 letters is worth more than any name of k - 1 letters. */
  lemma {:induction false} ColumnValueLowerBound(s: string)
    requires IsUpperWord(s) && s != []
    ensures ColumnValue(s) > MaxColumnValue(|s| - 1)
  {
    var p := s[..|s| - 1];
    if p != [] {
      ColumnValueLowerBound(p);
    }
  }
}
