# Com.H.Excel row/column materialisation, in Dafny

Com.H.Excel turns collections of .NET objects into SpreadsheetML workbooks and back.
This project models the decisions the library makes around the OpenXml SDK calls.

- **Writing** (`WriteExcel`, in both the `NetStandard2.0` and the `Com.H.Excel` package):
  - one sheet per named collection, numbered from 1;
  - a header row taken from the first record written;
  - one data row per record, with each cell's text, cell-type tag (ST_CellType, section 18.18.11 of ECMA-376 Part 1) and style.
- **Reading as dynamic records** (`ParseExcel`):
  - column names come from the header row, or are `column_0 ..` without headers;
  - each row's cells are walked with a mutable cursor that jumps ahead on a cell reference (section 18.3.1.4 of ECMA-376 Part 1);
  - cell values are decoded by tag, else by the number format of their style (section 18.8.30 of ECMA-376 Part 1);
  - values are written into an ExpandoObject-like record.
- **Reading as typed objects** (`ParseExcel<T>`): header columns are bound to T's properties through a case-insensitive left join.
- **The helpers these rely on:**
  - `EqualsIgnoreCase`, `IsNullEqual` and `ExtractAlphabet`;
  - `LeftJoin`, `RightJoin`, `FullOuterJoin` and `Merge`;
  - `DataMapper`, with its property cache and its join-then-assign mapping that swallows failures one field at a time.

## Modelling choices

- **Workbooks and records.**
  - A workbook is a sequence of sheets of rows of cells `(reference?, tag?, style?, text?)`, plus the cell-format list and the shared-string table.
  - A record to write is an ordered list of `(name, type, value)` fields.
  - A dynamic record read back (`Expando`) is an ordered list of `(key, value)` entries.
  - An instance of T is its sequence of property values.
- **Exceptions become values.** A `Result` whose error names the .NET exception (`InvalidData`, `NullReference`, `KeyNotFound`, `ArgumentOutOfRange`, `DuplicateKey`, `ArgumentNull`, `Argument`).
- **Things passed in as parameters.** Culture-dependent rendering and parsing (`ToString`, `ToOADate`, `int.TryParse`, `decimal.TryParse`, `double.TryParse`, `FromOADate`) and conversion (`Convert.ChangeType`) are abstract function parameters, because their results are not modelled. The date parse reports no number, an instant, or a number outside the OLE Automation range (for which `FromOADate` raises).
- **`DataMapper` state.** It is a class. Its `_typesProperties` cache is a `map` field that `GetCachedProperties` writes on a miss. Reflection and `Activator.CreateInstance` are constant function fields.
- **Loops become methods.** Each method is proved equal to a recursive specification function, and the properties are lemmas about those functions:
  - the writer's sheet and record loops;
  - the reader's sheet, row and cell loops;
  - the typed reader's loops;
  - the mapper's assignment loop.
- **Properties and defaults.** A property carries its name, its type and whether it has a setter (`CanWrite`). `PropertyInfo.SetValue` is `Clr.SetValue`: a property without a setter raises (and the callers swallow it), and a null stored into a value-type property becomes its default. A type is `string`, a tabled primitive, its nullable form, or another type that is marked as a value type or a reference type. The default of a value type outside the table (`byte`, `char`, an enum, `Guid`, ...) is that type's opaque zero value `Clr.Zero`.
- **32-bit arithmetic.** The column fold of `GetCellColIndex` wraps around as C# `int` arithmetic does (`Wrap32`).

## Where the code differs from the format and from its own tests (the model follows the code)

- **Booleans.** In SpreadsheetML (ECMA-376 Part 1, cell type `b` of the simple type ST_CellType) a boolean cell holds `1` for true and `0` for false. The code (`NetStandard2.0/ExcelExtensions.cs:747`) reads `"0"` as true and everything else as false.
  - The writer stores a boolean's `ToString()` (`"True"`/`"False"`).
  - So a written boolean always reads back as false (`RoundTrip.BooleanReadsBackFalse`).
- **Skipped columns.** The test comment at `Com.H.Excel.Tests/ExcelTests.cs:225-226` expects the reader to detect a gap of skipped columns and fill it with null or default values.
  - The code writes the default under the captured `headerName`, the column the cursor had reached (`:531`). The skipped columns themselves get no key.
  - Columns after the last cell of a row get no key either (`ExcelReader.SparseRowExample`, `ExcelReader.TrailingColumnsAbsent`).
- **Round trip.** The round-trip tests (`Com.H.Excel.Tests/ExcelTests.cs:188` onwards) expect written data to read back. In the code:
  - numbers and dates come back as text, and their column type is inferred as `decimal?`;
  - booleans come back false;
  - a null or empty collection writes a sheet without rows, which the reader rejects with a `NullReferenceException`.
  - `RoundTrip.WorkbookReadsBack` states exactly what comes back.

## Model

| member | source | states |
|---|---|---|
| Clr.DefaultOf | NetStandard2.0/HelpersFrom_Com.H/Reflection/ReflectionExtensions.cs:69-74 | `default(T)` is null exactly for types that are not value types; a non-null default has the type itself as its runtime type (except `long`, `double` and `float`, which share the values of `int` and `decimal`) |
| Clr.SetValue | NetStandard2.0/HelpersFrom_Com.H/Reflection/DataMapper.cs:113-117 | a store succeeds exactly when the property has a setter; a null stored into it becomes the type's default, any other value is stored as it is |
| Clr.ConvertAndSet | NetStandard2.0/HelpersFrom_Com.H/Reflection/DataMapper.cs:76-83 | a converted store succeeds exactly when the property has a setter and the conversion succeeds, and then stores the converted value |
| Clr.NullDefaultedIsNull | NetStandard2.0/HelpersFrom_Com.H/Reflection/ReflectionExtensions.cs:69-74 | the default value of `string` and of every nullable type is null |
| TextExtensions.ToUpperIdempotent | NetStandard2.0/HelpersFrom_Com.H/Text/TextExtensions.cs:19-21 | upper-casing twice is upper-casing once |
| TextExtensions.IsNullEqual | NetStandard2.0/HelpersFrom_Com.H/Text/TextExtensions.cs:23-33 | true exactly when both are null, false exactly when one is null, no decision exactly when both are present |
| TextExtensions.EqualsIgnoreCase | NetStandard2.0/HelpersFrom_Com.H/Text/TextExtensions.cs:12-21 | the comparison raises `NullReferenceException` exactly when the receiver is null, and is false for a present receiver and a null argument |
| TextExtensions.EqualsIgnoreCaseNullReceiverThrows | NetStandard2.0/HelpersFrom_Com.H/Text/TextExtensions.cs:16-21 | `IsNullEqual(null, null)` decides true, yet `EqualsIgnoreCase(null, null)` raises |
| TextExtensions.EqualsIgnoreCaseIntended | NetStandard2.0/HelpersFrom_Com.H/Text/TextExtensions.cs:12-33 | true for two nulls, false for exactly one null, upper-case equality for two strings |
| TextExtensions.EqualsIgnoreCaseIntendedIsEquivalence | NetStandard2.0/HelpersFrom_Com.H/Text/TextExtensions.cs:12-33 | the corrected comparison is reflexive, symmetric and transitive |
| TextExtensions.EqualsIgnoreCaseAgreesWhenNotNull | NetStandard2.0/HelpersFrom_Com.H/Text/TextExtensions.cs:12-33 | with a present receiver, the comparison as written returns the corrected result, and it succeeds only with a present receiver |
| TextExtensions.LetterRun | NetStandard2.0/HelpersFrom_Com.H/Text/TextExtensions.cs:35-38 | the length of the longest prefix of letters: all letters before it, a non-letter at it |
| TextExtensions.Letters | NetStandard2.0/HelpersFrom_Com.H/Text/TextExtensions.cs:35-38 | the reference definition holds only letters of the input and is never longer than it |
| TextExtensions.AppendAllIsFlatten | NetStandard2.0/HelpersFrom_Com.H/Text/TextExtensions.cs:35-38 | the `Aggregate` over matches appends their concatenation to the seed |
| TextExtensions.LettersOfRun | NetStandard2.0/HelpersFrom_Com.H/Text/TextExtensions.cs:35-38 | the letters of a string are its leading run of letters followed by the letters of the rest |
| TextExtensions.FlattenMatchesIsLetters | NetStandard2.0/HelpersFrom_Com.H/Text/TextExtensions.cs:35-38 | the concatenated `[a-zA-Z]+` matches are exactly the letters of the input |
| TextExtensions.ExtractAlphabetIsLetters | NetStandard2.0/HelpersFrom_Com.H/Text/TextExtensions.cs:35-38 | `ExtractAlphabet` equals the reference definition: the input's letters in order |
| TextExtensions.LettersAppend | NetStandard2.0/HelpersFrom_Com.H/Text/TextExtensions.cs:35-38 | the letters of a concatenation are the concatenation of the letters |
| TextExtensions.LettersOfLettersOnly | NetStandard2.0/HelpersFrom_Com.H/Text/TextExtensions.cs:35-38 | a string of letters only is its own letters |
| TextExtensions.LettersEmptyWhenNoLetter | NetStandard2.0/HelpersFrom_Com.H/Text/TextExtensions.cs:35-38 | a string without letters has no letters |
| TextExtensions.ExtractAlphabetProperties | NetStandard2.0/HelpersFrom_Com.H/Text/TextExtensions.cs:35-38 | the result holds only letters of the input, is never longer, is empty without letters, is idempotent and distributes over concatenation |
| TypeClassifier.GetOpenXmlTypeSpec | NetStandard2.0/ExcelExtensions.cs:18-55 | the 15 tabled types are mapped to their tag (`Boolean` for `bool` and `bool?`, `Number` for the numeric and date types, `String` for `string`), and every other type to `String` |
| TypeClassifier.GetTypeFromOpenXmlSpec | NetStandard2.0/ExcelExtensions.cs:38-64 | String, Number, Boolean and Date map to `string`, `decimal?`, `bool?` and `DateTime?`, any other tag to `string`, and every result has a null default |
| TypeClassifier.FormatIdListsDisjoint | NetStandard2.0/ExcelExtensions.cs:140-177 | no built-in format id is in two of the date, integer and decimal lists |
| TypeClassifier.FormatFamilySpec | NetStandard2.0/ExcelExtensions.cs:105-177 | an id is classified as `DateTime?`, `int?` or `decimal?` exactly when it is in that list, unclassified exactly when it is in none; ids 0, 12, 44, 49 and 164 are unclassified |
| TypeClassifier.DateStyleFormats | NetStandard2.0/ExcelExtensions.cs:287-306 | the stylesheet has two cell formats: the first (General) is unclassified, the second reads back as `DateTime?` |
| CellReader.GetDataTypeOtherThanString | NetStandard2.0/ExcelExtensions.cs:711-726 | a tag decides the type; without a tag or style there is none; otherwise the style's format id decides |
| CellReader.GetText | NetStandard2.0/ExcelExtensions.cs:727-734 | a cell not tagged as a shared string gives its own text, or raises `NullReferenceException` without one; a shared-string cell gives the full text of the table entry its text parses to, and raises `NullReferenceException` without a table or a text, `FormatException` for a text that is not an integer, and `ArgumentOutOfRangeException` for an index outside the table |
| CellReader.TagOverridesStyle | NetStandard2.0/ExcelExtensions.cs:736-767 | with a tag present, changing the style changes neither the inferred type nor the decoded value |
| CellReader.NumberTagGivesRawText | NetStandard2.0/ExcelExtensions.cs:748-749 | a `Number`-tagged cell decodes to its raw text |
| CellReader.BooleanTagIsInverted | NetStandard2.0/ExcelExtensions.cs:746-747 | a `Boolean`-tagged cell decodes to true exactly when its text is `"0"`, so `"1"` gives false |
| CellReader.InferredTypesAreNullDefaulted | NetStandard2.0/ExcelExtensions.cs:711-726 | every type inferred for a cell has a null default |
| CellReader.ParsedValueMatchesInferredType | NetStandard2.0/ExcelExtensions.cs:711-767 | decoding succeeds exactly when type inference does and the cell is not a date-formatted number outside the OLE Automation range; that cell raises `ArgumentException`; a failed inference is a failed decoding with the same exception; a date, decimal or integer value comes only from a cell inferred as that type |
| CellReader.Wrap32 | NetStandard2.0/ExcelExtensions.cs:778-780 | the result is a 32-bit integer congruent to the input modulo 2^32, and equals the input when it fits |
| CellReader.ColumnNameIsInverse | NetStandard2.0/ExcelExtensions.cs:778-780 | every index's column letters are upper-case and decode back to it |
| CellReader.ColumnValueIsInverse | NetStandard2.0/ExcelExtensions.cs:778-780 | every upper-case word is the column name of its own decoded index |
| CellReader.ColumnValueInjective | NetStandard2.0/ExcelExtensions.cs:778-780 | distinct letter strings decode to distinct indices |
| CellReader.ColumnValueBounded | NetStandard2.0/ExcelExtensions.cs:778-780 | n letters decode to at most 26 + 26^2 + .. + 26^n |
| CellReader.MaxColumnValueMonotone | NetStandard2.0/ExcelExtensions.cs:778-780 | that bound grows with the number of letters |
| CellReader.ColumnFoldSnoc | NetStandard2.0/ExcelExtensions.cs:778-780 | one more letter takes the accumulated index to 26 times it plus the letter's digit, in 32-bit arithmetic |
| CellReader.ColumnFoldIsValue | NetStandard2.0/ExcelExtensions.cs:778-780 | up to six letters the 32-bit fold never wraps and equals the bijective base-26 value |
| CellReader.ToUpperOfLettersIsUpperWord | NetStandard2.0/ExcelExtensions.cs:778-780 | upper-casing a string of letters gives an upper-case word |
| CellReader.GetCellColIndexSpec | NetStandard2.0/ExcelExtensions.cs:778-780 | no index exactly when the reference is absent; 0 when it has no letters; otherwise the bijective base-26 value of its letters, and distinct letter strings give distinct indices |
| CellReader.ColumnNameDecodes | NetStandard2.0/ExcelExtensions.cs:778-780 | a reference made of column n's letters and row digits decodes to n |
| CellReader.UpperWordFacts | NetStandard2.0/ExcelExtensions.cs:778-780 | an upper-case word is all letters and is its own upper case |
| CellReader.NameLengthBound | NetStandard2.0/ExcelExtensions.cs:778-780 | every index within the six-letter bound has a name of at most six letters |
| CellReader.ColumnValueLowerBound | NetStandard2.0/ExcelExtensions.cs:778-780 | n letters decode above the largest value of n-1 letters, so longer names give larger indices |
| JoinExtensions.Matching | NetStandard2.0/HelpersFrom_Com.H/Link/JoinExtensions.cs:32-37 | a group holds exactly the inner elements with the outer key, and no more elements than the inner sequence |
| JoinExtensions.DistinctFrom | NetStandard2.0/HelpersFrom_Com.H/Link/JoinExtensions.cs:86-88 | `Union`'s filtering keeps exactly the elements not seen before, without duplicates |
| JoinExtensions.MatchingCount | NetStandard2.0/HelpersFrom_Com.H/Link/JoinExtensions.cs:32-38 | a group's size is the number of inner elements with that key |
| JoinExtensions.LeftJoinLength | NetStandard2.0/HelpersFrom_Com.H/Link/JoinExtensions.cs:26-38 | the left join has, per outer element, max(1, its number of matches) results |
| JoinExtensions.LeftJoinAppend | NetStandard2.0/HelpersFrom_Com.H/Link/JoinExtensions.cs:26-38 | the join of concatenated outer sequences is the concatenation of their joins, so results are grouped in outer order |
| JoinExtensions.LeftJoinCons | NetStandard2.0/HelpersFrom_Com.H/Link/JoinExtensions.cs:26-38 | the first outer element's group comes first |
| JoinExtensions.GroupMembers | NetStandard2.0/HelpersFrom_Com.H/Link/JoinExtensions.cs:26-38 | an outer element's results are its pairings with its matches, or its single pairing with `default` when there is none |
| JoinExtensions.LeftJoinMembers | NetStandard2.0/HelpersFrom_Com.H/Link/JoinExtensions.cs:26-38 | a result is in the left join exactly when it is in some outer element's group |
| JoinExtensions.LeftJoinCoversOuter | NetStandard2.0/HelpersFrom_Com.H/Link/JoinExtensions.cs:26-38 | every outer element appears: with each match, or with `default` when it has none |
| JoinExtensions.MatchingAtMostOne | NetStandard2.0/HelpersFrom_Com.H/Link/JoinExtensions.cs:32-37 | with distinct inner keys a group has at most one match |
| JoinExtensions.MatchingNone | NetStandard2.0/HelpersFrom_Com.H/Link/JoinExtensions.cs:32-37 | without an inner element of that key the group is empty |
| JoinExtensions.LeftJoinOneToOne | NetStandard2.0/HelpersFrom_Com.H/Link/JoinExtensions.cs:26-38 | with distinct inner keys the join has one result per outer element, in outer order |
| JoinExtensions.RightJoinSpec | NetStandard2.0/HelpersFrom_Com.H/Link/JoinExtensions.cs:56-62 | the right join is the left join with the roles swapped: its size and its members are the swapped left join's |
| JoinExtensions.FullOuterJoinSpec | NetStandard2.0/HelpersFrom_Com.H/Link/JoinExtensions.cs:79-88 | the full outer join has no duplicates and holds exactly the results of the left join and of the right join |
| JoinExtensions.FullOuterJoinKeepsUnmatched | NetStandard2.0/HelpersFrom_Com.H/Link/JoinExtensions.cs:79-88 | unmatched elements of either side appear paired with `default` |
| JoinExtensions.MergeSpec | NetStandard2.0/HelpersFrom_Com.H/Link/JoinExtensions.cs:93-97 | the merge raises exactly when one key carries two different values; otherwise it holds exactly the pairs of both, with distinct keys |
| JoinExtensions.DistinctPairsDistinctKeys | NetStandard2.0/HelpersFrom_Com.H/Link/JoinExtensions.cs:93-97 | without conflicts, two different pairs of the union have different keys |
| Expandos.Put | NetStandard2.0/ExcelExtensions.cs:544 | after `d[key] = v` the key holds v, every other key is unchanged, a new key is appended at the end, an existing key stays in place, and distinct keys stay distinct |
| Expandos.GetIsSomeIffKey | NetStandard2.0/ExcelExtensions.cs:506-544 | a look-up succeeds exactly for the record's keys |
| Expandos.PutPut | NetStandard2.0/ExcelExtensions.cs:506-544 | the second write to a key replaces the first |
| Expandos.KeysAreEntries | NetStandard2.0/ExcelExtensions.cs:506-544 | a key belongs to the record exactly when some entry carries it |
| ExcelReader.NatToStringInverse | NetStandard2.0/ExcelExtensions.cs:493-496 | a number's decimal rendering reads back as that number |
| ExcelReader.ColumnKeyInjective | NetStandard2.0/ExcelExtensions.cs:493-496 | `column_x` names are distinct for distinct x, so the header dictionary of a sheet read without headers never raises |
| ExcelReader.SheetNames | NetStandard2.0/ExcelExtensions.cs:482-485 | the keys of the sheets dictionary are the sheet names, in order |
| ExcelReader.ParseRow | NetStandard2.0/ExcelExtensions.cs:504-546 | the cell loop, from cursor -1 and an empty record, returns the row fold |
| ExcelReader.ParseCell | NetStandard2.0/ExcelExtensions.cs:508-546 | one iteration of the cell loop computes one step of the fold |
| ExcelReader.ParseSheet | NetStandard2.0/ExcelExtensions.cs:504-548 | the row loop returns one record per row, in order, and carries the type cache from row to row |
| ExcelReader.ReadSheet | NetStandard2.0/ExcelExtensions.cs:489-548 | a sheet is read as its column names, then its data rows |
| ExcelReader.ParseExcel | NetStandard2.0/ExcelExtensions.cs:475-557 | the reader returns the sheets' records, or raises on repeated sheet names |
| ExcelReader.ParseSheetsStep | NetStandard2.0/ExcelExtensions.cs:489-551 | a sheet that raises ends the sheet loop with its error; otherwise the loop goes on with its entry appended |
| ExcelReader.ReadSheets | NetStandard2.0/ExcelExtensions.cs:489-551 | the sheet loop returns each sheet's name with its records, in order, or the first error |
| ExcelReader.StoredValueIsCellValue | NetStandard2.0/ExcelExtensions.cs:537-544 | with a null-defaulted type, `value ?? default` is the decoded value itself |
| ExcelReader.GapFillWritesNull | NetStandard2.0/ExcelExtensions.cs:526-535 | the gap loop writes null under the captured name only, whatever the gap's width, and keeps the type cache null-defaulted |
| ExcelReader.StepRaises | NetStandard2.0/ExcelExtensions.cs:510-535 | a cell raises when the next position is past the header count, when its type cannot be inferred, or when it jumps past the header count, and in no other case |
| ExcelReader.StepTypes | NetStandard2.0/ExcelExtensions.cs:512-514 | the type a cell is stored with has a null default, and so does every type the cache holds |
| ExcelReader.StepInPlace | NetStandard2.0/ExcelExtensions.cs:508-546 | a cell that does not jump stores its value under the next column, and the cursor moves one step |
| ExcelReader.StepJump | NetStandard2.0/ExcelExtensions.cs:522-544 | a cell that jumps stores null under the column the cursor reached and its value under its own column; no column in between gets a key |
| ExcelReader.StepKeys | NetStandard2.0/ExcelExtensions.cs:508-546 | after a step every key of the record names a column at or before the cursor |
| ExcelReader.RowFoldKeys | NetStandard2.0/ExcelExtensions.cs:504-548 | the cursor only moves forward, and every key names a column at or before the final cursor |
| ExcelReader.TrailingColumnsAbsent | NetStandard2.0/ExcelExtensions.cs:504-548 | columns after the final cursor never get a key |
| ExcelReader.PositionalStep | NetStandard2.0/ExcelExtensions.cs:508-546 | an unreferenced cell appends its value under the next column |
| ExcelReader.PositionalFrom | NetStandard2.0/ExcelExtensions.cs:508-546 | unreferenced cells are read by position from any point of the row, and raise exactly when they overrun the columns |
| ExcelReader.PositionalRow | NetStandard2.0/ExcelExtensions.cs:508-546 | a row of unreferenced cells is read exactly when it has no more cells than columns, with the i-th value under the i-th column name |
| ExcelReader.HeaderTextsSpec | NetStandard2.0/ExcelExtensions.cs:497-499 | the header dictionary holds the header texts in order, without duplicates, and is built exactly when they are readable and distinct |
| ExcelReader.HeaderNamesSpec | NetStandard2.0/ExcelExtensions.cs:493-501 | column names are distinct; without headers they are `column_0 .. column_{n-2}` for n rows (none raises); with headers, a sheet without rows raises `NullReferenceException` and otherwise the names are the header texts |
| ExcelReader.ReferenceColumn | NetStandard2.0/ExcelExtensions.cs:522 | a reference in column n (one letter) targets position n-1 wherever the cursor is |
| ExcelReader.SparseRowPuts | NetStandard2.0/ExcelExtensions.cs:504-546 | example: the record writes of the A2/E2 row give Col1, Col2 and Col5 in that order |
| ExcelReader.SparseRowFirstCell | NetStandard2.0/ExcelExtensions.cs:504-546 | example: cell A2 is stored under Col1 at position 0 |
| ExcelReader.SparseRowSecondCell | NetStandard2.0/ExcelExtensions.cs:504-546 | example: cell E2 then jumps to position 4: Col2 gets null, Col5 gets the value |
| ExcelReader.SparseRowE2 | NetStandard2.0/ExcelExtensions.cs:504-546 | example: E2 targets position 4 and decodes to its text |
| ExcelReader.SparseRowExample | NetStandard2.0/ExcelExtensions.cs:504-546 | example: a five-column row holding only A2 and E2 reads as Col1, Col2 = null and Col5, with no Col3 or Col4 |
| TypedReader.FirstNamed | NetStandard2.0/ExcelExtensions.cs:570 | the position of the first sheet whose name matches ignoring case, or none when no name matches |
| TypedReader.SelectSheet | NetStandard2.0/ExcelExtensions.cs:570-576 | no sheet only for a workbook without sheets; a matching sheet whenever one exists, else the first sheet |
| TypedReader.Assign | NetStandard2.0/ExcelExtensions.cs:609-621 | only the bound property changes, and never one without a setter: a null value stores the type's default, any other value its converted form, and a failing decode, conversion or store leaves the instance unchanged |
| TypedReader.RowFillLength | NetStandard2.0/ExcelExtensions.cs:595-623 | filling a row keeps one value per property |
| TypedReader.RowFillKeepsUnbound | NetStandard2.0/ExcelExtensions.cs:595-623 | a property no header column is bound to keeps its constructor value |
| TypedReader.RowsFillShape | NetStandard2.0/ExcelExtensions.cs:595-624 | under either loop guard, one instance per data row, each with one value per property |
| TypedReader.FillRow | NetStandard2.0/ExcelExtensions.cs:601-623 | the cell loop, which breaks on `index > hCount` without headers, returns the row fill under the guard as written |
| TypedReader.ParseTyped | NetStandard2.0/ExcelExtensions.cs:559-632 | the typed reader returns its specification's outcome under the guard as written |
| TypedReader.RowsFillStep | NetStandard2.0/ExcelExtensions.cs:595-624 | under either loop guard, a row that raises ends the row loop; otherwise its instance is appended |
| TypedReader.FillRows | NetStandard2.0/ExcelExtensions.cs:595-624 | the row loop returns the instances of the data rows under the guard as written, in order, or the first error |
| TypedReader.TypedHeadersSpec | NetStandard2.0/ExcelExtensions.cs:577-589 | without headers every property is bound in order (none without properties); with headers, no header row or an empty one gives null, and otherwise the bindings are, per header text, one for each property it names ignoring case, or one unbound; with no two names equal ignoring case that is one binding per column |
| TypedReader.BindHeadersSpec | NetStandard2.0/ExcelExtensions.cs:581-587 | when no two property names are equal ignoring case, a header column is bound to the property whose name it equals ignoring case, and to none when no property has that name |
| TypedReader.NamedPositionsSound | NetStandard2.0/ExcelExtensions.cs:583-585 | every position listed for a key lies among the properties and names a property whose upper-cased name is the key |
| TypedReader.NamedPositionsComplete | NetStandard2.0/ExcelExtensions.cs:583-585 | every property whose upper-cased name is the key has its position listed |
| TypedReader.NamedPositionsSorted | NetStandard2.0/ExcelExtensions.cs:583-585 | the positions are listed in increasing property order |
| TypedReader.TextBindingsUnbound | NetStandard2.0/ExcelExtensions.cs:581-586 | a header text gets at least one binding, and a single unbound one exactly when no property name equals it ignoring case; otherwise every binding is to a property |
| TypedReader.TextBindingsSound | NetStandard2.0/ExcelExtensions.cs:581-586 | a header text is bound only to properties whose name equals it ignoring case |
| TypedReader.TextBindingsComplete | NetStandard2.0/ExcelExtensions.cs:581-586 | a header text is bound to every property whose name equals it ignoring case |
| TypedReader.TextBindingsSorted | NetStandard2.0/ExcelExtensions.cs:581-586 | a header text's bindings follow the property order |
| TypedReader.MatchingIndexedFrom | NetStandard2.0/HelpersFrom_Com.H/Link/JoinExtensions.cs:26-38 | the join's matches among the indexed properties are exactly the listed named positions, in the same order |
| TypedReader.GroupIsTextBindings | NetStandard2.0/ExcelExtensions.cs:581-586 | a header text's group in the left join is its bindings |
| TypedReader.BindHeadersAll | NetStandard2.0/ExcelExtensions.cs:577-587 | for any property names, the numbered join results are each header text's bindings in column order, so two properties whose names differ only in case bind one column twice and shift every later column by one |
| TypedReader.CaseEqualNamesShiftColumns | NetStandard2.0/ExcelExtensions.cs:577-587 | example: headers `id`, `name` against properties `Id`, `ID`, `Name` give three bindings, so the `name` column is bound to `ID` |
| TypedReader.WrittenGuardRaises | NetStandard2.0/ExcelExtensions.cs:604-608 | with the guard as written, an unreferenced row raises exactly when it has as many cells as the columns left, or more |
| TypedReader.IntendedGuardNeverRaises | NetStandard2.0/ExcelExtensions.cs:604-608 | with the corrected guard an unreferenced row never raises |
| TypedReader.ParseTypedOutcomes | NetStandard2.0/ExcelExtensions.cs:559-632 | under either loop guard: repeated sheet names raise; no sheet, no property without headers, or no header row give null; otherwise one instance per data row, each with one value per property |
| TypedReader.RowsFillWrittenRaises | NetStandard2.0/ExcelExtensions.cs:595-624 | without headers or cell references, the row loop as written fails exactly when some row has more cells than there are properties, and then with `KeyNotFoundException` |
| TypedReader.RowsFillIntendedReads | NetStandard2.0/ExcelExtensions.cs:595-624 | without headers or cell references, the row loop under the corrected guard never fails |
| TypedReader.ParseTypedWrittenRaises | NetStandard2.0/ExcelExtensions.cs:559-632 | `ParseExcel<T>` as written, without headers on a sheet without cell references, raises `KeyNotFoundException` exactly when some row has more cells than T has properties, and succeeds exactly when none has |
| TypedReader.ParseTypedIntendedReads | NetStandard2.0/ExcelExtensions.cs:559-632 | under the corrected guard the same reading always succeeds, with one instance per row |
| DataMapping.ExpandoProps | NetStandard2.0/HelpersFrom_Com.H/Reflection/ReflectionExtensions.cs:59-66 | an ExpandoObject has one property per entry, named by its key, typed by its value's runtime type, and writable |
| DataMapping.Store | NetStandard2.0/HelpersFrom_Com.H/Reflection/DataMapper.cs:74-84 | assigning never changes the number of properties |
| DataMapping.StorePointwise | NetStandard2.0/HelpersFrom_Com.H/Reflection/DataMapper.cs:65-84 | each property's final value depends only on the join results aimed at it |
| DataMapping.StoreAtAppend | NetStandard2.0/HelpersFrom_Com.H/Reflection/DataMapper.cs:65-84 | assigning from two runs of results is assigning from one, then the other |
| DataMapping.StoreAtElsewhere | NetStandard2.0/HelpersFrom_Com.H/Reflection/DataMapper.cs:65-84 | results aimed at other properties leave a property unchanged |
| DataMapping.StoreAtJoin | NetStandard2.0/HelpersFrom_Com.H/Reflection/DataMapper.cs:65-84 | only the property's own group of join results affects it |
| DataMapping.JoinFrom | NetStandard2.0/HelpersFrom_Com.H/Reflection/DataMapper.cs:65-84 | the join from a property on is its group followed by the join of the rest |
| DataMapping.GroupTargets | NetStandard2.0/HelpersFrom_Com.H/Reflection/DataMapper.cs:65-84 | every result of a property's group is aimed at that property |
| DataMapping.StoreJoinOn | NetStandard2.0/HelpersFrom_Com.H/Reflection/DataMapper.cs:65-84 | a property's final value is what its own group assigns to its initial value |
| DataMapping.JoinedStoreUnmatched | NetStandard2.0/HelpersFrom_Com.H/Reflection/DataMapper.cs:65-84 | a property no source item names takes what the unmatched result assigns, or keeps its value |
| DataMapping.JoinedStoreMatched | NetStandard2.0/HelpersFrom_Com.H/Reflection/DataMapper.cs:65-84 | a property exactly one source item names takes what that pairing assigns, or keeps its value when the assignment fails |
| DataMapping.StoreAtSkipped | NetStandard2.0/HelpersFrom_Com.H/Reflection/DataMapper.cs:74-84 | results that store nothing leave a property's value unchanged |
| DataMapping.StoreReadOnly | NetStandard2.0/HelpersFrom_Com.H/Reflection/DataMapper.cs:74-84 | a property whose every assignment raises keeps its value, however many source items name it |
| DataMapping.MatchingOnly | NetStandard2.0/HelpersFrom_Com.H/Reflection/DataMapper.cs:65-84 | a key carried by one inner element only has that element as its whole group |
| DataMapping.DataMapper.constructor | NetStandard2.0/HelpersFrom_Com.H/Reflection/DataMapper.cs:13-14 | the cache starts empty |
| DataMapping.DataMapper.GetCachedProperties | NetStandard2.0/HelpersFrom_Com.H/Reflection/DataMapper.cs:17-23 | a null type raises and leaves the cache alone; a cached type's entry is returned unchanged; any other type is listed and cached |
| DataMapping.DataMapper.GetCachedObjectProperties | NetStandard2.0/HelpersFrom_Com.H/Reflection/DataMapper.cs:24-30 | a null object raises; an ExpandoObject's entries are returned without touching the cache; any other object goes through its type's cache entry |
| DataMapping.DataMapper.AssignAll | NetStandard2.0/HelpersFrom_Com.H/Reflection/DataMapper.cs:74-84 | the assignment loop computes the assignment of every join result in order, skipping failures |
| DataMapping.DataMapper.Map | NetStandard2.0/HelpersFrom_Com.H/Reflection/DataMapper.cs:54-86 | null maps to null; a dictionary is mapped key by key; any other object through `MapNormal`; the cache gains the types involved |
| DataMapping.DataMapper.MapNormal | NetStandard2.0/HelpersFrom_Com.H/Reflection/DataMapper.cs:88-131 | the new instance holds the mapped values (those `DataMapping.MapNormalSpec` describes), and both types are cached |
| DataMapping.DataMapper.FillWith | NetStandard2.0/HelpersFrom_Com.H/Reflection/DataMapper.cs:138-177 | a null side changes nothing; otherwise the destination takes the filled values and both types are cached |
| DataMapping.MapEntriesSpec | NetStandard2.0/HelpersFrom_Com.H/Reflection/DataMapper.cs:54-86 | a property no key names keeps its constructor value; one key naming it gives that key's converted value, or the constructor value when the conversion or the store fails; a property without a setter always keeps its constructor value |
| DataMapping.MapNormalSpec | NetStandard2.0/HelpersFrom_Com.H/Reflection/DataMapper.cs:88-131 | a property no source property names keeps its value; a null source value is skipped; a value of the same type is stored as it is; any other is converted, and the property kept when the conversion or the store fails; a property without a setter always keeps its value |
| DataMapping.FillValuesSpec | NetStandard2.0/HelpersFrom_Com.H/Reflection/DataMapper.cs:138-177 | an unmatched property is untouched under `skipNull` and reset to its type's default otherwise; a matched one takes the converted value, or is untouched when the conversion or the store fails; a property without a setter is always untouched |
| ExcelWriter.Kept | NetStandard2.0/ExcelExtensions.cs:378-381 | the records written are records of the collection that have at least one property, and are never more than the collection |
| ExcelWriter.KeptMembers | NetStandard2.0/ExcelExtensions.cs:378-381 | a record is written exactly when it is a non-null record of the collection with at least one property |
| ExcelWriter.KeptAppend | NetStandard2.0/ExcelExtensions.cs:378-381 | keeping distributes over concatenation, so records are written in the collection's order |
| ExcelWriter.FillSheetData | NetStandard2.0/ExcelExtensions.cs:376-432 | the record loop appends the sheet's rows |
| ExcelWriter.SheetRowsUnfold | NetStandard2.0/ExcelExtensions.cs:378-432 | a skipped record appends nothing; the first record written appends the header row (unless excluded) before its data row; later ones append their data row only |
| ExcelWriter.WriteExcel | NetStandard2.0/ExcelExtensions.cs:329-458 | the sheet loop returns the written workbook, or raises on an empty sheet name |
| ExcelWriter.SheetRowsSpec | NetStandard2.0/ExcelExtensions.cs:376-432 | a sheet's rows are the header row of the first record written (unless excluded or already set), then one data row per record written, in order |
| ExcelWriter.WriteExcelSpecOutcome | NetStandard2.0/ExcelExtensions.cs:329-458 | raises `InvalidDataException` exactly when some sheet name is empty; otherwise sheet k (0-based) is the k-th collection's, named by its key and numbered k+1, empty for a null collection, and the cell formats are 0 and 15 |
| ExcelWriter.SheetRowsSameTags | NetStandard2.0/ExcelExtensions.cs:396-428 | the rows depend on the type-to-tag table only through its values |
| ExcelWriter.WrittenSheetsSameTags | NetStandard2.0/ExcelExtensions.cs:396-428 | so do the sheets |
| ExcelWriter.SheetRowsHaveNoReferences | NetStandard2.0/ExcelExtensions.cs:385-428 | no written cell carries a cell reference |
| ComExcelWriter.GetOpenXmlTypeTotal | Com.H.Excel/ExcelExtensions.cs:21-49 | every type outside the table is written as `String`, and the table agrees with the NetStandard2.0 one |
| ComExcelWriter.WriteExcel | Com.H.Excel/ExcelExtensions.cs:166-302 | the sheet loop of this package writes every collection, whatever its name |
| ComExcelWriter.WritersAgree | Com.H.Excel/ExcelExtensions.cs:195-281 | the two writers produce the same workbook wherever the NetStandard2.0 one does not raise; this one writes sheet k named by its key and numbered k+1, empty names included |
| RoundTrip.FieldNames | NetStandard2.0/ExcelExtensions.cs:385-391 | the header texts are the record's property names, in order |
| RoundTrip.ReadBackType | NetStandard2.0/ExcelExtensions.cs:18-64 | a written type reads back as `bool?` when tagged Boolean, as `string` when tagged String, and as `decimal?` otherwise (dates included) |
| RoundTrip.WrittenCellDecodes | NetStandard2.0/ExcelExtensions.cs:396-425 | a written cell has no reference, carries its type's tag, and decodes without error to what the written value reads back as |
| RoundTrip.BooleanReadsBackFalse | NetStandard2.0/ExcelExtensions.cs:746-747 | a boolean written as "True" or "False" reads back as false |
| RoundTrip.HeaderRowReadsBack | NetStandard2.0/ExcelExtensions.cs:383-393 | the written header row reads back as the property names exactly when they are distinct |
| RoundTrip.ReadRecords | NetStandard2.0/ExcelExtensions.cs:504-548 | one record read back per record written |
| RoundTrip.DataRowReadsBack | NetStandard2.0/ExcelExtensions.cs:427-428 | a written data row reads back exactly when it fits the columns, with its i-th value under the i-th column name |
| RoundTrip.RowFoldKeepsTypes | NetStandard2.0/ExcelExtensions.cs:512-514 | reading a row keeps the type cache null-defaulted |
| RoundTrip.RecordRowsReadBack | NetStandard2.0/ExcelExtensions.cs:504-548 | written data rows of records with the header's names read back as those records, in order |
| RoundTrip.SheetReadsBack | NetStandard2.0/ExcelExtensions.cs:493-548 | a written sheet reads back as the first record's property names and the written records; a sheet with no record written raises `NullReferenceException` on reading |
| RoundTrip.ReadSheets | NetStandard2.0/ExcelExtensions.cs:475-557 | one entry per collection read back |
| RoundTrip.ParseSheetsReadBack | NetStandard2.0/ExcelExtensions.cs:489-551 | the reader's sheet loop over written sheets returns each collection's name with its records read back |
| RoundTrip.WorkbookReadsBack | NetStandard2.0/ExcelExtensions.cs:329-557 | writing with headers and reading back with headers returns the sheet names in order, each with its records: names restored, values as decoded |

## Left out

- Streams, files, temp files and their clean-up (`ToExcelReader`, `ToExcelTempFile`, the `finally` blocks): I/O.
- OpenXml package mechanics: `SpreadsheetDocument`, workbook parts, part ids, and the borders, fills and fonts of the stylesheet. These are foreign library calls; a workbook is modelled as its sheets, cell formats and shared strings.
- Culture-dependent rendering and parsing, and floating point (`ToString`, `ToOADate`, `FromOADate`, the `TryParse` family): abstract parameters. The OLE Automation date range itself is part of the date parse parameter. `int.Parse` of a shared-string index that overflows is folded into the parse failing.
- Reflection, `Convert.ChangeType` and `PropertyInfo.SetValue`: an abstract conversion parameter and function fields of the mapper. `DynamicPropertyInfo` is reduced to a name, a type and a setter that is always there.
- The default of a value type outside the type table: it is an opaque zero value per type (`Clr.Zero`), not the type's actual zero (`0`, `'\0'`, `Guid.Empty`, ...).
- `LeftJoin`'s skipping of null keys by `GroupJoin`: keys are modelled as strings that are never null. Every key joined here is a property name, a dictionary key or a header text, none of which is null.
- TypedReader.BindHeadersSpec: covers properties whose names differ ignoring case; any property names are covered by `TypedReader.BindHeadersAll` and the `TextBindings` lemmas.
- `Obj.Dynamic` stands for an object whose runtime type is exactly `ExpandoObject`, which is what `GetCachedProperties(object)` tests (`DataMapper.cs:27`). `Map` takes any `IDictionary<string, object>` as a dictionary (`DataMapper.cs:58`); a dictionary of another type passed to `GetCachedObjectProperties` would have its own CLR properties reflected, which is not modelled.
- DataMapping.DataMapper.Map: a null source gives `None`, which stands for null; for a struct T the code returns `default(T)`, a zeroed instance, which is not modelled.
- CellReader.FormatIdAt: a workbook without a styles part and a stylesheet without `CellFormats` are one case here, raising `NullReferenceException`; in the second case the code's `ElementAt` raises `ArgumentNullException` instead.
- TypedReader.Assign: models T as a class. For a struct T, every `SetValue` writes into a boxed copy, so the instances returned keep their constructor values.
- The thread-safety of the mapper's `ConcurrentDictionary` cache: concurrency.
- `ParseExcelDepricated`: superseded, and nothing calls it.
- The generic `WriteExcel<T>` overloads: they only convert their argument before calling the writer modelled here.
- `Map<T>(IEnumerable)`, `Map(object, Type)`, `Clone` and the mapper's column-name filtering: not used by the reader or the writer.
- `FillWith` on an ExpandoObject destination: not used by the reader or the writer.
- The writer's records: their properties are taken as given field lists. The writer's own use of the shared mapper cache is not modelled; `DataMapping.DataMapper.GetCachedObjectProperties` models that cache on its own.
- Culture-sensitive case mapping and regular-expression case-insensitivity: upper-casing is ASCII.
- The `cell == null` branch of the reader: a row's cells are never null.
- Formula text and non-cell children of a row.
- Object identity: instances are values, so aliasing between instances is not modelled. `JoinExtensions.FullOuterJoin` therefore removes duplicates by value, where `Union` compares a class result by reference and would keep two equal results that are distinct objects.
- CellReader.GetCellColIndexSpec: states the bijective base-26 value only for references of up to six letters, where the 32-bit fold does not wrap (`CellReader.ColumnFoldSnoc` gives the wrapped fold for any length).
- DataMapping.MapEntriesSpec: covers properties that no key, or exactly one key, names ignoring case; with several, the last assignment wins. It models T as a class: for a struct T, every `SetValue` writes into a boxed copy and is lost.
- DataMapping.MapNormalSpec: covers properties that no source property, or exactly one, names ignoring case. It models T as a class: for a struct T, every `SetValue` writes into a boxed copy and is lost.
- DataMapping.FillValuesSpec: covers properties that no source property, or exactly one, names ignoring case. It models a destination of a class type: for a struct, the destination is boxed when passed, so the caller's value never changes.
- RoundTrip.WorkbookReadsBack: covers workbooks written with headers from collections whose written records share the same distinct property names.
- ExcelReader.PositionalRow: covers rows whose cells carry no reference; referenced cells are covered by `ExcelReader.StepJump` and `ExcelReader.StepInPlace`.

## Findings

| source | as written | input that shows it | evidently intended | confidence | as-written member | corrected member |
|---|---|---|---|---|---|---|
| NetStandard2.0/HelpersFrom_Com.H/Text/TextExtensions.cs:16-21 | `EqualsIgnoreCase` reaches `IsNullEqual` through the null-conditional `?.` on the receiver. A null receiver short-circuits to null, so `IsNullEqual` is never called. The `??` fall-back then upper-cases the null receiver and raises `NullReferenceException` | `EqualsIgnoreCase(null, null)`, which `IsNullEqual` decides as true | null cases decided by `IsNullEqual`: two nulls equal, one null unequal | not executed | TextExtensions.EqualsIgnoreCaseNullReceiverThrows | TextExtensions.EqualsIgnoreCaseIntended |
| NetStandard2.0/ExcelExtensions.cs:604-608 | the row loop of `ParseExcel<T>` breaks on `index > hCount && noHeaders`, so `index == hCount` reaches `headers[index]` outside the `try` and raises `KeyNotFoundException` | a sheet read with `noHeaders` whose row has one unreferenced cell more than T has properties (`TypedReader.WrittenGuardRaises` shows the same for one row) | break on `index >= hCount`, ignoring the extra cells | not executed | TypedReader.ParseTypedWrittenRaises | TypedReader.ParseTypedIntendedReads |
