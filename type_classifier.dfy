/** The classification tables: which cell type a CLR type is written as, which CLR
    type a cell type reads back as, and which built-in number formats (section
    18.8.30 of ECMA-376 Part 1) stand for dates, integers and decimals. */
module TypeClassifier {
  import opened Wrappers
  import opened Clr
  import opened OpenXml

  /** OpenXmlTypesDic: the fifteen tabled CLR types and the cell type each is written as. */
  const OpenXmlTypesDic: map<ClrType, CellValues> := map[
    StringType := String,
    NullableOf(Int32) := Number,
    NullableOf(Decimal) := Number,
    NullableOf(Double) := Number,
    NullableOf(Single) := Number,
    NullableOf(Int64) := Number,
    NullableOf(Bool) := Boolean,
    NullableOf(DateTime) := Number,
    ValueOf(Int32) := Number,
    ValueOf(Decimal) := Number,
    ValueOf(Double) := Number,
    ValueOf(Single) := Number,
    ValueOf(Int64) := Number,
    ValueOf(Bool) := Boolean,
    ValueOf(DateTime) := Number
  ]

  /** TypeToOpenXmlDic: the CLR type each of four cell types reads back as. */
  const TypeToOpenXmlDic: map<CellValues, ClrType> := map[
    String := StringType,
    Number := NullableOf(Decimal),
    Boolean := NullableOf(Bool),
    Date := NullableOf(DateTime)
  ]

  /** `GetOpenXmlType`: the tabled cell type, `String` for any type outside the table. */
  function GetOpenXmlType(t: ClrType): CellValues {
    if t in OpenXmlTypesDic then OpenXmlTypesDic[t] else String
  }

  /** `GetTypeFromOpenXml`: the tabled CLR type, `string` for any other cell type. */
  function GetTypeFromOpenXml(tag: CellValues): ClrType {
    if tag in TypeToOpenXmlDic then TypeToOpenXmlDic[tag] else StringType
  }

  const DateTimeFormatIds: seq<nat> := [14, 15, 16, 22, 165, 18, 19, 20, 21, 45, 46, 47, 166]
  const IntFormatIds: seq<nat> := [1, 3, 37, 38, 9]
  const DecimalFormatIds: seq<nat> := [2, 4, 39, 40, 10, 11, 48]

  /** The style half of `GetDataTypeOtherThanString`: the date list is tried first,
      then the integer list, then the decimal list; other ids give no type. */
  function FormatFamily(formatId: nat): Option<ClrType> {
    if formatId in DateTimeFormatIds then Some(NullableOf(DateTime))
    else if formatId in IntFormatIds then Some(NullableOf(Int32))
    else if formatId in DecimalFormatIds then Some(NullableOf(Decimal))
    else None
  }

  /** The cell formats `AddDateStyle` installs, by number-format id: index 0 is
      General (0), index 1 is d-mmm-yy (15). */
  const DateStyleFormatIds: seq<nat> := [0, 15]

  /** The table holds exactly the fifteen listed types; every other type is written
      as `String`. Strings are `String`, booleans `Boolean`, every other tabled
      type (numbers and dates alike) `Number`; no other tag is ever produced. */
  lemma GetOpenXmlTypeSpec(t: ClrType)
    ensures t in OpenXmlTypesDic <==> !t.OtherType?
    ensures GetOpenXmlType(t) == String <==> t == StringType || t.OtherType?
    ensures GetOpenXmlType(t) == Boolean <==> t == ValueOf(Bool) || t == NullableOf(Bool)
    ensures GetOpenXmlType(t) == Number <==>
              (t.ValueOf? && t.prim != Bool) || (t.NullableOf? && t.underlying != Bool)
  {
    match t {
      case ValueOf(p) =>
        match p {
          case Int32 => case Int64 => case Decimal => case Double => case Single => case Bool => case DateTime =>
        }
      case NullableOf(p) =>
        match p {
          case Int32 => case Int64 => case Decimal => case Double => case Single => case Bool => case DateTime =>
        }
      case _ =>
    }
  }

  /** String, Number, Boolean and Date read back as string, decimal?, bool? and
      DateTime?; every other tag as string. Every result's default is null. */
  lemma GetTypeFromOpenXmlSpec(tag: CellValues)
    ensures GetTypeFromOpenXml(tag) ==
              match tag
              case Number => NullableOf(Decimal)
              case Boolean => NullableOf(Bool)
              case Date => NullableOf(DateTime)
              case _ => StringType
    ensures NullDefaulted(GetTypeFromOpenXml(tag))
  {
  }

  /** The three format-id lists are pairwise disjoint, so the order in which they
      are tried never changes a classification. */
  lemma FormatIdListsDisjoint(id: nat)
    ensures !(id in DateTimeFormatIds && id in IntFormatIds)
    ensures !(id in DateTimeFormatIds && id in DecimalFormatIds)
    ensures !(id in IntFormatIds && id in DecimalFormatIds)
  {
  }

  /** A format id is classified exactly when one of the lists holds it; the result
      follows the list, is always a nullable type, and General, Fraction,
      Accounting, Text and Currency (0, 12, 44, 49, 164) are left untyped. */
  lemma FormatFamilySpec(id: nat)
    ensures FormatFamily(id) == Some(NullableOf(DateTime)) <==> id in DateTimeFormatIds
    ensures FormatFamily(id) == Some(NullableOf(Int32)) <==> id in IntFormatIds
    ensures FormatFamily(id) == Some(NullableOf(Decimal)) <==> id in DecimalFormatIds
    ensures FormatFamily(id).None? <==> id !in DateTimeFormatIds + IntFormatIds + DecimalFormatIds
    ensures FormatFamily(id).Some? ==> NullDefaulted(FormatFamily(id).value)
    ensures id in {0, 12, 44, 49, 164} ==> FormatFamily(id).None?
  {
  }

  /** Of the two installed cell formats, index 0 is untyped and index 1 is a date format. */
  lemma DateStyleFormats()
    ensures |DateStyleFormatIds| == 2
    ensures FormatFamily(DateStyleFormatIds[0]).None?
    ensures FormatFamily(DateStyleFormatIds[1]) == Some(NullableOf(DateTime))
  {
  }
}
