/** Facts about sequence concatenation, stated once so that proofs working in a
    crowded context can cite them instead of re-deriving them. */
module Sequences {
  /** Cited by `ExcelWriter.FillSheetData`, `JoinExtensions.LeftJoinAppend`,
      `RoundTrip.RecordRowsReadBack`, `RoundTrip.ParseSheetsReadBack` and
      `TextExtensions.LettersOfRun`. */
  lemma AppendAssoc<T>(a: seq<T>, b: seq<T>, c: seq<T>)
    ensures (a + b) + c == a + (b + c)
  {
  }

  /** Cited by `ExcelWriter.FillSheetData`, where the header row and the first
      data row are added together. */
  lemma Append3<T>(a: seq<T>, b: seq<T>, c: seq<T>, d: seq<T>)
    ensures (a + b + c) + d == a + (b + c + d)
  {
  }
}
