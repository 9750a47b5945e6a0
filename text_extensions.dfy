/** String helpers: case-insensitive equality and letter extraction. Case mapping
    and the regular expression's letter class are taken as ASCII. */
module TextExtensions {
  import opened Wrappers
  import opened Clr
  import opened Sequences

  /** The characters the pattern "[a-z]+" matches when IgnoreCase is set. */
  predicate IsLetter(c: char) {
    'a' <= c <= 'z' || 'A' <= c <= 'Z'
  }

  /** Invariant-culture upper-casing of one character. */
  function UpperChar(c: char): char {
    if 'a' <= c <= 'z' then (c as int - 32) as char else c
  }

  /** `ToUpper(CultureInfo.InvariantCulture)` / `ToUpperInvariant()`. */
  function ToUpper(s: string): string {
    seq(|s|, i requires 0 <= i < |s| => UpperChar(s[i]))
  }

  lemma ToUpperIdempotent(s: string)
    ensures ToUpper(ToUpper(s)) == ToUpper(s)
  {
  }

  // ---------------------------------------------------------------------------
  // IsNullEqual and EqualsIgnoreCase

  /** Null handling shared by the comparisons: true when both are null, false
      when exactly one is, and no verdict (None) when both are present. */
  function IsNullEqual(original: Option<string>, toCompare: Option<string>): (r: Option<bool>)
    ensures r == Some(true) <==> original.None? && toCompare.None?
    ensures r == Some(false) <==> original.None? != toCompare.None?
    ensures r.None? <==> original.Some? && toCompare.Some?
  {
    if original.None? && toCompare.None? then Some(true)
    else if original.None? != toCompare.None? then Some(false)
    else None
  }

  /** `original.EqualsIgnoreCase(toCompare)` as written: the receiver is
      dereferenced through `?.`, so a null receiver skips IsNullEqual and then
      the fall-back `original.ToUpper(...)` throws. */
  function EqualsIgnoreCase(original: Option<string>, toCompare: Option<string>): (r: Result<bool, Exception>)
    ensures original.None? <==> r == Err(NullReference)
    ensures original.Some? && toCompare.None? ==> r == Ok(false)
  {
    match original
    case None => Err(NullReference)
    case Some(o) =>
      match IsNullEqual(original, toCompare)
      case Some(b) => Ok(b)
      case None => Ok(ToUpper(o) == ToUpper(toCompare.value))
  }

  /** A null receiver throws, even when the argument is null too, although the
      helper it meant to consult answers true for that pair. */
  lemma EqualsIgnoreCaseNullReceiverThrows()
    ensures IsNullEqual(None, None) == Some(true)
    ensures EqualsIgnoreCase(None, None) == Err(NullReference)
  {
  }

  /** The comparison the comment beside it describes: IsNullEqual decides every
      case with a null on either side, invariant upper-casing decides the rest. */
  function EqualsIgnoreCaseIntended(original: Option<string>, toCompare: Option<string>): (r: bool)
    ensures original.None? && toCompare.None? ==> r
    ensures original.None? != toCompare.None? ==> !r
    ensures original.Some? && toCompare.Some? ==>
              (r <==> ToUpper(original.value) == ToUpper(toCompare.value))
  {
    match IsNullEqual(original, toCompare)
    case Some(b) => b
    case None => ToUpper(original.value) == ToUpper(toCompare.value)
  }

  /** The intended comparison is an equivalence: reflexive, symmetric, transitive. */
  lemma EqualsIgnoreCaseIntendedIsEquivalence(a: Option<string>, b: Option<string>, c: Option<string>)
    ensures EqualsIgnoreCaseIntended(a, a)
    ensures EqualsIgnoreCaseIntended(a, b) == EqualsIgnoreCaseIntended(b, a)
    ensures EqualsIgnoreCaseIntended(a, b) && EqualsIgnoreCaseIntended(b, c) ==> EqualsIgnoreCaseIntended(a, c)
  {
  }

  /** Wherever the code as written returns, it agrees with the intended comparison;
      in particular for every non-null receiver. */
  lemma EqualsIgnoreCaseAgreesWhenNotNull(original: Option<string>, toCompare: Option<string>)
    ensures original.Some? ==> EqualsIgnoreCase(original, toCompare) == Ok(EqualsIgnoreCaseIntended(original, toCompare))
    ensures EqualsIgnoreCase(original, toCompare).Ok? ==> original.Some?
  {
  }

  // ---------------------------------------------------------------------------
  // ExtractAlphabet

  /** Length of the run of letters at the start of `s`. */
  function LetterRun(s: string): (n: nat)
    ensures n <= |s|
    ensures forall i :: 0 <= i < n ==> IsLetter(s[i])
    ensures n < |s| ==> !IsLetter(s[n])
  {
    if s == [] || !IsLetter(s[0]) then 0 else 1 + LetterRun(s[1..])
  }

  /** The successive matches of "[a-z]+": every maximal run of letters, left to right. */
  function Matches(s: string): (ms: seq<string>)
    decreases |s|
  {
    if s == [] then []
    else if !IsLetter(s[0]) then Matches(s[1..])
    else
      var n := LetterRun(s);
      [s[..n]] + Matches(s[n..])
  }

  /** `Aggregate("", (i, n) => i + n.Value)`: a left fold concatenating the matches. */
  function AppendAll(acc: string, ms: seq<string>): string
    decreases |ms|
  {
    if ms == [] then acc else AppendAll(acc + ms[0], ms[1..])
  }

  /** `ExtractAlphabet`: the concatenated matches of "[a-z]+" (case-insensitive). */
  function ExtractAlphabet(text: string): string {
    AppendAll("", Matches(text))
  }

  /** Reference definition: the letters of `s`, in order, every other character dropped. */
  function Letters(s: string): (r: string)
    ensures |r| <= |s|
    ensures forall c :: c in r ==> IsLetter(c) && c in s
  {
    if s == [] then [] else (if IsLetter(s[0]) then [s[0]] else []) + Letters(s[1..])
  }

  function Flatten(ms: seq<string>): string {
    if ms == [] then "" else ms[0] + Flatten(ms[1..])
  }

  lemma {:induction false} AppendAllIsFlatten(acc: string, ms: seq<string>)
    ensures AppendAll(acc, ms) == acc + Flatten(ms)
    decreases |ms|
  {
    if ms != [] {
      AppendAllIsFlatten(acc + ms[0], ms[1..]);
    }
  }

  lemma {:induction false} LettersOfRun(s: string, n: nat)
    requires n <= |s|
    requires forall i :: 0 <= i < n ==> IsLetter(s[i])
    ensures Letters(s) == s[..n] + Letters(s[n..])
    decreases n
  {
    if n > 0 {
      var tail := s[1..];
      assert forall i :: 0 <= i < n - 1 ==> tail[i] == s[i + 1];
      LettersOfRun(tail, n - 1);
      assert tail[n - 1..] == s[n..] && tail[..n - 1] == s[1..n];
      assert Letters(s) == [s[0]] + Letters(tail);
      assert s[..n] == [s[0]] + s[1..n];
      AppendAssoc([s[0]], s[1..n], Letters(s[n..]));
    }
  }

  lemma {:induction false} FlattenMatchesIsLetters(s: string)
    ensures Flatten(Matches(s)) == Letters(s)
    decreases |s|
  {
    if s == [] {
    } else if !IsLetter(s[0]) {
      FlattenMatchesIsLetters(s[1..]);
    } else {
      var n := LetterRun(s);
      FlattenMatchesIsLetters(s[n..]);
      LettersOfRun(s, n);
    }
  }

  /** ExtractAlphabet returns exactly the letters of its input, in their original
      order: the regular-expression matches, concatenated, are the input with
      every non-letter removed. */
  lemma ExtractAlphabetIsLetters(text: string)
    ensures ExtractAlphabet(text) == Letters(text)
  {
    AppendAllIsFlatten("", Matches(text));
    FlattenMatchesIsLetters(text);
  }

  lemma {:induction false} LettersAppend(a: string, b: string)
    ensures Letters(a + b) == Letters(a) + Letters(b)
    decreases |a|
  {
    if a != [] {
      LettersAppend(a[1..], b);
      assert (a + b)[0] == a[0];
      assert (a + b)[1..] == a[1..] + b;
    } else {
      assert a + b == b;
    }
  }

  lemma {:induction false} LettersOfLettersOnly(s: string)
    requires forall c :: c in s ==> IsLetter(c)
    ensures Letters(s) == s
    decreases |s|
  {
    if s != [] {
      LettersOfLettersOnly(s[1..]);
    }
  }

  lemma {:induction false} LettersEmptyWhenNoLetter(s: string)
    requires forall c :: c in s ==> !IsLetter(c)
    ensures Letters(s) == ""
    decreases |s|
  {
    if s != [] {
      LettersEmptyWhenNoLetter(s[1..]);
    }
  }

  /** What ExtractAlphabet promises: only letters, never longer than the input,
      empty when the input has no letter, idempotent, and distributing over
      concatenation (so letters keep their order and none is dropped). */
  lemma ExtractAlphabetProperties(text: string, more: string)
    ensures forall c :: c in ExtractAlphabet(text) ==> IsLetter(c) && c in text
    ensures |ExtractAlphabet(text)| <= |text|
    ensures (forall c :: c in text ==> !IsLetter(c)) ==> ExtractAlphabet(text) == ""
    ensures ExtractAlphabet(ExtractAlphabet(text)) == ExtractAlphabet(text)
    ensures ExtractAlphabet(text + more) == ExtractAlphabet(text) + ExtractAlphabet(more)
  {
    ExtractAlphabetIsLetters(text);
    ExtractAlphabetIsLetters(more);
    ExtractAlphabetIsLetters(text + more);
    ExtractAlphabetIsLetters(Letters(text));
    LettersOfLettersOnly(Letters(text));
    LettersAppend(text, more);
    if forall c :: c in text ==> !IsLetter(c) {
      LettersEmptyWhenNoLetter(text);
    }
  }
}
