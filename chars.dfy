/** Character classes of the translator's scanner (ASCII only, as in the "C" locale). */
module Chars {

  /** The value of `Look` before the first character is read (a zero-initialised global). */
  const NUL: char := '\0'

  /** What `Look` holds once the input is exhausted: `getchar` returns EOF (-1), which,
      stored in a signed `char`, is the byte 0xFF. A 0xFF byte in the input reads the same. */
  const EndMarker: char := 255 as char

  const TAB: char := '\t'

  predicate IsAddOp(c: char) { c == '+' || c == '-' }

  predicate IsMulOp(c: char) { c == '*' || c == '/' }

  predicate IsLower(c: char) { 'a' <= c <= 'z' }

  predicate IsUpper(c: char) { 'A' <= c <= 'Z' }

  predicate IsAlpha(c: char) { IsUpper(c) || IsLower(c) }

  predicate IsDigit(c: char) { '0' <= c <= '9' }

  predicate IsAlNum(c: char) { IsAlpha(c) || IsDigit(c) }

  predicate IsWhite(c: char) { c == ' ' || c == TAB }

  /** `toupper`: lower-case letters map to their capitals, everything else is kept. */
  function ToUpper(c: char): (r: char)
    ensures !IsLower(r)
    ensures IsAlpha(r) <==> IsAlpha(c)
    ensures IsDigit(r) <==> IsDigit(c)
    ensures IsWhite(r) <==> IsWhite(c)
    ensures !IsLower(c) ==> r == c
    ensures IsLower(c) ==> r as int == c as int - 32
  {
    if IsLower(c) then (c as int - 32) as char else c
  }

  /** The classes the grammar dispatches on never overlap, and neither the end marker
      nor the line terminator belongs to any of them. */
  lemma ClassesDisjoint(c: char)
    ensures IsWhite(c) ==> !IsAlNum(c) && !IsAddOp(c) && !IsMulOp(c)
    ensures IsAlNum(c) ==> !IsAddOp(c) && !IsMulOp(c)
    ensures IsAddOp(c) ==> !IsMulOp(c)
    ensures c == EndMarker || c == '\n' ==> !IsWhite(c) && !IsAlNum(c) && !IsAddOp(c) && !IsMulOp(c)
  {
  }
}

/** Error reporting: the first `Expected(...)` aborts the whole translation. */
module Diagnostics {

  /** What the translator reported as expected when it aborted. */
  datatype Expect =
    | Name              // "Name Expected" from GetName
    | Integer           // "Integer Expected" from GetNum
    | Char(c: char)     // "'c' Expected" from Match
    | Newline           // "Newline Expected" from Init

  datatype Option<T> = None | Some(value: T)

  /** A step either succeeds with a value or aborts with what it expected. */
  datatype Result<T> = Ok(value: T) | Abort(expected: Expect)

  /** The translator's error flag after a step: the expectation an abort carries, or none. */
  function ErrorOf<T>(r: Result<T>): (e: Option<Expect>)
    ensures e.None? <==> r.Ok?
    ensures r.Abort? ==> e == Some(r.expected)
  {
    match r
    case Ok(_) => None
    case Abort(x) => Some(x)
  }
}
