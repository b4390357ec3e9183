/**
 * The parts of the Python runtime that the scheduling code leans on: the
 * exceptions it raises or catches, and the `str` methods it calls
 * (`upper`, `lower`, `strip`, `isalpha`, `isdigit`), modelled on ASCII text.
 */
module PyBuiltins {

  /** The exception classes raised inside the scheduler, with the message `str(e)` gives. */
  datatype Exception =
    | TypeError(msg: string)
    | ValueError(msg: string)
    | ValidationError(msg: string)
    | IntegrityError                 // a UNIQUE or PRIMARY KEY constraint refused the insert
    | IndexError(msg: string)        // `queryset[0]` on an empty result
    | KeyError(key: string)          // `request.POST[key]` on a missing field

  /** Message Python gives for `[0]` on an empty list. */
  const IndexOutOfRange := "list index out of range"

  predicate IsAsciiUpper(ch: char) { 'A' <= ch <= 'Z' }
  predicate IsAsciiLower(ch: char) { 'a' <= ch <= 'z' }
  predicate IsAsciiLetter(ch: char) { IsAsciiUpper(ch) || IsAsciiLower(ch) }
  predicate IsAsciiDigit(ch: char) { '0' <= ch <= '9' }

  /** Characters `str.isspace()` accepts, restricted to ASCII. */
  predicate IsSpace(ch: char) {
    ch == ' ' || ch == '\t' || ch == '\n' || ch == '\r' || ch == '\U{000B}' || ch == '\U{000C}'
    || ('\U{001C}' <= ch <= '\U{001F}')
  }

  function UpperChar(ch: char): char {
    if IsAsciiLower(ch) then (ch as int - 'a' as int + 'A' as int) as char else ch
  }

  function LowerChar(ch: char): char {
    if IsAsciiUpper(ch) then (ch as int - 'A' as int + 'a' as int) as char else ch
  }

  /** `str.upper()`: every letter raised to upper case, everything else kept in place. */
  function Upper(s: string): (r: string)
    ensures |r| == |s|
    ensures forall i :: 0 <= i < |s| ==> r[i] == UpperChar(s[i])
    ensures forall i :: 0 <= i < |r| ==> !IsAsciiLower(r[i])
  {
    if s == [] then [] else [UpperChar(s[0])] + Upper(s[1..])
  }

  /** `str.lower()`: every letter lowered, everything else kept in place. */
  function Lower(s: string): (r: string)
    ensures |r| == |s|
    ensures forall i :: 0 <= i < |s| ==> r[i] == LowerChar(s[i])
    ensures forall i :: 0 <= i < |r| ==> !IsAsciiUpper(r[i])
  {
    if s == [] then [] else [LowerChar(s[0])] + Lower(s[1..])
  }

  /** Upper-casing distributes over concatenation, so `(dpt + num).upper()` is `dpt.upper() + num.upper()`. */
  lemma UpperAppend(a: string, b: string)
    ensures Upper(a + b) == Upper(a) + Upper(b)
  {
    var l, r := Upper(a + b), Upper(a) + Upper(b);
    assert forall i :: 0 <= i < |l| ==> l[i] == r[i];
  }

  /** Lower-casing twice is lower-casing once. */
  lemma LowerIdempotent(s: string)
    ensures Lower(Lower(s)) == Lower(s)
  {
    var l := Lower(s);
    assert forall i :: 0 <= i < |l| ==> Lower(l)[i] == l[i];
  }

  predicate AllSpace(s: string) {
    forall i :: 0 <= i < |s| ==> IsSpace(s[i])
  }

  /** Number of leading whitespace characters. */
  function LeadingSpace(s: string): (n: nat)
    ensures n <= |s| && AllSpace(s[..n])
    ensures n < |s| ==> !IsSpace(s[n])
  {
    if s == [] || !IsSpace(s[0]) then 0
    else
      var n := 1 + LeadingSpace(s[1..]);
      assert s[..n] == [s[0]] + s[1..][..n - 1];
      n
  }

  /** Length of `s` without its trailing whitespace. */
  function TrailingEnd(s: string): (n: nat)
    ensures n <= |s| && AllSpace(s[n..])
    ensures 0 < n ==> !IsSpace(s[n - 1])
  {
    if s == [] || !IsSpace(s[|s| - 1]) then |s|
    else
      var n := TrailingEnd(s[..|s| - 1]);
      assert s[n..] == s[..|s| - 1][n..] + [s[|s| - 1]];
      n
  }

  /** `str.strip()`: the text between the leading and the trailing whitespace. */
  function Strip(s: string): (r: string)
    ensures exists i, j :: 0 <= i <= j <= |s| && r == s[i..j] && AllSpace(s[..i]) && AllSpace(s[j..])
    ensures r != [] ==> !IsSpace(r[0]) && !IsSpace(r[|r| - 1])
    ensures r == [] ==> AllSpace(s)
  {
    var i := LeadingSpace(s);
    if i == |s| then
      assert s == s[..i];
      s[i..i]
    else
      s[i..TrailingEnd(s)]
  }

  /** `str.isalpha()`: non-empty and made of letters only. */
  predicate IsAlpha(s: string) {
    |s| > 0 && forall i :: 0 <= i < |s| ==> IsAsciiLetter(s[i])
  }

  /** `str.isdigit()`: non-empty and made of digits only. */
  predicate IsDigit(s: string) {
    |s| > 0 && forall i :: 0 <= i < |s| ==> IsAsciiDigit(s[i])
  }
}
