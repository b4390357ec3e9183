/**
 * `datetime.strptime(text, '%H:%M').time()`, the parse the section form goes
 * through. The format compiles to the anchored-at-start pattern
 *   (2[0-3]|[0-1]\d|\d):([0-5]\d|\d)
 * whose first alternative that lets the rest match wins; text left over
 * after the match is an error of its own. A parsed time is the number of
 * minutes after midnight. `\d` is read as an ASCII digit here; Python's
 * also takes other Unicode decimal digits.
 */
module PyTime {
  import opened Wrappers
  import opened PyBuiltins

  function DigitValue(ch: char): nat
    requires IsAsciiDigit(ch)
  {
    ch as nat - '0' as nat
  }

  /** `[0-5]\d|\d` at index `p`: the minute value and the index just after it. */
  function MinuteField(s: string, p: nat): (r: Option<(nat, nat)>)
    ensures r.Some? ==> r.value.0 < 60 && p < r.value.1 <= |s| && r.value.1 <= p + 2
  {
    if p + 1 < |s| && '0' <= s[p] <= '5' && IsAsciiDigit(s[p + 1]) then
      Some((DigitValue(s[p]) * 10 + DigitValue(s[p + 1]), p + 2))
    else if p < |s| && IsAsciiDigit(s[p]) then Some((DigitValue(s[p]), p + 1))
    else None
  }

  /** `2[0-3]|[0-1]\d`: a two-digit hour. */
  predicate TwoDigitHour(s: string)
    requires |s| >= 2
  {
    (s[0] == '2' && '0' <= s[1] <= '3') || ('0' <= s[0] <= '1' && IsAsciiDigit(s[1]))
  }

  /**
   * The whole pattern matched at the start of `s`: hour, minute and the
   * index where the match ends. A two-digit hour is tried first; the
   * one-digit hour is reached by backtracking only when the second
   * character is the ':'.
   */
  function MatchClock(s: string): (r: Option<(nat, nat, nat)>)
    ensures r.Some? ==> r.value.0 < 24 && r.value.1 < 60 && r.value.2 <= |s|
  {
    if |s| >= 3 && TwoDigitHour(s) && s[2] == ':' && MinuteField(s, 3).Some? then
      var m := MinuteField(s, 3).value;
      Some((DigitValue(s[0]) * 10 + DigitValue(s[1]), m.0, m.1))
    else if |s| >= 2 && IsAsciiDigit(s[0]) && s[1] == ':' && MinuteField(s, 2).Some? then
      var m := MinuteField(s, 2).value;
      Some((DigitValue(s[0]), m.0, m.1))
    else None
  }

  /**
   * The parse: minutes after midnight, or the ValueError message. The
   * offending text is quoted with single quotes, as `repr` does for text
   * without quotes or backslashes.
   */
  function ParseClock(s: string): (r: Result<nat, string>)
    ensures r.Success? ==> r.value < 24 * 60
    ensures r.Success? <==> MatchClock(s).Some? && MatchClock(s).value.2 == |s|
  {
    match MatchClock(s)
    case None => Failure("time data '" + s + "' does not match format '%H:%M'")
    case Some((h, m, e)) =>
      if e != |s| then Failure("unconverted data remains: " + s[e..])
      else Success(h * 60 + m)
  }

  function Digit(n: nat): char
    requires n < 10
  {
    ('0' as nat + n) as char
  }

  /** How an HTML time input sends a time: two-digit hour, ':', two-digit minute. */
  function FormatClock(minutes: nat): (r: string)
    requires minutes < 24 * 60
    ensures |r| == 5 && r[2] == ':'
  {
    var h, m := minutes / 60, minutes % 60;
    [Digit(h / 10), Digit(h % 10), ':', Digit(m / 10), Digit(m % 10)]
  }

  /** Every time the form can send parses back to itself. */
  lemma ParseFormatClock(minutes: nat)
    requires minutes < 24 * 60
    ensures ParseClock(FormatClock(minutes)) == Success(minutes)
  {
    var s := FormatClock(minutes);
    var h, m := minutes / 60, minutes % 60;
    assert DigitValue(s[0]) == h / 10 && DigitValue(s[1]) == h % 10;
    assert DigitValue(s[3]) == m / 10 && DigitValue(s[4]) == m % 10;
    assert TwoDigitHour(s);
  }

  /** A one-digit hour is accepted. */
  lemma ParseClockOneDigitHour()
    ensures ParseClock("9:05") == Success(545)
  {
    assert !TwoDigitHour("9:05");
  }

  /** An hour of 24 does not match `%H`. */
  lemma ParseClockRejectsHour24()
    ensures ParseClock("24:00") == Failure("time data '" + "24:00" + "' does not match format '%H:%M'")
  {
    var late := "24:00";
    assert late[1] == '4' && !TwoDigitHour(late);
    assert MatchClock(late) == None;
  }

  /** A minute of 60 matches `%M` as "6", leaving the "0" unconverted. */
  lemma ParseClockRejectsMinute60()
    ensures ParseClock("12:60") == Failure("unconverted data remains: 0")
  {
    var over := "12:60";
    assert over[3] == '6' && MinuteField(over, 3) == Some((6, 4));
    assert MatchClock(over) == Some((12, 6, 4));
    assert over[4..] == "0";
    assert "unconverted data remains: " + "0" == "unconverted data remains: 0";
  }
}
