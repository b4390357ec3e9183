/**
 * The e-mail check of scheduler_app/validators.py: `re.fullmatch` of
 *   \b[A-Za-z0-9._%+-]+@[A-Za-z0-9.-]+\.[A-Z|a-z]{2,}\b
 * against the whole address. `FullMatch` states what a full match of that
 * pattern is; `IsValidEmail` decides it, and `IsValidEmailIffFullMatch`
 * proves that the two agree on every string.
 */
module Validators {
  import opened Wrappers
  import opened PyBuiltins

  /** `[A-Za-z0-9._%+-]`, the local part before '@'. */
  predicate IsLocalChar(ch: char) {
    IsAsciiLetter(ch) || IsAsciiDigit(ch) || ch == '.' || ch == '_' || ch == '%' || ch == '+' || ch == '-'
  }

  /** `[A-Za-z0-9.-]`, the domain between '@' and the last '.'. */
  predicate IsDomainChar(ch: char) {
    IsAsciiLetter(ch) || IsAsciiDigit(ch) || ch == '.' || ch == '-'
  }

  /** `[A-Z|a-z]`: letters and, because the class is written with a bar, '|' as well. */
  predicate IsTldChar(ch: char) {
    IsAsciiLetter(ch) || ch == '|'
  }

  /** `\w` on the characters the three classes admit. */
  predicate IsWordChar(ch: char) {
    IsAsciiLetter(ch) || IsAsciiDigit(ch) || ch == '_'
  }

  predicate AllLocal(s: string) { forall i :: 0 <= i < |s| ==> IsLocalChar(s[i]) }
  predicate AllDomain(s: string) { forall i :: 0 <= i < |s| ==> IsDomainChar(s[i]) }
  predicate AllTld(s: string) { forall i :: 0 <= i < |s| ==> IsTldChar(s[i]) }

  /**
   * The pattern matches all of `s` with '@' at index `at` and the escaped '.'
   * at index `dot`: one or more local characters, '@', one or more domain
   * characters, '.', two or more TLD characters; and both `\b` anchors hold,
   * which at the two ends of the string means the first and the last
   * character are word characters.
   */
  predicate MatchesAt(s: string, at: int, dot: int) {
    && 0 < at && at + 1 < dot && dot + 2 < |s|
    && s[at] == '@' && s[dot] == '.'
    && AllLocal(s[..at]) && AllDomain(s[at + 1..dot]) && AllTld(s[dot + 1..])
    && IsWordChar(s[0]) && IsWordChar(s[|s| - 1])
  }

  /** `re.fullmatch(regex, s)` succeeds: some way of splitting `s` fits the pattern. */
  ghost predicate FullMatch(s: string) {
    exists at, dot :: MatchesAt(s, at, dot)
  }

  /** Index of the first occurrence of `ch` in `s`. */
  function FirstIndex(s: string, ch: char): (r: Option<nat>)
    ensures r.None? ==> forall i :: 0 <= i < |s| ==> s[i] != ch
    ensures r.Some? ==> r.value < |s| && s[r.value] == ch && forall i :: 0 <= i < r.value ==> s[i] != ch
  {
    if s == [] then None
    else if s[0] == ch then Some(0)
    else match FirstIndex(s[1..], ch)
      case None => None
      case Some(k) => Some(k + 1)
  }

  /** Index of the last occurrence of `ch` in `s`. */
  function LastIndex(s: string, ch: char): (r: Option<nat>)
    ensures r.None? ==> forall i :: 0 <= i < |s| ==> s[i] != ch
    ensures r.Some? ==> r.value < |s| && s[r.value] == ch && forall i :: r.value < i < |s| ==> s[i] != ch
  {
    if s == [] then None
    else if s[|s| - 1] == ch then Some(|s| - 1)
    else LastIndex(s[..|s| - 1], ch)
  }

  /**
   * Decides the pattern without searching: neither character class admits
   * '@', so the '@' must be the first one; the TLD class does not admit '.',
   * so the escaped '.' must be the last one.
   */
  predicate IsValidEmail(s: string) {
    match (FirstIndex(s, '@'), LastIndex(s, '.'))
    case (Some(at), Some(dot)) => MatchesAt(s, at, dot)
    case _ => false
  }

  lemma IsValidEmailIffFullMatch(s: string)
    ensures IsValidEmail(s) <==> FullMatch(s)
  {
    if FullMatch(s) {
      var at, dot :| MatchesAt(s, at, dot);
      var first, last := FirstIndex(s, '@'), LastIndex(s, '.');
      assert first == Some(at) by {
        forall i | 0 <= i < at ensures s[i] != '@' {
          assert s[..at][i] == s[i];
        }
      }
      assert last == Some(dot) by {
        forall i | dot < i < |s| ensures s[i] != '.' {
          assert s[dot + 1..][i - dot - 1] == s[i];
        }
      }
    }
  }

  /** `validate_email`: returns normally on a full match, raises ValidationError otherwise. */
  function ValidateEmail(email: string): (r: Option<Exception>)
    ensures r.None? <==> FullMatch(email)
    ensures r.Some? ==> r.value == ValidationError(email + " is not a valid email address")
  {
    IsValidEmailIffFullMatch(email);
    if IsValidEmail(email) then None
    else Some(ValidationError(email + " is not a valid email address"))
  }

  /** Number of occurrences of `ch` in `s`. */
  function Occurrences(s: string, ch: char): nat {
    if s == [] then 0 else (if s[0] == ch then 1 else 0) + Occurrences(s[1..], ch)
  }

  lemma {:induction false} OccurrencesAppend(a: string, b: string, ch: char)
    ensures Occurrences(a + b, ch) == Occurrences(a, ch) + Occurrences(b, ch)
  {
    if a == [] {
      assert a + b == b;
    } else {
      assert (a + b)[1..] == a[1..] + b;
      OccurrencesAppend(a[1..], b, ch);
    }
  }

  lemma {:induction false} NoOccurrences(s: string, ch: char)
    requires forall i :: 0 <= i < |s| ==> s[i] != ch
    ensures Occurrences(s, ch) == 0
  {
    if s != [] {
      NoOccurrences(s[1..], ch);
    }
  }

  /** Every accepted address holds exactly one '@': neither character class admits it. */
  lemma ExactlyOneAt(s: string)
    requires FullMatch(s)
    ensures Occurrences(s, '@') == 1
  {
    var at, dot :| MatchesAt(s, at, dot);
    assert s == s[..at] + [s[at]] + s[at + 1..];
    NoOccurrences(s[..at], '@');
    var rest := s[at + 1..];
    forall i | 0 <= i < |rest| ensures rest[i] != '@' {
      var j := at + 1 + i;
      if j < dot {
        assert s[at + 1..dot][j - at - 1] == s[j];
      } else if j > dot {
        assert s[dot + 1..][j - dot - 1] == s[j];
      }
    }
    NoOccurrences(rest, '@');
    OccurrencesAppend(s[..at], [s[at]], '@');
    OccurrencesAppend(s[..at] + [s[at]], s[at + 1..], '@');
  }

  /**
   * The text after the '@' is a non-empty domain, then '.', then at least two
   * characters that are letters or '|', the last of them a letter.
   */
  lemma AfterAtShape(s: string)
    requires FullMatch(s)
    ensures exists at, dot ::
      && 0 <= at < dot && dot + 2 < |s| && s[at] == '@' && s[dot] == '.'
      && AllTld(s[dot + 1..]) && IsAsciiLetter(s[|s| - 1])
  {
    var at, dot :| MatchesAt(s, at, dot);
    assert s[|s| - 1] == s[dot + 1..][|s| - dot - 2];
  }

  /** Only the pattern's characters occur: a space, for one, anywhere in the address is refused. */
  lemma OnlyPatternCharacters(s: string, i: int)
    requires FullMatch(s) && 0 <= i < |s|
    ensures IsLocalChar(s[i]) || s[i] == '@' || IsTldChar(s[i])
    ensures s[i] != ' '
  {
    var at, dot :| MatchesAt(s, at, dot);
    if i < at {
      assert s[..at][i] == s[i];
    } else if at < i < dot {
      assert s[at + 1..dot][i - at - 1] == s[i];
    } else if dot < i {
      assert s[dot + 1..][i - dot - 1] == s[i];
    }
  }

  /** The `\b` anchors: the address starts with a word character and ends with a letter. */
  lemma BoundaryAnchors(s: string)
    requires FullMatch(s)
    ensures IsWordChar(s[0]) && IsAsciiLetter(s[|s| - 1])
  {
    var at, dot :| MatchesAt(s, at, dot);
    assert s[|s| - 1] == s[dot + 1..][|s| - dot - 2];
  }

  /** Lower-casing keeps an accepted address accepted, so the store only holds matching addresses. */
  lemma LowerKeepsMatch(s: string)
    requires FullMatch(s)
    ensures FullMatch(Lower(s))
  {
    var at, dot :| MatchesAt(s, at, dot);
    var l := Lower(s);
    assert l[..at] == Lower(s[..at]) by { assert forall i :: 0 <= i < at ==> l[..at][i] == Lower(s[..at])[i]; }
    assert forall i :: 0 <= i < at ==> IsLocalChar(l[i]) by {
      forall i | 0 <= i < at ensures IsLocalChar(l[i]) { assert s[..at][i] == s[i]; }
    }
    assert AllLocal(l[..at]);
    forall i | at + 1 <= i < dot ensures IsDomainChar(l[i]) { assert s[at + 1..dot][i - at - 1] == s[i]; }
    assert AllDomain(l[at + 1..dot]);
    forall i | dot + 1 <= i < |s| ensures IsTldChar(l[i]) { assert s[dot + 1..][i - dot - 1] == s[i]; }
    assert AllTld(l[dot + 1..]);
    assert MatchesAt(l, at, dot);
  }

  /** validators.py's own accepted example, via the decision procedure. */
  lemma AcceptsTestAddress()
    ensures FullMatch("testemail@test.com")
  {
    var s := "testemail@test.com";
    assert MatchesAt(s, 9, 14);
  }

  /** A bare name has no '@' and is refused. */
  lemma RefusesBareName()
    ensures !FullMatch("testemail")
  {
    var s := "testemail";
    IsValidEmailIffFullMatch(s);
    assert forall i :: 0 <= i < |s| ==> s[i] != '@';
  }
}
