/** Input checks (frontend/temp_repo/backend/utils/validation.js): the
    email pattern `^[^\s@]+@[^\s@]+\.[^\s@]+$` on the trimmed text, and the
    password strength rule. */
module Validation {
  import opened Text

  /** A JavaScript argument: a string, or anything else (`undefined`,
      `null`, a number, an object). */
  datatype Value = Str(s: string) | NonString

  /** `[^\s@]+`: one or more characters, none of them whitespace or `@`. */
  predicate Atom(s: string) {
    |s| > 0 && forall i :: 0 <= i < |s| ==> !IsWhitespace(s[i]) && s[i] != '@'
  }

  /** The language of `^[^\s@]+@[^\s@]+\.[^\s@]+$`: an atom, `@`, an atom,
      `.`, an atom. */
  predicate MatchesEmailPattern(t: string) {
    exists i, k :: 0 <= i < k < |t| && t[i] == '@' && t[k] == '.' && Atom(t[..i]) && Atom(t[i + 1..k]) && Atom(t[k + 1..])
  }

  /** `isValidEmail`: a non-empty string whose trimmed text matches the
      pattern. */
  function IsValidEmail(v: Value): (ok: bool)
    ensures v == NonString || v == Str("") ==> !ok
    ensures v.Str? && v.s != "" ==> (ok <==> MatchesEmailPattern(Trim(v.s)))
  {
    v.Str? && v.s != "" && MatchesEmailPattern(Trim(v.s))
  }

  predicate NoWhitespace(t: string) {
    forall i :: 0 <= i < |t| ==> !IsWhitespace(t[i])
  }

  /** A `.` in the domain that is neither its first nor its last
      character. */
  predicate DotInside(d: string) {
    exists k :: 0 < k < |d| - 1 && d[k] == '.'
  }

  /** The pattern in words: no whitespace, exactly one `@` with something
      before it, and a domain after it holding a `.` that is neither its
      first nor its last character. */
  predicate OneAtDottedDomain(t: string) {
    NoWhitespace(t)
    && exists i :: 0 < i < |t| && t[i] == '@' && '@' !in t[..i] && '@' !in t[i + 1..] && DotInside(t[i + 1..])
  }

  lemma AtomsJoin(t: string, i: int, k: int)
    requires 0 <= i < k < |t| && t[i] == '@' && t[k] == '.'
    requires Atom(t[..i]) && Atom(t[i + 1..k]) && Atom(t[k + 1..])
    ensures NoWhitespace(t) && '@' !in t[..i] && '@' !in t[i + 1..] && DotInside(t[i + 1..])
  {
    VisibleAsciiNotWhitespace('@');
    VisibleAsciiNotWhitespace('.');
    forall j | 0 <= j < |t| ensures !IsWhitespace(t[j]) && (j != i ==> t[j] != '@') {
      if j < i {
        assert t[j] == t[..i][j];
      } else if i < j < k {
        assert t[j] == t[i + 1..k][j - i - 1];
      } else if k < j {
        assert t[j] == t[k + 1..][j - k - 1];
      }
    }
    assert t[i + 1..][k - i - 1] == '.';
  }

  lemma AtomsSplit(t: string, i: int, k: int)
    requires NoWhitespace(t) && 0 < i < |t| && t[i] == '@' && '@' !in t[..i] && '@' !in t[i + 1..]
    requires 0 < k < |t[i + 1..]| - 1 && t[i + 1..][k] == '.'
    ensures Atom(t[..i]) && Atom(t[i + 1..i + 1 + k]) && Atom(t[i + 1 + k + 1..])
  {
    var d := t[i + 1..];
    assert t[i + 1..i + 1 + k] == d[..k];
    assert t[i + 1 + k + 1..] == d[k + 1..];
    forall j | 0 <= j < |d| ensures !IsWhitespace(d[j]) && d[j] != '@' {
      assert d[j] == t[i + 1 + j];
      assert d[j] in d;
    }
    forall j | 0 <= j < i ensures t[..i][j] != '@' {
      assert t[..i][j] in t[..i];
    }
  }

  /** A text that matches the pattern has one `@` and a dotted domain. */
  lemma PatternHasDottedDomain(t: string)
    requires MatchesEmailPattern(t)
    ensures OneAtDottedDomain(t)
  {
    var i, k :| 0 <= i < k < |t| && t[i] == '@' && t[k] == '.' && Atom(t[..i]) && Atom(t[i + 1..k]) && Atom(t[k + 1..]);
    AtomsJoin(t, i, k);
    assert 0 < i;
  }

  /** A text with one `@` and a dotted domain matches the pattern. */
  lemma DottedDomainMatches(t: string)
    requires OneAtDottedDomain(t)
    ensures MatchesEmailPattern(t)
  {
    var i :| 0 < i < |t| && t[i] == '@' && '@' !in t[..i] && '@' !in t[i + 1..] && DotInside(t[i + 1..]);
    var k :| 0 < k < |t[i + 1..]| - 1 && t[i + 1..][k] == '.';
    AtomsSplit(t, i, k);
    assert t[i + 1 + k] == '.';
  }

  /** The pattern means what it says in words, in both directions. */
  lemma EmailPatternMeaning(t: string)
    ensures MatchesEmailPattern(t) <==> OneAtDottedDomain(t)
  {
    if MatchesEmailPattern(t) {
      PatternHasDottedDomain(t);
    }
    if OneAtDottedDomain(t) {
      DottedDomainMatches(t);
    }
  }

  /** Surrounding whitespace is ignored: an address padded with spaces is
      valid exactly when the bare address is. */
  lemma PaddedEmail(t: string)
    requires t != "" && Trim(t) == t
    ensures IsValidEmail(Str(" " + t + " ")) == IsValidEmail(Str(t))
  {
    TrimPadded(t);
  }

  lemma TrimPadded(t: string)
    requires t != "" && Trim(t) == t
    ensures Trim(" " + t + " ") == t
  {
    assert !IsWhitespace(t[0]) && !IsWhitespace(t[|t| - 1]);
    PaddedStart(t);
    PaddedEnd(t);
  }

  lemma PaddedStart(t: string)
    requires t != "" && !IsWhitespace(t[0])
    ensures TrimStart(" " + t + " ") == t + " "
  {
    var s := " " + t + " ";
    SpaceIsWhitespace();
    assert s[1..] == t + " ";
    assert (t + " ")[0] == t[0];
  }

  lemma PaddedEnd(t: string)
    requires t != "" && !IsWhitespace(t[|t| - 1])
    ensures TrimEnd(t + " ") == t
  {
    SpaceIsWhitespace();
    assert (t + " ")[..|t|] == t;
  }

  /** `\d`. */
  predicate IsDigit(c: char) {
    '0' <= c <= '9'
  }

  /** `[!@#$%^&*(),.?":{}|<>]`. */
  predicate IsSpecial(c: char) {
    c in "!@#$%^&*(),.?\":{}|<>"
  }

  predicate HasDigit(s: string) {
    exists i :: 0 <= i < |s| && IsDigit(s[i])
  }

  predicate HasSpecial(s: string) {
    exists i :: 0 <= i < |s| && IsSpecial(s[i])
  }

  /** `isStrongPassword`: a string of at least eight characters with a
      digit and a special character. */
  function IsStrongPassword(v: Value): (ok: bool)
    ensures v == NonString || v == Str("") ==> !ok
    ensures v.Str? ==> (ok <==> |v.s| >= 8 && HasDigit(v.s) && HasSpecial(v.s))
  {
    v.Str? && v.s != "" && |v.s| >= 8 && HasDigit(v.s) && HasSpecial(v.s)
  }

  /** Length alone never makes a password strong: one without a digit, or
      without a special character, is weak however long it is. */
  lemma LongPasswordNeedsBothClasses(s: string)
    requires (forall i :: 0 <= i < |s| ==> !IsDigit(s[i])) || (forall i :: 0 <= i < |s| ==> !IsSpecial(s[i]))
    ensures !IsStrongPassword(Str(s))
  {
  }

  /** Letters only: weak at any length, since a letter is neither a digit
      nor a special character. */
  lemma LettersOnlyPasswordWeak(s: string)
    requires forall i :: 0 <= i < |s| ==> 'a' <= s[i] <= 'z' || 'A' <= s[i] <= 'Z'
    ensures !IsStrongPassword(Str(s))
  {
    assert !HasDigit(s);
  }

  /** A strong password stays strong when characters are added at either
      end. */
  lemma StrongPasswordExtends(s: string, before: string, after: string)
    requires IsStrongPassword(Str(s))
    ensures IsStrongPassword(Str(before + s + after))
  {
    var i :| 0 <= i < |s| && IsDigit(s[i]);
    var j :| 0 <= j < |s| && IsSpecial(s[j]);
    var t := before + s + after;
    assert t[|before| + i] == s[i];
    assert t[|before| + j] == s[j];
  }
}
