/**
 * `piiSuspected` of the process-creation route: a string is suspected of
 * carrying personal data when the e-mail pattern or the phone pattern finds a
 * match anywhere in it (`RegExp.prototype.test`, unanchored).
 *
 * Each pattern is stated declaratively: `test` reports whether SOME span of the
 * string matches, so a pattern holds of a string exactly when there are
 * positions that cut it into the pieces the pattern asks for. Positions are
 * indexes between characters, from 0 to |s|.
 */
module PiiGuard {
  import opened Text

  // ---------------------------------------------------------------------
  // Pattern pieces
  // ---------------------------------------------------------------------

  /** `\b` at position p: exactly one of the characters around p is a word
      character (outside the string counts as a non-word character). */
  predicate Boundary(s: string, p: nat)
    requires p <= |s|
  {
    (0 < p && IsWordChar(s[p - 1])) != (p < |s| && IsWordChar(s[p]))
  }

  /** `\d{lo,hi}` spanning s[i..j]. */
  predicate DigitRun(s: string, i: nat, j: nat, lo: nat, hi: nat) {
    && i + lo <= j <= i + hi
    && j <= |s|
    && forall k :: i <= k < j ==> IsDigit(s[k])
  }

  /** `c?` spanning s[i..j]. */
  predicate OptChar(s: string, i: nat, j: nat, c: char) {
    (j == i && i <= |s|) || (j == i + 1 && i < |s| && s[i] == c)
  }

  /** `[\s-]` */
  predicate IsSeparator(c: char) {
    IsSpace(c) || c == '-'
  }

  /** `[\s-]?` spanning s[i..j]. */
  predicate OptSeparator(s: string, i: nat, j: nat) {
    (j == i && i <= |s|) || (j == i + 1 && i < |s| && IsSeparator(s[i]))
  }

  // ---------------------------------------------------------------------
  // The e-mail pattern  /\b[A-Z0-9._%+-]+@[A-Z0-9.-]+\.[A-Z]{2,}\b/i
  // ---------------------------------------------------------------------

  /** `[A-Z0-9._%+-]` under the `i` flag. */
  predicate IsLocalChar(c: char) {
    IsAsciiLetter(c) || IsDigit(c) || c == '.' || c == '_' || c == '%' || c == '+' || c == '-'
  }

  /** `[A-Z0-9.-]` under the `i` flag. */
  predicate IsDomainChar(c: char) {
    IsAsciiLetter(c) || IsDigit(c) || c == '.' || c == '-'
  }

  /** The e-mail pattern matches s[i..j] with its '@' at `at` and the dot
      before the top-level label at `dot`. */
  predicate EmailAt(s: string, i: nat, at: nat, dot: nat, j: nat) {
    && i < at && at + 1 < dot && dot + 3 <= j && j <= |s|
    && (forall k :: i <= k < at ==> IsLocalChar(s[k]))
    && s[at] == '@'
    && (forall k :: at < k < dot ==> IsDomainChar(s[k]))
    && s[dot] == '.'
    && (forall k :: dot < k < j ==> IsAsciiLetter(s[k]))
    && Boundary(s, i) && Boundary(s, j)
  }

  /** `email.test(s)` */
  predicate EmailFound(s: string) {
    exists j: nat, dot: nat, at: nat, i: nat | j <= |s| && dot < j && at < dot && i < at ::
      EmailAt(s, i, at, dot, j)
  }

  // ---------------------------------------------------------------------
  // The phone pattern
  //   /(\+?\d{1,3}[\s-]?)?(\(?\d{2,3}\)?[\s-]?)?\d{3}[\s-]?\d{2}[\s-]?\d{2}|\b\d{10}\b/
  // ---------------------------------------------------------------------

  /** `\+?\d{1,3}[\s-]?` spanning s[i..j]: an international prefix. */
  predicate CountryCode(s: string, i: nat, j: nat) {
    exists m: nat, n: nat | i <= m <= n <= j ::
      OptChar(s, i, m, '+') && DigitRun(s, m, n, 1, 3) && OptSeparator(s, n, j)
  }

  /** `\(?\d{2,3}\)?[\s-]?` spanning s[i..j]: an area code. */
  predicate AreaCode(s: string, i: nat, j: nat) {
    exists m: nat, n: nat, o: nat | i <= m <= n <= o <= j ::
      OptChar(s, i, m, '(') && DigitRun(s, m, n, 2, 3) && OptChar(s, n, o, ')') && OptSeparator(s, o, j)
  }

  /** `\d{3}[\s-]?\d{2}[\s-]?\d{2}` spanning s[i..j], cut at a, b, c, d:
      three digits, an optional separator, two digits, an optional
      separator, two digits. */
  predicate SubscriberSplit(s: string, i: nat, a: nat, b: nat, c: nat, d: nat, j: nat) {
    && DigitRun(s, i, a, 3, 3) && OptSeparator(s, a, b)
    && DigitRun(s, b, c, 2, 2) && OptSeparator(s, c, d)
    && DigitRun(s, d, j, 2, 2)
  }

  /** `\d{3}[\s-]?\d{2}[\s-]?\d{2}` spanning s[i..j]: the mandatory 3+2+2
      digit core of the first alternative. */
  predicate Subscriber(s: string, i: nat, j: nat) {
    exists a: nat, b: nat, c: nat, d: nat | i <= a <= b <= c <= d <= j ::
      SubscriberSplit(s, i, a, b, c, d, j)
  }

  /** `(\+?\d{1,3}[\s-]?)?` spanning s[i..j]. */
  predicate OptCountryCode(s: string, i: nat, j: nat) {
    (j == i && i <= |s|) || CountryCode(s, i, j)
  }

  /** `(\(?\d{2,3}\)?[\s-]?)?` spanning s[i..j]. */
  predicate OptAreaCode(s: string, i: nat, j: nat) {
    (j == i && i <= |s|) || AreaCode(s, i, j)
  }

  /** The first alternative spans s[i..j]: optional prefix, optional area
      code, then the core. */
  predicate PhoneFirstAt(s: string, i: nat, j: nat) {
    exists p: nat, q: nat | i <= p <= q <= j ::
      OptCountryCode(s, i, p) && OptAreaCode(s, p, q) && Subscriber(s, q, j)
  }

  /** The second alternative `\b\d{10}\b` spans s[i..j]. */
  predicate PhoneSecondAt(s: string, i: nat, j: nat) {
    j <= |s| && DigitRun(s, i, j, 10, 10) && Boundary(s, i) && Boundary(s, j)
  }

  /** `phone.test(s)` */
  predicate PhoneFound(s: string) {
    exists j: nat, i: nat | i <= j <= |s| :: PhoneFirstAt(s, i, j) || PhoneSecondAt(s, i, j)
  }

  /** `piiSuspected(text)` */
  predicate PiiSuspected(text: string) {
    EmailFound(text) || PhoneFound(text)
  }
}
