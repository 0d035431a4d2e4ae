/**
 * Two changes of the input that never change what `piiSuspected` says:
 * white space around the text (so scanning the trimmed `tipo_proceso`
 * flags exactly what scanning the raw one would), and the case of ASCII
 * letters.
 */
module PiiGuardInvariance {
  import opened Text
  import opened PiiGuard
  import opened PiiGuardProperties

  // ---------------------------------------------------------------------
  // White space around the text
  // ---------------------------------------------------------------------

  /** Everything of s outside s[lo..hi] is white space. */
  predicate Padded(s: string, lo: nat, hi: nat) {
    && lo <= hi <= |s|
    && (forall k :: 0 <= k < lo ==> IsSpace(s[k]))
    && (forall k :: hi <= k < |s| ==> IsSpace(s[k]))
  }

  lemma BoundaryShift(s: string, lo: nat, hi: nat, p: nat)
    requires Padded(s, lo, hi) && p <= hi - lo
    ensures Boundary(s[lo..hi], p) == Boundary(s, p + lo)
  {
    if p == 0 && lo > 0 {
      WordCharIsNotSpace(s[lo - 1]);
    }
    if p == hi - lo && hi < |s| {
      WordCharIsNotSpace(s[hi]);
    }
  }

  /** Characters of the slice, seen from s. */
  lemma SliceAt(s: string, lo: nat, hi: nat, k: nat)
    requires lo <= hi <= |s| && k < hi - lo
    ensures s[lo..hi][k] == s[k + lo]
  {
  }

  /** A class holds of a stretch of the slice iff it holds of the same
      stretch of s. */
  lemma AllShift(s: string, lo: nat, hi: nat, i: nat, j: nat, P: char -> bool)
    requires lo <= hi <= |s| && j <= hi - lo
    ensures (forall k :: i <= k < j ==> P(s[lo..hi][k])) <==> (forall k :: i + lo <= k < j + lo ==> P(s[k]))
  {
    var t := s[lo..hi];
    if forall k :: i <= k < j ==> P(t[k]) {
      forall k | i + lo <= k < j + lo ensures P(s[k]) {
        assert t[k - lo] == s[k];
      }
    }
    if forall k :: i + lo <= k < j + lo ==> P(s[k]) {
      forall k | i <= k < j ensures P(t[k]) {
        assert t[k] == s[k + lo];
      }
    }
  }

  lemma EmailShift(s: string, lo: nat, hi: nat, i: nat, at: nat, dot: nat, j: nat)
    requires Padded(s, lo, hi) && j <= hi - lo
    ensures EmailAt(s[lo..hi], i, at, dot, j) <==> EmailAt(s, i + lo, at + lo, dot + lo, j + lo)
  {
    var t := s[lo..hi];
    BoundaryShift(s, lo, hi, j);
    if i < at < dot < j {
      BoundaryShift(s, lo, hi, i);
      SliceAt(s, lo, hi, at);
      SliceAt(s, lo, hi, dot);
      AllShift(s, lo, hi, i, at, IsLocalChar);
      AllShift(s, lo, hi, at + 1, dot, IsDomainChar);
      AllShift(s, lo, hi, dot + 1, j, IsAsciiLetter);
      assert (forall k :: at < k < dot ==> IsDomainChar(t[k])) <==> (forall k :: at + 1 <= k < dot ==> IsDomainChar(t[k]));
      assert (forall k :: dot < k < j ==> IsAsciiLetter(t[k])) <==> (forall k :: dot + 1 <= k < j ==> IsAsciiLetter(t[k]));
    }
  }

  /** A match of the e-mail pattern starts and ends with a non-space
      character, so it lies inside the padding. */
  lemma EmailInside(s: string, lo: nat, hi: nat, i: nat, at: nat, dot: nat, j: nat)
    requires Padded(s, lo, hi) && EmailAt(s, i, at, dot, j)
    ensures lo <= i && j <= hi
  {
    WordCharIsNotSpace(s[i]);
    WordCharIsNotSpace(s[j - 1]);
  }

  lemma EmailFoundFromSlice(s: string, lo: nat, hi: nat)
    requires Padded(s, lo, hi)
    ensures EmailFound(s[lo..hi]) ==> EmailFound(s)
  {
    var t := s[lo..hi];
    if EmailFound(t) {
      var j: nat, dot: nat, at: nat, i: nat :| j <= |t| && dot < j && at < dot && i < at && EmailAt(t, i, at, dot, j);
      EmailShift(s, lo, hi, i, at, dot, j);
      assert EmailAt(s, i + lo, at + lo, dot + lo, j + lo);
    }
  }

  lemma EmailAtInSlice(s: string, lo: nat, hi: nat, i: nat, at: nat, dot: nat, j: nat)
    requires Padded(s, lo, hi) && EmailAt(s, i, at, dot, j)
    ensures lo <= i && j <= hi
    ensures EmailAt(s[lo..hi], i - lo, at - lo, dot - lo, j - lo)
  {
    EmailInside(s, lo, hi, i, at, dot, j);
    EmailShift(s, lo, hi, i - lo, at - lo, dot - lo, j - lo);
  }

  lemma EmailFoundInSlice(s: string, lo: nat, hi: nat)
    requires Padded(s, lo, hi)
    ensures EmailFound(s) ==> EmailFound(s[lo..hi])
  {
    if EmailFound(s) {
      var j: nat, dot: nat, at: nat, i: nat :| j <= |s| && dot < j && at < dot && i < at && EmailAt(s, i, at, dot, j);
      EmailAtInSlice(s, lo, hi, i, at, dot, j);
      var t := s[lo..hi];
      assert j - lo <= |t| && EmailAt(t, i - lo, at - lo, dot - lo, j - lo);
    }
  }

  /** DigitRun seen from the slice and from s. */
  lemma DigitRunShift(s: string, lo: nat, hi: nat, i: nat, j: nat, min: nat, max: nat)
    requires lo <= hi <= |s| && j <= hi - lo
    ensures DigitRun(s[lo..hi], i, j, min, max) <==> DigitRun(s, i + lo, j + lo, min, max)
  {
    AllShift(s, lo, hi, i, j, IsDigit);
  }

  /** OptSeparator seen from the slice and from s. */
  lemma OptSeparatorShift(s: string, lo: nat, hi: nat, i: nat, j: nat)
    requires lo <= hi <= |s| && j <= hi - lo
    ensures OptSeparator(s[lo..hi], i, j) <==> OptSeparator(s, i + lo, j + lo)
  {
    if j == i + 1 {
      SliceAt(s, lo, hi, i);
    }
  }

  lemma SplitShift(s: string, lo: nat, hi: nat, i: nat, a: nat, b: nat, c: nat, d: nat, j: nat)
    requires lo <= hi <= |s| && i <= a <= b <= c <= d <= j <= hi - lo
    ensures SubscriberSplit(s[lo..hi], i, a, b, c, d, j) <==> SubscriberSplit(s, i + lo, a + lo, b + lo, c + lo, d + lo, j + lo)
  {
    DigitRunShift(s, lo, hi, i, a, 3, 3);
    OptSeparatorShift(s, lo, hi, a, b);
    DigitRunShift(s, lo, hi, b, c, 2, 2);
    OptSeparatorShift(s, lo, hi, c, d);
    DigitRunShift(s, lo, hi, d, j, 2, 2);
  }

  lemma SubscriberFromSlice(s: string, lo: nat, hi: nat, i: nat, j: nat)
    requires lo <= hi <= |s| && j <= hi - lo
    requires Subscriber(s[lo..hi], i, j)
    ensures Subscriber(s, i + lo, j + lo)
  {
    var a: nat, b: nat, c: nat, d: nat :| i <= a <= b <= c <= d <= j
      && SubscriberSplit(s[lo..hi], i, a, b, c, d, j);
    SplitShift(s, lo, hi, i, a, b, c, d, j);
    assert SubscriberSplit(s, i + lo, a + lo, b + lo, c + lo, d + lo, j + lo);
  }

  lemma SplitToSlice(s: string, lo: nat, hi: nat, i: nat, a: nat, b: nat, c: nat, d: nat, j: nat)
    requires lo <= hi <= |s| && i <= a <= b <= c <= d <= j <= hi - lo
    requires SubscriberSplit(s, i + lo, a + lo, b + lo, c + lo, d + lo, j + lo)
    ensures Subscriber(s[lo..hi], i, j)
  {
    SplitShift(s, lo, hi, i, a, b, c, d, j);
    assert SubscriberSplit(s[lo..hi], i, a, b, c, d, j);
  }

  lemma SubscriberInSlice(s: string, lo: nat, hi: nat, i: nat, j: nat)
    requires lo <= hi <= |s| && j <= hi - lo
    requires Subscriber(s, i + lo, j + lo)
    ensures Subscriber(s[lo..hi], i, j)
  {
    var a: nat, b: nat, c: nat, d: nat :| i + lo <= a <= b <= c <= d <= j + lo
      && SubscriberSplit(s, i + lo, a, b, c, d, j + lo);
    SplitToSlice(s, lo, hi, i, a - lo, b - lo, c - lo, d - lo, j);
  }

  /** A core starts and ends with a digit, so it lies inside the padding. */
  lemma SubscriberInside(s: string, lo: nat, hi: nat, i: nat, j: nat)
    requires Padded(s, lo, hi) && Subscriber(s, i, j)
    ensures lo <= i && j <= hi
  {
    WordCharIsNotSpace(s[i]);
    WordCharIsNotSpace(s[j - 1]);
  }

  lemma SubscriberFoundFromSlice(s: string, lo: nat, hi: nat)
    requires lo <= hi <= |s|
    ensures SubscriberFound(s[lo..hi]) ==> SubscriberFound(s)
  {
    var t := s[lo..hi];
    if SubscriberFound(t) {
      var j: nat, i: nat :| i <= j <= |t| && Subscriber(t, i, j);
      SubscriberFromSlice(s, lo, hi, i, j);
      assert i + lo <= j + lo <= |s| && Subscriber(s, i + lo, j + lo);
    }
  }

  lemma SubscriberFoundInSlice(s: string, lo: nat, hi: nat)
    requires Padded(s, lo, hi)
    ensures SubscriberFound(s) ==> SubscriberFound(s[lo..hi])
  {
    var t := s[lo..hi];
    if SubscriberFound(s) {
      var j: nat, i: nat :| i <= j <= |s| && Subscriber(s, i, j);
      SubscriberInside(s, lo, hi, i, j);
      SubscriberInSlice(s, lo, hi, i - lo, j - lo);
      assert i - lo <= j - lo <= |t| && Subscriber(t, i - lo, j - lo);
    }
  }

  /** White space around the text changes nothing. */
  lemma PaddingKeepsVerdict(s: string, lo: nat, hi: nat)
    requires Padded(s, lo, hi)
    ensures PiiSuspected(s[lo..hi]) <==> PiiSuspected(s)
  {
    EmailFoundFromSlice(s, lo, hi);
    EmailFoundInSlice(s, lo, hi);
    SubscriberFoundFromSlice(s, lo, hi);
    SubscriberFoundInSlice(s, lo, hi);
    SuspectedIffEmailOrSubscriber(s);
    SuspectedIffEmailOrSubscriber(s[lo..hi]);
  }

  /** The trim of s is a slice of s padded with white space. */
  lemma TrimIsPadded(s: string)
    ensures var lo := LeadingSpaces(s);
      lo + |Trim(s)| <= |s| && Padded(s, lo, lo + |Trim(s)|) && Trim(s) == s[lo..lo + |Trim(s)|]
  {
  }

  /** `piiSuspected(text.trim())` and `piiSuspected(text)` always agree. */
  lemma TrimKeepsVerdict(s: string)
    ensures PiiSuspected(Trim(s)) <==> PiiSuspected(s)
  {
    TrimIsPadded(s);
    var t, lo := Trim(s), LeadingSpaces(s);
    var hi := lo + |t|;
    assert t == s[lo..hi];
    PaddingKeepsVerdict(s, lo, hi);
  }

  // ---------------------------------------------------------------------
  // Letter case
  // ---------------------------------------------------------------------

  /** s and t differ at most in which ASCII letter stands at a position. */
  predicate SameUpToLetters(s: string, t: string) {
    && |s| == |t|
    && forall k :: 0 <= k < |s| ==> s[k] == t[k] || (IsAsciiLetter(s[k]) && IsAsciiLetter(t[k]))
  }

  /** Every character class the patterns use treats all ASCII letters
      alike. */
  lemma ClassesAgree(c: char, d: char)
    requires c == d || (IsAsciiLetter(c) && IsAsciiLetter(d))
    ensures IsDigit(c) == IsDigit(d) && IsSeparator(c) == IsSeparator(d)
    ensures IsWordChar(c) == IsWordChar(d) && IsAsciiLetter(c) == IsAsciiLetter(d)
    ensures IsLocalChar(c) == IsLocalChar(d) && IsDomainChar(c) == IsDomainChar(d)
    ensures (c == '@') == (d == '@') && (c == '.') == (d == '.')
  {
  }

  lemma EmailAtUpToLetters(s: string, t: string, i: nat, at: nat, dot: nat, j: nat)
    requires SameUpToLetters(s, t) && EmailAt(s, i, at, dot, j)
    ensures EmailAt(t, i, at, dot, j)
  {
    forall k | 0 <= k < |s| ensures IsLocalChar(s[k]) == IsLocalChar(t[k]) && IsDomainChar(s[k]) == IsDomainChar(t[k])
      && IsAsciiLetter(s[k]) == IsAsciiLetter(t[k]) && IsWordChar(s[k]) == IsWordChar(t[k])
    {
      ClassesAgree(s[k], t[k]);
    }
    ClassesAgree(s[at], t[at]);
    ClassesAgree(s[dot], t[dot]);
  }

  lemma EmailFoundUpToLetters(s: string, t: string)
    requires SameUpToLetters(s, t) && EmailFound(s)
    ensures EmailFound(t)
  {
    var j: nat, dot: nat, at: nat, i: nat :| j <= |s| && dot < j && at < dot && i < at && EmailAt(s, i, at, dot, j);
    EmailAtUpToLetters(s, t, i, at, dot, j);
  }

  lemma DigitRunUpToLetters(s: string, t: string, i: nat, j: nat, min: nat, max: nat)
    requires SameUpToLetters(s, t) && DigitRun(s, i, j, min, max)
    ensures DigitRun(t, i, j, min, max)
  {
    forall k | i <= k < j ensures IsDigit(t[k]) {
      ClassesAgree(s[k], t[k]);
    }
  }

  lemma OptSeparatorUpToLetters(s: string, t: string, i: nat, j: nat)
    requires SameUpToLetters(s, t) && OptSeparator(s, i, j)
    ensures OptSeparator(t, i, j)
  {
    if j == i + 1 {
      ClassesAgree(s[i], t[i]);
    }
  }

  lemma SubscriberFoundUpToLetters(s: string, t: string)
    requires SameUpToLetters(s, t) && SubscriberFound(s)
    ensures SubscriberFound(t)
  {
    var j: nat, i: nat :| i <= j <= |s| && Subscriber(s, i, j);
    var a: nat, b: nat, c: nat, d: nat :| i <= a <= b <= c <= d <= j
      && SubscriberSplit(s, i, a, b, c, d, j);
    DigitRunUpToLetters(s, t, i, a, 3, 3);
    OptSeparatorUpToLetters(s, t, a, b);
    DigitRunUpToLetters(s, t, b, c, 2, 2);
    OptSeparatorUpToLetters(s, t, c, d);
    DigitRunUpToLetters(s, t, d, j, 2, 2);
    SubscriberOfSeparatedGroups(t, i, a, b, c, d, j);
    assert i <= j <= |t| && Subscriber(t, i, j);
  }

  /** Only where letters stand matters, not which letters: replacing any
      ASCII letters by any others never changes the verdict. */
  lemma LettersKeepVerdict(s: string, t: string)
    requires SameUpToLetters(s, t)
    ensures PiiSuspected(s) <==> PiiSuspected(t)
  {
    assert SameUpToLetters(t, s);
    SuspectedIffEmailOrSubscriber(s);
    SuspectedIffEmailOrSubscriber(t);
    if EmailFound(s) { EmailFoundUpToLetters(s, t); }
    if EmailFound(t) { EmailFoundUpToLetters(t, s); }
    if SubscriberFound(s) { SubscriberFoundUpToLetters(s, t); }
    if SubscriberFound(t) { SubscriberFoundUpToLetters(t, s); }
  }

  /** ASCII lower case. */
  function AsciiLower(s: string): (r: string)
    ensures |r| == |s|
    ensures forall k :: 0 <= k < |s| ==> r[k] == if 'A' <= s[k] <= 'Z' then s[k] - 'A' + 'a' else s[k]
  {
    if s == [] then []
    else [if 'A' <= s[0] <= 'Z' then s[0] - 'A' + 'a' else s[0]] + AsciiLower(s[1..])
  }

  /** The `i` flag: a string and its lower-case form are flagged alike. */
  lemma CaseKeepsVerdict(s: string)
    ensures PiiSuspected(AsciiLower(s)) <==> PiiSuspected(s)
  {
    LettersKeepVerdict(s, AsciiLower(s));
  }
}
