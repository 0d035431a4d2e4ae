/**
 * What `piiSuspected` flags and what it lets through.
 */
module PiiGuardProperties {
  import opened Text
  import opened PiiGuard

  // ---------------------------------------------------------------------
  // The phone pattern reduces to its 3+2+2 core
  // ---------------------------------------------------------------------

  /** Some span of s matches `\d{3}[\s-]?\d{2}[\s-]?\d{2}`. */
  predicate SubscriberFound(s: string) {
    exists j: nat, i: nat | i <= j <= |s| :: Subscriber(s, i, j)
  }

  /** Seven digits, grouped 3+2+2, each group boundary carrying at most one
      separator, always form the core. */
  lemma SubscriberOfSeparatedGroups(s: string, i: nat, a: nat, b: nat, c: nat, d: nat, j: nat)
    requires DigitRun(s, i, a, 3, 3) && OptSeparator(s, a, b)
    requires DigitRun(s, b, c, 2, 2) && OptSeparator(s, c, d) && DigitRun(s, d, j, 2, 2)
    ensures Subscriber(s, i, j) && i + 7 <= j <= i + 9
  {
    assert SubscriberSplit(s, i, a, b, c, d, j);
  }

  /** The second alternative `\b\d{10}\b` never matches where the first does
      not: its first seven digits are a core. */
  lemma SecondAlternativeRedundant(s: string, i: nat, j: nat)
    requires PhoneSecondAt(s, i, j)
    ensures PhoneFirstAt(s, i, i + 7)
  {
    SubscriberOfSeparatedGroups(s, i, i + 3, i + 3, i + 5, i + 5, i + 7);
    assert OptCountryCode(s, i, i) && OptAreaCode(s, i, i) && Subscriber(s, i, i + 7);
  }

  /** `phone.test(s)` holds exactly when some core occurs in s: the optional
      prefix groups and the second alternative add no matches. */
  lemma PhoneFoundIffSubscriber(s: string)
    ensures PhoneFound(s) <==> SubscriberFound(s)
  {
    if PhoneFound(s) {
      var j: nat, i: nat :| i <= j <= |s| && (PhoneFirstAt(s, i, j) || PhoneSecondAt(s, i, j));
      if PhoneFirstAt(s, i, j) {
        var p: nat, q: nat :| i <= p <= q <= j && Subscriber(s, q, j);
        assert q <= j <= |s| && Subscriber(s, q, j);
      } else {
        SecondAlternativeRedundant(s, i, j);
        var p: nat, q: nat :| i <= p <= q <= i + 7 && Subscriber(s, q, i + 7);
        assert q <= i + 7 <= |s| && Subscriber(s, q, i + 7);
      }
    }
    if SubscriberFound(s) {
      var j: nat, i: nat :| i <= j <= |s| && Subscriber(s, i, j);
      assert OptCountryCode(s, i, i) && OptAreaCode(s, i, i) && Subscriber(s, i, j);
      assert PhoneFirstAt(s, i, j);
    }
  }

  /** `piiSuspected` is the e-mail test or the core test. */
  lemma SuspectedIffEmailOrSubscriber(s: string)
    ensures PiiSuspected(s) <==> EmailFound(s) || SubscriberFound(s)
  {
    PhoneFoundIffSubscriber(s);
  }

  // ---------------------------------------------------------------------
  // What is flagged
  // ---------------------------------------------------------------------

  /** Any 3+2+2 digit grouping with at most one space or hyphen between the
      groups is flagged, wherever it occurs. */
  lemma SeparatedGroupsFlagged(s: string, i: nat, a: nat, b: nat, c: nat, d: nat, j: nat)
    requires DigitRun(s, i, a, 3, 3) && OptSeparator(s, a, b)
    requires DigitRun(s, b, c, 2, 2) && OptSeparator(s, c, d) && DigitRun(s, d, j, 2, 2)
    ensures PiiSuspected(s)
  {
    SubscriberOfSeparatedGroups(s, i, a, b, c, d, j);
    assert SubscriberFound(s);
    SuspectedIffEmailOrSubscriber(s);
  }

  /** Seven consecutive ASCII digits anywhere are flagged. */
  lemma SevenDigitsFlagged(s: string, k: nat)
    requires k + 7 <= |s|
    requires forall t :: k <= t < k + 7 ==> IsDigit(s[t])
    ensures PiiSuspected(s)
  {
    SeparatedGroupsFlagged(s, k, k + 3, k + 3, k + 5, k + 5, k + 7);
  }

  /** A bare ten-digit run is flagged, with or without word boundaries
      around it. */
  lemma TenDigitRunFlagged(s: string, k: nat)
    requires DigitRun(s, k, k + 10, 10, 10)
    ensures PiiSuspected(s)
  {
    SevenDigitsFlagged(s, k);
  }

  /** A concrete e-mail address in mixed case is flagged. */
  lemma MixedCaseEmailFlagged()
    ensures PiiSuspected("Ana@Example.COM")
  {
    var s := "Ana@Example.COM";
    assert EmailAt(s, 0, 3, 11, 15);
  }

  /** A concrete phone number with a country prefix, an area code in
      parentheses and hyphens is flagged by the first alternative as a
      whole. */
  lemma FormattedPhoneFlagged()
    ensures PhoneFirstAt("+52 (55) 123-45-67", 0, 18)
  {
    var s := "+52 (55) 123-45-67";
    assert OptChar(s, 0, 1, '+') && DigitRun(s, 1, 3, 1, 3) && OptSeparator(s, 3, 4);
    assert CountryCode(s, 0, 4);
    assert OptChar(s, 4, 5, '(') && DigitRun(s, 5, 7, 2, 3) && OptChar(s, 7, 8, ')') && OptSeparator(s, 8, 9);
    assert AreaCode(s, 4, 9);
    SubscriberOfSeparatedGroups(s, 9, 12, 13, 15, 16, 18);
    assert OptCountryCode(s, 0, 4) && OptAreaCode(s, 4, 9) && Subscriber(s, 9, 18);
  }

  // ---------------------------------------------------------------------
  // What is not flagged
  // ---------------------------------------------------------------------

  /** Number of ASCII digits in s. */
  function DigitCount(s: string): (n: nat)
    ensures n <= |s|
  {
    if s == [] then 0 else (if IsDigit(s[0]) then 1 else 0) + DigitCount(s[1..])
  }

  lemma {:induction false} DigitCountAppend(a: string, b: string)
    ensures DigitCount(a + b) == DigitCount(a) + DigitCount(b)
  {
    if a != [] {
      assert (a + b)[1..] == a[1..] + b;
      DigitCountAppend(a[1..], b);
    } else {
      assert a + b == b;
    }
  }

  lemma DigitCountSplit(s: string, i: nat, m: nat, j: nat)
    requires i <= m <= j <= |s|
    ensures DigitCount(s[i..j]) == DigitCount(s[i..m]) + DigitCount(s[m..j])
  {
    assert s[i..j] == s[i..m] + s[m..j];
    DigitCountAppend(s[i..m], s[m..j]);
  }

  lemma {:induction false} DigitCountOfRun(s: string, i: nat, j: nat)
    requires i <= j <= |s|
    requires forall k :: i <= k < j ==> IsDigit(s[k])
    ensures DigitCount(s[i..j]) == j - i
    decreases j - i
  {
    if i < j {
      assert s[i..j][1..] == s[i + 1..j];
      DigitCountOfRun(s, i + 1, j);
    }
  }

  /** A core spans at least seven digits. */
  lemma SubscriberHasSevenDigits(s: string, i: nat, j: nat)
    requires Subscriber(s, i, j)
    ensures DigitCount(s) >= 7
  {
    var a: nat, b: nat, c: nat, d: nat :| i <= a <= b <= c <= d <= j
      && SubscriberSplit(s, i, a, b, c, d, j);
    DigitCountOfRun(s, i, a);
    DigitCountOfRun(s, b, c);
    DigitCountOfRun(s, d, j);
    DigitCountSplit(s, i, a, j);
    DigitCountSplit(s, a, b, j);
    DigitCountSplit(s, b, c, j);
    DigitCountSplit(s, c, d, j);
    DigitCountSplit(s, 0, i, |s|);
    DigitCountSplit(s, i, j, |s|);
    assert s[0..|s|] == s;
  }

  /** The e-mail pattern needs an '@'. */
  lemma EmailNeedsAt(s: string)
    ensures EmailFound(s) ==> '@' in s
  {
    if EmailFound(s) {
      var j: nat, dot: nat, at: nat, i: nat :| j <= |s| && dot < j && at < dot && i < at && EmailAt(s, i, at, dot, j);
      assert s[at] in s;
    }
  }

  /** The phone pattern needs seven digits. */
  lemma PhoneNeedsSevenDigits(s: string)
    ensures PhoneFound(s) ==> DigitCount(s) >= 7
  {
    PhoneFoundIffSubscriber(s);
    if SubscriberFound(s) {
      var j: nat, i: nat :| i <= j <= |s| && Subscriber(s, i, j);
      SubscriberHasSevenDigits(s, i, j);
    }
  }

  /** Without an '@' the e-mail pattern cannot match, and with fewer than
      seven digits the phone pattern cannot: such a string is never flagged. */
  lemma NoAtFewDigitsNotFlagged(s: string)
    requires '@' !in s
    requires DigitCount(s) < 7
    ensures !PiiSuspected(s)
  {
    EmailNeedsAt(s);
    PhoneNeedsSevenDigits(s);
  }

  /** "Reporte 2024" holds no '@' and four digits. */
  lemma OrdinaryLabelCounts()
    ensures '@' !in "Reporte 2024" && DigitCount("Reporte 2024") == 4
  {
    assert "Reporte 2024" == "Reporte " + "2024";
    assert DigitCount("Reporte ") == 0;
    assert DigitCount("2024") == 4;
    DigitCountAppend("Reporte ", "2024");
  }

  /** A concrete process type with a few digits and no '@' passes. */
  lemma OrdinaryLabelNotFlagged()
    ensures !PiiSuspected("Reporte 2024")
  {
    OrdinaryLabelCounts();
    NoAtFewDigitsNotFlagged("Reporte 2024");
  }
}
