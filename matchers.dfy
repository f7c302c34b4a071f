/**
 * The two shape tests of the classifier. `TIME_MATCHER` and `DATE_MATCHER`
 * (excelPython/importExcel.py:8-9) are only ever used with `re.search`, so what
 * matters is whether a matching window exists somewhere in the value.
 */
module Matchers {
  import opened Wrappers
  import opened Text

  /** `[0-2][0-9]:[0-5][0-9]` matches the five characters starting at `i`. */
  predicate TimeWindowAt(s: string, i: nat)
    requires i + 5 <= |s|
  {
    '0' <= s[i] <= '2' && IsDigit(s[i + 1]) && s[i + 2] == ':' && '0' <= s[i + 3] <= '5' && IsDigit(s[i + 4])
  }

  /** `re.search(TIME_MATCHER, s)` succeeds; such a value has a colon after a digit. */
  predicate HasTime(s: string)
    ensures HasTime(s) ==> exists k :: 1 <= k < |s| && s[k] == ':' && IsDigit(s[k - 1])
  {
    exists i: nat :: i <= |s| - 5 && TimeWindowAt(s, i)
  }

  /** `[\-/.]`: the separators a date may use. */
  predicate IsDateSep(c: char) {
    c == '-' || c == '/' || c == '.'
  }

  /** The eight characters at `i` read `dd S dd S dd` with separators `S`. */
  predicate DateWindowAt(s: string, i: nat)
    requires i + 8 <= |s|
  {
    && IsDigit(s[i]) && IsDigit(s[i + 1]) && IsDateSep(s[i + 2])
    && IsDigit(s[i + 3]) && IsDigit(s[i + 4]) && IsDateSep(s[i + 5])
    && IsDigit(s[i + 6]) && IsDigit(s[i + 7])
  }

  /**
   * `re.search(DATE_MATCHER, s)` succeeds (see DateWindowIffRegex); such a value
   * is at least eight characters long.
   */
  predicate HasDate(s: string)
    ensures HasDate(s) ==> |s| >= 8
  {
    exists i: nat :: i <= |s| - 8 && DateWindowAt(s, i)
  }

  // ------------------------------------ the regular expression, written out

  ghost predicate DigitsIn(s: string, lo: nat, hi: nat)
    requires lo <= hi <= |s|
  {
    forall k :: lo <= k < hi ==> IsDigit(s[k])
  }

  /**
   * `[0-9]{2,4}[\-/.]{1}[0-9]{2}[\-/.]{1}[0-9]{2,4}` matches at `i` with a first
   * group of `a` digits and a last group of `c` digits.
   */
  ghost predicate DateRegexAt(s: string, i: nat, a: nat, c: nat)
    requires 2 <= a <= 4 && 2 <= c <= 4 && i + a + c + 4 <= |s|
  {
    && DigitsIn(s, i, i + a) && IsDateSep(s[i + a])
    && IsDigit(s[i + a + 1]) && IsDigit(s[i + a + 2]) && IsDateSep(s[i + a + 3])
    && DigitsIn(s, i + a + 4, i + a + 4 + c)
  }

  ghost predicate DateRegexSearch(s: string) {
    exists i: nat, a: nat, c: nat ::
      2 <= a <= 4 && 2 <= c <= 4 && i + a + c + 4 <= |s| && DateRegexAt(s, i, a, c)
  }

  /**
   * The eight-character window test is exactly `re.search(DATE_MATCHER, s)`:
   * every window is a match with two-digit outer groups, and every match
   * contains a window (the last two digits of its first group onwards).
   */
  lemma DateWindowIffRegex(s: string)
    ensures HasDate(s) <==> DateRegexSearch(s)
  {
    if HasDate(s) {
      var i: nat :| i <= |s| - 8 && DateWindowAt(s, i);
      assert DateRegexAt(s, i, 2, 2);
    }
    if DateRegexSearch(s) {
      var i: nat, a: nat, c: nat :|
        2 <= a <= 4 && 2 <= c <= 4 && i + a + c + 4 <= |s| && DateRegexAt(s, i, a, c);
      var j: nat := i + a - 2;
      assert IsDigit(s[j]) && IsDigit(s[j + 1]);
      assert IsDigit(s[i + a + 4]) && IsDigit(s[i + a + 5]);
      assert DateWindowAt(s, j);
    }
  }

  // ------------------------------------------- numbers have neither shape

  /** In text `int()` accepts, a digit is followed only by a digit or by whitespace. */
  lemma ParseableDigitRun(s: string, k: nat)
    requires ParseInt(s).Some?
    requires 0 < k < |s| && IsDigit(s[k - 1])
    ensures IsDigit(s[k]) || IsSpace(s[k])
  {
    var t := Trim(s);
    var a := LeadingSpaces(s);
    if a <= k - 1 < a + |t| && k < a + |t| {
      assert s[k] == t[k - a];
      assert k - a >= 1;
      if |t| >= 2 && (t[0] == '-' || t[0] == '+') && AllDigits(t[1..]) {
        assert t[1..][k - a - 1] == t[k - a];
      }
    }
  }

  /**
   * A value that `int()` accepts contains neither a time nor a date window, so
   * the classifier's number-first precedence never hides a temporal value.
   */
  lemma NumberHasNoTemporalShape(s: string)
    requires ParseInt(s).Some?
    ensures !HasTime(s) && !HasDate(s)
  {
    forall i: nat | i + 5 <= |s| ensures !TimeWindowAt(s, i) {
      assert IsSpace(s[i + 2]) || IsDigit(s[i + 2]) || s[i + 2] in "+-";
    }
    forall i: nat | i + 8 <= |s| ensures !DateWindowAt(s, i) {
      if IsDigit(s[i + 1]) {
        ParseableDigitRun(s, i + 2);
      }
    }
  }
}
