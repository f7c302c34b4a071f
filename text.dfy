/**
 * String primitives of Python 2's byte strings, as the column engine uses them:
 * `strip()`, `lower()`, `split(sep)`, joining, single-character substitution
 * (`re.sub` on a one-character class), `int()` on text and `len(str(n))`.
 * Python 2's `str` methods are ASCII-only in the C locale, so whitespace and
 * case are the ASCII ones.
 */
module Text {
  import opened Wrappers

  /** The characters `str.strip()` and `int()` treat as whitespace. */
  predicate IsSpace(c: char) {
    c == ' ' || c == '\t' || c == '\n' || c == '\r' || c == '\U{B}' || c == '\U{C}'
  }

  predicate IsDigit(c: char) {
    '0' <= c <= '9'
  }

  // ---------------------------------------------------------------- strip()

  /** Number of whitespace characters at the start of `s`. */
  function LeadingSpaces(s: string): (n: nat)
    ensures n <= |s|
    ensures forall k :: 0 <= k < n ==> IsSpace(s[k])
    ensures n == |s| || !IsSpace(s[n])
  {
    if |s| > 0 && IsSpace(s[0]) then 1 + LeadingSpaces(s[1..]) else 0
  }

  /** Number of whitespace characters at the end of `s`. */
  function TrailingSpaces(s: string): (n: nat)
    ensures n <= |s|
    ensures forall k :: |s| - n <= k < |s| ==> IsSpace(s[k])
    ensures n == |s| || !IsSpace(s[|s| - n - 1])
  {
    if |s| > 0 && IsSpace(s[|s| - 1]) then 1 + TrailingSpaces(s[..|s| - 1]) else 0
  }

  /**
   * `s.strip()`: `s` without its leading and trailing whitespace. The result is
   * the infix of `s` that starts at the first non-space character, everything
   * cut off is whitespace, and the result neither starts nor ends with it.
   */
  function Trim(s: string): (r: string)
    ensures |r| <= |s|
    ensures LeadingSpaces(s) + |r| <= |s| && r == s[LeadingSpaces(s)..LeadingSpaces(s) + |r|]
    ensures forall k :: 0 <= k < |s| && !(LeadingSpaces(s) <= k < LeadingSpaces(s) + |r|) ==> IsSpace(s[k])
    ensures r == [] || (!IsSpace(r[0]) && !IsSpace(r[|r| - 1]))
  {
    var t := s[LeadingSpaces(s)..];
    t[..|t| - TrailingSpaces(t)]
  }

  /** A string with no whitespace at either end is its own strip(). */
  lemma TrimOfTrimmed(s: string)
    requires s == [] || (!IsSpace(s[0]) && !IsSpace(s[|s| - 1]))
    ensures Trim(s) == s
  {
    assert LeadingSpaces(s) == 0;
    assert TrailingSpaces(s) == 0;
  }

  /** strip() is idempotent. */
  lemma TrimIdempotent(s: string)
    ensures Trim(Trim(s)) == Trim(s)
  {
    TrimOfTrimmed(Trim(s));
  }

  // ---------------------------------------------------------------- lower()

  function LowerChar(c: char): char {
    if 'A' <= c <= 'Z' then (c as int + 32) as char else c
  }

  /** `s.lower()` on a byte string: ASCII letters only. */
  function Lower(s: string): (r: string)
    ensures |r| == |s|
    ensures forall i :: 0 <= i < |s| ==>
      if 'A' <= s[i] <= 'Z' then 'a' <= r[i] <= 'z' && r[i] as int - s[i] as int == 32 else r[i] == s[i]
  {
    seq(|s|, i requires 0 <= i < |s| => LowerChar(s[i]))
  }

  /** Lower-casing a lower-cased string changes nothing. */
  lemma LowerIdempotent(s: string)
    ensures Lower(Lower(s)) == Lower(s)
  {
  }

  // ------------------------------------------------------- split() and join

  /**
   * `s.split(sep)` with an explicit one-character separator: every occurrence
   * of `sep` ends a piece, so there is one piece more than there are separators,
   * empty pieces included, and no piece contains the separator.
   */
  function Split(s: string, sep: char): (r: seq<string>)
    ensures |r| == multiset(s)[sep] + 1
    ensures forall i :: 0 <= i < |r| ==> sep !in r[i]
    ensures sep !in s ==> r == [s]
  {
    if |s| == 0 then [""]
    else
      var rest := Split(s[1..], sep);
      assert s == [s[0]] + s[1..];
      if s[0] == sep then [""] + rest
      else
        [[s[0]] + rest[0]] + rest[1..]
  }

  /** `sep.join(parts)`: the pieces in order, separated by `sep`. */
  function Join(parts: seq<string>, sep: char): (r: string)
    ensures |parts| >= 1 ==> |parts[0]| <= |r| && r[..|parts[0]|] == parts[0]
  {
    if |parts| == 0 then ""
    else if |parts| == 1 then parts[0]
    else
      var rest := Join(parts[1..], sep);
      assert (parts[0] + [sep] + rest)[..|parts[0]|] == parts[0];
      parts[0] + [sep] + rest
  }

  /** Joining separator-free pieces puts one separator between each two. */
  lemma {:induction false} JoinSeparators(parts: seq<string>, sep: char)
    requires |parts| >= 1
    requires forall i :: 0 <= i < |parts| ==> sep !in parts[i]
    ensures multiset(Join(parts, sep))[sep] == |parts| - 1
  {
    if |parts| > 1 {
      assert forall i :: 0 <= i < |parts| - 1 ==> parts[1..][i] == parts[i + 1];
      JoinSeparators(parts[1..], sep);
      var rest := Join(parts[1..], sep);
      assert Join(parts, sep) == parts[0] + [sep] + rest;
      assert multiset(parts[0] + [sep] + rest) == multiset(parts[0]) + multiset{sep} + multiset(rest);
    }
  }

  /** Gluing `c` in front of the first piece glues it in front of the join. */
  lemma JoinPrepend(c: string, parts: seq<string>, sep: char)
    requires |parts| >= 1
    ensures Join([c + parts[0]] + parts[1..], sep) == c + Join(parts, sep)
  {
    var glued := [c + parts[0]] + parts[1..];
    if |parts| > 1 {
      assert glued[1..] == parts[1..];
      assert Join(glued, sep) == (c + parts[0]) + [sep] + Join(parts[1..], sep);
    }
  }

  /** An empty first piece contributes only its separator. */
  lemma JoinEmptyFirst(parts: seq<string>, sep: char)
    requires |parts| >= 1
    ensures Join([""] + parts, sep) == [sep] + Join(parts, sep)
  {
    assert ([""] + parts)[1..] == parts;
  }

  /** The inductive step of JoinSplit for a string that starts with the separator. */
  lemma JoinSplitAtSep(s: string, sep: char)
    requires |s| > 0 && s[0] == sep
    requires Join(Split(s[1..], sep), sep) == s[1..]
    ensures Join(Split(s, sep), sep) == s
  {
    var rest := Split(s[1..], sep);
    assert Split(s, sep) == [""] + rest;
    JoinEmptyFirst(rest, sep);
    assert s == [s[0]] + s[1..];
  }

  /** The inductive step of JoinSplit for a string that starts with another character. */
  lemma JoinSplitAtChar(s: string, sep: char)
    requires |s| > 0 && s[0] != sep
    requires Join(Split(s[1..], sep), sep) == s[1..]
    ensures Join(Split(s, sep), sep) == s
  {
    var rest := Split(s[1..], sep);
    assert Split(s, sep) == [[s[0]] + rest[0]] + rest[1..];
    JoinPrepend([s[0]], rest, sep);
    assert s == [s[0]] + s[1..];
  }

  /** Joining the pieces of a split gives back the original string. */
  lemma {:induction false} JoinSplit(s: string, sep: char)
    ensures Join(Split(s, sep), sep) == s
  {
    if |s| > 0 {
      JoinSplit(s[1..], sep);
      if s[0] == sep {
        JoinSplitAtSep(s, sep);
      } else {
        JoinSplitAtChar(s, sep);
      }
    }
  }

  /** Splitting `x + sep + y` where `x` has no separator peels off `x`. */
  lemma {:induction false} SplitAfterPiece(x: string, sep: char, y: string)
    requires sep !in x
    ensures Split(x + [sep] + y, sep) == [x] + Split(y, sep)
  {
    var s := x + [sep] + y;
    if |x| == 0 {
      assert s[1..] == y;
    } else {
      assert s[1..] == x[1..] + [sep] + y;
      SplitAfterPiece(x[1..], sep, y);
      assert [x[0]] + x[1..] == x;
    }
  }

  /** Splitting the join of separator-free pieces gives back the pieces. */
  lemma {:induction false} SplitJoin(parts: seq<string>, sep: char)
    requires |parts| >= 1
    requires forall i :: 0 <= i < |parts| ==> sep !in parts[i]
    ensures Split(Join(parts, sep), sep) == parts
  {
    if |parts| > 1 {
      SplitJoin(parts[1..], sep);
      SplitAfterPiece(parts[0], sep, Join(parts[1..], sep));
      assert [parts[0]] + parts[1..] == parts;
    }
  }

  /** Joining with one more piece appends the separator and that piece. */
  lemma {:induction false} JoinSnoc(parts: seq<string>, x: string, sep: char)
    requires |parts| >= 1
    ensures Join(parts + [x], sep) == Join(parts, sep) + [sep] + x
  {
    if |parts| > 1 {
      var longer := parts + [x];
      assert longer[0] == parts[0] && longer[1..] == parts[1..] + [x];
      JoinSnoc(parts[1..], x, sep);
    } else {
      assert (parts + [x])[1..] == [x];
    }
  }

  // ---------------------------------------------------- character replacement

  /** `re.sub('[' + from + ']', to, s)`: replace every `from` by `to`. */
  function ReplaceChar(s: string, from: char, to: char): (r: string)
    ensures |r| == |s|
    ensures forall i :: 0 <= i < |s| && s[i] == from ==> r[i] == to
    ensures forall i :: 0 <= i < |s| && s[i] != from ==> r[i] == s[i]
    ensures from != to ==> from !in r
  {
    seq(|s|, i requires 0 <= i < |s| => if s[i] == from then to else s[i])
  }

  /** Replacing a character the string does not contain changes nothing. */
  lemma ReplaceAbsent(s: string, from: char, to: char)
    requires from !in s
    ensures ReplaceChar(s, from, to) == s
  {
  }

  // -------------------------------------------------------- int() and str()

  predicate AllDigits(s: string) {
    forall i :: 0 <= i < |s| ==> IsDigit(s[i])
  }

  /** The value of a string of decimal digits. */
  function DigitsValue(s: string): nat
    requires AllDigits(s)
  {
    if |s| == 0 then 0 else 10 * DigitsValue(s[..|s| - 1]) + (s[|s| - 1] as int - '0' as int)
  }

  /**
   * `int(s)` on a byte string in base 10: surrounding whitespace, an optional
   * sign, then at least one digit; anything else raises, modelled as None.
   */
  function ParseInt(s: string): (r: Option<int>)
    ensures r.Some? ==> forall k :: 0 <= k < |s| ==> IsSpace(s[k]) || IsDigit(s[k]) || s[k] in "+-"
  {
    var t := Trim(s);
    if |t| >= 2 && (t[0] == '-' || t[0] == '+') && AllDigits(t[1..]) then
      var magnitude: int := DigitsValue(t[1..]);
      Some(if t[0] == '-' then -magnitude else magnitude)
    else if |t| >= 1 && AllDigits(t) then
      Some(DigitsValue(t))
    else
      None
  }

  function Pow10(k: nat): (r: nat)
    ensures r >= 1
  {
    if k == 0 then 1 else 10 * Pow10(k - 1)
  }

  /** Number of decimal digits of `n` (`len(str(n))` for a natural number). */
  function NumDigits(n: nat): (d: nat)
    ensures d >= 1
    ensures n < Pow10(d) && (d == 1 || Pow10(d - 1) <= n)
  {
    if n < 10 then 1 else 1 + NumDigits(n / 10)
  }

  /** `len(str(n))`: the digits of `n`, plus one for the sign of a negative. */
  function DecimalLength(n: int): (r: nat)
    ensures r >= 1
    ensures 0 <= n ==> n < Pow10(r) && (r == 1 || Pow10(r - 1) <= n)
    ensures n < 0 ==> r >= 2 && -n < Pow10(r - 1) && (r == 2 || Pow10(r - 2) <= -n)
  {
    if n < 0 then 1 + NumDigits(-n) else NumDigits(n)
  }

  function DigitChar(d: nat): (c: char)
    requires d < 10
    ensures IsDigit(c) && c as int - '0' as int == d
  {
    ('0' as int + d) as char
  }

  /** `str(n)` for a natural number: its decimal digits, most significant first. */
  function NatString(n: nat): (r: string)
    ensures |r| == NumDigits(n) && AllDigits(r)
  {
    if n < 10 then [DigitChar(n)] else NatString(n / 10) + [DigitChar(n % 10)]
  }

  /** `str(n)`: a `-` before the digits of a negative number. */
  function IntString(n: int): (r: string)
    ensures |r| == DecimalLength(n)
  {
    if n < 0 then "-" + NatString(-n) else NatString(n)
  }

  lemma {:induction false} NatStringValue(n: nat)
    ensures DigitsValue(NatString(n)) == n
  {
    if n >= 10 {
      NatStringValue(n / 10);
      var s := NatString(n);
      assert s[..|s| - 1] == NatString(n / 10);
    }
  }

  /** `int(str(n)) == n`: the printed form of a number reads back as that number. */
  lemma ParseIntString(n: int)
    ensures ParseInt(IntString(n)) == Some(n)
  {
    var t := IntString(n);
    var m := if n < 0 then -n else n;
    NatStringValue(m);
    TrimOfTrimmed(t);
    if n < 0 {
      assert t[1..] == NatString(m);
    }
  }

  /** Whitespace around a string that neither starts nor ends with whitespace is what strip() removes. */
  lemma TrimPadded(p: string, t: string, q: string)
    requires forall k :: 0 <= k < |p| ==> IsSpace(p[k])
    requires forall k :: 0 <= k < |q| ==> IsSpace(q[k])
    requires |t| >= 1 && !IsSpace(t[0]) && !IsSpace(t[|t| - 1])
    ensures Trim(p + t + q) == t
  {
    var s := p + t + q;
    var n := LeadingSpaces(s);
    assert s[|p|] == t[0];
    assert n == |p|;
    var r := Trim(s);
    assert s[|p| + |t| - 1] == t[|t| - 1];
    assert |r| >= |t|;
    assert r == s[|p|..|p| + |t|] == t;
  }

  /** `int()` reads only the stripped text. */
  lemma ParseIntTrim(s: string, u: string)
    requires Trim(s) == Trim(u)
    ensures ParseInt(s) == ParseInt(u)
  {
  }

  /** Stripped text of digits alone reads as their value. */
  lemma ParseIntDigits(s: string)
    requires Trim(s) == s && |s| >= 1 && AllDigits(s)
    ensures ParseInt(s) == Some(DigitsValue(s))
  {
    assert IsDigit(s[0]);
  }

  /** `int()` ignores whitespace around a number's printed form. */
  lemma ParseIntPadded(p: string, n: int, q: string)
    requires forall k :: 0 <= k < |p| ==> IsSpace(p[k])
    requires forall k :: 0 <= k < |q| ==> IsSpace(q[k])
    ensures ParseInt(p + IntString(n) + q) == Some(n)
  {
    var t := IntString(n);
    var m := if n < 0 then -n else n;
    assert IsDigit(NatString(m)[0]) && IsDigit(NatString(m)[|NatString(m)| - 1]);
    assert t[|t| - 1] == NatString(m)[|NatString(m)| - 1];
    TrimPadded(p, t, q);
    TrimOfTrimmed(t);
    ParseIntTrim(p + t + q, t);
    ParseIntString(n);
  }

  /** Zeros in front of a digit string do not change its value. */
  lemma {:induction false} DigitsValueLeadingZeros(zeros: string, d: string)
    requires forall k :: 0 <= k < |zeros| ==> zeros[k] == '0'
    requires AllDigits(d)
    ensures AllDigits(zeros + d) && DigitsValue(zeros + d) == DigitsValue(d)
  {
    var s := zeros + d;
    if |d| == 0 {
      assert s == zeros;
      if |zeros| > 0 {
        DigitsValueLeadingZeros(zeros[..|zeros| - 1], d);
        assert s[..|s| - 1] == zeros[..|zeros| - 1] + d;
      }
    } else {
      DigitsValueLeadingZeros(zeros, d[..|d| - 1]);
      assert s[..|s| - 1] == zeros + d[..|d| - 1];
    }
  }

  /** `int()` ignores leading zeros: `int('007') == 7`. */
  lemma ParseIntLeadingZeros(zeros: string, n: nat)
    requires forall k :: 0 <= k < |zeros| ==> zeros[k] == '0'
    ensures ParseInt(zeros + NatString(n)) == Some(n)
  {
    var s := zeros + NatString(n);
    DigitsValueLeadingZeros(zeros, NatString(n));
    NatStringValue(n);
    assert IsDigit(s[0]) && IsDigit(s[|s| - 1]);
    TrimOfTrimmed(s);
    ParseIntDigits(s);
  }

  /** A natural number prints with exactly four digits iff it lies in 1000..9999. */
  lemma FourDigits(n: int)
    ensures 0 <= n ==> (DecimalLength(n) == 4 <==> 1000 <= n <= 9999)
  {
    if 1000 <= n <= 9999 {
      assert 100 <= n / 10 <= 999;
      assert 10 <= n / 10 / 10 <= 99;
      assert 1 <= n / 10 / 10 / 10 <= 9;
    } else if n >= 10000 {
      assert n / 10 >= 1000;
      assert n / 10 / 10 >= 100;
      assert n / 10 / 10 / 10 >= 10;
      assert NumDigits(n / 10 / 10 / 10) >= 2;
    } else if n >= 100 {
      assert 10 <= n / 10 <= 99;
      assert 1 <= n / 10 / 10 <= 9;
      assert NumDigits(n / 10 / 10) == 1;
      assert NumDigits(n / 10) == 2;
      assert NumDigits(n) == 3;
    } else if n >= 10 {
      assert n / 10 <= 9;
      assert NumDigits(n) == 2;
    }
  }
}
