/**
 * The value normaliser of `Column`: the sentinel-aware trim of `stripValue`
 * (excelPython/importExcel.py:161-170, with the sentinel list of :105) and the
 * separator canonicalisation of `normalizeDateValue`, `normalizeTimeValue` and
 * `normalizeDateTimeValue` (:225-232).
 */
module Normalizer {
  import opened Wrappers
  import opened Text

  /** The sentinels every column starts with (:105). */
  const DefaultSentinels: seq<string> := ["none", "null", ""]

  /** `['none', 'null', ''] + stringToNone` (:105). */
  function Sentinels(extra: seq<string>): (r: seq<string>)
    ensures |r| == |extra| + 3 && r[..3] == DefaultSentinels && r[3..] == extra
  {
    DefaultSentinels + extra
  }

  /** `t` equals some sentinel, ignoring ASCII case. */
  ghost predicate IsSentinel(sentinels: seq<string>, t: string)
    ensures t in sentinels ==> IsSentinel(sentinels, t)
    ensures Lower(t) in sentinels ==> IsSentinel(sentinels, t)
  {
    LowerIdempotent(t);
    exists k :: 0 <= k < |sentinels| && Lower(t) == Lower(sentinels[k])
  }

  /** The loop at :164-167: does any sentinel match `t` case-insensitively? */
  function MatchesSentinel(sentinels: seq<string>, t: string): (b: bool)
    ensures b <==> IsSentinel(sentinels, t)
  {
    if |sentinels| == 0 then false
    else if Lower(t) == Lower(sentinels[0]) then true
    else
      var b := MatchesSentinel(sentinels[1..], t);
      assert IsSentinel(sentinels[1..], t) ==> IsSentinel(sentinels, t) by {
        if IsSentinel(sentinels[1..], t) {
          var k :| 0 <= k < |sentinels[1..]| && Lower(t) == Lower(sentinels[1..][k]);
          assert Lower(t) == Lower(sentinels[k + 1]);
        }
      }
      assert IsSentinel(sentinels, t) ==> IsSentinel(sentinels[1..], t) by {
        if IsSentinel(sentinels, t) {
          var k :| 0 <= k < |sentinels| && Lower(t) == Lower(sentinels[k]);
          assert k != 0;
          assert Lower(t) == Lower(sentinels[1..][k - 1]);
        }
      }
      b
  }

  /**
   * The value `stripValue` returns (:161-170): an absent value stays absent; a
   * string is trimmed, and becomes absent exactly when the trimmed text equals a
   * sentinel up to case; otherwise the trimmed text itself is returned.
   */
  function Strip(sentinels: seq<string>, value: Option<string>): (r: Option<string>)
    ensures value.None? ==> r.None?
    ensures value.Some? ==> (r.None? <==> IsSentinel(sentinels, Trim(value.value)))
    ensures r.Some? ==> value.Some? && r.value == Trim(value.value)
  {
    match value
    case None => None
    case Some(s) =>
      var t := Trim(s);
      if MatchesSentinel(sentinels, t) then None else Some(t)
  }

  /** Feeding a stripped value through `stripValue` again changes nothing. */
  lemma StripIdempotent(sentinels: seq<string>, value: Option<string>)
    ensures Strip(sentinels, Strip(sentinels, value)) == Strip(sentinels, value)
  {
    if value.Some? {
      TrimIdempotent(value.value);
    }
  }

  /** "none", "null" and the empty string, in any case and padding, are absent. */
  lemma DefaultSentinelsAreAbsent(extra: seq<string>, s: string)
    requires Lower(Trim(s)) in ["none", "null", ""]
    ensures Strip(Sentinels(extra), Some(s)) == None
  {
    var all := Sentinels(extra);
    var k := if Lower(Trim(s)) == "none" then 0 else if Lower(Trim(s)) == "null" then 1 else 2;
    assert Lower(all[k]) == all[k];
    assert Lower(Trim(s)) == Lower(all[k]);
  }

  // ------------------------------------------------ separator canonicalisation

  /** `normalizeDateValue` (:228-229): every `/` becomes `-`. */
  function NormalizeDateValue(s: string): (r: string)
    ensures |r| == |s| && '/' !in r
  {
    ReplaceChar(s, '/', '-')
  }

  /** `normalizeTimeValue` (:231-232): every `.` becomes `:`. */
  function NormalizeTimeValue(s: string): (r: string)
    ensures |r| == |s| && '.' !in r
  {
    ReplaceChar(s, '.', ':')
  }

  /** `normalizeDateTimeValue` (:225-226): the time rewrite, then the date rewrite. */
  function NormalizeDateTimeValue(s: string): (r: string)
    ensures |r| == |s| && '/' !in r && '.' !in r
  {
    NormalizeDateValue(NormalizeTimeValue(s))
  }

  /**
   * The date rewrite removes every `/`, turns each into `-` and leaves every
   * other character where it was.
   */
  lemma NormalizeDateValueSpec(s: string)
    ensures '/' !in NormalizeDateValue(s)
    ensures forall i :: 0 <= i < |s| ==>
      NormalizeDateValue(s)[i] == (if s[i] == '/' then '-' else s[i])
  {
  }

  /**
   * The time rewrite removes every `.`, turns each into `:` and leaves every
   * other character where it was.
   */
  lemma NormalizeTimeValueSpec(s: string)
    ensures '.' !in NormalizeTimeValue(s)
    ensures forall i :: 0 <= i < |s| ==>
      NormalizeTimeValue(s)[i] == (if s[i] == '.' then ':' else s[i])
  {
  }

  /** Normalising a date twice is normalising it once. */
  lemma NormalizeDateIdempotent(s: string)
    ensures NormalizeDateValue(NormalizeDateValue(s)) == NormalizeDateValue(s)
  {
    NormalizeDateValueSpec(s);
    NormalizeDateValueSpec(NormalizeDateValue(s));
  }

  /** Normalising a time twice is normalising it once. */
  lemma NormalizeTimeIdempotent(s: string)
    ensures NormalizeTimeValue(NormalizeTimeValue(s)) == NormalizeTimeValue(s)
  {
    NormalizeTimeValueSpec(s);
    NormalizeTimeValueSpec(NormalizeTimeValue(s));
  }

  /**
   * The combined rewrite replaces `.` and `/` independently, so the order of
   * the two rewrites does not matter, and it leaves neither character behind.
   */
  lemma NormalizeDateTimeSpec(s: string)
    ensures NormalizeDateTimeValue(s) == NormalizeTimeValue(NormalizeDateValue(s))
    ensures '.' !in NormalizeDateTimeValue(s) && '/' !in NormalizeDateTimeValue(s)
    ensures NormalizeDateTimeValue(NormalizeDateTimeValue(s)) == NormalizeDateTimeValue(s)
  {
    var t := NormalizeTimeValue(s);
    NormalizeTimeValueSpec(s);
    NormalizeDateValueSpec(t);
    NormalizeDateValueSpec(s);
    NormalizeTimeValueSpec(NormalizeDateValue(s));
    var r := NormalizeDateTimeValue(s);
    NormalizeTimeValueSpec(r);
    NormalizeDateValueSpec(NormalizeTimeValue(r));
  }
}
