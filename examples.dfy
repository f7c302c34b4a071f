/**
 * Worked samples: a year-month-day date, a 24-hour and a 12-hour time, a date
 * and time together, dates with only small components, a repeated date,
 * leading zeros, and decimal text.
 */
module Scenarios {
  import opened Wrappers
  import opened Text
  import opened Matchers
  import opened Normalizer
  import opened Faults
  import opened Patterns
  import opened Inference

  /** Splitting `a-b-c` at `-` when no piece has a `-`. */
  lemma SplitThree(a: string, b: string, c: string, sep: char)
    requires sep !in a && sep !in b && sep !in c
    ensures Split(a + [sep] + b + [sep] + c, sep) == [a, b, c]
  {
    var y := b + [sep] + c;
    SplitAfterPiece(b, sep, c);
    assert Split(c, sep) == [c];
    assert Split(y, sep) == [b, c];
    SplitAfterPiece(a, sep, y);
    assert a + [sep] + b + [sep] + c == a + [sep] + y;
  }

  /** The components of a three-part date with `-` separators. */
  lemma ThreePartDate(a: string, b: string, c: string)
    requires '-' !in a && '-' !in b && '-' !in c && '/' !in a && '/' !in b && '/' !in c
    requires ParseInt(a).Some? && ParseInt(b).Some? && ParseInt(c).Some?
    ensures ParseParts(Split(NormalizeDateValue(a + "-" + b + "-" + c), '-'))
         == Ok([ParseInt(a).value, ParseInt(b).value, ParseInt(c).value])
  {
    var v := a + "-" + b + "-" + c;
    AbsentFromThree(a, b, c, "-", '/');
    ReplaceAbsent(v, '/', '-');
    SplitThree(a, b, c, '-');
    var pieces := [a, b, c];
    var nums := [ParseInt(a).value, ParseInt(b).value, ParseInt(c).value];
    assert forall i :: 0 <= i < 3 ==> ParseInt(pieces[i]) == Some(nums[i]);
    ParsePartsAllParse(pieces, nums);
  }

  /** A four-digit year in the first slot pins `%Y` there and clears both years elsewhere. */
  lemma YearPinsFirstSlot(year: int)
    requires 1000 <= year <= 9999
    ensures PruneSlot(InitialSlots(3), 0, year) == [{LongYear}, {Day, Month}, {Day, Month}]
  {
    FourDigits(year);
    var s0 := InitialSlots(3);
    var narrowed := s0[0 := {LongYear}];
    assert |narrowed[0]| == 1;
    assert PotentialDateFormats - {LongYear, ShortYear} == {Day, Month};
    var r := RemoveElsewhere(narrowed, 0, {LongYear, ShortYear});
    assert r[0] == {LongYear} && r[1] == {Day, Month} && r[2] == {Day, Month};
  }

  /** Then a day above 12 in the last slot leaves only `%d` there and `%m` in the middle. */
  lemma DayFixesLastSlot(day: int)
    requires 12 < day <= 31
    ensures PruneSlot([{LongYear}, {Day, Month}, {Day, Month}], 2, day) == [{LongYear}, {Month}, {Day}]
  {
    FourDigits(day);
    var s2: Slots := [{LongYear}, {Day, Month}, {Day, Month}];
    var narrowed := s2[2 := s2[2] - {Month}];
    assert narrowed[2] == {Day};
    var r := RemoveElsewhere(narrowed, 2, {Day});
    assert {Day, Month} - {Day} == {Month};
    assert r[0] == {LongYear} && r[1] == {Month} && r[2] == {Day};
  }

  /** The slots that year-month-day components leave. */
  lemma YearMonthDaySlots(year: int, month: int, day: int)
    requires 1000 <= year <= 9999 && 0 <= month <= 12 && 12 < day <= 31
    ensures Prune(InitialSlots(3), [year, month, day]) == [{LongYear}, {Month}, {Day}]
  {
    FourDigits(month);
    var parts := [year, month, day];
    assert parts[..2] == [year, month] && parts[..2][..1] == [year] && parts[..2][..1][..0] == [];
    var s0 := InitialSlots(3);
    YearPinsFirstSlot(year);
    var s1: Slots := [{LongYear}, {Day, Month}, {Day, Month}];
    assert Prune(s0, [year]) == s1;
    assert PruneSlot(s1, 1, month) == s1;
    assert Prune(s0, [year, month]) == s1;
    DayFixesLastSlot(day);
  }

  /** Three pieces joined by a separator. */
  lemma JoinThree(a: string, b: string, c: string, sep: char)
    ensures Join([a, b, c], sep) == a + [sep] + b + [sep] + c
  {
    assert [a, b, c][1..] == [b, c] && [b, c][1..] == [c];
    assert Join([c], sep) == c;
    assert Join([b, c], sep) == b + [sep] + c;
  }

  /** The format of those slots. */
  lemma YearMonthDayFormat()
    ensures Resolved([{LongYear}, {Month}, {Day}])
    ensures DateFormat([{LongYear}, {Month}, {Day}]) == "%Y-%m-%d"
  {
    var slots: Slots := [{LongYear}, {Month}, {Day}];
    assert Sole({LongYear}) == LongYear && Sole({Month}) == Month && Sole({Day}) == Day;
    assert Directives(slots) == ["%Y", "%m", "%d"];
    JoinThree("%Y", "%m", "%d", '-');
  }


  /**
   * A first value year-month-day with a four-digit year and a day above 12
   * settles a date column at once on `%Y-%m-%d`: the year pins its slot and
   * clears the years elsewhere, and the day rules out the month, which leaves
   * the month for the middle slot.
   */
  lemma YearMonthDayResolves(y: string, m: string, d: string)
    requires '-' !in y && '-' !in m && '-' !in d && '/' !in y && '/' !in m && '/' !in d
    requires ParseInt(y).Some? && 1000 <= ParseInt(y).value <= 9999
    requires ParseInt(m).Some? && 0 <= ParseInt(m).value <= 12
    requires ParseInt(d).Some? && 12 < ParseInt(d).value <= 31
    ensures DateStep([], y + "-" + m + "-" + d) == Ok(([{LongYear}, {Month}, {Day}], Some("%Y-%m-%d")))
  {
    ThreePartDate(y, m, d);
    YearMonthDaySlots(ParseInt(y).value, ParseInt(m).value, ParseInt(d).value);
    YearMonthDayFormat();
  }

  /**
   * Components between 0 and 12 never pin a slot or drop the month, so while
   * every slot still has several candidates they narrow nothing.
   */
  lemma {:induction false} SmallComponentsNarrowNothing(slots: Slots, parts: seq<int>)
    requires |parts| <= |slots|
    requires forall i :: 0 <= i < |slots| ==> |slots[i]| > 1
    requires forall i :: 0 <= i < |parts| ==> 0 <= parts[i] <= 12
    ensures Prune(slots, parts) == slots
  {
    if |parts| > 0 {
      SmallComponentsNarrowNothing(slots, parts[..|parts| - 1]);
      FourDigits(parts[|parts| - 1]);
    }
  }

  /**
   * `03-04-05` followed by `03-25-05`: the second value rules the month out of
   * the middle slot only, so no slot is down to one candidate and the column
   * has no date format yet. No `%Y` is removed unless some component has four
   * digits or exceeds 31, so the code does not settle on `%m-%d-%y` here.
   */
  lemma AmbiguousDatesStayOpen()
    ensures var first := Prune(InitialSlots(3), [3, 4, 5]);
      && first == InitialSlots(3)
      && Prune(first, [3, 25, 5]) == [PotentialDateFormats, {Day, ShortYear, LongYear}, PotentialDateFormats]
      && !Settled(Prune(first, [3, 25, 5]))
  {
    var s0 := InitialSlots(3);
    assert s0 == [PotentialDateFormats, PotentialDateFormats, PotentialDateFormats];
    assert |PotentialDateFormats| == 4;
    SmallComponentsNarrowNothing(s0, [3, 4, 5]);
    FourDigits(3);
    FourDigits(25);
    FourDigits(5);
    var s1 := PruneSlot(s0, 0, 3);
    assert s1 == s0;
    var s2 := PruneSlot(s1, 1, 25);
    assert PotentialDateFormats - {Month} == {Day, ShortYear, LongYear};
    assert |{Day, ShortYear, LongYear}| == 3;
    assert s2 == [PotentialDateFormats, {Day, ShortYear, LongYear}, PotentialDateFormats];
    var s3 := PruneSlot(s2, 2, 5);
    assert s3 == s2;
    assert [3, 25, 5][..2] == [3, 25] && [3, 25][..1] == [3] && [3][..0] == [];
  }
  /** The 3 of a first `03-25-2023` leaves the fresh slots alone. */
  lemma SmallPartOnFreshSlots()
    ensures PruneSlot(InitialSlots(3), 0, 3) == InitialSlots(3)
  {
    assert |InitialSlots(3)[0]| == 4 by {
      assert |PotentialDateFormats| == 4;
    }
    FourDigits(3);
  }

  /** The 25 of a first `03-25-2023` takes `%m` out of slot 1 and settles nothing. */
  lemma DayOnFreshSlots()
    ensures PruneSlot(InitialSlots(3), 1, 25)
      == [PotentialDateFormats, {Day, ShortYear, LongYear}, PotentialDateFormats]
  {
    var s0 := InitialSlots(3);
    assert s0 == [PotentialDateFormats, PotentialDateFormats, PotentialDateFormats];
    FourDigits(25);
    assert PotentialDateFormats - {Month} == {Day, ShortYear, LongYear};
    assert |{Day, ShortYear, LongYear}| == 3;
  }

  /** The 2023 of a first `03-25-2023` pins slot 2 and takes the years out of slots 0 and 1. */
  lemma YearAfterDay()
    ensures PruneSlot([PotentialDateFormats, {Day, ShortYear, LongYear}, PotentialDateFormats], 2, 2023)
      == [{Day, Month}, {Day}, {LongYear}]
  {
    var s2: Slots := [PotentialDateFormats, {Day, ShortYear, LongYear}, PotentialDateFormats];
    FourDigits(2023);
    assert PotentialDateFormats - {LongYear, ShortYear} == {Day, Month};
    assert {Day, ShortYear, LongYear} - {LongYear, ShortYear} == {Day};
    var r := RemoveElsewhere(s2[2 := {LongYear}], 2, {LongYear, ShortYear});
    assert r[0] == {Day, Month} && r[1] == {Day} && r[2] == {LongYear};
  }

  /** `03-25-2023` as the first date: the day settles slot 1 only after the year, so slot 0 keeps two candidates. */
  lemma FirstDateStopsShort()
    ensures Prune(InitialSlots(3), [3, 25, 2023]) == [{Day, Month}, {Day}, {LongYear}]
  {
    SmallPartOnFreshSlots();
    DayOnFreshSlots();
    YearAfterDay();
    assert [3, 25, 2023][..2] == [3, 25] && [3, 25][..1] == [3] && [3][..0] == [];
  }

  /** The month-sized 3 of the same value again leaves the open slot 0 and everything else alone. */
  lemma SmallPartOnOpenSlot()
    ensures PruneSlot([{Day, Month}, {Day}, {LongYear}], 0, 3) == [{Day, Month}, {Day}, {LongYear}]
  {
    FourDigits(3);
    assert |{Day, Month}| == 2;
  }

  /** The day of the same value again: slot 1 is already `{%d}`, so `%d` leaves slot 0. */
  lemma SettledDayPropagates()
    ensures PruneSlot([{Day, Month}, {Day}, {LongYear}], 1, 25) == [{Month}, {Day}, {LongYear}]
  {
    var s0: Slots := [{Day, Month}, {Day}, {LongYear}];
    FourDigits(25);
    assert {Day} - {Month} == {Day};
    assert s0[1 := s0[1] - {Month}] == s0;
    var r := RemoveElsewhere(s0, 1, {Day});
    assert r[0] == {Month} && r[1] == {Day} && r[2] == {LongYear};
  }

  /** The year of the same value again pins slot 2 as it was and changes nothing. */
  lemma RepeatedYearChangesNothing()
    ensures PruneSlot([{Month}, {Day}, {LongYear}], 2, 2023) == [{Month}, {Day}, {LongYear}]
  {
    var s0: Slots := [{Month}, {Day}, {LongYear}];
    FourDigits(2023);
    assert s0[2 := {LongYear}] == s0;
    var r := RemoveElsewhere(s0, 2, {LongYear, ShortYear});
    assert r[0] == {Month} && r[1] == {Day} && r[2] == {LongYear};
  }

  /** The same value again: slot 1 is already settled, so this time it takes `%d` out of slot 0. */
  lemma SameDateAgainNarrows()
    ensures Prune([{Day, Month}, {Day}, {LongYear}], [3, 25, 2023]) == [{Month}, {Day}, {LongYear}]
  {
    var s0: Slots := [{Day, Month}, {Day}, {LongYear}];
    SmallPartOnOpenSlot();
    SettledDayPropagates();
    RepeatedYearChangesNothing();
    var s2: Slots := [{Month}, {Day}, {LongYear}];
    assert [3, 25, 2023][..2] == [3, 25] && [3, 25][..1] == [3] && [3][..0] == [];
    assert Prune(s0, [3]) == s0;
    assert Prune(s0, [3, 25]) == s2;
    assert Prune(s0, [3, 25, 2023]) == PruneSlot(s2, 2, 2023);
  }

  /** The candidates after the first and after the second sample. */
  lemma OpenThenResolved()
    ensures var first: Slots := [{Day, Month}, {Day}, {LongYear}];
      var second: Slots := [{Month}, {Day}, {LongYear}];
      !Settled(first) && second != first && Resolved(second)
  {
    var first: Slots := [{Day, Month}, {Day}, {LongYear}];
    var second: Slots := [{Month}, {Day}, {LongYear}];
    assert |first[0]| == 2;
    assert second[0] != first[0];
    assert |second[0]| == 1 && |second[1]| == 1 && |second[2]| == 1;
  }

  /**
   * A repeated date value can still narrow the candidates: `03-25-2023` seen
   * twice leaves slot 0 open after the first sample and settles it on `%m` on
   * the second.
   */
  lemma RepeatedDateCanNarrow()
    ensures var first := Prune(InitialSlots(3), [3, 25, 2023]);
      && !Settled(first)
      && Prune(first, [3, 25, 2023]) != first
      && Resolved(Prune(first, [3, 25, 2023]))
  {
    FirstDateStopsShort();
    SameDateAgainNarrows();
    OpenThenResolved();
  }


  lemma TimeSplit(h: string, mi: string)
    requires ':' !in h && ':' !in mi
    ensures Split(h + ":" + mi, ':') == [h, mi]
  {
    SplitAfterPiece(h, ':', mi);
    assert Split(mi, ':') == [mi];
  }

  /** `h:mm` with an hour above 12 fixes a 24-hour pattern on the first sample. */
  lemma TwentyFourHourTime(h: string, mi: string, count: nat)
    requires ':' !in h && ':' !in mi && '.' !in h && '.' !in mi
    requires ParseInt(h).Some? && ParseInt(h).value > 12
    ensures TimeStep(count, h + ":" + mi, false) == Ok(Some("%H:%M"))
  {
    var v := h + ":" + mi;
    assert '.' !in v by {
      assert forall k :: 0 <= k < |v| ==> v[k] in h || v[k] == ':' || v[k] in mi;
    }
    ReplaceAbsent(v, '.', ':');
    TimeSplit(h, mi);
    assert Split(NormalizeTimeValue(v), ':') == [h, mi];
    assert TimePattern(true, 2, false) == "%H:%M";
  }

  /** `h:mm` with an hour of 12 or less is undecided until the FORCE_FORMAT-th sample. */
  lemma TwelveHourTimeIsForced(h: string, mi: string, count: nat)
    requires ':' !in h && ':' !in mi && '.' !in h && '.' !in mi
    requires ParseInt(h).Some? && ParseInt(h).value <= 12
    ensures TimeStep(count, h + ":" + mi, false) == if count + 1 == ForceFormat then Ok(Some("%I:%M")) else Ok(None)
  {
    var v := h + ":" + mi;
    assert '.' !in v by {
      assert forall k :: 0 <= k < |v| ==> v[k] in h || v[k] == ':' || v[k] in mi;
    }
    ReplaceAbsent(v, '.', ':');
    TimeSplit(h, mi);
    assert Split(NormalizeTimeValue(v), ':') == [h, mi];
    assert TimePattern(false, 2, false) == "%I:%M";
  }

  /** `setPattern` is its two halves followed by the commit. */
  lemma PatternStepOfHalves<V>(snap: Snapshot<V>, s: string, timed: Snapshot<V>, dated: Snapshot<V>)
    requires snap.dataType.Some?
    requires TimeHalf(snap, snap.dataType.value, Split(s, ' ')) == Ok(timed)
    requires DateHalf(timed, snap.dataType.value, Split(s, ' ')) == Ok(dated)
    ensures PatternStep(snap, s) == Ok(Commit(dated, snap.dataType.value))
  {
  }

  /** The time half of a fresh date-and-time column on pieces `[date, time]`. */
  lemma FreshTimeHalf<V>(parts: seq<string>, date: string, time: string, tf: string)
    requires parts == [date, time]
    requires TimeStep(0, time, false) == Ok(Some(tf))
    ensures var column := Initial<V>().(dataType := Some(DateTime));
      TimeHalf(column, DateTime, parts) == Ok(column.(timeSampleCount := 1, timeFormat := Some(tf)))
  {
    assert TimeArguments(DateTime, parts) == Some((time, false));
  }

  /** The date half of a column with no candidates yet on pieces `[date, time]`. */
  lemma FreshDateHalf<V>(timed: Snapshot<V>, parts: seq<string>, date: string, time: string, slots: Slots, df: string)
    requires parts == [date, time] && timed.slots == [] && timed.dateFormat.None?
    requires DateStep([], date) == Ok((slots, Some(df)))
    ensures DateHalf(timed, DateTime, parts) == Ok(timed.(slots := slots, dateFormat := Some(df)))
  {
  }

  /**
   * A date-and-time value whose date half settles on format `df` and whose
   * time half commits `tf` resolves its column to `df + ' ' + tf`.
   */
  lemma DateTimeHalvesCombine<V>(date: string, time: string, slots: Slots, df: string, tf: string)
    requires ' ' !in date && ' ' !in time
    requires DateStep([], date) == Ok((slots, Some(df)))
    requires TimeStep(0, time, false) == Ok(Some(tf))
    ensures var r := PatternStep(Initial<V>().(dataType := Some(DateTime)), date + [' '] + time);
      && r.Ok? && r.value.conversionSet && r.value.pattern == Some(df + " " + tf)
  {
    var column := Initial<V>().(dataType := Some(DateTime));
    var s := date + [' '] + time;
    SplitAfterPiece(date, ' ', time);
    assert Split(time, ' ') == [time];
    var parts := Split(s, ' ');
    FreshTimeHalf<V>(parts, date, time, tf);
    var timed := column.(timeSampleCount := 1, timeFormat := Some(tf));
    FreshDateHalf(timed, parts, date, time, slots, df);
    var dated := timed.(slots := slots, dateFormat := Some(df));
    PatternStepOfHalves(column, s, timed, dated);
  }

  /** A character other than the separator that no piece contains is not in their join. */
  lemma AbsentFromThree(a: string, b: string, c: string, sep: string, ch: char)
    requires ch !in a && ch !in b && ch !in c && ch !in sep
    ensures ch !in a + sep + b + sep + c
  {
    var v := a + sep + b + sep + c;
    assert forall k :: 0 <= k < |v| ==> v[k] in a || v[k] in sep || v[k] in b || v[k] in c;
  }

  /** The date-and-time pattern for `%Y-%m-%d` and `%H:%M`. */
  lemma JoinedPattern()
    ensures "%Y-%m-%d" + " " + "%H:%M" == "%Y-%m-%d %H:%M"
  {
  }

  lemma DateTimeText(y: string, m: string, d: string, h: string, mi: string)
    ensures y + "-" + m + "-" + d + " " + h + ":" + mi == (y + "-" + m + "-" + d) + [' '] + (h + ":" + mi)
  {
  }

  /**
   * A first value `Y-m-d H:M` on a date-and-time column, with a four-digit
   * year, a day above 12 and an hour above 12, resolves the column at once to
   * `%Y-%m-%d %H:%M`.
   */
  lemma DateTimeResolves<V>(y: string, m: string, d: string, h: string, mi: string)
    requires '-' !in y && '-' !in m && '-' !in d && '/' !in y && '/' !in m && '/' !in d
    requires ' ' !in y && ' ' !in m && ' ' !in d
    requires ParseInt(y).Some? && 1000 <= ParseInt(y).value <= 9999
    requires ParseInt(m).Some? && 0 <= ParseInt(m).value <= 12
    requires ParseInt(d).Some? && 12 < ParseInt(d).value <= 31
    requires ':' !in h && ':' !in mi && '.' !in h && '.' !in mi && ' ' !in h && ' ' !in mi
    requires ParseInt(h).Some? && ParseInt(h).value > 12
    ensures var r := PatternStep(Initial<V>().(dataType := Some(DateTime)), y + "-" + m + "-" + d + " " + h + ":" + mi);
      && r.Ok? && r.value.conversionSet && r.value.pattern == Some("%Y-%m-%d %H:%M")
  {
    var date := y + "-" + m + "-" + d;
    var time := h + ":" + mi;
    AbsentFromThree(y, m, d, "-", ' ');
    assert ' ' !in time by {
      assert forall k :: 0 <= k < |time| ==> time[k] in h || time[k] == ':' || time[k] in mi;
    }
    TwentyFourHourTime(h, mi, 0);
    YearMonthDayResolves(y, m, d);
    DateTimeHalvesCombine<V>(date, time, [{LongYear}, {Month}, {Day}], "%Y-%m-%d", "%H:%M");
    DateTimeText(y, m, d, h, mi);
    JoinedPattern();
  }

  /**
   * A component keeps only its value: four digits with a leading zero, such as
   * `0099`, print shorter than four characters, so they never pin `%Y`.
   */
  lemma LeadingZeroYearIsNotLong(s: string)
    requires |s| == 4 && AllDigits(s) && s[0] == '0'
    ensures ParseInt(s).Some? && Pinned(ParseInt(s).value) != Some(LongYear)
  {
    assert !IsSpace(s[0]) && !IsSpace(s[3]);
    TrimOfTrimmed(s);
    var t3, t2, t1 := s[..3], s[..2], s[..1];
    assert t3[..2] == t2 && t2[..1] == t1 && t1[..0] == [];
    assert DigitsValue(t1) == 0;
    assert DigitsValue(t2) <= 9;
    assert DigitsValue(t3) <= 99;
    assert DigitsValue(s) <= 999;
    FourDigits(DigitsValue(s));
  }

  /**
   * Decimal text such as `2.5` or `123.45` is not something `int()` accepts; with
   * no `:` and fewer than eight characters it has neither a time nor a date
   * window, so it is a string column.
   */
  lemma DecimalTextIsString(s: string, hasFraction: string -> bool)
    requires '.' in s && ':' !in s && |s| < 8
    ensures Classify(s, hasFraction) == Str
  {
  }
}
