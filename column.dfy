/**
 * The `Column` class of excelPython/importExcel.py:101-282 with the fields it
 * updates in place. Every method is proved to leave the object in the state
 * the matching function of Inference or Patterns computes, so the properties
 * proved there hold for the object too. A method that meets a fault returns it
 * as `Fail`; the source raises, and the column is not used afterwards.
 */
module Columns {
  import opened Wrappers
  import opened Text
  import opened Matchers
  import opened Normalizer
  import opened Faults
  import opened Patterns
  import opened Inference

  class Column<V> {
    const headerName: Option<string>
    const stringToNone: seq<string>
    const convert: (DataType, Option<string>, string) -> Option<V>
    const hasFraction: string -> bool

    var values: seq<Entry<V>>
    var dataType: Option<DataType>
    var potentialDatePatterns: Slots
    var timeSampleCount: nat
    var timeFormat: Option<string>
    var dateFormat: Option<string>
    var pattern: Option<string>
    /** `conversionFunction` is set. */
    var conversionSet: bool
    /** How many entries are buffered raw (`rawValueIndex + 1`). */
    var pendingCount: nat
    var charLength: nat

    function Cfg(): Config<V> {
      Config(headerName, stringToNone, convert, hasFraction)
    }

    ghost function Snap(): Snapshot<V>
      reads this
    {
      Snapshot(values, dataType, potentialDatePatterns, timeSampleCount, timeFormat,
               dateFormat, pattern, conversionSet, pendingCount, charLength)
    }

    ghost predicate Valid()
      reads this
    {
      Inv(Snap())
    }

    /** `Column(headerName, stringToNone)` (:102-114). */
    constructor(headerName: Option<string>, stringToNone: seq<string>,
                convert: (DataType, Option<string>, string) -> Option<V>, hasFraction: string -> bool)
      ensures Cfg() == Config(headerName, Sentinels(stringToNone), convert, hasFraction)
      ensures Snap() == Initial() && Valid()
    {
      this.headerName := headerName;
      this.stringToNone := Sentinels(stringToNone);
      this.convert := convert;
      this.hasFraction := hasFraction;
      values := [];
      dataType := None;
      potentialDatePatterns := [];
      timeSampleCount := 0;
      timeFormat := None;
      dateFormat := None;
      pattern := None;
      conversionSet := false;
      pendingCount := 0;
      charLength := 0;
    }

    /** `stripValue` (:161-170): the stripped value, and the widest kept text so far. */
    method StripValue(value: Option<string>) returns (r: Option<string>)
      modifies this`charLength
      ensures r == Strip(stringToNone, value)
      ensures charLength == if r.Some? then Max(old(charLength), |r.value|) else old(charLength)
    {
      if value.None? {
        return None;
      }
      var t := Trim(value.value);
      r := Some(t);
      var i := 0;
      while i < |stringToNone|
        invariant 0 <= i <= |stringToNone|
        invariant forall k :: 0 <= k < i ==> Lower(t) != Lower(stringToNone[k])
      {
        if Lower(t) == Lower(stringToNone[i]) {
          r := None;
          break;
        }
        i := i + 1;
      }
      if r.Some? {
        charLength := Max(charLength, |t|);
      }
    }

    /** `setDataType` (:172-189). */
    method SetDataType(value: string)
      modifies this`dataType, this`conversionSet
      ensures Snap() == TypeStep(old(Snap()), value, hasFraction)
    {
      if ParseInt(value).Some? {
        dataType := Some(if hasFraction(value) then Float else Integer);
        conversionSet := true;
        return;
      }
      var hasTime := HasTime(value);
      var hasDate := HasDate(value);
      if hasDate && hasTime {
        dataType := Some(DateTime);
      } else if hasDate {
        dataType := Some(Date);
      } else if hasTime {
        dataType := Some(Time);
      } else {
        dataType := Some(Str);
        conversionSet := true;
      }
    }

    /** `setTimePattern(value, hasPM)` (:234-250). */
    method SetTimePattern(value: string, hasPM: bool) returns (r: Outcome<Fault>)
      modifies this`timeSampleCount, this`timeFormat
      ensures timeSampleCount == old(timeSampleCount) + 1
      ensures match TimeStep(old(timeSampleCount), value, hasPM)
              case Err(e) => r == Fail(e) && timeFormat == old(timeFormat)
              case Ok(f) => r == Pass && timeFormat == if f.Some? then f else old(timeFormat)
    {
      timeSampleCount := timeSampleCount + 1;
      var timeParts := Split(NormalizeTimeValue(value), ':');
      var p := "%I";
      var hour := ParseInt(timeParts[0]);
      if hour.None? {
        return Fail(BadInteger(timeParts[0]));
      }
      var timeFormatFound := false;
      if hour.value > 12 {
        p := "%H";
        timeFormatFound := true;
      }
      p := p + ":%M";
      ghost var head := p;
      if |timeParts| > 2 {
        p := p + ":%S";
      }
      assert p == head + (if |timeParts| > 2 then ":%S" else "");
      if |timeParts| > 3 {
        p := p + ".%f";
      }
      assert p == head + (if |timeParts| > 2 then ":%S" else "") + (if |timeParts| > 3 then ".%f" else "");
      if hasPM {
        p := p + " %p";
      }
      assert p == TimePattern(hour.value > 12, |timeParts|, hasPM);
      if timeFormatFound || timeSampleCount == ForceFormat {
        timeFormat := Some(p);
      }
      return Pass;
    }

    /** `[int(x) for x in pieces]` (:253). */
    method ParseComponents(pieces: seq<string>) returns (r: Result<seq<int>, Fault>)
      ensures r == ParseParts(pieces)
    {
      var parts: seq<int> := [];
      var i := 0;
      while i < |pieces|
        invariant 0 <= i <= |pieces| && |parts| == i
        invariant forall k :: 0 <= k < i ==> ParseInt(pieces[k]) == Some(parts[k])
      {
        var n := ParseInt(pieces[i]);
        if n.None? {
          ParsePartsFirstFailure(pieces, i);
          return Err(BadInteger(pieces[i]));
        }
        parts := parts + [n.value];
        i := i + 1;
      }
      ParsePartsAllParse(pieces, parts);
      return Ok(parts);
    }

    /** One pass of the loop at :257-272 for component `part` at slot `idx`. */
    method PruneAt(idx: nat, part: int)
      requires idx < |potentialDatePatterns|
      modifies this`potentialDatePatterns
      ensures potentialDatePatterns == PruneSlot(old(potentialDatePatterns), idx, part)
    {
      var toRemove: set<DateToken> := {};
      if DecimalLength(part) == 4 {
        potentialDatePatterns := potentialDatePatterns[idx := {LongYear}];
        toRemove := {LongYear, ShortYear};
      } else if part > 31 {
        potentialDatePatterns := potentialDatePatterns[idx := {ShortYear}];
        toRemove := {LongYear, ShortYear};
      } else if part > 12 {
        potentialDatePatterns := potentialDatePatterns[idx := potentialDatePatterns[idx] - {Month}];
      }
      if |potentialDatePatterns[idx]| == 1 {
        if toRemove == {} {
          toRemove := potentialDatePatterns[idx];
        }
        ghost var narrowed := potentialDatePatterns;
        var n := 0;
        while n < |potentialDatePatterns|
          invariant 0 <= n <= |potentialDatePatterns| == |narrowed|
          invariant forall j :: 0 <= j < |narrowed| ==>
            potentialDatePatterns[j] == if j < n && j != idx then narrowed[j] - toRemove else narrowed[j]
        {
          if n != idx {
            potentialDatePatterns := potentialDatePatterns[n := potentialDatePatterns[n] - toRemove];
          }
          n := n + 1;
        }
        assert potentialDatePatterns == RemoveElsewhere(narrowed, idx, toRemove);
      }
    }

    /**
     * The loop at :257-272: prune every slot in turn; a component with no slot
     * of its own is the IndexError of `potentialDatePatterns[idx]`.
     */
    method PruneAll(dateParts: seq<int>) returns (r: Outcome<Fault>)
      modifies this`potentialDatePatterns
      ensures |dateParts| > |old(potentialDatePatterns)| ==> r == Fail(TooManyDateParts)
      ensures |dateParts| <= |old(potentialDatePatterns)| ==>
        r == Pass && potentialDatePatterns == Prune(old(potentialDatePatterns), dateParts)
    {
      ghost var start := potentialDatePatterns;
      var idx := 0;
      while idx < |dateParts|
        invariant 0 <= idx <= |dateParts| && idx <= |start|
        invariant potentialDatePatterns == Prune(start, dateParts[..idx])
        invariant |potentialDatePatterns| == |start|
      {
        if idx == |potentialDatePatterns| {
          return Fail(TooManyDateParts);
        }
        ghost var before := potentialDatePatterns;
        PruneAt(idx, dateParts[idx]);
        assert dateParts[..idx + 1][..idx] == dateParts[..idx];
        assert Prune(start, dateParts[..idx + 1]) == PruneSlot(before, idx, dateParts[idx]);
        idx := idx + 1;
      }
      assert dateParts[..idx] == dateParts;
      return Pass;
    }

    /** The loop at :273-277: does every slot have at most one candidate? */
    method IsSettled() returns (foundPattern: bool)
      ensures foundPattern == Settled(potentialDatePatterns)
    {
      foundPattern := true;
      var k := 0;
      while k < |potentialDatePatterns|
        invariant 0 <= k <= |potentialDatePatterns|
        invariant forall i :: 0 <= i < k ==> |potentialDatePatterns[i]| <= 1
      {
        if |potentialDatePatterns[k]| > 1 {
          foundPattern := false;
          break;
        }
        k := k + 1;
      }
    }

    /**
     * The loop at :279-282: each slot's candidate followed by `-`, with the
     * last `-` cut off; an empty slot is the IndexError of `subPat[0]`.
     */
    method BuildDateFormat() returns (r: Result<string, Fault>)
      requires |potentialDatePatterns| >= 1 && Settled(potentialDatePatterns)
      ensures Resolved(potentialDatePatterns) ==> r == Ok(DateFormat(potentialDatePatterns))
      ensures !Resolved(potentialDatePatterns) ==> r == Err(EmptySlot)
    {
      var slots := potentialDatePatterns;
      var p := "";
      var m := 0;
      while m < |slots|
        invariant 0 <= m <= |slots|
        invariant forall i :: 0 <= i < m ==> |slots[i]| == 1
        invariant m == 0 ==> p == ""
        invariant m > 0 ==> p == Join(seq(m, i requires 0 <= i < m => Directive(Sole(slots[i]))), '-') + "-"
      {
        if |slots[m]| == 0 {
          return Err(EmptySlot);
        }
        var sub := Sole(slots[m]);
        ghost var before := seq(m, i requires 0 <= i < m => Directive(Sole(slots[i])));
        ghost var after := seq(m + 1, i requires 0 <= i < m + 1 => Directive(Sole(slots[i])));
        assert after == before + [Directive(sub)];
        if m > 0 {
          JoinSnoc(before, Directive(sub), '-');
        }
        p := p + Directive(sub) + "-";
        m := m + 1;
      }
      assert seq(m, i requires 0 <= i < m => Directive(Sole(slots[i]))) == Directives(slots);
      return Ok(p[..|p| - 1]);
    }

    /** One fresh copy of the candidates per component (:254-256). */
    method InitSlots(n: nat)
      requires potentialDatePatterns == []
      modifies this`potentialDatePatterns
      ensures potentialDatePatterns == InitialSlots(n)
    {
      var j := 0;
      while j < n
        invariant 0 <= j <= n && potentialDatePatterns == InitialSlots(j)
      {
        potentialDatePatterns := potentialDatePatterns + [PotentialDateFormats];
        j := j + 1;
      }
    }

    /** Lines 257-282 of `setDatePattern`, once the components are parsed and the slots exist. */
    method NarrowDatePattern(dateParts: seq<int>) returns (r: Outcome<Fault>)
      modifies this`potentialDatePatterns, this`dateFormat
      ensures match NarrowDate(old(potentialDatePatterns), dateParts)
              case Err(e) => r == Fail(e)
              case Ok((slots, f)) =>
                r == Pass && potentialDatePatterns == slots && dateFormat == if f.Some? then f else old(dateFormat)
    {
      ghost var start := potentialDatePatterns;
      r := PruneAll(dateParts);
      if r.Fail? {
        return;
      }
      var foundPattern := IsSettled();
      if foundPattern {
        if |potentialDatePatterns| == 0 {
          dateFormat := Some("");
          assert Resolved(potentialDatePatterns);
          assert DateFormat(potentialDatePatterns) == "";
          return;
        }
        var format := BuildDateFormat();
        if format.Err? {
          return Fail(format.error);
        }
        dateFormat := Some(format.value);
      }
    }

    /** `setDatePattern(value)` (:252-282). */
    method SetDatePattern(value: string) returns (r: Outcome<Fault>)
      modifies this`potentialDatePatterns, this`dateFormat
      ensures match DateStep(old(potentialDatePatterns), value)
              case Err(e) => r == Fail(e)
              case Ok((slots, f)) =>
                r == Pass && potentialDatePatterns == slots && dateFormat == if f.Some? then f else old(dateFormat)
    {
      var parsed := ParseComponents(Split(NormalizeDateValue(value), '-'));
      if parsed.Err? {
        return Fail(parsed.error);
      }
      var dateParts := parsed.value;
      if |potentialDatePatterns| == 0 {
        InitSlots(|dateParts|);
      }
      r := NarrowDatePattern(dateParts);
    }

    /** The time block of `setPattern` (:213-214), for time and date-and-time columns only. */
    method SetTimeHalf(dt: DataType, parts: seq<string>) returns (r: Outcome<Fault>)
      requires |parts| >= 1
      modifies this`timeSampleCount, this`timeFormat
      ensures match TimeHalf(old(Snap()), dt, parts)
              case Err(e) => r == Fail(e)
              case Ok(t) => r == Pass && Snap() == t
    {
      if (dt == Time || dt == DateTime) && timeFormat.None? {
        var args := TimeArguments(dt, parts);
        if args.None? {
          return Fail(MissingTimePart);
        }
        ghost var snap := old(Snap());
        r := SetTimePattern(args.value.0, args.value.1);
        assert Snap() == snap.(timeSampleCount := timeSampleCount, timeFormat := timeFormat);
        return;
      }
      return Pass;
    }

    /** The date block of `setPattern` (:215-216), for date and date-and-time columns only. */
    method SetDateHalf(dt: DataType, parts: seq<string>) returns (r: Outcome<Fault>)
      requires |parts| >= 1
      modifies this`potentialDatePatterns, this`dateFormat
      ensures match DateHalf(old(Snap()), dt, parts)
              case Err(e) => r == Fail(e)
              case Ok(t) => r == Pass && Snap() == t
    {
      if (dt == Date || dt == DateTime) && dateFormat.None? {
        r := SetDatePattern(parts[0]);
        return;
      }
      return Pass;
    }

    /** The commit block of `setPattern` (:217-223). */
    method CommitPattern(dt: DataType)
      modifies this`pattern, this`conversionSet
      ensures Snap() == Commit(old(Snap()), dt)
    {
      if dt == DateTime {
        if timeFormat.Some? && dateFormat.Some? {
          pattern := Some(dateFormat.value + " " + timeFormat.value);
          conversionSet := true;
        }
      } else if (dt == Time && timeFormat.Some?) || (dt == Date && dateFormat.Some?) {
        pattern := if timeFormat.Some? then timeFormat else dateFormat;
        conversionSet := true;
      }
    }

    /** `setPattern(value)` (:211-223). */
    method SetPattern(value: string) returns (r: Outcome<Fault>)
      requires dataType.Some?
      modifies this`timeSampleCount, this`timeFormat, this`potentialDatePatterns, this`dateFormat,
        this`pattern, this`conversionSet
      ensures match PatternStep(old(Snap()), value)
              case Err(e) => r == Fail(e)
              case Ok(t) => r == Pass && Snap() == t
    {
      var dt := dataType.value;
      var parts := Split(value, ' ');
      r := SetTimeHalf(dt, parts);
      if r.Fail? {
        return;
      }
      r := SetDateHalf(dt, parts);
      if r.Fail? {
        return;
      }
      CommitPattern(dt);
    }

    /** `processValue(value)` (:116-146). */
    method ProcessValue(value: Option<string>) returns (r: Outcome<Fault>)
      requires Valid()
      modifies this
      ensures match Process(Cfg(), old(Snap()), value)
              case Err(e) => r == Fail(e)
              case Ok(t) => r == Pass && Snap() == t && Valid()
    {
      ghost var s0 := Snap();
      var stripped := StripValue(value);
      if stripped.None? {
        values := values + [Absent];
        ProcessKeepsInv(Cfg(), s0, value);
        return Pass;
      }
      r := ProcessPresent(stripped.value);
      if r.Pass? {
        ProcessKeepsInv(Cfg(), s0, value);
      }
    }

    /** The type and pattern decisions of `processValue` (:121-124). */
    method PreparePresent(s: string) returns (r: Outcome<Fault>)
      modifies this`dataType, this`potentialDatePatterns, this`timeSampleCount,
        this`timeFormat, this`dateFormat, this`pattern, this`conversionSet
      ensures match Prepare(Cfg(), old(Snap()), s)
              case Err(e) => r == Fail(e)
              case Ok(t) => r == Pass && Snap() == t
    {
      ghost var s0 := Snap();
      if dataType.None? {
        SetDataType(s);
      }
      assert Snap() == if s0.dataType.None? then TypeStep(s0, s, hasFraction) else s0;
      r := Pass;
      if !conversionSet {
        r := SetPattern(s);
      }
    }

    /** The part of `processValue` after a value is known to be present (:121-146). */
    method ProcessPresent(s: string) returns (r: Outcome<Fault>)
      modifies this`values, this`dataType, this`potentialDatePatterns, this`timeSampleCount,
        this`timeFormat, this`dateFormat, this`pattern, this`conversionSet, this`pendingCount
      ensures match Absorb(Cfg(), old(Snap()), s)
              case Err(e) => r == Fail(e)
              case Ok(t) => r == Pass && Snap() == t
    {
      r := PreparePresent(s);
      if r.Fail? {
        return;
      }
      ghost var prepared := Snap();
      var norm := s;
      if dataType == Some(Date) {
        norm := NormalizeDateValue(s);
      } else if dataType == Some(Time) {
        norm := NormalizeTimeValue(s);
      } else if dataType == Some(DateTime) {
        norm := NormalizeDateTimeValue(s);
      }
      assert norm == Normalize(prepared.dataType.value, s);
      r := StoreValue(norm);
    }

    /** The end of `processValue` (:131-146): buffer the value raw, or convert and append it. */
    method StoreValue(norm: string) returns (r: Outcome<Fault>)
      requires dataType.Some?
      modifies this`values, this`pendingCount
      ensures match Store(Cfg(), old(Snap()), norm)
              case Err(e) => r == Fail(e)
              case Ok(t) => r == Pass && Snap() == t
    {
      if !conversionSet {
        pendingCount := pendingCount + 1;
        values := values + [Raw(norm)];
      } else {
        var converted := convert(dataType.value, pattern, norm);
        if converted.None? {
          return Fail(ConversionFailure(headerName, norm, pattern));
        }
        values := values + [Value(converted.value)];
      }
      return Pass;
    }

    /** `fixUpRawValues` (:148-159). */
    method FixUpRawValues() returns (r: Outcome<Fault>)
      requires Valid()
      modifies this`values, this`pendingCount
      ensures match FixUp(Cfg(), old(Snap()))
              case Err(e) => r == Fail(e)
              case Ok(t) => r == Pass && Snap() == t
      ensures r.Pass? ==> Valid()
    {
      if pendingCount == 0 {
        return Pass;
      }
      if !conversionSet {
        return Fail(UnresolvedFormat);
      }
      var dt := dataType.value;
      var i := 0;
      while i < |values|
        invariant 0 <= i <= |values| == |old(values)|
        invariant forall k :: 0 <= k < i ==> ConvertedEntry(Cfg(), dt, pattern, old(values)[k], values[k])
        invariant forall k :: 0 <= k < i ==> !Rejected(Cfg(), dt, pattern, old(values)[k])
        invariant values[i..] == old(values)[i..]
      {
        assert values[i] == old(values)[i];
        match values[i] {
          case Raw(t) =>
            var converted := convert(dt, pattern, t);
            if converted.None? {
              assert Rejected(Cfg(), dt, pattern, old(values)[i]);
              return Fail(ConversionFailure(headerName, t, pattern));
            }
            values := values[i := Value(converted.value)];
          case _ =>
        }
        i := i + 1;
      }
      var fixed := ConvertRaw(Cfg(), dt, pattern, old(values));
      assert fixed.Ok?;
      forall k | 0 <= k < |values|
        ensures values[k] == fixed.value[k]
      {
        ConvertedEntryUnique(Cfg(), dt, pattern, old(values)[k], values[k], fixed.value[k]);
      }
      assert values == fixed.value;
      ghost var snap := old(Snap());
      assert FixUp(Cfg(), snap) == Ok(snap.(values := fixed.value, pendingCount := 0));
      pendingCount := 0;
      assert Snap() == snap.(values := fixed.value, pendingCount := 0);
      FixUpKeepsInv(Cfg(), snap);
      return Pass;
    }
  }
}
