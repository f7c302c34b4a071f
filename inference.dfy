/**
 * The column inference engine of excelPython/importExcel.py:101-159 as
 * functions on a snapshot of a column's fields: `processValue` (:116-146) is
 * Process, `fixUpRawValues` (:148-159) is FixUp, `setDataType` (:172-189) is
 * TypeStep and `setPattern` (:211-223) is PatternStep. The class
 * `Columns.Column` keeps the same fields and is proved to follow these.
 *
 * Corrections built in (AsWritten has the code as written): time narrowing runs
 * only for time and date-and-time columns and date narrowing only for date and
 * date-and-time columns (the guards at :213 and :215 test bound methods and are
 * always true); buffered values carry a tag, `Raw`, instead of being counted by
 * `rawValueIndex` (:112, :132, :153).
 */
module Inference {
  import opened Wrappers
  import opened Text
  import opened Matchers
  import opened Normalizer
  import opened Faults
  import opened Patterns

  /** The data types of :20-25; `Str` is STRING (`varchar`). */
  datatype DataType = Integer | Float | Str | Date | Time | DateTime

  predicate IsTemporal(dt: DataType) {
    dt == Date || dt == Time || dt == DateTime
  }

  /** An element of `values`: absent, a buffered raw string, or a converted value. */
  datatype Entry<V> = Absent | Raw(text: string) | Value(value: V)

  /**
   * What a column is built with: its header (diagnostics only), its sentinel
   * list, the conversion functions of :27-34 as one function of (data type,
   * pattern, text), None where the conversion raises, and the `float(v) % 1 != 0`
   * test of `isDouble` (:198-199).
   */
  datatype Config<V> = Config(
    header: Option<string>,
    stringToNone: seq<string>,
    convert: (DataType, Option<string>, string) -> Option<V>,
    hasFraction: string -> bool)

  /** The fields of a `Column` (:103-114). `conversionSet` says `conversionFunction` is set. */
  datatype Snapshot<V> = Snapshot(
    values: seq<Entry<V>>,
    dataType: Option<DataType>,
    slots: Slots,
    timeSampleCount: nat,
    timeFormat: Option<string>,
    dateFormat: Option<string>,
    pattern: Option<string>,
    conversionSet: bool,
    pendingCount: nat,
    charLength: nat)

  /** A new column (:103-114). */
  function Initial<V>(): Snapshot<V> {
    Snapshot([], None, [], 0, None, None, None, false, 0, 0)
  }

  // ------------------------------------------------------------ classifier

  /**
   * `setDataType`'s choice (:175-188): a number is FLOAT when it has a fraction
   * and INTEGER otherwise; then date and time together, date, time, string.
   * What it means: numbers are exactly what `int()` accepts; because no number
   * has a date or time window, a value is classified as carrying a date
   * exactly when it has a date window and as carrying a time exactly when it
   * has a time window; everything else is a string.
   */
  function Classify(s: string, hasFraction: string -> bool): (r: DataType)
    ensures (r == Integer || r == Float) <==> ParseInt(s).Some?
    ensures r == Float <==> ParseInt(s).Some? && hasFraction(s)
    ensures (r == Date || r == DateTime) <==> HasDate(s)
    ensures (r == Time || r == DateTime) <==> HasTime(s)
    ensures r == Str <==> ParseInt(s).None? && !HasDate(s) && !HasTime(s)
  {
    if ParseInt(s).Some? then
      NumberHasNoTemporalShape(s);
      if hasFraction(s) then Float else Integer
    else if HasDate(s) && HasTime(s) then DateTime
    else if HasDate(s) then Date
    else if HasTime(s) then Time
    else Str
  }

  /** `setDataType` (:172-189): fixes the type; only non-temporal types get a conversion now. */
  function TypeStep<V>(snap: Snapshot<V>, s: string, hasFraction: string -> bool): (r: Snapshot<V>)
    ensures r.dataType == Some(Classify(s, hasFraction))
    ensures r.conversionSet <==> snap.conversionSet || !IsTemporal(r.dataType.value)
    ensures r.(dataType := snap.dataType, conversionSet := snap.conversionSet) == snap
  {
    var dt := Classify(s, hasFraction);
    snap.(dataType := Some(dt), conversionSet := if IsTemporal(dt) then snap.conversionSet else true)
  }

  /** The separator canonicalisation applied before storing (:125-130). */
  function Normalize(dt: DataType, s: string): (r: string)
    ensures |r| == |s|
    ensures (dt == Date || dt == DateTime) ==> '/' !in r
    ensures (dt == Time || dt == DateTime) ==> '.' !in r
    ensures !IsTemporal(dt) ==> r == s
  {
    match dt
    case Date => NormalizeDateValue(s)
    case Time => NormalizeTimeValue(s)
    case DateTime => NormalizeDateTimeValue(s)
    case _ => s
  }

  // -------------------------------------------------------------- setPattern

  /**
   * The arguments of `setTimePattern` for a value split at spaces: for a
   * date-and-time value the second piece, with a marker if there is a third;
   * for a time value the first piece, with a marker if there is a second.
   */
  function TimeArguments(dt: DataType, parts: seq<string>): (r: Option<(string, bool)>)
    requires |parts| >= 1
    ensures r.None? <==> dt == DateTime && |parts| < 2
    ensures r.Some? ==> r.value.0 == parts[if dt == DateTime then 1 else 0]
    ensures r.Some? ==> (r.value.1 <==> |parts| > (if dt == DateTime then 2 else 1))
  {
    if dt == DateTime then (if |parts| < 2 then None else Some((parts[1], |parts| > 2)))
    else Some((parts[0], |parts| > 1))
  }

  /** The time half of `setPattern` (:213-214), run for time and date-and-time columns only. */
  function TimeHalf<V>(snap: Snapshot<V>, dt: DataType, parts: seq<string>): (r: Result<Snapshot<V>, Fault>)
    requires |parts| >= 1
    ensures r.Ok? ==> r.value.(timeSampleCount := snap.timeSampleCount, timeFormat := snap.timeFormat) == snap
    ensures r.Ok? && (dt == Time || dt == DateTime) && snap.timeFormat.None? ==>
      (r.value.timeSampleCount == snap.timeSampleCount + 1
       && (r.value.timeSampleCount == ForceFormat ==> r.value.timeFormat.Some?))
    ensures r.Ok? && !((dt == Time || dt == DateTime) && snap.timeFormat.None?) ==> r.value == snap
  {
    if (dt == Time || dt == DateTime) && snap.timeFormat.None? then
      match TimeArguments(dt, parts)
      case None => Err(MissingTimePart)
      case Some((token, hasPM)) =>
        match TimeStep(snap.timeSampleCount, token, hasPM)
        case Err(e) => Err(e)
        case Ok(f) => Ok(snap.(timeSampleCount := snap.timeSampleCount + 1, timeFormat := f))
    else Ok(snap)
  }

  /** The date half of `setPattern` (:215-216), run for date and date-and-time columns only. */
  function DateHalf<V>(snap: Snapshot<V>, dt: DataType, parts: seq<string>): (r: Result<Snapshot<V>, Fault>)
    requires |parts| >= 1
    ensures r.Ok? ==> r.value.(slots := snap.slots, dateFormat := snap.dateFormat) == snap
    ensures r.Ok? && !((dt == Date || dt == DateTime) && snap.dateFormat.None?) ==> r.value == snap
  {
    if (dt == Date || dt == DateTime) && snap.dateFormat.None? then
      match DateStep(snap.slots, parts[0])
      case Err(e) => Err(e)
      case Ok((slots, f)) => Ok(snap.(slots := slots, dateFormat := f))
    else Ok(snap)
  }

  /**
   * :217-223: a date-and-time column is resolved once both halves are known,
   * with pattern `date + ' ' + time`; a date or time column once its format is,
   * with pattern `timeFormat or dateFormat`.
   */
  function Commit<V>(snap: Snapshot<V>, dt: DataType): (r: Snapshot<V>)
    ensures r.(pattern := snap.pattern, conversionSet := snap.conversionSet) == snap
    ensures r.conversionSet ==> snap.conversionSet || r.pattern.Some?
    ensures snap.conversionSet ==> r.conversionSet
    ensures dt == Time && snap.timeFormat.Some? ==> r.conversionSet
    ensures dt == Date && snap.dateFormat.Some? ==> r.conversionSet
    ensures dt == DateTime && snap.timeFormat.Some? && snap.dateFormat.Some? ==> r.conversionSet
  {
    if dt == DateTime then
      if snap.timeFormat.Some? && snap.dateFormat.Some? then
        snap.(pattern := Some(snap.dateFormat.value + " " + snap.timeFormat.value), conversionSet := true)
      else snap
    else if (dt == Time && snap.timeFormat.Some?) || (dt == Date && snap.dateFormat.Some?) then
      snap.(pattern := if snap.timeFormat.Some? then snap.timeFormat else snap.dateFormat, conversionSet := true)
    else snap
  }

  /**
   * `setPattern(s)` (:211-223). Neither the values, the buffer, the type nor
   * the measured width change; a conversion already found is kept.
   */
  function PatternStep<V>(snap: Snapshot<V>, s: string): (r: Result<Snapshot<V>, Fault>)
    requires snap.dataType.Some?
    ensures r.Ok? ==>
      (&& r.value.values == snap.values && r.value.pendingCount == snap.pendingCount
       && r.value.dataType == snap.dataType && r.value.charLength == snap.charLength)
    ensures r.Ok? && snap.conversionSet ==> r.value.conversionSet
  {
    var dt := snap.dataType.value;
    var parts := Split(s, ' ');
    match TimeHalf(snap, dt, parts)
    case Err(e) => Err(e)
    case Ok(timed) =>
      match DateHalf(timed, dt, parts)
      case Err(e) => Err(e)
      case Ok(dated) => Ok(Commit(dated, dt))
  }

  /**
   * Each kind of column runs only its own half of `setPattern`: a date column
   * never touches the time state and a time column never the date state, and
   * only a date-and-time value without a space lacks a time part.
   */
  lemma PatternStepRunsOwnHalves<V>(snap: Snapshot<V>, s: string)
    requires snap.dataType.Some?
    ensures var dt := snap.dataType.value;
      var r := PatternStep(snap, s);
      && (r == Err(MissingTimePart) <==> dt == DateTime && snap.timeFormat.None? && ' ' !in s)
      && (r.Ok? && dt == Date ==> r.value.timeSampleCount == snap.timeSampleCount && r.value.timeFormat == snap.timeFormat)
      && (r.Ok? && dt == Time ==> r.value.slots == snap.slots && r.value.dateFormat == snap.dateFormat)
  {
    var dt := snap.dataType.value;
    var parts := Split(s, ' ');
    assert |parts| < 2 <==> ' ' !in s by {
      assert ' ' in s <==> ' ' in multiset(s);
    }
    match TimeHalf(snap, dt, parts)
    case Err(e) =>
    case Ok(timed) =>
      match DateHalf(timed, dt, parts)
      case Err(e) =>
        assert e != MissingTimePart;
      case Ok(dated) =>
  }

  // ------------------------------------------------------------ processValue

  function Max(a: nat, b: nat): nat {
    if a < b then b else a
  }

  /** How a normalised value is stored (:131-146): buffered raw, or converted now. */
  function Store<V>(cfg: Config<V>, snap: Snapshot<V>, norm: string): (r: Result<Snapshot<V>, Fault>)
    requires snap.dataType.Some?
    ensures r.Ok? ==>
      (&& |r.value.values| == |snap.values| + 1 && r.value.values[..|snap.values|] == snap.values
       && r.value.(values := snap.values, pendingCount := snap.pendingCount) == snap
       && (r.value.values[|snap.values|].Raw? <==> !snap.conversionSet)
       && !r.value.values[|snap.values|].Absent?
       && r.value.pendingCount == snap.pendingCount + (if snap.conversionSet then 0 else 1))
  {
    if !snap.conversionSet then
      Ok(snap.(values := snap.values + [Raw(norm)], pendingCount := snap.pendingCount + 1))
    else
      match cfg.convert(snap.dataType.value, snap.pattern, norm)
      case None => Err(ConversionFailure(cfg.header, norm, snap.pattern))
      case Some(v) => Ok(snap.(values := snap.values + [Value(v)]))
  }

  /**
   * The decisions `processValue` takes for a present value before storing it
   * (:121-124): the type from the first such value, then a step of pattern
   * narrowing while no conversion is known. The entries are not touched.
   */
  function Prepare<V>(cfg: Config<V>, snap: Snapshot<V>, s: string): (r: Result<Snapshot<V>, Fault>)
    ensures r.Ok? ==> r.value.dataType.Some? && (snap.dataType.Some? ==> r.value.dataType == snap.dataType)
    ensures r.Ok? ==> r.value.values == snap.values && r.value.pendingCount == snap.pendingCount
  {
    var typed := if snap.dataType.None? then TypeStep(snap, s, cfg.hasFraction) else snap;
    if typed.conversionSet then Ok(typed) else PatternStep(typed, s)
  }

  /** `processValue` once the value `s` is known to be present (:121-146). */
  function Absorb<V>(cfg: Config<V>, snap: Snapshot<V>, s: string): (r: Result<Snapshot<V>, Fault>)
    ensures r.Ok? ==>
      && |r.value.values| == |snap.values| + 1 && r.value.values[..|snap.values|] == snap.values
      && !r.value.values[|snap.values|].Absent? && r.value.dataType.Some?
  {
    match Prepare(cfg, snap, s)
    case Err(e) => Err(e)
    case Ok(p) => Store(cfg, p, Normalize(p.dataType.value, s))
  }

  /** `processValue(input)` (:116-146); `stripValue` measures the kept text (:169-170). */
  function Process<V>(cfg: Config<V>, snap: Snapshot<V>, input: Option<string>): (r: Result<Snapshot<V>, Fault>)
    ensures r.Ok? ==>
      && |r.value.values| == |snap.values| + 1 && r.value.values[..|snap.values|] == snap.values
      && (r.value.values[|snap.values|].Absent? <==> Strip(cfg.stringToNone, input).None?)
    ensures Strip(cfg.stringToNone, input).None? ==> r == Ok(snap.(values := snap.values + [Absent]))
  {
    match Strip(cfg.stringToNone, input)
    case None => Ok(snap.(values := snap.values + [Absent]))
    case Some(s) => Absorb(cfg, snap.(charLength := Max(snap.charLength, |s|)), s)
  }

  // ---------------------------------------------------------- fixUpRawValues

  /** `before` became `after` in the fix-up: a raw entry converted, every other entry kept. */
  ghost predicate ConvertedEntry<V>(cfg: Config<V>, dt: DataType, pattern: Option<string>, before: Entry<V>, after: Entry<V>) {
    match before
    case Raw(t) => after.Value? && cfg.convert(dt, pattern, t) == Some(after.value)
    case _ => after == before
  }

  /** The fix-up of an entry is determined by the entry. */
  lemma ConvertedEntryUnique<V>(cfg: Config<V>, dt: DataType, pattern: Option<string>, before: Entry<V>, a: Entry<V>, b: Entry<V>)
    requires ConvertedEntry(cfg, dt, pattern, before, a) && ConvertedEntry(cfg, dt, pattern, before, b)
    ensures a == b
  {
  }

  /** A raw entry the conversion rejects. */
  ghost predicate Rejected<V>(cfg: Config<V>, dt: DataType, pattern: Option<string>, e: Entry<V>) {
    e.Raw? && cfg.convert(dt, pattern, e.text).None?
  }

  /** The first rejected entry of `values[1..]` is the first of `values` when `values[0]` is accepted. */
  lemma FirstRejectedShift<V>(cfg: Config<V>, dt: DataType, pattern: Option<string>, values: seq<Entry<V>>, e: Fault)
    requires |values| >= 1 && !Rejected(cfg, dt, pattern, values[0])
    requires exists k ::
      && 0 <= k < |values[1..]| && Rejected(cfg, dt, pattern, values[1..][k])
      && (forall j :: 0 <= j < k ==> !Rejected(cfg, dt, pattern, values[1..][j]))
      && e == ConversionFailure(cfg.header, values[1..][k].text, pattern)
    ensures exists i ::
      && 0 <= i < |values| && Rejected(cfg, dt, pattern, values[i])
      && (forall j :: 0 <= j < i ==> !Rejected(cfg, dt, pattern, values[j]))
      && e == ConversionFailure(cfg.header, values[i].text, pattern)
  {
    var k :| && 0 <= k < |values[1..]| && Rejected(cfg, dt, pattern, values[1..][k])
      && (forall j :: 0 <= j < k ==> !Rejected(cfg, dt, pattern, values[1..][j]))
      && e == ConversionFailure(cfg.header, values[1..][k].text, pattern);
    assert values[k + 1] == values[1..][k];
    forall j | 0 <= j < k + 1 ensures !Rejected(cfg, dt, pattern, values[j]) {
      if j > 0 {
        assert values[j] == values[1..][j - 1];
      }
    }
  }

  /**
   * The loop at :153-159: convert every raw entry, left to right, stopping at
   * the first one the conversion rejects; absent and converted entries stay.
   */
  function ConvertRaw<V>(cfg: Config<V>, dt: DataType, pattern: Option<string>, values: seq<Entry<V>>): (r: Result<seq<Entry<V>>, Fault>)
    ensures r.Ok? ==>
      (&& |r.value| == |values|
       && forall i :: 0 <= i < |values| ==> ConvertedEntry(cfg, dt, pattern, values[i], r.value[i]))
    ensures r.Err? <==> exists i :: 0 <= i < |values| && Rejected(cfg, dt, pattern, values[i])
    ensures r.Err? ==>
      exists i ::
        && 0 <= i < |values| && Rejected(cfg, dt, pattern, values[i])
        && (forall j :: 0 <= j < i ==> !Rejected(cfg, dt, pattern, values[j]))
        && r.error == ConversionFailure(cfg.header, values[i].text, pattern)
  {
    if |values| == 0 then Ok([])
    else
      var head: Result<Entry<V>, Fault> :=
        match values[0]
        case Raw(t) =>
          (match cfg.convert(dt, pattern, t)
           case None => Err(ConversionFailure(cfg.header, t, pattern))
           case Some(v) => Ok(Value(v)))
        case _ => Ok(values[0]);
      match head
      case Err(e) => Err(e)
      case Ok(first) =>
        var rest := ConvertRaw(cfg, dt, pattern, values[1..]);
        assert forall i :: 1 <= i < |values| ==> values[i] == values[1..][i - 1];
        match rest
        case Err(e) =>
          FirstRejectedShift(cfg, dt, pattern, values, e);
          Err(e)
        case Ok(tail) => Ok([first] + tail)
  }

  /** `fixUpRawValues` (:148-159). */
  function FixUp<V>(cfg: Config<V>, snap: Snapshot<V>): (r: Result<Snapshot<V>, Fault>)
    requires snap.conversionSet ==> snap.dataType.Some?
    ensures snap.pendingCount == 0 ==> r == Ok(snap)
    ensures snap.pendingCount > 0 && !snap.conversionSet ==> r == Err(UnresolvedFormat)
    ensures r.Ok? ==>
      && r.value.pendingCount == 0 && |r.value.values| == |snap.values|
      && r.value.(values := snap.values, pendingCount := snap.pendingCount) == snap
    ensures r.Ok? && snap.pendingCount > 0 ==>
      forall i :: 0 <= i < |snap.values| ==>
        ConvertedEntry(cfg, snap.dataType.value, snap.pattern, snap.values[i], r.value.values[i])
  {
    if snap.pendingCount == 0 then Ok(snap)
    else if !snap.conversionSet then Err(UnresolvedFormat)
    else
      match ConvertRaw(cfg, snap.dataType.value, snap.pattern, snap.values)
      case Err(e) => Err(e)
      case Ok(vs) => Ok(snap.(values := vs, pendingCount := 0))
  }

  // --------------------------------------------------------------- invariant

  function CountRaw<V>(values: seq<Entry<V>>): nat {
    if |values| == 0 then 0
    else CountRaw(values[..|values| - 1]) + (if values[|values| - 1].Raw? then 1 else 0)
  }

  /** Every buffered raw entry comes before every converted one. */
  ghost predicate RawBeforeValue<V>(values: seq<Entry<V>>) {
    forall i, j :: 0 <= i < j < |values| && values[i].Value? ==> !values[j].Raw?
  }

  /** The object invariant of a column between calls. */
  ghost predicate Inv<V>(s: Snapshot<V>) {
    && s.pendingCount == CountRaw(s.values)
    && RawBeforeValue(s.values)
    && (!s.conversionSet ==> forall i :: 0 <= i < |s.values| ==> !s.values[i].Value?)
    && (s.conversionSet ==> s.dataType.Some?)
    && (s.dataType.None? ==>
          && (forall i :: 0 <= i < |s.values| ==> s.values[i].Absent?)
          && s.slots == [] && s.timeSampleCount == 0
          && s.timeFormat.None? && s.dateFormat.None? && s.pattern.None?)
    && (s.dataType.Some? && !IsTemporal(s.dataType.value) ==>
          && s.conversionSet && s.pattern.None? && s.slots == []
          && s.timeSampleCount == 0 && s.timeFormat.None? && s.dateFormat.None?)
    && (s.dataType.Some? && IsTemporal(s.dataType.value) && s.conversionSet ==> s.pattern.Some?)
    && (s.timeFormat.None? ==> s.timeSampleCount < ForceFormat)
    && s.timeSampleCount <= ForceFormat
    && (s.dataType == Some(Time) && !s.conversionSet ==> s.timeFormat.None?)
    && (s.dataType == Some(Date) && !s.conversionSet ==> s.dateFormat.None?)
    && (s.dataType == Some(Date) ==> s.timeFormat.None? && s.timeSampleCount == 0)
    && (s.dataType == Some(Time) ==> s.slots == [] && s.dateFormat.None?)
    && (s.dataType == Some(Date) && s.conversionSet ==> s.dateFormat.Some? && s.pattern == s.dateFormat)
    && (s.dataType == Some(Time) && s.conversionSet ==> s.timeFormat.Some? && s.pattern == s.timeFormat)
    && (s.dataType == Some(DateTime) && s.conversionSet ==>
          s.timeFormat.Some? && s.dateFormat.Some? && s.pattern == Some(s.dateFormat.value + " " + s.timeFormat.value))
    && (s.dataType == Some(DateTime) && !s.conversionSet ==> s.timeFormat.None? || s.dateFormat.None?)
  }

  lemma InitialInv<V>()
    ensures Inv(Initial<V>())
  {
  }

  lemma {:induction false} CountRawSnoc<V>(values: seq<Entry<V>>, e: Entry<V>)
    ensures CountRaw(values + [e]) == CountRaw(values) + (if e.Raw? then 1 else 0)
  {
    assert (values + [e])[..|values|] == values;
  }

  lemma {:induction false} CountRawZero<V>(values: seq<Entry<V>>)
    requires CountRaw(values) == 0
    ensures forall i :: 0 <= i < |values| ==> !values[i].Raw?
  {
    if |values| > 0 {
      var init := values[..|values| - 1];
      CountRawZero(init);
      assert forall i :: 0 <= i < |init| ==> values[i] == init[i];
    }
  }

  /** Fixing the type of a column that had none keeps the invariant. */
  lemma TypeStepKeepsInv<V>(snap: Snapshot<V>, s: string, hasFraction: string -> bool)
    requires Inv(snap) && snap.dataType.None?
    ensures Inv(TypeStep(snap, s, hasFraction))
  {
  }

  /** The pattern half keeps the invariant. */
  lemma PatternStepKeepsInv<V>(snap: Snapshot<V>, s: string)
    requires Inv(snap) && snap.dataType.Some? && !snap.conversionSet
    requires PatternStep(snap, s).Ok?
    ensures Inv(PatternStep(snap, s).value)
  {
    var dt := snap.dataType.value;
    var parts := Split(s, ' ');
    var timed := TimeHalf(snap, dt, parts).value;
    var dated := DateHalf(timed, dt, parts).value;
    assert PatternStep(snap, s).value == Commit(dated, dt);
  }

  /** Storing a normalised value keeps the invariant. */
  lemma StoreKeepsInv<V>(cfg: Config<V>, snap: Snapshot<V>, norm: string)
    requires Inv(snap) && snap.dataType.Some? && Store(cfg, snap, norm).Ok?
    ensures Inv(Store(cfg, snap, norm).value)
  {
    var t := Store(cfg, snap, norm).value;
    var e := t.values[|snap.values|];
    assert t.values == snap.values + [e];
    CountRawSnoc(snap.values, e);
  }

  /** Appending an absent entry keeps the invariant. */
  lemma AppendAbsentKeepsInv<V>(s: Snapshot<V>)
    requires Inv(s)
    ensures Inv(s.(values := s.values + [Absent]))
  {
    CountRawSnoc(s.values, Absent);
  }

  /** Typing, narrowing and storing a present value keeps the invariant. */
  lemma AbsorbKeepsInv<V>(cfg: Config<V>, s: Snapshot<V>, x: string)
    requires Inv(s) && Absorb(cfg, s, x).Ok?
    ensures Inv(Absorb(cfg, s, x).value)
  {
    var typed := if s.dataType.None? then TypeStep(s, x, cfg.hasFraction) else s;
    if s.dataType.None? {
      TypeStepKeepsInv(s, x, cfg.hasFraction);
    }
    var p := if typed.conversionSet then typed else PatternStep(typed, x).value;
    if !typed.conversionSet {
      PatternStepKeepsInv(typed, x);
    }
    StoreKeepsInv(cfg, p, Normalize(p.dataType.value, x));
  }

  lemma {:induction false} CountRawNone<V>(values: seq<Entry<V>>)
    requires forall i :: 0 <= i < |values| ==> !values[i].Raw?
    ensures CountRaw(values) == 0
  {
    if |values| > 0 {
      CountRawNone(values[..|values| - 1]);
    }
  }

  /** A successful fix-up keeps the invariant: nothing is left buffered. */
  lemma FixUpKeepsInv<V>(cfg: Config<V>, s: Snapshot<V>)
    requires Inv(s) && FixUp(cfg, s).Ok?
    ensures Inv(FixUp(cfg, s).value)
  {
    if s.pendingCount > 0 {
      var t := FixUp(cfg, s).value;
      assert forall i :: 0 <= i < |t.values| ==> !t.values[i].Raw? by {
        forall i | 0 <= i < |t.values| ensures !t.values[i].Raw? {
          assert ConvertedEntry(cfg, s.dataType.value, s.pattern, s.values[i], t.values[i]);
        }
      }
      CountRawNone(t.values);
    }
  }

  /** A successful `processValue` keeps the invariant. */
  lemma ProcessKeepsInv<V>(cfg: Config<V>, s: Snapshot<V>, input: Option<string>)
    requires Inv(s) && Process(cfg, s, input).Ok?
    ensures Inv(Process(cfg, s, input).value)
  {
    match Strip(cfg.stringToNone, input)
    case None =>
      AppendAbsentKeepsInv(s);
    case Some(x) =>
      var measured := s.(charLength := Max(s.charLength, |x|));
      assert Inv(measured);
      AbsorbKeepsInv(cfg, measured, x);
  }

  // ---------------------------------------------------- one step, stated

  /**
   * The type is fixed by the first value that is not absent and never changes;
   * once a conversion is found it stays, with the same pattern, and the buffer
   * grows, by one, only while no conversion is found.
   */
  lemma ProcessTypeAndConversionStable<V>(cfg: Config<V>, s: Snapshot<V>, input: Option<string>)
    requires Inv(s) && Process(cfg, s, input).Ok?
    ensures var t := Process(cfg, s, input).value;
      && (s.dataType.Some? ==> t.dataType == s.dataType)
      && (s.dataType.None? ==>
            t.dataType == (match Strip(cfg.stringToNone, input)
                           case None => None
                           case Some(x) => Some(Classify(x, cfg.hasFraction))))
      && (s.conversionSet ==> t.conversionSet && t.pattern == s.pattern)
      && (t.pendingCount == s.pendingCount + 1 <==> t.values[|s.values|].Raw?)
      && (t.pendingCount != s.pendingCount ==> t.pendingCount == s.pendingCount + 1 && !t.conversionSet)
  {
    match Strip(cfg.stringToNone, input)
    case None =>
    case Some(x) =>
      var measured := s.(charLength := Max(s.charLength, |x|));
      var typed := if measured.dataType.None? then TypeStep(measured, x, cfg.hasFraction) else measured;
      var p := if typed.conversionSet then typed else PatternStep(typed, x).value;
      assert p.dataType == typed.dataType;
      assert s.conversionSet ==> p == typed;
  }

  /**
   * Each value that reaches an unresolved time column is one more time sample,
   * and the FORCE_FORMAT-th sample always resolves the column.
   */
  lemma TimeSampleCounting<V>(cfg: Config<V>, s: Snapshot<V>, input: Option<string>)
    requires Inv(s) && s.dataType == Some(Time) && !s.conversionSet
    requires Strip(cfg.stringToNone, input).Some? && Process(cfg, s, input).Ok?
    ensures var t := Process(cfg, s, input).value;
      && t.timeSampleCount == s.timeSampleCount + 1
      && (t.timeSampleCount == ForceFormat ==> t.conversionSet)
  {
    var x := Strip(cfg.stringToNone, input).value;
    var measured := s.(charLength := Max(s.charLength, |x|));
    var parts := Split(x, ' ');
    var timed := TimeHalf(measured, Time, parts).value;
    var dated := DateHalf(timed, Time, parts).value;
    assert PatternStep(measured, x).value == Commit(dated, Time);
  }

  // ------------------------------------------------------- the whole column

  /** `processValue` on every input in turn, as the readers do (:62-64, :89-93). */
  function ProcessAll<V>(cfg: Config<V>, s: Snapshot<V>, inputs: seq<Option<string>>): Result<Snapshot<V>, Fault>
    decreases |inputs|
  {
    if |inputs| == 0 then Ok(s)
    else
      match ProcessAll(cfg, s, inputs[..|inputs| - 1])
      case Err(e) => Err(e)
      case Ok(t) => Process(cfg, t, inputs[|inputs| - 1])
  }

  /** A column that reads its inputs read all but the last one first. */
  lemma ProcessAllSnoc<V>(cfg: Config<V>, s: Snapshot<V>, inputs: seq<Option<string>>)
    requires |inputs| > 0 && ProcessAll(cfg, s, inputs).Ok?
    ensures var init := ProcessAll(cfg, s, inputs[..|inputs| - 1]);
      init.Ok? && ProcessAll(cfg, s, inputs) == Process(cfg, init.value, inputs[|inputs| - 1])
  {
  }

  lemma {:induction false} ProcessAllKeepsInv<V>(cfg: Config<V>, s: Snapshot<V>, inputs: seq<Option<string>>)
    requires Inv(s) && ProcessAll(cfg, s, inputs).Ok?
    ensures Inv(ProcessAll(cfg, s, inputs).value)
    decreases |inputs|
  {
    if |inputs| > 0 {
      ProcessAllKeepsInv(cfg, s, inputs[..|inputs| - 1]);
      ProcessKeepsInv(cfg, ProcessAll(cfg, s, inputs[..|inputs| - 1]).value, inputs[|inputs| - 1]);
    }
  }

  /** The whole life of a column: every input, then the fix-up (:62-70, :89-96). */
  function ReadColumn<V>(cfg: Config<V>, inputs: seq<Option<string>>): (r: Result<Snapshot<V>, Fault>)
    ensures r.Ok? ==> |r.value.values| == |inputs| && r.value.pendingCount == 0
  {
    match ProcessAll(cfg, Initial(), inputs)
    case Err(e) => Err(e)
    case Ok(t) =>
      InitialInv<V>();
      ProcessAllKeepsInv(cfg, Initial(), inputs);
      ProcessAllConsistent(cfg, inputs);
      FixUp(cfg, t)
  }

  /**
   * Entry `e` is what the column holds for `input`: absent for an absent input,
   * otherwise the normalised text, buffered or converted with the column's type
   * and pattern.
   */
  ghost predicate Fits<V>(cfg: Config<V>, s: Snapshot<V>, input: Option<string>, e: Entry<V>) {
    match Strip(cfg.stringToNone, input)
    case None => e.Absent?
    case Some(x) =>
      && s.dataType.Some?
      && match e
         case Absent => false
         case Raw(r) => r == Normalize(s.dataType.value, x)
         case Value(v) => cfg.convert(s.dataType.value, s.pattern, Normalize(s.dataType.value, x)) == Some(v)
  }

  ghost predicate Consistent<V>(cfg: Config<V>, s: Snapshot<V>, inputs: seq<Option<string>>) {
    && |s.values| == |inputs|
    && forall k :: 0 <= k < |inputs| ==> Fits(cfg, s, inputs[k], s.values[k])
  }

  /**
   * An entry keeps fitting its input when the type stays and, for a converted
   * entry, the pattern stays too.
   */
  lemma EntryStillFits<V>(cfg: Config<V>, s: Snapshot<V>, t: Snapshot<V>, input: Option<string>, e: Entry<V>)
    requires s.dataType.Some? ==> t.dataType == s.dataType
    requires e.Value? ==> t.pattern == s.pattern
    requires Fits(cfg, s, input, e)
    ensures Fits(cfg, t, input, e)
  {
  }

  /** The entry `processValue` appends fits its input. */
  lemma NewEntryFits<V>(cfg: Config<V>, s: Snapshot<V>, input: Option<string>)
    requires Process(cfg, s, input).Ok?
    ensures var t := Process(cfg, s, input).value;
      |t.values| == |s.values| + 1 && Fits(cfg, t, input, t.values[|s.values|])
  {
    match Strip(cfg.stringToNone, input)
    case None =>
    case Some(x) =>
      var measured := s.(charLength := Max(s.charLength, |x|));
      var p := Prepare(cfg, measured, x).value;
      var t := Store(cfg, p, Normalize(p.dataType.value, x)).value;
      assert Process(cfg, s, input).value == t;
      assert t.dataType == p.dataType && t.pattern == p.pattern;
  }

  /**
   * A column that gains one entry fitting the new input, and keeps its type
   * and, once converting, its pattern, stays consistent with its inputs.
   */
  lemma SnocKeepsConsistent<V>(cfg: Config<V>, s: Snapshot<V>, t: Snapshot<V>, inputs: seq<Option<string>>, input: Option<string>)
    requires Inv(s) && Consistent(cfg, s, inputs)
    requires |t.values| == |s.values| + 1 && t.values[..|s.values|] == s.values
    requires s.dataType.Some? ==> t.dataType == s.dataType
    requires s.conversionSet ==> t.pattern == s.pattern
    requires Fits(cfg, t, input, t.values[|s.values|])
    ensures Consistent(cfg, t, inputs + [input])
  {
    var all := inputs + [input];
    forall k | 0 <= k < |all|
      ensures Fits(cfg, t, all[k], t.values[k])
    {
      if k < |inputs| {
        assert all[k] == inputs[k] && t.values[k] == s.values[k];
        assert s.values[k].Value? ==> s.conversionSet;
        EntryStillFits(cfg, s, t, inputs[k], s.values[k]);
      }
    }
  }

  lemma ProcessKeepsConsistent<V>(cfg: Config<V>, s: Snapshot<V>, inputs: seq<Option<string>>, input: Option<string>)
    requires Inv(s) && Consistent(cfg, s, inputs) && Process(cfg, s, input).Ok?
    ensures Consistent(cfg, Process(cfg, s, input).value, inputs + [input])
  {
    ProcessTypeAndConversionStable(cfg, s, input);
    NewEntryFits(cfg, s, input);
    SnocKeepsConsistent(cfg, s, Process(cfg, s, input).value, inputs, input);
  }

  lemma {:induction false} ProcessAllConsistent<V>(cfg: Config<V>, inputs: seq<Option<string>>)
    requires ProcessAll(cfg, Initial(), inputs).Ok?
    ensures Consistent(cfg, ProcessAll(cfg, Initial(), inputs).value, inputs)
    decreases |inputs|
  {
    if |inputs| > 0 {
      var init, last := inputs[..|inputs| - 1], inputs[|inputs| - 1];
      ProcessAllSnoc(cfg, Initial(), inputs);
      ProcessAllConsistent(cfg, init);
      InitialInv<V>();
      ProcessAllKeepsInv(cfg, Initial(), init);
      ProcessKeepsConsistent(cfg, ProcessAll(cfg, Initial(), init).value, init, last);
      assert init + [last] == inputs;
    }
  }

  /**
   * Fix-up equivalence: a column that reads to the end holds one entry per
   * input, absent exactly where the input was absent, and every other entry is
   * the conversion of its normalised input under the column's final type and
   * pattern, whether it was converted at once or buffered and fixed up.
   */
  lemma ConvertedColumnMatchesInputs<V>(cfg: Config<V>, inputs: seq<Option<string>>)
    requires ReadColumn(cfg, inputs).Ok?
    ensures var t := ReadColumn(cfg, inputs).value;
      && |t.values| == |inputs|
      && t.pendingCount == 0
      && forall k :: 0 <= k < |inputs| ==>
           match Strip(cfg.stringToNone, inputs[k])
           case None => t.values[k].Absent?
           case Some(x) =>
             && t.dataType.Some? && t.values[k].Value?
             && cfg.convert(t.dataType.value, t.pattern, Normalize(t.dataType.value, x)) == Some(t.values[k].value)
  {
    ProcessAllConsistent(cfg, inputs);
    InitialInv<V>();
    ProcessAllKeepsInv(cfg, Initial(), inputs);
    var s := ProcessAll(cfg, Initial(), inputs).value;
    var t := ReadColumn(cfg, inputs).value;
    if s.pendingCount == 0 {
      CountRawZero(s.values);
      assert t == s;
      forall k | 0 <= k < |inputs| && Strip(cfg.stringToNone, inputs[k]).Some?
        ensures s.values[k].Value?
      {
        assert Fits(cfg, s, inputs[k], s.values[k]);
      }
    } else {
      var vs := ConvertRaw(cfg, s.dataType.value, s.pattern, s.values).value;
      assert t.values == vs && t.dataType == s.dataType && t.pattern == s.pattern;
      forall k | 0 <= k < |inputs|
        ensures Fits(cfg, t, inputs[k], t.values[k]) && !t.values[k].Raw?
      {
        assert Fits(cfg, s, inputs[k], s.values[k]);
        assert ConvertedEntry(cfg, s.dataType.value, s.pattern, s.values[k], vs[k]);
      }
    }
  }

  /**
   * Once a temporal column has a conversion, its pattern is the format found:
   * the date format, the time format, or the two joined by a space.
   */
  lemma ResolvedPatternIsFormat<V>(cfg: Config<V>, inputs: seq<Option<string>>)
    requires ProcessAll(cfg, Initial(), inputs).Ok?
    ensures var t := ProcessAll(cfg, Initial(), inputs).value;
      && (t.dataType == Some(Date) && t.conversionSet ==> t.dateFormat.Some? && t.pattern == t.dateFormat)
      && (t.dataType == Some(Time) && t.conversionSet ==> t.timeFormat.Some? && t.pattern == t.timeFormat)
      && (t.dataType == Some(DateTime) && t.conversionSet ==>
            t.timeFormat.Some? && t.dateFormat.Some? && t.pattern == Some(t.dateFormat.value + " " + t.timeFormat.value))
      && (t.dataType.Some? && !IsTemporal(t.dataType.value) ==> t.conversionSet && t.pattern.None?)
  {
    InitialInv<V>();
    ProcessAllKeepsInv(cfg, Initial(), inputs);
  }

  /** A column that buffered values but never found a conversion fails at the fix-up. */
  lemma UnresolvedColumnFails<V>(cfg: Config<V>, inputs: seq<Option<string>>)
    requires ProcessAll(cfg, Initial(), inputs).Ok?
    requires !ProcessAll(cfg, Initial(), inputs).value.conversionSet
    requires exists k :: 0 <= k < |inputs| && Strip(cfg.stringToNone, inputs[k]).Some?
    ensures ReadColumn(cfg, inputs) == Err(UnresolvedFormat)
  {
    ProcessAllConsistent(cfg, inputs);
    InitialInv<V>();
    ProcessAllKeepsInv(cfg, Initial(), inputs);
    var s := ProcessAll(cfg, Initial(), inputs).value;
    var k :| 0 <= k < |inputs| && Strip(cfg.stringToNone, inputs[k]).Some?;
    assert Fits(cfg, s, inputs[k], s.values[k]);
    if s.pendingCount == 0 {
      CountRawZero(s.values);
    }
  }
}
