/**
 * The parts of `Column` whose code, read literally, does not do what the rest
 * of the program evidently relies on. Each member here isolates one defect: it
 * follows the code as written at that place and uses the corrected definitions
 * everywhere else, beside a lemma that exhibits an input on which it goes
 * wrong. The corrected definitions are the ones in Patterns and Inference,
 * which the rest of the model uses.
 */
module AsWritten {
  import opened Wrappers
  import opened Text
  import opened Faults
  import opened Patterns
  import opened Inference

  // ------------------------------------------------- setPattern, :211-223

  /**
   * `setPattern` as written: the guards `if self.hasTime:` and
   * `if self.hasDate:` (:213, :215) test bound methods, which are always true,
   * so every temporal column runs both halves, and the time half always reads
   * the second space-separated piece (`parts[1]`), marker if there is a third.
   * Only these guards are as written: the date half is the corrected DateStep.
   */
  function PatternStepAsWritten<V>(snap: Snapshot<V>, s: string): (r: Result<Snapshot<V>, Fault>)
    requires snap.dataType.Some?
    ensures r.Ok? ==> r.value.values == snap.values && r.value.dataType == snap.dataType
  {
    var dt := snap.dataType.value;
    var parts := Split(s, ' ');
    var timed: Result<Snapshot<V>, Fault> :=
      if snap.timeFormat.None? then
        if |parts| < 2 then Err(MissingTimePart)
        else
          match TimeStep(snap.timeSampleCount, parts[1], |parts| > 2)
          case Err(e) => Err(e)
          case Ok(f) => Ok(snap.(timeSampleCount := snap.timeSampleCount + 1, timeFormat := f))
      else Ok(snap);
    match timed
    case Err(e) => Err(e)
    case Ok(t) =>
      var dated: Result<Snapshot<V>, Fault> :=
        if t.dateFormat.None? then
          match DateStep(t.slots, parts[0])
          case Err(e) => Err(e)
          case Ok((slots, f)) => Ok(t.(slots := slots, dateFormat := f))
        else Ok(t);
      match dated
      case Err(e) => Err(e)
      case Ok(u) => Ok(Commit(u, dt))
  }

  /**
   * As written, a date value such as `2023-04-15` or a time value such as
   * `14:30`, neither of which contains a space, raises IndexError at `parts[1]`
   * on the first sample of its column. The corrected PatternStep never reports
   * a missing time part for a date or time column.
   */
  lemma UnspacedValueFaultsAsWritten<V>(snap: Snapshot<V>, s: string)
    requires snap.dataType == Some(Date) || snap.dataType == Some(Time)
    requires snap.timeFormat.None? && ' ' !in s
    ensures PatternStepAsWritten(snap, s) == Err(MissingTimePart)
    ensures PatternStep(snap, s) != Err(MissingTimePart)
  {
    PatternStepRunsOwnHalves(snap, s);
  }

  // ------------------------------------------- setDatePattern, :257-272

  /** `slot.remove(t)` on a Python list of candidates: ValueError if `t` is not there. */
  function RemoveCandidate(slot: set<DateToken>, t: DateToken): (r: Result<set<DateToken>, Fault>)
    ensures r.Ok? <==> t in slot
    ensures r.Ok? ==> r.value == slot - {t}
  {
    if t in slot then Ok(slot - {t}) else Err(MissingCandidate)
  }

  /**
   * The removal loop of :269-272 after a pin, with `toRemove = ['%Y', '%y']`: it
   * raises unless every other slot still holds both years.
   */
  function RemoveYearsAsWritten(slots: Slots, idx: nat): (r: Result<Slots, Fault>)
    ensures r.Ok? <==> forall j :: 0 <= j < |slots| && j != idx ==> LongYear in slots[j] && ShortYear in slots[j]
    ensures r.Ok? ==> r.value == RemoveElsewhere(slots, idx, {LongYear, ShortYear})
  {
    if forall j :: 0 <= j < |slots| && j != idx ==> LongYear in slots[j] && ShortYear in slots[j] then
      Ok(RemoveElsewhere(slots, idx, {LongYear, ShortYear}))
    else Err(MissingCandidate)
  }

  /**
   * One pass of the loop at :257-272 as written. Dropping the month (:266)
   * raises when the slot has no `%m` left; after a pin the year removal raises
   * on a slot that has lost a year; and `toRemove or [self.potentialDatePatterns[0]]`
   * (:268) removes a list, never an element of a list of directives, so it
   * raises whenever there is another slot.
   */
  function PruneSlotAsWritten(slots: Slots, idx: nat, part: int): (r: Result<Slots, Fault>)
    requires idx < |slots|
    ensures r.Ok? ==> |r.value| == |slots|
  {
    var narrowed: Result<Slots, Fault> :=
      match Pinned(part)
      case Some(t) => Ok(slots[idx := {t}])
      case None =>
        if part > 12 then
          match RemoveCandidate(slots[idx], Month)
          case Err(e) => Err(e)
          case Ok(c) => Ok(slots[idx := c])
        else Ok(slots);
    match narrowed
    case Err(e) => Err(e)
    case Ok(n) =>
      if |n[idx]| == 1 then
        if Pinned(part).Some? then RemoveYearsAsWritten(n, idx)
        else if |n| > 1 then Err(MissingCandidate)
        else Ok(n)
      else Ok(n)
  }

  /**
   * As written, the day `15` of `2023-04-15 14:30`, the first value of a
   * date-and-time column, raises on the removal of :268–272 once its slot is
   * down to `%d`. The
   * corrected PruneSlot settles the slot on `%d` and no other slot keeps it.
   */
  lemma SoleTokenRemovalFailsAsWritten(day: int)
    requires 12 < day <= 31
    ensures PruneSlotAsWritten([{LongYear}, {Month, Day}, {Month, Day}], 2, day) == Err(MissingCandidate)
    ensures PruneSlot([{LongYear}, {Month, Day}, {Month, Day}], 2, day) == [{LongYear}, {Month}, {Day}]
  {
    FourDigits(day);
    var slots: Slots := [{LongYear}, {Month, Day}, {Month, Day}];
    assert slots[2] - {Month} == {Day};
    assert |slots[2 := {Day}][2]| == 1;
    var r := PruneSlot(slots, 2, day);
    assert r[0] == {LongYear} && r[1] == {Month} && r[2] == {Day};
  }

  /**
   * As written, the second of two values `2023-04-05 09:00`, `2023-04-06 09:00`
   * of a date-and-time column raises: its year pins slot 0 again and
   * `remove('%Y')` hits slots that lost `%Y` on the first value. The corrected
   * PruneSlot changes nothing on a repeat.
   */
  lemma RepeatedYearFailsAsWritten(year: int)
    requires 1000 <= year <= 9999
    ensures PruneSlotAsWritten([{LongYear}, {Day, Month}, {Day, Month}], 0, year) == Err(MissingCandidate)
    ensures PruneSlot([{LongYear}, {Day, Month}, {Day, Month}], 0, year) == [{LongYear}, {Day, Month}, {Day, Month}]
  {
    FourDigits(year);
    var slots: Slots := [{LongYear}, {Day, Month}, {Day, Month}];
    assert Pinned(year) == Some(LongYear);
    assert LongYear !in slots[1];
    var r := PruneSlot(slots, 0, year);
    assert r[0] == slots[0] && r[1] == slots[1] && r[2] == slots[2];
  }

  /**
   * As written, a component in 13..31 for a slot already without `%m` raises
   * at `remove('%m')` (:266); the corrected PruneSlot keeps that slot's
   * candidates.
   */
  lemma RepeatedDayFailsAsWritten(slots: Slots, idx: nat, day: int)
    requires idx < |slots| && 12 < day <= 31 && Month !in slots[idx]
    ensures PruneSlotAsWritten(slots, idx, day) == Err(MissingCandidate)
    ensures PruneSlot(slots, idx, day)[idx] == slots[idx]
  {
    FourDigits(day);
    assert slots[idx] - {Month} == slots[idx];
    assert slots[idx := slots[idx] - {Month}] == slots;
  }

  // ------------------------------------- rawValueIndex, :112, :132, :153

  /**
   * `fixUpRawValues` as written: `rawValueIndex`, which starts at -1 and grows
   * by one per buffered value, is used as a count of positions, so
   * `range(rawValueIndex)` visits the first `pendingCount - 1` positions of the
   * list, Nones included, and whatever lies beyond stays unconverted. The
   * counter is not reset.
   */
  function FixUpAsWritten<V>(cfg: Config<V>, snap: Snapshot<V>): (r: Result<Snapshot<V>, Fault>)
    requires snap.conversionSet ==> snap.dataType.Some?
    ensures r.Ok? ==> |r.value.values| == |snap.values| && r.value.pendingCount == snap.pendingCount
  {
    if snap.pendingCount == 0 then Ok(snap)
    else if !snap.conversionSet then Err(UnresolvedFormat)
    else
      var upTo := if snap.pendingCount - 1 <= |snap.values| then snap.pendingCount - 1 else |snap.values|;
      match ConvertRaw(cfg, snap.dataType.value, snap.pattern, snap.values[..upTo])
      case Err(e) => Err(e)
      case Ok(converted) => Ok(snap.(values := converted + snap.values[upTo..]))
  }

  /**
   * With the guards of :213-214 corrected (as written, a time column's first
   * value without a space already raises there), a time column `09:15`,
   * `14:30` buffers the first value until the second fixes `%H:%M`; the fix-up
   * then visits no position and `09:15` stays raw text. The corrected FixUp
   * converts every buffered value (ConvertedColumnMatchesInputs).
   */
  lemma LastBufferedValueSurvivesAsWritten<V>(cfg: Config<V>, snap: Snapshot<V>, text: string, v: V)
    requires snap.conversionSet && snap.dataType.Some?
    requires snap.values == [Raw(text), Value(v)] && snap.pendingCount == 1
    ensures FixUpAsWritten(cfg, snap) == Ok(snap)
    ensures FixUp(cfg, snap).Ok? ==> FixUp(cfg, snap).value.values[0] != Raw(text)
  {
    var dt := snap.dataType.value;
    assert snap.values[..0] == [];
    assert ConvertRaw(cfg, dt, snap.pattern, []) == Ok([]);
    assert [] + snap.values[0..] == snap.values;
  }
}
