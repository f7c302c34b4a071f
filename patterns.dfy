/**
 * Temporal pattern narrowing: `setTimePattern` (excelPython/importExcel.py:234-250)
 * and `setDatePattern` (:252-282) as functions from the narrowing state before a
 * sample to the state after it. The `Column` methods of the same names are
 * proved to compute exactly these.
 *
 * Two corrections are built in (see AsWritten for the code as written): the
 * removal that follows a slot narrowing to one candidate removes that slot's
 * sole token (:268 removes slot 0's whole list), and removal is set difference,
 * so removing a token that is already gone does nothing (`list.remove` raises
 * at :266 and :272).
 */
module Patterns {
  import opened Wrappers
  import opened Text
  import opened Normalizer
  import opened Faults

  /** `FORCE_FORMAT` (:16): after this many time samples a 12-hour pattern is forced. */
  const ForceFormat: nat := 50

  // ------------------------------------------------------------------ time

  /**
   * The pattern `setTimePattern` builds (:238-248): `%H` for a 24-hour clock,
   * else `%I`, then `:%M`, `:%S` when there are more than two fields, `.%f` when
   * there are more than three, and ` %p` when the value carries a marker.
   */
  function TimePattern(hour24: bool, fields: nat, hasPM: bool): (r: string)
    ensures |r| >= 5 && r[..5] == (if hour24 then "%H:%M" else "%I:%M")
  {
    (if hour24 then "%H" else "%I") + ":%M"
    + (if fields > 2 then ":%S" else "")
    + (if fields > 3 then ".%f" else "")
    + (if hasPM then " %p" else "")
  }

  /** The hour of a time sample, as `setTimePattern` reads it (:237-239). */
  function HourOf(token: string): Option<int> {
    ParseInt(Split(NormalizeTimeValue(token), ':')[0])
  }

  /**
   * One call of `setTimePattern(token, hasPM)` on a column that has seen
   * `count` samples before it (the call itself makes it `count + 1`): a
   * non-numeric hour is the only failure; the step commits exactly when the
   * hour proves a 24-hour clock or this is the FORCE_FORMAT-th sample, and
   * then to the pattern for that clock, the number of colon-separated fields
   * and the marker.
   */
  function TimeStep(count: nat, token: string, hasPM: bool): (r: Result<Option<string>, Fault>)
    ensures r.Err? <==> HourOf(token).None?
    ensures r.Ok? ==> (r.value.Some? <==> HourOf(token).value > 12 || count + 1 == ForceFormat)
    ensures r.Ok? && r.value.Some? ==>
      r.value.value == TimePattern(HourOf(token).value > 12, |Split(NormalizeTimeValue(token), ':')|, hasPM)
  {
    var timeParts := Split(NormalizeTimeValue(token), ':');
    match ParseInt(timeParts[0])
    case None => Err(BadInteger(timeParts[0]))
    case Some(hour) =>
      if hour > 12 || count + 1 == ForceFormat then Ok(Some(TimePattern(hour > 12, |timeParts|, hasPM)))
      else Ok(None)
  }

  /** The pattern starts with the hour directive and `:%M` and grows by three per suffix. */
  lemma TimePatternPrefix(hour24: bool, fields: nat, hasPM: bool)
    ensures var p := TimePattern(hour24, fields, hasPM);
      && |p| == 5 + (if fields > 2 then 3 else 0) + (if fields > 3 then 3 else 0) + (if hasPM then 3 else 0)
      && p[..5] == (if hour24 then "%H:%M" else "%I:%M")
      && (hasPM ==> p[|p| - 3..] == " %p")
  {
    var p := TimePattern(hour24, fields, hasPM);
    var head := (if hour24 then "%H" else "%I") + ":%M";
    var tail := (if fields > 2 then ":%S" else "") + (if fields > 3 then ".%f" else "");
    var pm := if hasPM then " %p" else "";
    assert p == head + tail + pm;
    assert p[..5] == head;
  }

  /** The pieces `TimePattern` concatenates. */
  lemma TimePatternPieces(hour24: bool, fields: nat, hasPM: bool)
    ensures TimePattern(hour24, fields, hasPM)
      == ((if hour24 then "%H" else "%I") + ":%M") + (if fields > 2 then ":%S" else "")
         + (if fields > 3 then ".%f" else "") + (if hasPM then " %p" else "")
  {
  }

  /**
   * A pattern of four pieces where only the second and third may hold a
   * colon, only the third a dot and only the fourth a space.
   */
  lemma PiecesFields(head: string, sec: string, frac: string, pm: string)
    requires ' ' !in head && ' ' !in sec && ' ' !in frac
    requires '.' !in head && '.' !in sec && '.' !in pm
    requires multiset(frac)[':'] == 0 && multiset(pm)[':'] == 0
    ensures ' ' in head + sec + frac + pm <==> ' ' in pm
    ensures '.' in head + sec + frac + pm <==> '.' in frac
    ensures multiset(head + sec + frac + pm)[':'] == multiset(head)[':'] + multiset(sec)[':']
  {
    assert multiset(head + sec + frac + pm) == multiset(head) + multiset(sec) + multiset(frac) + multiset(pm);
  }

  lemma HeadFields(hour24: bool)
    ensures var head := (if hour24 then "%H" else "%I") + ":%M";
      ' ' !in head && '.' !in head && multiset(head)[':'] == 1
  {
    var head := (if hour24 then "%H" else "%I") + ":%M";
    assert head == [head[0], head[1], ':', '%', 'M'];
    assert multiset(head) == multiset{head[0], head[1], ':', '%', 'M'};
  }

  lemma SuffixFields(fields: nat, hasPM: bool)
    ensures var sec := if fields > 2 then ":%S" else "";
      ' ' !in sec && '.' !in sec && multiset(sec)[':'] == (if fields > 2 then 1 else 0)
    ensures var frac := if fields > 3 then ".%f" else "";
      ' ' !in frac && ('.' in frac <==> fields > 3) && multiset(frac)[':'] == 0
    ensures var pm := if hasPM then " %p" else "";
      ('.' !in pm) && (' ' in pm <==> hasPM) && multiset(pm)[':'] == 0
  {
    if fields > 2 { assert multiset(":%S") == multiset{':', '%', 'S'}; }
    if fields > 3 { assert multiset(".%f") == multiset{'.', '%', 'f'}; }
    if hasPM { assert multiset(" %p") == multiset{' ', '%', 'p'}; }
  }

  /**
   * Reading the pattern back: it has a space exactly when a marker was seen, a
   * second colon exactly when seconds were seen and a dot exactly when
   * fractions were.
   */
  lemma TimePatternFields(hour24: bool, fields: nat, hasPM: bool)
    ensures var p := TimePattern(hour24, fields, hasPM);
      && (' ' in p <==> hasPM)
      && multiset(p)[':'] == (if fields > 2 then 2 else 1)
      && ('.' in p <==> fields > 3)
  {
    TimePatternPieces(hour24, fields, hasPM);
    HeadFields(hour24);
    SuffixFields(fields, hasPM);
    PiecesFields((if hour24 then "%H" else "%I") + ":%M", if fields > 2 then ":%S" else "",
                 if fields > 3 then ".%f" else "", if hasPM then " %p" else "");
  }

  // ------------------------------------------------------------------ date

  /** The entries of `POTENTIAL_DATE_FORMATS` (:10-15). */
  datatype DateToken = Day | Month | ShortYear | LongYear

  function Directive(t: DateToken): (r: string)
    ensures |r| == 2 && r[0] == '%'
  {
    match t
    case Day => "%d"
    case Month => "%m"
    case ShortYear => "%y"
    case LongYear => "%Y"
  }

  /** `POTENTIAL_DATE_FORMATS` as a set: every token there is. */
  const PotentialDateFormats: set<DateToken> := {Day, Month, ShortYear, LongYear}

  /** `potentialDatePatterns`: one candidate set per positional slot. */
  type Slots = seq<set<DateToken>>

  /** One full copy of the candidates per component (:254-256). */
  function InitialSlots(n: nat): (r: Slots)
    ensures |r| == n && forall i :: 0 <= i < n ==> r[i] == PotentialDateFormats
  {
    seq(n, _ => PotentialDateFormats)
  }

  /** The token a component forces on its slot: four digits a long year, above 31 a short year. */
  function Pinned(part: int): (r: Option<DateToken>)
    ensures 0 <= part ==> (r == Some(LongYear) <==> 1000 <= part <= 9999)
    ensures 0 <= part ==> (r == Some(ShortYear) <==> 31 < part < 1000 || 9999 < part)
    ensures 0 <= part ==> (r.None? <==> part <= 31)
  {
    FourDigits(part);
    if DecimalLength(part) == 4 then Some(LongYear)
    else if part > 31 then Some(ShortYear)
    else None
  }

  /** Remove `rem` from every slot but `idx` (:269-272, as set difference). */
  function RemoveElsewhere(slots: Slots, idx: nat, rem: set<DateToken>): (r: Slots)
    ensures |r| == |slots|
  {
    seq(|slots|, j requires 0 <= j < |slots| => if j == idx then slots[j] else slots[j] - rem)
  }

  /**
   * One iteration of the loop at :257-272 for component `part` at slot `idx`:
   * pin or drop the month, then, if the slot is down to one candidate, remove
   * the year tokens (after a pin) or the slot's sole token from every other slot.
   */
  function PruneSlot(slots: Slots, idx: nat, part: int): (r: Slots)
    requires idx < |slots|
    ensures |r| == |slots|
    ensures forall j :: 0 <= j < |slots| && j != idx ==> r[j] <= slots[j]
    ensures Pinned(part).None? ==> forall j :: 0 <= j < |slots| ==> r[j] <= slots[j]
  {
    var narrowed :=
      match Pinned(part)
      case Some(t) => slots[idx := {t}]
      case None => if part > 12 then slots[idx := slots[idx] - {Month}] else slots;
    var toRemove := if Pinned(part).Some? then {LongYear, ShortYear} else {};
    if |narrowed[idx]| == 1 then
      RemoveElsewhere(narrowed, idx, if toRemove != {} then toRemove else narrowed[idx])
    else narrowed
  }

  /** The loop at :257-272 over all components, left to right. */
  function Prune(slots: Slots, parts: seq<int>): (r: Slots)
    requires |parts| <= |slots|
    ensures |r| == |slots|
    ensures (forall k :: 0 <= k < |parts| ==> Pinned(parts[k]).None?) ==>
      forall j :: 0 <= j < |slots| ==> r[j] <= slots[j]
  {
    if |parts| == 0 then slots
    else
      assert forall k :: 0 <= k < |parts| - 1 ==> parts[..|parts| - 1][k] == parts[k];
      PruneSlot(Prune(slots, parts[..|parts| - 1]), |parts| - 1, parts[|parts| - 1])
  }

  /** The test at :273-277: no slot has more than one candidate left. */
  predicate Settled(slots: Slots)
    ensures Settled(slots) && (forall i :: 0 <= i < |slots| ==> slots[i] != {}) ==> Resolved(slots)
    ensures Resolved(slots) ==> Settled(slots)
  {
    forall i :: 0 <= i < |slots| ==> |slots[i]| <= 1
  }

  /** Every slot has exactly one candidate. */
  predicate Resolved(slots: Slots) {
    forall i :: 0 <= i < |slots| ==> |slots[i]| == 1
  }

  lemma SingletonOf(s: set<DateToken>, t: DateToken)
    requires |s| == 1 && t in s
    ensures s == {t}
  {
    assert |s - {t}| == 0;
    assert s - {t} == {};
  }

  /** The one candidate of a slot that has exactly one. */
  function Sole(s: set<DateToken>): (t: DateToken)
    requires |s| == 1
    ensures s == {t}
  {
    var t := if Day in s then Day else if Month in s then Month else if ShortYear in s then ShortYear else LongYear;
    assert t in s by {
      var u :| u in s;
      assert u.Day? || u.Month? || u.ShortYear? || u.LongYear?;
    }
    SingletonOf(s, t);
    t
  }

  /** The pattern directive of each slot, in slot order. */
  function Directives(slots: Slots): (r: seq<string>)
    requires Resolved(slots)
    ensures |r| == |slots|
  {
    seq(|slots|, i requires 0 <= i < |slots| => Directive(Sole(slots[i])))
  }

  /** The date format of a resolved slot sequence: its directives joined by `-` (:278-282). */
  function DateFormat(slots: Slots): (r: string)
    requires Resolved(slots)
    ensures |slots| >= 1 ==> |r| >= 2 && r[..2] == Directive(Sole(slots[0]))
  {
    Join(Directives(slots), '-')
  }

  /** Splitting a date format at `-` gives back its directives in order. */
  lemma DateFormatSplits(slots: Slots)
    requires Resolved(slots) && |slots| >= 1
    ensures Split(DateFormat(slots), '-') == Directives(slots)
  {
    DirectivesHaveNoDash(slots);
    SplitJoin(Directives(slots), '-');
  }

  lemma DirectivesHaveNoDash(slots: Slots)
    requires Resolved(slots)
    ensures forall i :: 0 <= i < |slots| ==> '-' !in Directives(slots)[i]
  {
    forall i | 0 <= i < |slots| ensures '-' !in Directives(slots)[i] {
      assert Directives(slots)[i] == Directive(Sole(slots[i]));
    }
  }

  /**
   * `[int(x) for x in pieces]` (:253): all components, or the fault for the
   * first one `int()` rejects.
   */
  function ParseParts(pieces: seq<string>): (r: Result<seq<int>, Fault>)
    ensures r.Ok? ==> |r.value| == |pieces| && forall i :: 0 <= i < |pieces| ==> ParseInt(pieces[i]) == Some(r.value[i])
    ensures r.Err? <==> exists i :: 0 <= i < |pieces| && ParseInt(pieces[i]).None?
    ensures r.Err? ==> exists i :: 0 <= i < |pieces| && ParseInt(pieces[i]).None? && r.error == BadInteger(pieces[i])
  {
    if |pieces| == 0 then Ok([])
    else match ParseInt(pieces[0])
      case None => Err(BadInteger(pieces[0]))
      case Some(n) =>
        match ParseParts(pieces[1..])
        case Err(e) => Err(e)
        case Ok(rest) =>
          assert forall i :: 1 <= i < |pieces| ==> pieces[i] == pieces[1..][i - 1];
          Ok([n] + rest)
  }

  /** Components that all parse give exactly their values. */
  lemma {:induction false} ParsePartsAllParse(pieces: seq<string>, nums: seq<int>)
    requires |nums| == |pieces|
    requires forall i :: 0 <= i < |pieces| ==> ParseInt(pieces[i]) == Some(nums[i])
    ensures ParseParts(pieces) == Ok(nums)
  {
    if |pieces| > 0 {
      ParsePartsAllParse(pieces[1..], nums[1..]);
      assert [nums[0]] + nums[1..] == nums;
    }
  }

  /** The fault names the first component that does not parse. */
  lemma {:induction false} ParsePartsFirstFailure(pieces: seq<string>, k: nat)
    requires k < |pieces| && ParseInt(pieces[k]).None?
    requires forall i :: 0 <= i < k ==> ParseInt(pieces[i]).Some?
    ensures ParseParts(pieces) == Err(BadInteger(pieces[k]))
  {
    if k > 0 {
      assert ParseInt(pieces[0]).Some?;
      assert pieces[1..][k - 1] == pieces[k];
      assert forall i :: 0 <= i < k - 1 ==> pieces[1..][i] == pieces[i + 1];
      ParsePartsFirstFailure(pieces[1..], k - 1);
    }
  }

  /**
   * One call of `setDatePattern(token)` (:252-282): the new candidate slots and
   * the date format if every slot is now down to one candidate, or a fault.
   */
  function DateStep(slots: Slots, token: string): (r: Result<(Slots, Option<string>), Fault>)
    ensures r.Ok? ==> |r.value.0| >= 1 && (|slots| > 0 ==> |r.value.0| == |slots|)
    ensures r.Ok? ==> (r.value.1.Some? <==> Resolved(r.value.0))
    ensures r.Ok? && r.value.1.Some? ==> r.value.1.value == DateFormat(r.value.0)
  {
    match ParseParts(Split(NormalizeDateValue(token), '-'))
    case Err(e) => Err(e)
    case Ok(parts) => NarrowDate(if |slots| == 0 then InitialSlots(|parts|) else slots, parts)
  }

  /**
   * The part of `setDatePattern` after the components are parsed and the slots
   * exist (:257-282): prune, then read off the format once every slot is settled.
   * More components than slots is the IndexError at :260-267; a settled but
   * emptied slot the IndexError at `subPat[0]` (:281).
   */
  function NarrowDate(start: Slots, parts: seq<int>): (r: Result<(Slots, Option<string>), Fault>)
    ensures r.Err? <==> |parts| > |start| || (Settled(Prune(start, parts)) && !Resolved(Prune(start, parts)))
    ensures r.Ok? ==> r.value.0 == Prune(start, parts)
    ensures r.Ok? ==> (r.value.1.Some? <==> Resolved(r.value.0))
    ensures r.Ok? && r.value.1.Some? ==> r.value.1.value == DateFormat(r.value.0)
  {
    if |parts| > |start| then Err(TooManyDateParts)
    else
      var pruned := Prune(start, parts);
      if !Settled(pruned) then Ok((pruned, None))
      else if !Resolved(pruned) then Err(EmptySlot)
      else Ok((pruned, Some(DateFormat(pruned))))
  }

  // ------------------------------------------------------- date properties

  /**
   * A four-digit component pins its slot to `%Y`, one above 31 to `%y`; either
   * way no other slot keeps a year candidate.
   */
  lemma PruneSlotPins(slots: Slots, idx: nat, part: int)
    requires idx < |slots| && Pinned(part).Some?
    ensures PruneSlot(slots, idx, part)[idx] == {Pinned(part).value}
    ensures forall j :: 0 <= j < |slots| && j != idx ==>
      LongYear !in PruneSlot(slots, idx, part)[j] && ShortYear !in PruneSlot(slots, idx, part)[j]
  {
  }

  /** A component in 13..31 cannot be a month: its slot loses `%m` and gains nothing. */
  lemma PruneSlotDropsMonth(slots: Slots, idx: nat, part: int)
    requires idx < |slots| && 12 < part <= 31
    ensures Month !in PruneSlot(slots, idx, part)[idx]
    ensures PruneSlot(slots, idx, part)[idx] <= slots[idx]
  {
    FourDigits(part);
  }

  /**
   * Candidates only shrink, except that a pinned slot is overwritten with its
   * pinned token, which it may have lost before (see PinningCanRestoreToken).
   */
  lemma PruneSlotNarrows(slots: Slots, idx: nat, part: int)
    requires idx < |slots|
    ensures forall j :: 0 <= j < |slots| ==>
      PruneSlot(slots, idx, part)[j] <= slots[j]
      || (j == idx && Pinned(part).Some? && PruneSlot(slots, idx, part)[j] == {Pinned(part).value})
  {
  }

  /**
   * Once a slot is down to one candidate after its component is processed, no
   * other slot still offers that candidate: each role occupies one slot.
   */
  lemma PruneSlotExclusive(slots: Slots, idx: nat, part: int)
    requires idx < |slots|
    requires |PruneSlot(slots, idx, part)[idx]| == 1
    ensures forall j :: 0 <= j < |slots| && j != idx ==>
      Sole(PruneSlot(slots, idx, part)[idx]) !in PruneSlot(slots, idx, part)[j]
  {
    var r := PruneSlot(slots, idx, part);
    var t := Sole(r[idx]);
    if Pinned(part).Some? {
      assert r[idx] == {Pinned(part).value};
    }
  }

  /**
   * The outcome of a date sample: the format is found exactly when every slot
   * has exactly one candidate, and then splitting it at `-` gives each slot's
   * directive in order.
   */
  lemma DateStepFormat(slots: Slots, token: string)
    requires DateStep(slots, token).Ok?
    ensures var (pruned, format) := DateStep(slots, token).value;
      && |pruned| >= 1
      && (|slots| > 0 ==> |pruned| == |slots|)
      && (format.Some? <==> Resolved(pruned))
      && (format.Some? ==> Split(format.value, '-') == Directives(pruned))
  {
    var (pruned, format) := DateStep(slots, token).value;
    if format.Some? {
      DateFormatSplits(pruned);
    }
  }

  /**
   * Pruning one slot twice with the same component is pruning it once. This
   * is about one slot and one component only: a whole repeated date value can
   * still narrow the candidates (Scenarios.RepeatedDateCanNarrow).
   */
  lemma PruneSlotIdempotent(slots: Slots, idx: nat, part: int)
    requires idx < |slots|
    ensures PruneSlot(PruneSlot(slots, idx, part), idx, part) == PruneSlot(slots, idx, part)
  {
    var once := PruneSlot(slots, idx, part);
    var twice := PruneSlot(once, idx, part);
    assert once[idx] == twice[idx];
    forall j | 0 <= j < |slots|
      ensures twice[j] == once[j]
    {
    }
  }

  /**
   * Pinning overwrites the slot, so a year token removed from a slot earlier can
   * come back when a later sample has a four-digit component there.
   */
  lemma PinningCanRestoreToken()
    ensures var before: Slots := [{LongYear}, {Day, Month}, {Day, Month}];
      && LongYear !in before[1]
      && LongYear in PruneSlot(before, 1, 2023)[1]
  {
    FourDigits(2023);
  }
}
