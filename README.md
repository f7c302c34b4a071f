# Column type and format inference, in Dafny

This project models the `Column` class of `excelPython/importExcel.py` (lines
101-282) and the constants it uses (lines 8-16). A `Column` is fed a sheet's
cells for one column, one at a time. From the first present value it decides a
data type: integer, float, string, date, time or date-and-time. For the
temporal types it then narrows down a `strptime` pattern over later samples:

- a time is 12-hour or 24-hour, committed by an hour above 12 or by the 50th
  sample (`FORCE_FORMAT`);
- a date keeps, for each positional component, the candidates `%d %m %y %Y`
  and eliminates them sample by sample;
- a date-and-time value combines the two patterns.

Values seen before the pattern is known are buffered as raw text. The
fix-up step converts them afterwards with the same conversion.

The source is Python 2, where `str` is a byte string. `strip()` and `int()`
treat only ASCII whitespace (space, tab, LF, CR, VT, FF) as whitespace, and
`lower()` changes only ASCII letters. The model uses those semantics.

Layout, one module per file:

- `text.dfy` (Text): strip, lower, split/join, one-character substitution,
  `int()` on text, and `len(str(n))`.
- `matchers.dfy` (Matchers): `TIME_MATCHER` and `DATE_MATCHER` as window
  searches. The date window is proved equivalent to the regular expression
  written out.
- `normalizer.dfy` (Normalizer): `stripValue` and the `normalize*Value`
  functions.
- `patterns.dfy` (Patterns): `setTimePattern` and `setDatePattern` as
  functions of the narrowing state.
- `inference.dfy` (Inference):
  - a snapshot of a column's fields;
  - `processValue`, `setPattern` and `fixUpRawValues` as functions on the
    snapshot;
  - the invariant that processing keeps;
  - the whole-column theorems.
- `column.dfy` (Columns): the `Column` class, with the source's fields and
  methods. Each method is proved to produce the state that the matching
  function computes.
- `as_written.dfy` (AsWritten): the four source defects below. Each member
  isolates one defect: it follows the code as written at that place, with the
  other defects corrected, and a lemma exhibits an input that shows it.
- `examples.dfy` (Scenarios): worked samples (`2023-04-15`, `14:30`,
  `2023-04-15 14:30`, ambiguous dates, leading zeros).
- `faults.dfy` (Faults) and `wrappers.dfy` (Wrappers): the exceptions the
  source raises, as values, plus Option/Result.

Modelling choices:

- **Cell values.** A cell is `Option<string>`, i.e. a CSV cell or None.
- **Conversions.** The conversion functions of lines 27-34 are one parameter
  `convert(dataType, pattern, text): Option<V>`. None stands for the
  `ValueError` that `int`, `float` or `strptime` raises.
- **`isDouble`.** It is a parameter `hasFraction`.
- **Exceptions.** The source raises; here a method returns `Fail(fault)`.
  A method that returns `Pass` leaves exactly the state that the
  specification function gives.
- **The buffer.** `rawValueIndex` becomes a per-entry tag `Raw(text)` plus a
  counter `pendingCount`, which is the number of `Raw` entries. Until the
  fix-up it equals the source's `rawValueIndex + 1` (see Findings). The
  corrected fix-up then resets it to 0, while the source leaves
  `rawValueIndex` as it is. Nothing reads the counter after that: both
  readers call `fixUpRawValues` last (lines 70 and 96).

Two consequences of the code that are easy to miss:

- **Ambiguous dates.** For the samples `03-04-05`, `03-25-05`, no component
  is four digits or above 31, so no slot ever loses `%Y` or `%y`. The second
  sample only takes `%m` out of slot 1, and nothing is settled, so no date
  format is found (`Scenarios.AmbiguousDatesStayOpen`).
- **Candidate lists can regain a token.** A four-digit or above-31 component
  *replaces* its slot (lines 260 and 263), so a token removed earlier can
  come back (`Patterns.PinningCanRestoreToken`). The model proves the exact
  form (`Patterns.PruneSlotNarrows`). That every slot is a subset of
  `POTENTIAL_DATE_FORMATS` holds by typing: a slot is a set of `DateToken`,
  which has exactly those four values.

## Model

| member | source | states |
|---|---|---|
| Text.Trim | excelPython/importExcel.py:163 | `strip()` returns the infix of the input that starts at the first non-whitespace character; everything cut off is whitespace and the result neither starts nor ends with whitespace |
| Text.TrimIdempotent | excelPython/importExcel.py:163 | stripping a stripped value changes nothing |
| Text.Split | excelPython/importExcel.py:212 | `split(sep)` gives one piece more than there are separators, no piece contains the separator, and a string without it is one piece |
| Text.JoinSplit | excelPython/importExcel.py:212 | joining the pieces of a split with the separator gives back the string |
| Text.JoinEmptyFirst | excelPython/importExcel.py:212 | an empty first piece adds only its separator to a join |
| Text.JoinSplitAtSep | excelPython/importExcel.py:212 | the step of the round trip for a string that starts with the separator: an empty first piece, then the pieces of the rest |
| Text.JoinSplitAtChar | excelPython/importExcel.py:212 | the step of the round trip for a string that starts with another character: it belongs to the first piece |
| Text.SplitJoin | excelPython/importExcel.py:278-282 | splitting a join of separator-free pieces gives back the pieces (used to read a date format back) |
| Text.ParseInt | excelPython/importExcel.py:191-196 | text that `int()` accepts consists only of whitespace, digits and sign characters |
| Text.TrimPadded | excelPython/importExcel.py:163 | whitespace around text that neither starts nor ends with whitespace is exactly what `strip()` removes |
| Text.ParseIntTrim | excelPython/importExcel.py:191-196 | `int()` depends only on the stripped text |
| Text.ParseIntDigits | excelPython/importExcel.py:191-196 | stripped text of digits alone reads as its decimal value |
| Text.ParseIntPadded | excelPython/importExcel.py:191-196 | the printed form of any integer, with any whitespace around it, reads back as that integer |
| Text.DigitsValueLeadingZeros | excelPython/importExcel.py:191-196 | zeros in front of a digit string do not change its value |
| Text.ParseIntLeadingZeros | excelPython/importExcel.py:191-196 | leading zeros before the digits of a natural number do not change what `int()` reads, e.g. `int('007') == 7` |
| Text.ParseIntString | excelPython/importExcel.py:259 | `int(str(n)) == n` for every integer, so reading back the decimal text of a component gives the component |
| Text.NatStringValue | excelPython/importExcel.py:259 | the decimal digits of a natural number read back as that number |
| Text.NatString | excelPython/importExcel.py:259 | `str(n)` for a natural number is all digits and has as many of them as the number has decimal digits |
| Text.IntString | excelPython/importExcel.py:259 | `str(n)` for an integer has `len(str(n))` characters |
| Text.NumDigits | excelPython/importExcel.py:259 | a natural number with `d` decimal digits lies in `10^(d-1)..10^d - 1` (or is below 10 for one digit) |
| Text.Pow10 | excelPython/importExcel.py:259 | every power of ten is at least 1 |
| Text.DecimalLength | excelPython/importExcel.py:259 | `len(str(n))` is at least 1; for `n >= 0` it is the digit count bounded by powers of ten, and for a negative `n` one more than the digit count of `-n` |
| Text.Lower | excelPython/importExcel.py:165 | `lower()` keeps the length, maps each ASCII capital to its small letter (32 code points on) and leaves every other character |
| Text.LowerIdempotent | excelPython/importExcel.py:165 | lower-casing twice is lower-casing once |
| Text.Join | excelPython/importExcel.py:278-282 | a join of at least one piece starts with its first piece |
| Text.JoinSeparators | excelPython/importExcel.py:278-282 | joining separator-free pieces puts exactly one separator fewer than there are pieces |
| Text.ReplaceChar | excelPython/importExcel.py:228-232 | `re.sub` of one character by another keeps the length, replaces every occurrence, leaves every other character, and leaves no occurrence when the two differ |
| Text.FourDigits | excelPython/importExcel.py:259 | `len(str(n)) == 4` for a natural number holds exactly for 1000..9999 |
| Matchers.HasTime | excelPython/importExcel.py:201-204 | a value with a `TIME_MATCHER` window has a colon right after a digit |
| Matchers.HasDate | excelPython/importExcel.py:206-209 | a value with a `DATE_MATCHER` window has at least eight characters |
| Matchers.DateWindowIffRegex | excelPython/importExcel.py:206-209 | with `DATE_MATCHER` of line 9, the 8-character `dd S dd S dd` window search succeeds exactly when `re.search(DATE_MATCHER, s)` with groups of 2-4, 2 and 2-4 digits does |
| Matchers.ParseableDigitRun | excelPython/importExcel.py:191-196 | inside text `int()` accepts, a digit is followed only by a digit or whitespace |
| Matchers.NumberHasNoTemporalShape | excelPython/importExcel.py:175-189 | text that `int()` accepts has no time window and no date window, so the number test cannot shadow a temporal one |
| Normalizer.Sentinels | excelPython/importExcel.py:105 | the sentinel list is `none`, `null`, the empty string, then the caller's extra tokens in order |
| Normalizer.IsSentinel | excelPython/importExcel.py:164-167 | a value that is itself a sentinel, or whose lower-cased form is one, counts as a sentinel |
| Normalizer.MatchesSentinel | excelPython/importExcel.py:164-167 | the loop over the sentinels finds a match exactly when the lower-cased value equals some lower-cased sentinel |
| Normalizer.Strip | excelPython/importExcel.py:161-170 | None stays None; a string maps to None exactly when its stripped, lower-cased text equals a lower-cased sentinel, and otherwise to its stripped text |
| Normalizer.StripIdempotent | excelPython/importExcel.py:161-170 | applying `stripValue` to its own result changes nothing |
| Normalizer.DefaultSentinelsAreAbsent | excelPython/importExcel.py:164-167 | with the default sentinels of line 105, `none`, `null` and blank text, in any case and with any surrounding whitespace, are absent whatever extra tokens are given |
| Normalizer.NormalizeDateValue | excelPython/importExcel.py:228-229 | the length is kept and no `/` is left |
| Normalizer.NormalizeTimeValue | excelPython/importExcel.py:231-232 | the length is kept and no `.` is left |
| Normalizer.NormalizeDateTimeValue | excelPython/importExcel.py:225-226 | the length is kept and neither `/` nor `.` is left |
| Normalizer.NormalizeDateValueSpec | excelPython/importExcel.py:228-229 | every `/` becomes `-`, every other character stays, and no `/` is left |
| Normalizer.NormalizeTimeValueSpec | excelPython/importExcel.py:231-232 | every `.` becomes `:`, every other character stays, and no `.` is left |
| Normalizer.NormalizeDateIdempotent | excelPython/importExcel.py:228-229 | normalising a date twice is normalising it once |
| Normalizer.NormalizeTimeIdempotent | excelPython/importExcel.py:231-232 | normalising a time twice is normalising it once |
| Normalizer.NormalizeDateTimeSpec | excelPython/importExcel.py:225-226 | the date-and-time normaliser is the composition of the other two in either order, leaves neither `.` nor `/`, and is idempotent |
| Patterns.TimePattern | excelPython/importExcel.py:238-248 | the time pattern starts with `%H:%M` for a 24-hour clock and `%I:%M` otherwise |
| Patterns.HourOf | excelPython/importExcel.py:237-239 | definition, no contract: `int()` of the first colon-separated piece of the normalised time |
| Patterns.TimeStep | excelPython/importExcel.py:234-250 | a time sample fails exactly when its hour is not an integer; otherwise it commits exactly when the hour is above 12 or this is sample number `FORCE_FORMAT`, and then to the pattern for a 24-hour clock exactly when the hour is above 12, with the number of colon-separated fields and the marker of the sample |
| Patterns.TimePatternPrefix | excelPython/importExcel.py:238-248 | the time pattern starts with `%H:%M` or `%I:%M`, each suffix adds three characters, and a marker puts ` %p` at the end |
| Patterns.TimePatternFields | excelPython/importExcel.py:242-248 | the pattern has a space exactly when there is a marker, two colons exactly when there are more than two fields, and a dot exactly when there are more than three |
| Patterns.InitialSlots | excelPython/importExcel.py:254-256 | an empty candidate list starts with one full copy of `POTENTIAL_DATE_FORMATS` per component |
| Patterns.ParseParts | excelPython/importExcel.py:253 | every component parses and the list holds their values, or the fault names a component `int()` rejects, which happens exactly when one exists |
| Patterns.ParsePartsAllParse | excelPython/importExcel.py:253 | components that all parse give exactly their values, in order |
| Patterns.ParsePartsFirstFailure | excelPython/importExcel.py:253 | the fault names the first component that does not parse |
| Patterns.Pinned | excelPython/importExcel.py:259-264 | for a natural component, `%Y` exactly for 1000..9999, `%y` exactly for one above 31 that is not four digits, and no pin exactly for 0..31 |
| Patterns.RemoveElsewhere | excelPython/importExcel.py:269-272 | the corrected removal: keeps the number of slots; by definition it takes the given candidates out of every slot but the one at `idx` |
| Patterns.PruneSlot | excelPython/importExcel.py:258-272 | one component keeps the number of slots; every other slot's candidates are a subset of what they were, and the slot's own too when the component pins nothing |
| Patterns.Prune | excelPython/importExcel.py:257-272 | the slot loop keeps the number of slots, and when no component pins, every slot's candidates are a subset of what they were |
| Patterns.Settled | excelPython/importExcel.py:273-277 | settled slots that are all non-empty are resolved, and resolved slots are settled |
| Patterns.DateFormat | excelPython/importExcel.py:278-282 | a date format of at least one slot starts with the first slot's directive |
| Patterns.Directive | excelPython/importExcel.py:281 | each directive is two characters starting with `%` |
| Patterns.DirectivesHaveNoDash | excelPython/importExcel.py:278-282 | no directive of a resolved slot contains `-` |
| Patterns.PruneSlotPins | excelPython/importExcel.py:259-272 | a four-digit component pins its slot to `%Y` and one above 31 to `%y`; afterwards no other slot has a year candidate |
| Patterns.PruneSlotDropsMonth | excelPython/importExcel.py:265-266 | a component in 13..31 removes `%m` from its slot and adds nothing |
| Patterns.PruneSlotNarrows | excelPython/importExcel.py:257-272 | every slot's candidates are a subset of what they were, except that a pinned slot becomes exactly its pinned token |
| Patterns.PruneSlotExclusive | excelPython/importExcel.py:267-272 | once a slot is down to one candidate, no other slot still offers that candidate |
| Patterns.PruneSlotIdempotent | excelPython/importExcel.py:257-272 | pruning one slot twice with the same component is pruning it once; this is about one slot and one component, not a whole date (see Scenarios.RepeatedDateCanNarrow) |
| Patterns.NarrowDate | excelPython/importExcel.py:257-282 | narrowing fails exactly when there are more components than slots (IndexError at :260, :263, :266 or :267) or every slot is settled but one is empty (IndexError at `subPat[0]`); otherwise the slots are the pruned ones, and a format is found exactly when every slot has one candidate, and then it is their directives joined by `-` |
| Patterns.DateStep | excelPython/importExcel.py:252-282 | a date sample leaves at least one slot, and exactly as many as before once there are slots; a format is returned exactly when every slot has one candidate, and it is their directives joined by `-` |
| Patterns.DateFormatSplits | excelPython/importExcel.py:278-282 | splitting a resolved date format at `-` gives back the slots' directives in order |
| Patterns.PinningCanRestoreToken | excelPython/importExcel.py:259-261 | a pin can give a slot back a year it had lost, so candidate lists are not monotone |
| Patterns.DateStepFormat | excelPython/importExcel.py:273-282 | after a date sample there is one slot per component; the format is found exactly when every slot has one candidate, and splitting it at `-` gives the slots' directives in order |
| Inference.Classify | excelPython/importExcel.py:172-189 | each data type holds exactly when its condition does: integer-or-float for text `int()` accepts, float when it is also fractional, date-or-datetime for a date window, time-or-datetime for a time window, string for none of these |
| Inference.TypeStep | excelPython/importExcel.py:172-189 | the data type becomes the classification, the conversion flag ends up set exactly when it was set or the type is not temporal, and nothing else changes |
| Inference.Normalize | excelPython/importExcel.py:125-130 | normalising keeps the length, leaves no `/` in a date or date-and-time value and no `.` in a time or date-and-time value, and leaves a non-temporal value as it is |
| Inference.TimeArguments | excelPython/importExcel.py:212-214 | the time piece is missing exactly for a date-and-time value with fewer than two pieces; otherwise it is the second piece of a date-and-time value and the first of a time value, with a marker exactly when a further piece follows |
| Inference.TimeHalf | excelPython/importExcel.py:213-214 | only the time state changes; for a time or date-and-time column without a format the sample count grows by one and the `FORCE_FORMAT`-th sample commits; otherwise nothing changes |
| Inference.DateHalf | excelPython/importExcel.py:215-216 | only the date state changes, and only for a date or date-and-time column without a format |
| Inference.Commit | excelPython/importExcel.py:217-223 | only the pattern and the conversion flag change; a conversion once set stays set; a date-and-time column is resolved once both formats are known, and a date or time column once its own format is |
| Inference.PatternStep | excelPython/importExcel.py:211-223 | `setPattern` changes neither the values, the buffer count, the data type nor the measured width, and keeps a conversion once found |
| Inference.PatternStepRunsOwnHalves | excelPython/importExcel.py:211-216 | a missing time part is reported exactly for a date-and-time value with no space; a date column's time state and a time column's date state never change |
| Inference.Prepare | excelPython/importExcel.py:121-124 | typing and pattern narrowing leave a data type set, keep a type already set, and touch neither the entries nor the buffer count |
| Inference.Store | excelPython/importExcel.py:131-146 | exactly one entry is appended and nothing else changes but the buffer count; the entry is raw exactly when no conversion is set, and the count grows by one exactly then |
| Inference.ConvertRaw | excelPython/importExcel.py:153-159 | on success each raw entry is converted and every other entry kept, position by position; it fails exactly when some raw entry is rejected, and the fault names the first rejected one |
| Inference.ConvertedEntryUnique | excelPython/importExcel.py:153-159 | the converted form of an entry is determined by the entry |
| Inference.Inv | excelPython/importExcel.py:102-159 | definition, no contract: the column invariant, i.e. the counter is the number of raw entries, raw entries precede converted ones, nothing is converted without a conversion, and an untyped column is still fresh |
| Inference.InitialInv | excelPython/importExcel.py:102-114 | a fresh column satisfies the column invariant |
| Inference.TypeStepKeepsInv | excelPython/importExcel.py:172-189 | choosing the data type keeps the invariant |
| Inference.PatternStepKeepsInv | excelPython/importExcel.py:211-223 | one step of pattern narrowing keeps the invariant |
| Inference.StoreKeepsInv | excelPython/importExcel.py:131-146 | storing a value keeps the invariant (buffered entries precede converted ones; the counter counts them) |
| Inference.AppendAbsentKeepsInv | excelPython/importExcel.py:118-119 | appending an absent entry keeps the invariant |
| Inference.AbsorbKeepsInv | excelPython/importExcel.py:121-146 | typing, narrowing and storing a present value keeps the invariant |
| Inference.ProcessKeepsInv | excelPython/importExcel.py:116-146 | `processValue` keeps the invariant |
| Inference.Absorb | excelPython/importExcel.py:121-146 | a present value that does not fault appends exactly one entry, which is not absent, keeps the earlier ones and leaves a data type set |
| Inference.Process | excelPython/importExcel.py:116-146 | a call that returns appends exactly one entry and keeps the earlier ones; the entry is absent exactly when the value strips to None, and then nothing else changes |
| Inference.FixUp | excelPython/importExcel.py:148-159 | nothing buffered changes nothing; buffered values without a conversion fail with the unresolved fault; on success the buffer count is 0, the number of entries and every other field stay, and each entry is its conversion |
| Inference.CountRawNone | excelPython/importExcel.py:148-159 | a list without buffered entries has a buffer count of 0 |
| Inference.FixUpKeepsInv | excelPython/importExcel.py:148-159 | a successful fix-up keeps the column invariant |
| Inference.ProcessTypeAndConversionStable | excelPython/importExcel.py:121-133 | the data type is set only while unset, from the classification of the first present value; a conversion once set, and its pattern, never change; the buffer count grows by one exactly when a raw entry is appended, and only while no conversion is set |
| Inference.TimeSampleCounting | excelPython/importExcel.py:235-250 | each present value of an unresolved time column adds one time sample, and the `FORCE_FORMAT`-th one resolves the column |
| Inference.ProcessAll | excelPython/importExcel.py:89-93 | definition, no contract: `processValue` on every input in turn, stopping at the first fault, as the readers' loops over the cells do (also lines 62-64) |
| Inference.ReadColumn | excelPython/importExcel.py:89-96 | every input, then the fix-up; a column that is read without a fault holds one entry per input and nothing buffered |
| Inference.ProcessAllKeepsInv | excelPython/importExcel.py:116-146 | processing a whole column keeps the invariant |
| Inference.ProcessAllSnoc | excelPython/importExcel.py:116-146 | a column that read all its inputs read all but the last first, and then the last one |
| Inference.Fits | excelPython/importExcel.py:116-146 | definition, no contract: an entry fits its input when it is absent for an input that strips to None, and otherwise the normalised text, raw while no conversion is set and converted with the column's type and pattern once one is |
| Inference.Consistent | excelPython/importExcel.py:116-146 | definition, no contract: one entry per input so far, each fitting its input |
| Inference.EntryStillFits | excelPython/importExcel.py:121-146 | an entry keeps matching its input while the data type stays and, for a converted entry, the pattern stays |
| Inference.NewEntryFits | excelPython/importExcel.py:116-146 | the entry `processValue` appends is absent for an absent input, and otherwise the normalised text, buffered or converted with the column's type and pattern |
| Inference.SnocKeepsConsistent | excelPython/importExcel.py:116-146 | a column that gains one matching entry and keeps its type and, once converting, its pattern stays in line with its inputs |
| Inference.ProcessKeepsConsistent | excelPython/importExcel.py:116-146 | one call of `processValue` keeps the entries in line with the inputs seen so far plus the new one |
| Inference.ProcessAllConsistent | excelPython/importExcel.py:116-146 | after processing, the entries line up with the inputs: absent for a None or sentinel, raw normalised text when buffered, and otherwise the conversion of the normalised text |
| Inference.ConvertedColumnMatchesInputs | excelPython/importExcel.py:116-159 | after processing and fix-up, there is one entry per input and none is buffered; each entry is absent exactly when its input strips to None, and otherwise it is the value the final conversion and pattern give for the normalised text, whether it was converted at once or buffered |
| Inference.ResolvedPatternIsFormat | excelPython/importExcel.py:217-223 | a resolved date or time column's pattern is its format, a date-and-time column's is `dateFormat + ' ' + timeFormat`, and a number or string column has a conversion and no pattern |
| Inference.UnresolvedColumnFails | excelPython/importExcel.py:148-152 | a column with a buffered value and no conversion fails the fix-up with the unresolved-format fault |
| Columns.Column.constructor | excelPython/importExcel.py:102-114 | the fields start empty: no type, no candidates, no formats, no pattern, no conversion, nothing buffered, width 0; the sentinels are the defaults plus the given ones |
| Columns.Column.StripValue | excelPython/importExcel.py:161-170 | returns the `Strip` result, and raises the maximum width to the stripped length exactly when a value is kept |
| Columns.Column.SetDataType | excelPython/importExcel.py:172-189 | the data type becomes the classification, and the conversion flag is set exactly for non-temporal types |
| Columns.Column.SetTimePattern | excelPython/importExcel.py:234-250 | the sample count grows by one and the time format becomes what `TimeStep` commits; a non-integer hour is returned as a fault |
| Columns.Column.ParseComponents | excelPython/importExcel.py:253 | the loop parses the components as `ParseParts` does |
| Columns.Column.PruneAt | excelPython/importExcel.py:258-272 | the inner removal loop leaves the candidates that `PruneSlot` gives |
| Columns.Column.PruneAll | excelPython/importExcel.py:257-272 | the loop over the components leaves the candidates `Prune` gives, or reports more components than slots (the source's IndexError) |
| Columns.Column.IsSettled | excelPython/importExcel.py:273-277 | the early-exit loop reports exactly whether no slot has more than one candidate |
| Columns.Column.BuildDateFormat | excelPython/importExcel.py:278-282 | the concatenation loop builds the slots' directives joined by `-`, or reports an emptied slot (the source's IndexError at `subPat[0]`) |
| Columns.Column.InitSlots | excelPython/importExcel.py:254-256 | the loop gives an empty candidate list one full copy of `POTENTIAL_DATE_FORMATS` per component |
| Columns.Column.NarrowDatePattern | excelPython/importExcel.py:257-282 | the candidates and the date format become what `NarrowDate` gives, or its fault is returned; the format is kept while unresolved |
| Columns.Column.SetDatePattern | excelPython/importExcel.py:252-282 | the candidates and the date format become what `DateStep` gives, or its fault is returned |
| Columns.Column.SetTimeHalf | excelPython/importExcel.py:213-214 | the object's state becomes what `TimeHalf` gives, or its fault is returned |
| Columns.Column.SetDateHalf | excelPython/importExcel.py:215-216 | the object's state becomes what `DateHalf` gives, or its fault is returned |
| Columns.Column.CommitPattern | excelPython/importExcel.py:217-223 | the object's state becomes what `Commit` gives |
| Columns.Column.SetPattern | excelPython/importExcel.py:211-223 | the object's state becomes what `PatternStep` gives, or its fault is returned |
| Columns.Column.ProcessValue | excelPython/importExcel.py:116-146 | the object's state becomes what `Process` gives, and the invariant holds again, or the fault is returned |
| Columns.Column.PreparePresent | excelPython/importExcel.py:121-124 | the object's state becomes what `Prepare` gives, or its fault is returned |
| Columns.Column.ProcessPresent | excelPython/importExcel.py:121-146 | for a present value, the object's state becomes what `Absorb` gives, or the fault is returned |
| Columns.Column.StoreValue | excelPython/importExcel.py:131-146 | the object's state becomes what `Store` gives (buffer or convert), or the conversion fault is returned |
| Columns.Column.FixUpRawValues | excelPython/importExcel.py:148-159 | the loop leaves the state that `FixUp` gives: unchanged when nothing is buffered, the unresolved fault without a conversion, and otherwise every buffered entry converted in place; after success the invariant holds |
| Scenarios.SplitThree | excelPython/importExcel.py:253 | three separator-free pieces joined by the separator split back into exactly those pieces |
| Scenarios.ThreePartDate | excelPython/importExcel.py:253 | text of three dash-free, slash-free integers joined by `-` parses to exactly their three values |
| Scenarios.YearPinsFirstSlot | excelPython/importExcel.py:259-272 | a four-digit first component leaves `{%Y}`, `{%d, %m}`, `{%d, %m}` |
| Scenarios.DayFixesLastSlot | excelPython/importExcel.py:265-272 | a day above 12 in the last slot then settles it on `%d` and the middle slot on `%m` |
| Scenarios.YearMonthDaySlots | excelPython/importExcel.py:257-272 | components year, month (at most 12), day (13..31) narrow three full slots to `%Y`, `%m`, `%d` |
| Scenarios.JoinThree | excelPython/importExcel.py:278-282 | three pieces joined by a separator are the pieces with the separator between them |
| Scenarios.YearMonthDayFormat | excelPython/importExcel.py:278-282 | those slots give the format `%Y-%m-%d` |
| Scenarios.YearMonthDayResolves | excelPython/importExcel.py:252-282 | a first date sample `yyyy-mm-dd` with a day above 12 resolves at once to `%Y-%m-%d` |
| Scenarios.SmallComponentsNarrowNothing | excelPython/importExcel.py:257-272 | components all in 0..12 change no slot that still has several candidates |
| Scenarios.AmbiguousDatesStayOpen | excelPython/importExcel.py:257-277 | `03-04-05` then `03-25-05` leaves slot 1 without `%m` and nothing else narrowed, so no date format is found |
| Scenarios.SmallPartOnFreshSlots | excelPython/importExcel.py:258-267 | a component of 3 on fresh slots changes nothing |
| Scenarios.DayOnFreshSlots | excelPython/importExcel.py:265-267 | the day 25 on fresh slots takes `%m` out of its slot and settles nothing |
| Scenarios.YearAfterDay | excelPython/importExcel.py:259-272 | the year 2023 then pins its slot and takes the years out of the others, leaving `{%d, %m}`, `{%d}`, `{%Y}` |
| Scenarios.FirstDateStopsShort | excelPython/importExcel.py:257-272 | a first date `03-25-2023` leaves `{%d, %m}`, `{%d}`, `{%Y}`: slot 1 is settled by the day only after slot 0 was visited |
| Scenarios.SmallPartOnOpenSlot | excelPython/importExcel.py:258-267 | a component of 3 on a slot with two candidates pins nothing, drops nothing and settles nothing |
| Scenarios.SettledDayPropagates | excelPython/importExcel.py:265-272 | the day 25 on an already settled `{%d}` slot removes `%d` from the other slots |
| Scenarios.RepeatedYearChangesNothing | excelPython/importExcel.py:259-272 | a year on an already pinned slot, with no year left elsewhere, changes nothing |
| Scenarios.SameDateAgainNarrows | excelPython/importExcel.py:257-272 | the same date again narrows those slots to `{%m}`, `{%d}`, `{%Y}` |
| Scenarios.OpenThenResolved | excelPython/importExcel.py:273-277 | the slots after the first sample are not settled, and those after the second are different and resolved |
| Scenarios.RepeatedDateCanNarrow | excelPython/importExcel.py:257-277 | a date value seen twice can narrow further on the repeat: `03-25-2023` is unsettled after one sample and resolves after the second |
| Scenarios.TimeSplit | excelPython/importExcel.py:237 | `h:mm` with colon-free pieces splits at `:` into the hour and the minutes |
| Scenarios.TwentyFourHourTime | excelPython/importExcel.py:234-250 | a sample `hh:mm` with an hour above 12 commits `%H:%M` on any sample |
| Scenarios.TwelveHourTimeIsForced | excelPython/importExcel.py:234-250 | an hour of 12 or less commits `%I:%M` on the `FORCE_FORMAT`-th sample and nothing before |
| Scenarios.PatternStepOfHalves | excelPython/importExcel.py:211-223 | `setPattern` is its time half, then its date half, then the commit |
| Scenarios.FreshTimeHalf | excelPython/importExcel.py:213-214 | on a fresh date-and-time column, a time piece that commits at once sets the time format and counts one sample |
| Scenarios.FreshDateHalf | excelPython/importExcel.py:215-216 | on a column with no candidates, a date piece that resolves at once sets the candidates and the date format |
| Scenarios.DateTimeHalvesCombine | excelPython/importExcel.py:211-220 | a first date-and-time sample `date time` whose date piece resolves to a format `df` and whose time piece commits a format `tf` resolves the column to the pattern `df tf` |
| Scenarios.AbsentFromThree | excelPython/importExcel.py:228-232 | a character that none of the pieces and no separator contains is not in their concatenation |
| Scenarios.JoinedPattern | excelPython/importExcel.py:219 | the pattern for `%Y-%m-%d` and `%H:%M` is `%Y-%m-%d %H:%M` |
| Scenarios.DateTimeText | excelPython/importExcel.py:212 | the text of a date and time is its date part, a space, then its time part |
| Scenarios.DateTimeResolves | excelPython/importExcel.py:211-220 | a first sample `yyyy-mm-dd hh:mm` with day above 12 and hour above 12 resolves the column to `%Y-%m-%d %H:%M` |
| Scenarios.LeadingZeroYearIsNotLong | excelPython/importExcel.py:253-259 | a four-character component with a leading zero, such as `0005`, parses but is not taken as a four-digit year |
| Scenarios.DecimalTextIsString | excelPython/importExcel.py:175-189 | short text with a decimal point and no colon, such as `3.5`, is neither an integer nor temporal, so the column is a string column |
| AsWritten.PatternStepAsWritten | excelPython/importExcel.py:211-223 | `setPattern` with the guards of lines 213 and 215 as written (the date half corrected) keeps the values and the data type; both halves run for any temporal column and the time half reads `parts[1]` |
| AsWritten.UnspacedValueFaultsAsWritten | excelPython/importExcel.py:213-214 | as written, a date or time column's first value without a space faults at `parts[1]`, which the corrected step never does |
| AsWritten.RemoveCandidate | excelPython/importExcel.py:266 | `list.remove` succeeds exactly when the candidate is present, and then removes just it |
| AsWritten.RemoveYearsAsWritten | excelPython/importExcel.py:269-272 | the year removal as written succeeds exactly when every other slot still holds both years |
| AsWritten.PruneSlotAsWritten | excelPython/importExcel.py:257-272 | the slot loop as written keeps the number of slots when it does not raise |
| AsWritten.SoleTokenRemovalFailsAsWritten | excelPython/importExcel.py:267-272 | as written, settling the day slot of `2023-04-15 14:30` raises; corrected, it gives `%Y`, `%m`, `%d` |
| AsWritten.RepeatedYearFailsAsWritten | excelPython/importExcel.py:259-272 | as written, a second `yyyy-…` sample raises on the year removal; corrected, it changes nothing |
| AsWritten.RepeatedDayFailsAsWritten | excelPython/importExcel.py:265-266 | as written, a day above 12 for a slot already without `%m` raises; corrected, the slot keeps its candidates |
| AsWritten.FixUpAsWritten | excelPython/importExcel.py:148-159 | the fix-up as written keeps the number of entries and the counter |
| AsWritten.LastBufferedValueSurvivesAsWritten | excelPython/importExcel.py:153 | with `rawValueIndex` of lines 112 and 132, as written, a column whose only buffered value precedes one converted value leaves that value raw; the corrected fix-up converts it |

## Left out

- Reading workbooks and CSV files (`readExcelFile`, `readCSVFile`, lines 37-98): file and library I/O. Cells enter the model as `Option<string>`.
- Native cell values: openpyxl delivers numbers, datetimes and unicode strings, and `stripValue` (line 162) passes every non-`str` value through without stripping, sentinel matching or width measuring. A native number passes `isNumber` and `isDouble` (lines 191-199) and is converted with `int` or `float`; a datetime raises in `re.search` (line 202); a unicode string is typed and narrowed like text that was never stripped. Only byte-string and None cells are modelled.
- The bodies of the conversion functions (lines 27-34): `int`, `float`, `str` and `datetime.strptime`. They are the parameter `convert`, and floating point is not modelled.
- Inference.Classify: `isDouble` (`float(value) % 1 != 0`, lines 198-199) is the parameter `hasFraction`. For text that `int()` accepts it is false except for integers too large for a float (whose `float` is infinite), so a float column practically cannot arise from text cells; the model does not rely on that.
- Text.ParseInt: Python 2's `int()` also allows whitespace between the sign and the digits. The model accepts only a sign followed directly by digits.
- The `print` diagnostics before re-raising (lines 137-140, 144-146). A failure is the fault `ConversionFailure(header, value, pattern)`.
- `BULK_COUNT` (line 17) and the type-name strings (lines 20-25). The first is unused by `Column`; the second are the constructors of `DataType`.
- Columns.Column.ProcessValue: after a fault the source raises and may have changed some fields; the model promises nothing about the state after `Fail`. Callers of the source stop at the exception.
- Patterns.PruneSlot: the corrected removal uses set difference for the inner `for rem in toRemove` loop, so removing an absent candidate is a no-op. The literal `list.remove` behaviour is in AsWritten.
- General regular expressions: `re.search` and `re.sub` are used with fixed patterns only, so they are modelled as window predicates and per-character substitution.

## Findings

| source | as written | input that shows it | evidently intended | confidence | as-written member | corrected member |
|---|---|---|---|---|---|---|
| excelPython/importExcel.py:213-216 | `if self.hasTime` and `if self.hasDate` test bound methods, which are always true, so every temporal column runs both halves and the time half reads `parts[1]` | a date column whose first value is `2023-04-15`, or a time column whose first value is `14:30`: IndexError at `parts[1]` | the time half runs for time and date-and-time columns and the date half for date and date-and-time columns; a time column reads its first piece, with a marker exactly when there is more than one piece | not executed | AsWritten.UnspacedValueFaultsAsWritten | Inference.PatternStepRunsOwnHalves |
| excelPython/importExcel.py:268 | `toRemove or [self.potentialDatePatterns[0]]` removes slot 0's candidate list, which is never an element of a candidate list, so `remove` raises ValueError whenever another slot exists | a date-and-time column whose first value is `2023-04-15 14:30`: the day 15 leaves slot 2 with `%d` only, and the removal raises | remove the sole candidate of the slot just settled from every other slot | not executed | AsWritten.SoleTokenRemovalFailsAsWritten | Patterns.PruneSlotExclusive |
| excelPython/importExcel.py:266-272 | `list.remove` raises ValueError when the candidate is already gone | a date-and-time column `2023-04-05 09:00`, `2023-04-06 09:00`: the second year removes `%Y` from slots that lost it on the first value | removing a candidate that is already gone changes nothing | not executed | AsWritten.RepeatedYearFailsAsWritten | Patterns.PruneSlotIdempotent |
| excelPython/importExcel.py:153 | `rawValueIndex` (lines 112 and 132) starts at -1 and counts buffered values, but `range(rawValueIndex)` visits positions of `values`: one too few, and Nones among them shift the range | with the guards of lines 213-214 corrected (as written, `09:15` already raises there), a time column `09:15`, `14:30`: the first is buffered, the second commits `%H:%M`, and `range(0)` leaves `09:15` as raw text | every buffered value is converted with the final conversion and pattern | not executed | AsWritten.LastBufferedValueSurvivesAsWritten | Inference.ConvertedColumnMatchesInputs |
