/** The exceptions the column engine can raise, as values. */
module Faults {
  import opened Wrappers

  datatype Fault =
      /** `int()` rejected a time or date component (:239, :253). */
    | BadInteger(text: string)
      /** A date-and-time value has no space-separated time part (`parts[1]`, :214). */
    | MissingTimePart
      /** A date has more components than the column has slots (`potentialDatePatterns[idx]`, :260-267). */
    | TooManyDateParts
      /** Every slot has at most one candidate but some slot has none (`subPat[0]`, :281). */
    | EmptySlot
      /** A committed conversion rejected a value (:135-146, :157, :159). */
    | ConversionFailure(header: Option<string>, value: string, pattern: Option<string>)
      /** Values were buffered but no conversion was ever found (:151-152). */
    | UnresolvedFormat
      /**
       * `list.remove` of a candidate the slot does not hold (:266, :268-272);
       * only the code as written raises it (see AsWritten).
       */
    | MissingCandidate
}
