/** Nights between two instants, `src/utils/index.ts`. Instants are milliseconds. */
module Dates {
  type Time = int

  const DAY_IN_MILLIS: int := 86_400_000

  /** Smallest number of whole days that covers the distance; negative distances round towards zero. */
  function NumberOfNights(from: Time, to: Time): (nights: int)
    ensures (nights - 1) * DAY_IN_MILLIS < to - from <= nights * DAY_IN_MILLIS
  {
    -((from - to) / DAY_IN_MILLIS)
  }

  lemma {:induction false} NightsArePositiveExactlyWhenLater(from: Time, to: Time)
    ensures NumberOfNights(from, to) >= 1 <==> from < to
    ensures NumberOfNights(from, to) <= 0 <==> to <= from
    ensures NumberOfNights(from, to) == 0 <==> to <= from < to + DAY_IN_MILLIS
  {
  }

  lemma {:induction false} NightsAreMonotone(from: Time, to: Time, later: Time)
    requires to <= later
    ensures NumberOfNights(from, to) <= NumberOfNights(from, later)
  {
  }

  /** Splitting a stay can only add nights, and adds at most one. */
  lemma {:induction false} SplittingAddsAtMostOneNight(a: Time, b: Time, c: Time)
    ensures NumberOfNights(a, c) <= NumberOfNights(a, b) + NumberOfNights(b, c) <= NumberOfNights(a, c) + 1
  {
  }
}
