/**
 * Which stays keep a request out: the check made when a booking is opened
 * (`src/repositories/bookings.repository.ts`) and the filter of the property
 * search (`src/repositories/properties.repository.ts`).
 */
module Availability {
  import opened Dates
  import opened Entities

  /**
   * How the `OR` in the booking-time filter binds: inside its own brackets, or
   * after the conditions on property and status, which then guard only the
   * first clause.
   */
  datatype WhereReading = Grouped | Ungrouped

  predicate StartsInside(stay: Stay, checkIn: Time) {
    stay.checkIn <= checkIn <= stay.checkOut
  }

  predicate StartsBefore(stay: Stay, checkIn: Time, checkOut: Time) {
    checkIn <= stay.checkIn <= checkOut
  }

  predicate Holds(b: Booking, property: Id) {
    b.property == property && !b.status.Cancelled? && !b.status.Finished?
  }

  predicate Blocks(reading: WhereReading, b: Booking, property: Id, checkIn: Time, checkOut: Time) {
    match reading
    case Grouped => Holds(b, property) && (StartsInside(b.stay, checkIn) || StartsBefore(b.stay, checkIn, checkOut))
    case Ungrouped => (Holds(b, property) && StartsInside(b.stay, checkIn)) || StartsBefore(b.stay, checkIn, checkOut)
  }

  predicate IsAvailable(reading: WhereReading, bookings: seq<Booking>, property: Id, checkIn: Time, checkOut: Time) {
    forall i :: 0 <= i < |bookings| ==> !Blocks(reading, bookings[i], property, checkIn, checkOut)
  }

  predicate HiddenFromSearch(b: Booking, property: Id, checkIn: Time, checkOut: Time) {
    && b.property == property
    && !b.status.Cancelled?
    && (|| b.stay.checkIn <= checkIn <= b.stay.checkOut
        || b.stay.checkIn <= checkOut <= b.stay.checkOut
        || (checkIn <= b.stay.checkIn && checkOut >= b.stay.checkOut))
  }

  predicate PassesSearch(bookings: seq<Booking>, property: Id, checkIn: Time, checkOut: Time) {
    forall i :: 0 <= i < |bookings| ==> !HiddenFromSearch(bookings[i], property, checkIn, checkOut)
  }

  predicate During(t: Time, checkIn: Time, checkOut: Time) {
    checkIn <= t <= checkOut
  }

  /** Two closed stays have an instant in common. */
  ghost predicate ShareAnInstant(checkIn: Time, checkOut: Time, checkIn': Time, checkOut': Time) {
    exists t :: During(t, checkIn, checkOut) && During(t, checkIn', checkOut')
  }

  /** The two clauses and the three clauses both say that the stays share an instant. */
  lemma {:induction false} ClausesMeanOverlap(b: Booking, checkIn: Time, checkOut: Time)
    requires checkIn <= checkOut
    ensures StartsInside(b.stay, checkIn) || StartsBefore(b.stay, checkIn, checkOut)
            <==> ShareAnInstant(b.stay.checkIn, b.stay.checkOut, checkIn, checkOut)
    ensures HiddenFromSearch(b, b.property, checkIn, checkOut)
            <==> !b.status.Cancelled? && ShareAnInstant(b.stay.checkIn, b.stay.checkOut, checkIn, checkOut)
  {
    var latestStart := if b.stay.checkIn <= checkIn then checkIn else b.stay.checkIn;
    if latestStart <= b.stay.checkOut && latestStart <= checkOut {
      assert During(latestStart, b.stay.checkIn, b.stay.checkOut) && During(latestStart, checkIn, checkOut);
    }
  }

  /**
   * What the check lets through: no row of the property that is neither cancelled
   * nor finished shares an instant with the stay, and under the ungrouped reading
   * no row of any property and status begins during it.
   */
  lemma {:induction false} AvailableExactly(
    reading: WhereReading, bookings: seq<Booking>, property: Id, checkIn: Time, checkOut: Time)
    requires checkIn <= checkOut
    ensures IsAvailable(reading, bookings, property, checkIn, checkOut) <==>
            forall i :: 0 <= i < |bookings| ==>
              var b := bookings[i];
              && (b.property == property && b.status in {Pending, PaidPending, Processing} ==>
                    !ShareAnInstant(b.stay.checkIn, b.stay.checkOut, checkIn, checkOut))
              && (reading.Ungrouped? ==> !(checkIn <= b.stay.checkIn <= checkOut))
  {
    forall i | 0 <= i < |bookings|
      ensures StartsInside(bookings[i].stay, checkIn) || StartsBefore(bookings[i].stay, checkIn, checkOut)
              <==> ShareAnInstant(bookings[i].stay.checkIn, bookings[i].stay.checkOut, checkIn, checkOut)
    {
      ClausesMeanOverlap(bookings[i], checkIn, checkOut);
    }
  }

  /** The ungrouped reading only turns more requests away. */
  lemma {:induction false} UngroupedIsStricter(bookings: seq<Booking>, property: Id, checkIn: Time, checkOut: Time)
    requires IsAvailable(Ungrouped, bookings, property, checkIn, checkOut)
    ensures IsAvailable(Grouped, bookings, property, checkIn, checkOut)
  {
  }

  lemma {:induction false} UngroupedExactly(bookings: seq<Booking>, property: Id, checkIn: Time, checkOut: Time)
    ensures IsAvailable(Ungrouped, bookings, property, checkIn, checkOut)
            <==> IsAvailable(Grouped, bookings, property, checkIn, checkOut)
                 && forall i :: 0 <= i < |bookings| && !Holds(bookings[i], property) ==>
                      !StartsBefore(bookings[i].stay, checkIn, checkOut)
  {
    if IsAvailable(Ungrouped, bookings, property, checkIn, checkOut) {
      UngroupedIsStricter(bookings, property, checkIn, checkOut);
      forall i | 0 <= i < |bookings| ensures !StartsBefore(bookings[i].stay, checkIn, checkOut) {
        assert !Blocks(Ungrouped, bookings[i], property, checkIn, checkOut);
      }
    } else if i :| 0 <= i < |bookings| && Blocks(Ungrouped, bookings[i], property, checkIn, checkOut) {
      assert Blocks(Grouped, bookings[i], property, checkIn, checkOut)
             || (!Holds(bookings[i], property) && StartsBefore(bookings[i].stay, checkIn, checkOut));
    }
  }

  /**
   * Where the ungrouped reading goes wrong, exactly: the two readings disagree
   * on a request if and only if the grouped one accepts it and some row that
   * does not hold the property starts during the requested stay.
   */
  lemma {:induction false} ReadingsDisagreeExactly(bookings: seq<Booking>, property: Id, checkIn: Time, checkOut: Time)
    ensures IsAvailable(Grouped, bookings, property, checkIn, checkOut)
              != IsAvailable(Ungrouped, bookings, property, checkIn, checkOut)
            <==>
            && IsAvailable(Grouped, bookings, property, checkIn, checkOut)
            && exists i :: 0 <= i < |bookings| && !Holds(bookings[i], property)
                           && StartsBefore(bookings[i].stay, checkIn, checkOut)
  {
  }

  function Without(bookings: seq<Booking>, i: nat): seq<Booking>
    requires i < |bookings|
  {
    bookings[..i] + bookings[i + 1..]
  }

  /** A row that holds nothing can be dropped from the table without changing a grouped check. */
  lemma {:induction false} ReleasedRowsDoNotBlock(
    bookings: seq<Booking>, i: nat, property: Id, checkIn: Time, checkOut: Time)
    requires i < |bookings|
    requires bookings[i].status.Cancelled? || bookings[i].status.Finished?
    ensures IsAvailable(Grouped, bookings, property, checkIn, checkOut)
            <==> IsAvailable(Grouped, Without(bookings, i), property, checkIn, checkOut)
  {
    var others := Without(bookings, i);
    if IsAvailable(Grouped, others, property, checkIn, checkOut) {
      forall j | 0 <= j < |bookings| ensures !Blocks(Grouped, bookings[j], property, checkIn, checkOut) {
        if j != i {
          assert bookings[j] == others[if j < i then j else j - 1];
        }
      }
    }
  }
}
