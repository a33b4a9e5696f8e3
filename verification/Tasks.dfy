/**
 * The four crons that move a booking's status, `src/tasks/tasks.service.ts`,
 * as functions of one row: the row a cron saves, or the same row when the cron
 * does not select it or returns early.
 */
module Tasks {
  import opened Wrappers
  import opened Dates
  import opened Entities

  datatype StatusCron = BookingsInProgress | FinishedBookings | CancelBookings | CancelCryptoBookings

  /** The hold of a pending, unpaid row has run out. */
  predicate HoldExpired(now: Time, b: Booking) {
    b.status.Pending? && b.hold.Some? && !b.Paid() && b.hold.value <= now
  }

  function CronRow(cron: StatusCron, now: Time, b: Booking): Booking {
    match cron
    case BookingsInProgress =>
      if !b.Paid() || b.status.Cancelled? then b
      else if b.stay.checkIn <= now < b.stay.checkOut then b.(status := Processing, hold := None)
      else if b.stay.checkIn > now then b.(status := PaidPending, hold := None)
      else b
    case FinishedBookings =>
      if b.Paid() && !b.status.Cancelled? && now >= b.stay.checkOut then b.(status := Finished, hold := None) else b
    case CancelBookings =>
      if HoldExpired(now, b) && b.cryptoAddress == "" then b.(status := Cancelled, hold := None) else b
    case CancelCryptoBookings =>
      if HoldExpired(now, b) && b.cryptoAddress != "" then b.(status := Cancelled, hold := None) else b
  }

  /** The cron that watches the hold of this row. */
  function CancelCronFor(b: Booking): StatusCron {
    if b.cryptoAddress == "" then CancelBookings else CancelCryptoBookings
  }

  function CalendarPhase(now: Time, stay: Stay): BookingStatus {
    if now < stay.checkIn then PaidPending else if now < stay.checkOut then Processing else Finished
  }

  /** Where the crons together leave a row at a fixed time. */
  function Settle(now: Time, b: Booking): Booking {
    if b.Paid() && !b.status.Cancelled? then b.(status := CalendarPhase(now, b.stay), hold := None)
    else if HoldExpired(now, b) then b.(status := Cancelled, hold := None)
    else b
  }

  function CronsOnRow(crons: seq<StatusCron>, now: Time, b: Booking): Booking {
    if crons == [] then b else CronRow(crons[|crons| - 1], now, CronsOnRow(crons[..|crons| - 1], now, b))
  }

  lemma {:induction false} CronsCommute(first: StatusCron, second: StatusCron, now: Time, b: Booking)
    ensures CronRow(second, now, CronRow(first, now, b)) == CronRow(first, now, CronRow(second, now, b))
    ensures CronRow(first, now, CronRow(first, now, b)) == CronRow(first, now, b)
  {
  }

  /** Which cron writes which status, and that it clears the hold and writes nothing else. */
  lemma {:induction false} EachCronWrites(now: Time, b: Booking)
    ensures var paid := b.payment.status.Completed? && !b.status.Cancelled?;
            var expired := b.status.Pending? && !b.payment.status.Completed? && b.hold.Some? && b.hold.value <= now;
            && CronRow(BookingsInProgress, now, b)
               == (if paid && now < b.stay.checkIn then b.(status := PaidPending, hold := None)
                   else if paid && now < b.stay.checkOut then b.(status := Processing, hold := None)
                   else b)
            && CronRow(FinishedBookings, now, b)
               == (if paid && b.stay.checkOut <= now then b.(status := Finished, hold := None) else b)
            && CronRow(CancelBookings, now, b)
               == (if expired && b.cryptoAddress == "" then b.(status := Cancelled, hold := None) else b)
            && CronRow(CancelCryptoBookings, now, b)
               == (if expired && b.cryptoAddress != "" then b.(status := Cancelled, hold := None) else b)
  {
  }

  /** A cron takes a row all the way or not at all, and a settled row stays put. */
  lemma {:induction false} CronRowIsAllOrNothing(cron: StatusCron, now: Time, b: Booking)
    ensures CronRow(cron, now, b) in {b, Settle(now, b)}
    ensures CronRow(cron, now, Settle(now, b)) == Settle(now, b) == Settle(now, Settle(now, b))
  {
  }

  lemma {:induction false} PartialCronRuns(crons: seq<StatusCron>, now: Time, b: Booking)
    ensures CronsOnRow(crons, now, b) in {b, Settle(now, b)}
    ensures CronsOnRow(crons, now, b) == b ==> forall cron :: cron in crons ==> CronRow(cron, now, b) == b
  {
    if crons != [] {
      var init, last := crons[..|crons| - 1], crons[|crons| - 1];
      PartialCronRuns(init, now, b);
      CronRowIsAllOrNothing(last, now, b);
      assert crons == init + [last];
    }
  }

  /** In any order and with any repetitions, running all four gives the closed form. */
  lemma {:induction false} AnyFullCronRunSettles(crons: seq<StatusCron>, now: Time, b: Booking)
    requires BookingsInProgress in crons && FinishedBookings in crons
    requires CancelBookings in crons && CancelCryptoBookings in crons
    ensures CronsOnRow(crons, now, b) == Settle(now, b)
  {
    PartialCronRuns(crons, now, b);
  }
}
