/**
 * What opening a booking leaves in the tables, said from the price list, the
 * request and the tables before it.
 */
module Openings {
  import opened Wrappers
  import opened Dates
  import opened Entities
  import opened Quotes
  import opened Availability
  import opened Credits
  import opened Machine
  import opened Lifecycle
  import opened Confirmation
  import opened CreditBalances

  // ---------- Which requests are let through ----------

  /** The guest asks for credits that the confirmed balance covers. */
  predicate IsCovered(s: State, r: Request) {
    r.credits.Some? && r.credits.value.Value() <= ConfirmedBalance(s.credits, r.guest) as real
  }

  predicate LiesAhead(s: State, r: Request) {
    s.clock < r.checkIn < r.checkOut
  }

  predicate HasGuests(r: Request) {
    r.adults + 2 * r.children >= 1
  }

  /** The credits asked for are taken off, but are no integer. */
  predicate AsksForAFraction(s: State, r: Request) {
    IsCovered(s, r) && r.credits.value.Value() > 0.0 && !IsWhole(r.credits.value.Value())
  }

  /** Everything that an opening needs. */
  predicate IsLetThrough(cat: Catalogue, s: State, r: Request, answer: GatewayAnswer) {
    && IsAvailable(cat.reading, s.bookings, r.property, r.checkIn, r.checkOut)
    && LiesAhead(s, r) && HasGuests(r) && r.property in cat.properties && r.guest in cat.guests
    && answer.Accepted? && !AsksForAFraction(s, r)
  }

  /** What turns a request away, one rejection at a time; a later one needs all earlier conditions to hold. */
  lemma {:induction false} RejectionsExactly(
    cat: Catalogue, s: State, paidBy: PaymentMethod, r: Request, answer: GatewayAnswer)
    ensures var outcome := Open(cat, s, paidBy, r, answer);
            var free := IsAvailable(cat.reading, s.bookings, r.property, r.checkIn, r.checkOut);
            var ordered := free && LiesAhead(s, r) && HasGuests(r);
            var known := ordered && r.property in cat.properties && r.guest in cat.guests;
            && (outcome.Ok? <==> IsLetThrough(cat, s, r, answer))
            && (outcome == Err(DatesTaken) <==> !free)
            && (outcome == Err(CheckInNotInFuture) <==> free && r.checkIn <= s.clock)
            && (outcome == Err(CheckOutNotAfterCheckIn) <==> free && s.clock < r.checkIn && r.checkOut <= r.checkIn)
            && (outcome == Err(NoGuests) <==> free && LiesAhead(s, r) && !HasGuests(r))
            && (outcome == Err(UnknownProperty) <==> ordered && r.property !in cat.properties)
            && (outcome == Err(UnknownGuest) <==> ordered && r.property in cat.properties && r.guest !in cat.guests)
            && (outcome == Err(GatewayDeclined) <==> known && answer.Declined?)
            && (outcome == Err(CreditsNotWhole) <==> known && answer.Accepted? && AsksForAFraction(s, r))
  {
    AdmissionExactly(cat, s, r);
  }

  // ---------- What an opening stores ----------

  /** The nearest integer, halves up. */
  predicate IsNearest(n: int, x: real) {
    n as real - 0.5 <= x < n as real + 0.5
  }

  /** The money columns: the credits asked for when the balance covers them, and a total that adds up. */
  predicate StoresTheMoney(property: Property, s: State, r: Request, c: Charges) {
    var base := property.price * NumberOfNights(r.checkIn, r.checkOut);
    && c.credits == Some(if IsCovered(s, r) then r.credits.value.Value() else 0.0)
    && c.cautionFee == Some(match property.cautionFee case None => 0 case Some(fee) => fee)
    && IsNearest(c.transactionFee, 0.1 * base as real) && IsNearest(c.vat, 0.075 * base as real)
    && c.amount == (base + c.transactionFee + c.vat + c.cautionFee.value) as real - c.credits.value
  }

  /** The new row, with half an hour to pay. */
  predicate StoresTheRequest(
    cat: Catalogue, s: State, paidBy: PaymentMethod, r: Request, answer: GatewayAnswer, b: Booking) {
    && answer.Accepted? && r.property in cat.properties
    && var now := s.clock + answer.elapsed;
    && b.property == r.property && b.guest == r.guest && b.stay == Period(r.checkIn, r.checkOut)
    && b.status.Pending? && b.hold == Some(now + 1_800_000)
    && b.cryptoAddress == (if paidBy.Crypto? then answer.payAddress else "")
    && b.payment.host == cat.properties[r.property].host && b.payment.paidBy == paidBy && b.payment.status.Due?
    && b.payment.reference == answer.reference && b.payment.createdAt == now
    && StoresTheMoney(cat.properties[r.property], s, r, b.payment.charges)
  }

  /** The credits of a new row: a debit for positive stored credits, and two percent of the amount, rounded up. */
  predicate StoresTheCredits(rows: seq<Credit>, b: Booking) {
    var c := b.payment.charges;
    && c.credits.Some? && |rows| == (if c.credits.value > 0.0 then 2 else 1)
    && (c.credits.value > 0.0 ==>
          && rows[0] == Credit(b.guest, rows[0].amount, b.payment.reference, Unconfirmed, Outgoing)
          && rows[0].amount as real == -c.credits.value)
    && var earned := rows[|rows| - 1];
    && earned == Credit(b.guest, earned.amount, b.payment.reference, Unconfirmed, Incoming)
    && 0.02 * c.amount <= earned.amount as real < 0.02 * c.amount + 1.0
  }

  lemma {:induction false} QuoteStoresTheMoney(cat: Catalogue, s: State, r: Request)
    requires r.property in cat.properties
    ensures StoresTheMoney(cat.properties[r.property], s, r, QuoteRequest(cat, s, r).Stored())
  {
    var quote := QuoteRequest(cat, s, r);
    var base := cat.properties[r.property].price * NumberOfNights(r.checkIn, r.checkOut);
    assert quote.serviceFee == MathRound(0.1 * base as real) && quote.vat == MathRound(0.075 * base as real);
  }

  lemma {:induction false} OpenedRowStoresTheRequest(
    cat: Catalogue, s: State, paidBy: PaymentMethod, r: Request, answer: GatewayAnswer)
    requires Refusal(cat, s, r).None? && answer.Accepted?
    ensures StoresTheRequest(cat, s, paidBy, r, answer, OpenedBooking(cat, s, paidBy, r, answer))
  {
    QuoteStoresTheMoney(cat, s, r);
  }

  lemma {:induction false} OpenedCreditsAreStored(
    cat: Catalogue, s: State, paidBy: PaymentMethod, r: Request, answer: GatewayAnswer)
    requires Refusal(cat, s, r).None? && answer.Accepted? && !AsksForAFraction(s, r)
    ensures StoresTheCredits(OpenedCredits(cat, s, r, answer.reference), OpenedBooking(cat, s, paidBy, r, answer))
  {
    var quote := QuoteRequest(cat, s, r);
    assert quote.Stored().amount == quote.Total().Value();
    var used := quote.credits.Value();
    if used > 0.0 {
      assert IsWhole(used);
    }
  }

  /** Opening as a whole: which requests add a row, what it and its credits store, and that nothing else moves. */
  lemma {:induction false} OpeningExactly(
    cat: Catalogue, s: State, paidBy: PaymentMethod, r: Request, answer: GatewayAnswer)
    ensures var s' := Step(cat, s, Initialize(paidBy, r, answer));
            if IsLetThrough(cat, s, r, answer) then
              && |s'.bookings| == |s.bookings| + 1 && |s'.credits| > |s.credits|
              && var b := s'.bookings[|s.bookings|];
              && StoresTheRequest(cat, s, paidBy, r, answer, b)
              && StoresTheCredits(s'.credits[|s.credits|..], b)
              && s'.bookings[..|s.bookings|] == s.bookings && s'.credits[..|s.credits|] == s.credits
              && s'.withdrawals == s.withdrawals && s'.clock == s.clock + answer.elapsed
            else s' == s
  {
    RejectionsExactly(cat, s, paidBy, r, answer);
    if IsLetThrough(cat, s, r, answer) {
      OpenedRowStoresTheRequest(cat, s, paidBy, r, answer);
      OpenedCreditsAreStored(cat, s, paidBy, r, answer);
      var rows := OpenedCredits(cat, s, r, answer.reference);
      assert (s.credits + rows)[|s.credits|..] == rows;
    }
  }

  // ---------- Along a run ----------

  /** Step `t` opens row `i` for a request that is let through, and the row stores it. */
  predicate StoredAt(cat: Catalogue, states: seq<State>, events: seq<Event>, t: nat, i: nat) {
    && t < |events| && OpenedAt(states, t, i) && events[t].Initialize?
    && IsLetThrough(cat, states[t], events[t].request, events[t].answer)
    && var b := states[t + 1].bookings[i];
       StoresTheRequest(cat, states[t], events[t].paidBy, events[t].request, events[t].answer, b)
  }

  lemma {:induction false} OpenedRowIsStored(cat: Catalogue, states: seq<State>, events: seq<Event>, t: nat, i: nat)
    requires IsRun(cat, states, events) && OpenedAt(states, t, i)
    ensures StoredAt(cat, states, events, t, i)
  {
    TakeStep(cat, states, events, t);
    assert StepAt(cat, states, events, t);
    OpeningExactly(cat, states[t], events[t].paidBy, events[t].request, events[t].answer);
  }

  /** Every row of a run was opened once, and has kept what was stored then. */
  lemma {:induction false} EveryRowWasOpened(
    cat: Catalogue, states: seq<State>, events: seq<Event>, k: nat, i: nat) returns (t: nat)
    requires IsRun(cat, states, events) && k < |states| && i < |states[k].bookings|
    ensures t < k && StoredAt(cat, states, events, t, i)
    ensures SameBooking(states[t + 1].bookings[i], states[k].bookings[i])
  {
    TakeStep(cat, states, events, k - 1);
    if i < |states[k - 1].bookings| {
      t := EveryRowWasOpened(cat, states, events, k - 1, i);
    } else {
      t := k - 1;
      OpenedRowIsStored(cat, states, events, t, i);
    }
    RowsOnlyMoveForward(cat, states, events, t + 1, k, i);
  }

  /** In every state of every run the money columns of every booking add up, with the caution fee of its property. */
  lemma {:induction false} AmountsAddUp(cat: Catalogue, states: seq<State>, events: seq<Event>, k: nat, i: nat)
    requires IsRun(cat, states, events) && k < |states| && i < |states[k].bookings|
    ensures var b := states[k].bookings[i];
            && b.property in cat.properties && b.payment.charges.credits.Some?
            && var base := cat.properties[b.property].price * NumberOfNights(b.stay.checkIn, b.stay.checkOut);
            var fee := match cat.properties[b.property].cautionFee case None => 0 case Some(n) => n;
            var c := b.payment.charges;
            && c.cautionFee == Some(fee)
            && c.amount == (base + c.transactionFee + c.vat + fee) as real - c.credits.value
            && IsNearest(c.transactionFee, 0.1 * base as real) && IsNearest(c.vat, 0.075 * base as real)
  {
    var t := EveryRowWasOpened(cat, states, events, k, i);
  }

  /** No booking of a run stores more credits than its guest had confirmed when it was opened. */
  lemma {:induction false} StoredCreditsWereConfirmed(
    cat: Catalogue, states: seq<State>, events: seq<Event>, k: nat, i: nat) returns (t: nat)
    requires IsRun(cat, states, events) && k < |states| && i < |states[k].bookings|
    ensures t < k && OpenedAt(states, t, i)
    ensures var b := states[k].bookings[i];
            && b.payment.charges.credits.Some?
            && var stored, confirmed := b.payment.charges.credits.value, ConfirmedBalance(states[t].credits, b.guest);
            stored > 0.0 ==> stored <= confirmed as real
  {
    t := EveryRowWasOpened(cat, states, events, k, i);
  }

  /** The counts that move a balance are those of the stored columns. */
  lemma {:induction false} OpenedAmounts(cat: Catalogue, s: State, r: Request, c: Charges)
    requires r.property in cat.properties && StoresTheMoney(cat.properties[r.property], s, r, c)
    requires !AsksForAFraction(s, r)
    ensures UsedFor(s, r) as real == if c.credits.value > 0.0 then c.credits.value else 0.0
    ensures 0.02 * c.amount <= EarnedFor(cat, s, r) as real < 0.02 * c.amount + 1.0
  {
    var stored := QuoteRequest(cat, s, r).Stored();
    QuoteStoresTheMoney(cat, s, r);
    assert stored.transactionFee == c.transactionFee && stored.vat == c.vat;
  }

  /**
   * What a payment moves, in terms of the row: its first successful webhook
   * changes the confirmed balance of its guest by two percent of the amount,
   * rounded up, less the positive stored credits, and no other balance.
   */
  lemma {:induction false} PaymentMovesWhatIsStored(
    cat: Catalogue, states: seq<State>, events: seq<Event>, k: nat, m: nat, i: nat, user: Id)
    requires IsRun(cat, states, events) && OpenedAt(states, k, i) && UnpaidBetween(states, k, m, i) && m < |events|
    requires UniqueReferences(states[m].bookings) && i < |states[m].bookings|
    requires var reference := states[m].bookings[i].payment.reference;
             && reference != "" && events[m] == Webhook(reference, true)
             && forall t :: 0 <= t < m ==> AvoidsReference(events[t], reference)
    ensures var b := states[m].bookings[i];
            var moved := ConfirmedBalance(states[m + 1].credits, user) - ConfirmedBalance(states[m].credits, user);
            && b.payment.charges.credits.Some?
            && var c := b.payment.charges;
            var used := if c.credits.value > 0.0 then c.credits.value else 0.0;
            && (user == b.guest ==> 0.02 * c.amount - used <= moved as real < 0.02 * c.amount - used + 1.0)
            && (user != b.guest ==> moved == 0)
  {
    OpenedRowIsStored(cat, states, events, k, i);
    var r, reference := events[k].request, states[m].bookings[i].payment.reference;
    RowsOnlyMoveForward(cat, states, events, k + 1, m, i);
    PaidBookingMovesCredits(cat, states, events, k, m, i, r, reference, user);
    OpenedAmounts(cat, states[k], r, states[m].bookings[i].payment.charges);
  }
}
