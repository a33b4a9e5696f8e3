/**
 * The services themselves: tables that requests and crons update in place.
 * Every operation is proved to take the step of the state machine that bears
 * its name, so what holds of every run holds of every use of this class.
 */
module Platform {
  import opened Wrappers
  import opened Dates
  import opened Entities
  import opened Quotes
  import opened Totals
  import opened Availability
  import opened Tasks
  import opened Earnings
  import opened Credits
  import opened Machine

  class Sojourn {
    const catalogue: Catalogue
    var clock: Time
    var bookings: seq<Booking>
    var withdrawals: seq<Withdrawal>
    var credits: seq<Credit>

    function View(): State
      reads this
    {
      State(clock, bookings, withdrawals, credits)
    }

    constructor (catalogue: Catalogue, now: Time)
      ensures this.catalogue == catalogue && View() == Start(now)
    {
      this.catalogue := catalogue;
      clock, bookings, withdrawals, credits := now, [], [], [];
    }

    // ---------- src/repositories/credits.repository.ts ----------

    method GetTotalSojournCreditsByUserId(user: Id) returns (total: int)
      ensures total == ConfirmedBalance(credits, user)
    {
      var results := Select(credits, ConfirmedFor(user));
      var fetched := new Credit[|results|](i requires 0 <= i < |results| => results[i]);
      assert fetched[..] == results;
      total := CalculateTotalCredits(fetched);
    }

    // ---------- src/payments/payments.service.ts ----------

    /** The credits asked for when the balance covers them, and none otherwise. */
    method GetCreditsToApply(dto: Request) returns (creditsToApply: Decimal)
      ensures creditsToApply == CreditsToApply(View(), dto)
    {
      var totalSojournCredits := GetTotalSojournCreditsByUserId(dto.guest);
      creditsToApply := Whole(0);
      if dto.credits.Some? && dto.credits.value.Value() <= totalSojournCredits as real {
        creditsToApply := dto.credits.value;
      }
    }

    /** Appends the debit for the applied credits, when there are any, and the two percent earned. */
    method AddOpeningCredits(guest: Id, creditsToApply: Decimal, amount: Decimal, reference: string)
      requires CanBeDebited(creditsToApply)
      modifies this`credits
      ensures credits
              == old(credits)
                 + OpeningRows(guest, creditsToApply.Value().Floor, MathCeil(0.02 * amount.Value()), reference)
    {
      ghost var before := credits;
      var used, earned := creditsToApply.Value(), MathCeil(0.02 * amount.Value());
      if used > 0.0 {
        credits := credits + [Credit(guest, -used.Floor, reference, Unconfirmed, Outgoing)];
      }
      credits := credits + [Credit(guest, earned, reference, Unconfirmed, Incoming)];
      assert credits == before + OpeningRows(guest, used.Floor, earned, reference);
    }

    /** The guards, in order; the first one that fails answers the request. */
    method CheckRequest(dto: Request) returns (rejection: Option<Rejection>)
      ensures rejection == Refusal(catalogue, View(), dto)
    {
      if !IsAvailable(catalogue.reading, bookings, dto.property, dto.checkIn, dto.checkOut) {
        return Some(DatesTaken);
      }
      if !(NumberOfNights(clock, dto.checkIn) >= 1) {
        return Some(CheckInNotInFuture);
      }
      if !(dto.checkOut > dto.checkIn) {
        return Some(CheckOutNotAfterCheckIn);
      }
      if !(NumberOfNights(dto.checkIn, dto.checkOut) >= 1) {
        return Some(StayTooShort);
      }
      var numberOfGuests := dto.adults + dto.children + dto.children;
      if numberOfGuests < 1 {
        return Some(NoGuests);
      }
      if dto.property !in catalogue.properties {
        return Some(UnknownProperty);
      }
      if dto.guest !in catalogue.guests {
        return Some(UnknownGuest);
      }
      return None;
    }

    /** The total to charge and the money columns to store. */
    method PriceStay(property: Property, nights: int, creditsToApply: Decimal)
      returns (amount: Decimal, charges: Charges)
      ensures amount == QuoteFor(property.price, nights, property.cautionFee, creditsToApply).Total()
      ensures charges == QuoteFor(property.price, nights, property.cautionFee, creditsToApply).Stored()
    {
      var serviceFee := MathRound(10.0 / 100.0 * (property.price * nights) as real);
      var vat := MathRound(7.5 / 100.0 * (property.price * nights) as real);
      amount := Minus(property.price * nights + serviceFee + Or(property.cautionFee, 0) + vat, creditsToApply);
      charges := Charges(
        amount.Value(), serviceFee, vat, Some(creditsToApply.Value()), Some(Or(property.cautionFee, 0)));
    }

    /** The rows of an accepted request: booking, payment, credits. */
    method CreateBooking(
      paidBy: PaymentMethod, dto: Request, answer: GatewayAnswer,
      amount: Decimal, charges: Charges, creditsToApply: Decimal)
      requires Refusal(catalogue, View(), dto).None? && answer.Accepted? && CanBeDebited(creditsToApply)
      requires creditsToApply == CreditsToApply(View(), dto)
      requires amount == QuoteRequest(catalogue, View(), dto).Total()
      requires charges == QuoteRequest(catalogue, View(), dto).Stored()
      modifies this
      ensures View() == old(View()).(
                        clock := old(clock) + answer.elapsed,
                        bookings := old(bookings) + [OpenedBooking(catalogue, old(View()), paidBy, dto, answer)],
                        credits := old(credits) + OpenedCredits(catalogue, old(View()), dto, answer.reference))
    {
      var property := catalogue.properties[dto.property];
      clock := clock + answer.elapsed;
      var payment := Payment(property.host, paidBy, Due, charges, answer.reference, clock);
      var address := if paidBy.Crypto? then answer.payAddress else "";
      var stay: Stay := Period(dto.checkIn, dto.checkOut);
      var holdingWindow := clock + HOLD_IN_MILLIS;
      bookings := bookings + [Booking(dto.property, dto.guest, stay, Pending, Some(holdingWindow), address, payment)];
      AddOpeningCredits(dto.guest, creditsToApply, amount, answer.reference);
    }

    /** `sent` is the amount the card gateway is asked to charge. */
    method InitializeTransaction(paidBy: PaymentMethod, dto: Request, answer: GatewayAnswer)
      returns (r: Result<nat, Rejection>, sent: Decimal)
      modifies this
      ensures View() == Step(catalogue, old(View()), Initialize(paidBy, dto, answer))
      ensures match Open(catalogue, old(View()), paidBy, dto, answer)
              case Ok(_) => r == Ok(old(|bookings|)) && |bookings| == old(|bookings|) + 1
              case Err(rejection) => r == Err(rejection) && View() == old(View())
      ensures r.Ok? && paidBy.Card? ==>
                && r.value < |bookings|
                && var amount := bookings[r.value].payment.charges.amount;
                   sent.Value() == if IsWhole(amount) then 100.0 * amount else amount
    {
      sent := Whole(0);
      var rejection := CheckRequest(dto);
      if rejection.Some? {
        return Err(rejection.value), sent;
      }
      var property := catalogue.properties[dto.property];

      var creditsToApply := GetCreditsToApply(dto);
      var nights := NumberOfNights(dto.checkIn, dto.checkOut);
      var amount, charges := PriceStay(property, nights, creditsToApply);

      if paidBy.Card? {
        sent := AmountToSend(amount);
      }
      if answer.Declined? {
        return Err(GatewayDeclined), sent;
      }
      // The insertion of the debit fails on a fraction, and the interceptor takes all of it back.
      if creditsToApply.Value() > 0.0 && !IsWhole(creditsToApply.Value()) {
        return Err(CreditsNotWhole), sent;
      }
      CreateBooking(paidBy, dto, answer, amount, charges, creditsToApply);
      return Ok(|bookings| - 1), sent;
    }

    method GetPaymentByReference(reference: string) returns (found: Option<nat>)
      ensures found.None? <==> !HasReference(bookings, reference)
      ensures found.Some? ==> IsFirstWithReference(bookings, reference, found.value)
    {
      for i := 0 to |bookings|
        invariant forall j :: 0 <= j < i ==> bookings[j].payment.reference != reference
      {
        if bookings[i].payment.reference == reference {
          return Some(i);
        }
      }
      return None;
    }

    method MarkCredits(reference: string, status: CreditStatus)
      modifies this`credits
      ensures credits == MarkAll(old(credits), reference, status)
    {
      var sojournCredits := credits;
      for i := 0 to |sojournCredits|
        invariant |credits| == |sojournCredits|
        invariant forall j :: 0 <= j < i ==> credits[j] == MarkAll(sojournCredits, reference, status)[j]
        invariant forall j :: i <= j < |credits| ==> credits[j] == sojournCredits[j]
      {
        if sojournCredits[i].reference == reference {
          credits := credits[i := sojournCredits[i].(status := status)];
        }
      }
      assert credits == MarkAll(sojournCredits, reference, status);
    }

    /** `subscribed`: the customer has a subscription, which a delivery for no known payment renews. */
    method UpdatePayment(reference: string, success: bool, subscribed: bool) returns (flag: bool)
      modifies this
      ensures View() == Step(catalogue, old(View()), Webhook(reference, success))
      ensures flag <==> if reference != "" && HasReference(old(bookings), reference) then success else subscribed
    {
      ghost var s := View();
      var transaction := GetPaymentByReference(reference);
      flag := false;
      if transaction.Some? && reference != "" {
        var id := transaction.value;
        var status, creditStatus := Due, Unconfirmed;
        if success {
          status, creditStatus := Completed, Confirmed;
          flag := true;
        }
        bookings := bookings[id := WithPayment(bookings[id], status)];
        assert bookings == NextRows(s, Webhook(reference, success)) by {
          assert forall i :: IsFirstWithReference(s.bookings, reference, i) ==> i == id;
        }
        MarkCredits(reference, creditStatus);
      } else if subscribed {
        flag := true;
      }
    }

    // ---------- src/bookings/bookings.service.ts ----------

    /** Only the status is written: the hold stays. */
    method CancelBooking(id: nat) returns (r: Result<(), Rejection>)
      modifies this`bookings
      ensures View() == Step(catalogue, old(View()), Event.CancelBooking(id))
      ensures r == if id >= |old(bookings)| then Err(UnknownBooking)
                   else if old(bookings)[id].status.Cancelled? then Err(AlreadyCancelled) else Ok(())
    {
      ghost var s := View();
      r := Ok(());
      if id >= |bookings| {
        r := Err(UnknownBooking);
      } else if bookings[id].status.Cancelled? {
        r := Err(AlreadyCancelled);
      } else {
        bookings := bookings[id := bookings[id].(status := Cancelled)];
      }
      assert bookings == NextRows(s, Event.CancelBooking(id));
    }

    // ---------- src/tasks/tasks.service.ts ----------

    method HandleBookingsInProgress()
      modifies this`bookings
      ensures View() == Step(catalogue, old(View()), RunCron(BookingsInProgress))
    {
      var fetched := bookings;
      for i := 0 to |fetched|
        invariant |bookings| == |fetched|
        invariant forall j :: 0 <= j < i ==> bookings[j] == CronRow(BookingsInProgress, clock, fetched[j])
        invariant forall j :: i <= j < |fetched| ==> bookings[j] == fetched[j]
      {
        var booking := fetched[i];
        if booking.payment.status.Completed? {
          if booking.stay.checkIn <= clock && booking.stay.checkOut > clock && !booking.status.Cancelled? {
            booking := booking.(status := Processing).(hold := None);
            bookings := bookings[i := booking];
          } else if booking.stay.checkIn > clock && !booking.status.Cancelled? {
            booking := booking.(status := PaidPending).(hold := None);
            bookings := bookings[i := booking];
          }
        }
      }
      assert bookings == NextRows(old(View()), RunCron(BookingsInProgress));
    }

    method HandleFinishedBookings()
      modifies this`bookings
      ensures View() == Step(catalogue, old(View()), RunCron(FinishedBookings))
    {
      var fetched := bookings;
      for i := 0 to |fetched|
        invariant |bookings| == |fetched|
        invariant forall j :: 0 <= j < i ==> bookings[j] == CronRow(FinishedBookings, clock, fetched[j])
        invariant forall j :: i <= j < |fetched| ==> bookings[j] == fetched[j]
      {
        var booking := fetched[i];
        if booking.payment.status.Completed? {
          if clock >= booking.stay.checkOut && !booking.status.Cancelled? {
            booking := booking.(hold := None).(status := Finished);
            bookings := bookings[i := booking];
          }
        }
      }
      assert bookings == NextRows(old(View()), RunCron(FinishedBookings));
    }

    method HandleCancelBookings()
      modifies this`bookings
      ensures View() == Step(catalogue, old(View()), RunCron(CancelBookings))
    {
      var fetched := bookings;
      for i := 0 to |fetched|
        invariant |bookings| == |fetched|
        invariant forall j :: 0 <= j < i ==> bookings[j] == CronRow(CancelBookings, clock, fetched[j])
        invariant forall j :: i <= j < |fetched| ==> bookings[j] == fetched[j]
      {
        var booking := fetched[i];
        if booking.status.Pending? {
          if booking.hold.None? || booking.payment.status.Completed? || booking.cryptoAddress != "" {
            continue;
          }
          if booking.hold.value <= clock {
            booking := booking.(status := Cancelled).(hold := None);
            bookings := bookings[i := booking];
          }
        }
      }
      assert bookings == NextRows(old(View()), RunCron(CancelBookings));
    }

    method HandleCancelCryptoBookings()
      modifies this`bookings
      ensures View() == Step(catalogue, old(View()), RunCron(CancelCryptoBookings))
    {
      var fetched := bookings;
      for i := 0 to |fetched|
        invariant |bookings| == |fetched|
        invariant forall j :: 0 <= j < i ==> bookings[j] == CronRow(CancelCryptoBookings, clock, fetched[j])
        invariant forall j :: i <= j < |fetched| ==> bookings[j] == fetched[j]
      {
        var booking := fetched[i];
        if booking.status.Pending? {
          if booking.hold.None? || booking.payment.status.Completed? || booking.cryptoAddress == "" {
            continue;
          }
          if booking.hold.value <= clock {
            booking := booking.(status := Cancelled).(hold := None);
            bookings := bookings[i := booking];
          }
        }
      }
      assert bookings == NextRows(old(View()), RunCron(CancelCryptoBookings));
    }

    lemma {:induction false} PolledOneMore(rows: seq<Booking>, finished: set<string>, n: nat)
      requires n < |rows|
      ensures forall i: nat :: PolledTo(rows, finished, n + 1, i) <==>
                || PolledTo(rows, finished, n, i)
                || (IsPolled(rows[n]) && rows[n].payment.reference in finished
                    && IsFirstWithReference(rows, rows[n].payment.reference, i))
    {
    }

    /** Payment status has no part in a lookup by reference. */
    lemma {:induction false} FirstIsUnmoved(before: seq<Booking>, after: seq<Booking>, reference: string)
      requires |before| == |after|
      requires forall i :: 0 <= i < |before| ==> after[i].payment.reference == before[i].payment.reference
      ensures HasReference(before, reference) ==> HasReference(after, reference)
      ensures forall i :: IsFirstWithReference(before, reference, i) <==> IsFirstWithReference(after, reference, i)
    {
      if HasReference(before, reference) {
        var i :| 0 <= i < |before| && before[i].payment.reference == reference;
        assert after[i].payment.reference == reference;
      }
    }

    /** `finished` holds the payment ids that the crypto gateway reports as finished. */
    method HandleUpdateCryptoPaymentsToPaid(finished: set<string>)
      modifies this`bookings
      ensures View() == Step(catalogue, old(View()), PollCrypto(finished))
    {
      var transactions := bookings;
      for n := 0 to |transactions|
        invariant |bookings| == |transactions|
        invariant forall i :: 0 <= i < |bookings| ==>
                    bookings[i] == if PolledTo(transactions, finished, n, i)
                                   then WithPayment(transactions[i], Completed) else transactions[i]
      {
        var t := transactions[n];
        PolledOneMore(transactions, finished, n);
        if t.payment.paidBy.Crypto? && t.payment.status.Due? && t.hold.Some? {
          if t.payment.reference in finished {
            var payment := GetPaymentByReference(t.payment.reference);
            FirstIsUnmoved(transactions, bookings, t.payment.reference);
            assert HasReference(transactions, t.payment.reference);
            bookings := bookings[payment.value := WithPayment(bookings[payment.value], Completed)];
          }
        }
      }
      assert bookings == NextRows(old(View()), PollCrypto(finished));
    }

    method ConfirmCredits(fulfilled: seq<string>, hints: Hints)
      modifies this`credits
      ensures credits == ConfirmEach(old(credits), fulfilled, hints)
    {
      ghost var before := credits;
      for i := 0 to |fulfilled|
        invariant credits == ConfirmEach(before, fulfilled[..i], hints)
      {
        assert fulfilled[..i + 1][..i] == fulfilled[..i];
        var sc := FindOneOpen(credits, fulfilled[i], HintFor(hints, fulfilled[i]));
        if sc.Some? {
          credits := credits[sc.value := credits[sc.value].(status := Confirmed)];
        }
      }
      assert fulfilled[..|fulfilled|] == fulfilled;
    }

    method HandleUpdatePayments(hints: Hints)
      modifies this`credits
      ensures View() == Step(catalogue, old(View()), UpdatePayments(hints))
    {
      ConfirmCredits(CompletedReferences(bookings), hints);
    }

    // ---------- src/wallet/wallet.service.ts ----------

    method Withdraw(host: Id, amount: real) returns (r: Result<nat, Rejection>)
      modifies this`withdrawals
      ensures View() == Step(catalogue, old(View()), Event.Withdraw(host, amount))
      ensures match TakeOut(old(View()), host, amount)
              case Ok(_) => r == Ok(old(|withdrawals|)) && |withdrawals| == old(|withdrawals|) + 1
              case Err(rejection) => r == Err(rejection) && View() == old(View())
    {
      var balances := ApplyWithdrawals(Ledger(View(), host), clock);
      ghost var ledger := Ledger(View(), host);
      assert forall i :: 0 <= i < |ledger| && IsDeposit(ledger[i]) ==> ledger[i].booking.Some?;
      var gross := if amount < 0.0 then -amount else amount;
      var vat := MathRound(0.075 * WITHDRAWAL_FEE as real);
      if gross <= 0.0 {
        return Err(AmountNotPositive);
      }
      if gross <= WITHDRAWAL_FEE as real + vat as real {
        return Err(AmountBelowFees);
      }
      var totalRequired := gross + WITHDRAWAL_FEE as real + vat as real;
      if balances.value.availableBalance < totalRequired {
        return Err(AmountExceedsBalance);
      }
      var netPayout := gross - WITHDRAWAL_FEE as real - vat as real;
      var stored := Charges(-Abs(netPayout), WITHDRAWAL_FEE, vat, None, None);
      withdrawals := withdrawals + [Withdrawal(host, stored, clock)];
      return Ok(|withdrawals| - 1);
    }

    method TransferSojournCredits(sender: Id, to: string, recipient: Option<Id>, amount: Decimal)
      returns (r: Result<(), Rejection>)
      modifies this`credits
      ensures View() == Step(catalogue, old(View()), TransferCredits(sender, to, recipient, amount))
      ensures match SendCredits(catalogue, old(View()), sender, to, recipient, amount)
              case Ok(_) => r == Ok(())
              case Err(rejection) => r == Err(rejection) && View() == old(View())
    {
      if recipient.None? {
        return Err(UnknownRecipient);
      }
      if sender !in catalogue.guests {
        return Err(UnknownGuest);
      }
      var totalSojournCredits := GetTotalSojournCreditsByUserId(sender);
      if totalSojournCredits <= 0 {
        return Err(EmptyCreditBalance);
      }
      if amount.Value() > totalSojournCredits as real {
        return Err(CreditBalanceTooLow);
      }
      // The insertion of the debit fails on a fraction, before anything is written.
      if !IsWhole(amount.Value()) {
        return Err(CreditsNotWhole);
      }
      ghost var before := credits;
      var moved := amount.Value().Floor;
      credits := credits + [Credit(sender, -moved, to, Unconfirmed, Outgoing)];
      credits := credits + [Credit(recipient.value, moved, sender, Unconfirmed, Incoming)];
      assert credits == before + TransferRows(sender, to, recipient.value, moved);
      return Ok(());
    }

    /** Time goes by between two operations. */
    method Pass(millis: nat)
      modifies this`clock
      ensures View() == Step(catalogue, old(View()), Tick(millis))
    {
      clock := clock + millis;
    }
  }
}
