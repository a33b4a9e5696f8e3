/** Runs that show where the guarantees end. */
module Limits {
  import opened Wrappers
  import opened Dates
  import opened Entities
  import opened Quotes
  import opened Availability
  import opened Tasks
  import opened Totals
  import opened Earnings
  import opened Credits
  import opened Machine
  import opened Lifecycle
  import opened Balances
  import opened CreditBalances
  import opened Openings

  function SmallCatalogue(): Catalogue {
    Catalogue(
      Grouped,
      map["flat" := Property("host", 100000, None), "room" := Property("landlord", 2000, None)],
      {"guest"})
  }

  // ---------- Building runs ----------

  lemma {:induction false} Append(cat: Catalogue, states: seq<State>, events: seq<Event>, e: Event, s': State)
    requires IsRun(cat, states, events) && s' == Step(cat, states[|events|], e)
    ensures IsRun(cat, states + [s'], events + [e])
  {
    forall k: nat | k < |events + [e]| ensures StepAt(cat, states + [s'], events + [e], k) {
      if k < |events| {
        assert StepAt(cat, states, events, k);
      }
    }
  }

  /** What an event makes of the row at place `i` of a table with unique references. */
  function RowAfter(e: Event, clock: Time, b: Booking, i: nat): Booking {
    match e
    case Webhook(reference, success) =>
      if reference != "" && b.payment.reference == reference
      then WithPayment(b, if success then Completed else Due) else b
    case PollCrypto(finished) =>
      if IsPolled(b) && b.payment.reference in finished then WithPayment(b, Completed) else b
    case CancelBooking(id) =>
      if id == i && !b.status.Cancelled? then b.(status := Cancelled) else b
    case RunCron(cron) => CronRow(cron, clock, b)
    case _ => b
  }

  lemma {:induction false} RowAfterIsNextRow(s: State, e: Event, i: nat)
    requires i < |s.bookings| && UniqueReferences(s.bookings)
    ensures NextRow(s, e, i) == RowAfter(e, s.clock, s.bookings[i], i)
  {
    match e
    case Webhook(reference, success) => WebhookSetsExactly(s, reference, success, i);
    case PollCrypto(finished) => PollerCompletesExactly(s, finished, i);
    case _ =>
  }

  /** Extends a run by an event that adds no row. */
  lemma {:induction false} Extend(cat: Catalogue, states: seq<State>, events: seq<Event>, e: Event, rows: seq<Booking>)
    returns (states': seq<State>, events': seq<Event>)
    requires IsRun(cat, states, events) && !e.Initialize? && !e.Withdraw?
    requires var s := states[|events|];
             && UniqueReferences(s.bookings) && |rows| == |s.bookings|
             && forall i :: 0 <= i < |rows| ==> rows[i] == RowAfter(e, s.clock, s.bookings[i], i)
    ensures IsRun(cat, states', events') && events' == events + [e] && states' == states + [states'[|events| + 1]]
    ensures var s, s' := states[|events|], states'[|events| + 1];
            && s'.bookings == rows && s'.withdrawals == s.withdrawals
            && s'.clock == if e.Tick? then s.clock + e.millis else s.clock
  {
    var s := states[|events|];
    var s' := Step(cat, s, e);
    StepFollows(cat, s, e);
    forall i | 0 <= i < |rows| ensures s'.bookings[i] == rows[i] {
      RowAfterIsNextRow(s, e, i);
    }
    assert s'.bookings == rows;
    states', events' := states + [s'], events + [e];
    Append(cat, states, events, e, s');
  }

  /** Extends a run by the webhook that pays row `i`. */
  lemma {:induction false} Pay(cat: Catalogue, states: seq<State>, events: seq<Event>, i: nat, reference: string)
    returns (states': seq<State>, events': seq<Event>)
    requires IsRun(cat, states, events) && reference != ""
    requires var s := states[|events|];
             UniqueReferences(s.bookings) && i < |s.bookings| && s.bookings[i].payment.reference == reference
    ensures IsRun(cat, states', events') && events' == events + [Webhook(reference, true)]
    ensures states' == states + [states'[|events| + 1]]
    ensures var s, s' := states[|events|], states'[|events| + 1];
            && s'.bookings == s.bookings[i := WithPayment(s.bookings[i], Completed)]
            && s'.withdrawals == s.withdrawals && s'.clock == s.clock
  {
    var rows := states[|events|].bookings;
    var paid := WithPayment(rows[i], Completed);
    states', events' := Extend(cat, states, events, Webhook(reference, true), rows[i := paid]);
  }

  /** Extends a run by a request that is let through. */
  lemma {:induction false} ExtendByOpening(cat: Catalogue, states: seq<State>, events: seq<Event>, e: Event)
    returns (states': seq<State>, events': seq<Event>)
    requires IsRun(cat, states, events)
    requires e.Initialize? && Open(cat, states[|events|], e.paidBy, e.request, e.answer).Ok?
    ensures IsRun(cat, states', events') && events' == events + [e] && states' == states + [states'[|events| + 1]]
    ensures var s, s' := states[|events|], states'[|events| + 1];
            && s'.bookings == s.bookings + [OpenedBooking(cat, s, e.paidBy, e.request, e.answer)]
            && s'.withdrawals == s.withdrawals && s'.clock == s.clock + e.answer.elapsed
  {
    var s' := Step(cat, states[|events|], e);
    states', events' := states + [s'], events + [e];
    Append(cat, states, events, e, s');
  }

  // ---------- One night in the flat ----------

  /** One night, starting a day after time zero. */
  function OneNight(): Request {
    Request("flat", "guest", None, DAY_IN_MILLIS, 2 * DAY_IN_MILLIS, 1, 0, 0)
  }

  /** The row that opening this stay at time zero leaves. */
  function Opened(paidBy: PaymentMethod, address: string): Booking {
    Booking("flat", "guest", Period(DAY_IN_MILLIS, 2 * DAY_IN_MILLIS), Pending, Some(HOLD_IN_MILLIS), address,
            Payment("host", paidBy, Due, Charges(117500.0, 10000, 7500, Some(0.0), Some(0)), "ref", 0))
  }

  function PaidFlat(): Booking {
    WithPayment(Opened(Card, ""), Completed)
  }

  lemma {:induction false} OpeningOneNight(paidBy: PaymentMethod, address: string)
    requires paidBy.Card? ==> address == ""
    requires !paidBy.Transfer?
    ensures Open(SmallCatalogue(), Start(0), paidBy, OneNight(), Accepted("ref", address, 0)).Ok?
    ensures OpenedBooking(SmallCatalogue(), Start(0), paidBy, OneNight(), Accepted("ref", address, 0))
            == Opened(paidBy, address)
  {
    var quote := QuoteRequest(SmallCatalogue(), Start(0), OneNight());
    assert NumberOfNights(DAY_IN_MILLIS, 2 * DAY_IN_MILLIS) == 1;
    assert Refusal(SmallCatalogue(), Start(0), OneNight()).None?;
    assert quote == Quote(100000, 10000, 7500, 0, Whole(0));
    assert quote.Total().Value() == 117500.0;
  }

  lemma {:induction false} RunOfOpening(paidBy: PaymentMethod, address: string)
    returns (states: seq<State>, events: seq<Event>)
    requires paidBy.Card? ==> address == ""
    requires !paidBy.Transfer?
    ensures IsRun(SmallCatalogue(), states, events) && states[0] == Start(0)
    ensures events == [Initialize(paidBy, OneNight(), Accepted("ref", address, 0))]
    ensures states[1].bookings == [Opened(paidBy, address)] && states[1].clock == 0 && states[1].withdrawals == []
  {
    OpeningOneNight(paidBy, address);
    states, events := ExtendByOpening(
      SmallCatalogue(), [Start(0)], [], Initialize(paidBy, OneNight(), Accepted("ref", address, 0)));
  }

  /** A polled payment that a failed webhook sets back to pending does not stop the hold from expiring. */
  lemma {:induction false} ReversalReopensExpiry() returns (states: seq<State>, events: seq<Event>)
    ensures IsRun(SmallCatalogue(), states, events) && |events| == 5
    ensures UniqueReferences(states[5].bookings)
    ensures PolledPaidAt(states, events, 1, 0) && ExpiresAt(states, events, 4, 0)
  {
    var b := Opened(Crypto, "address");
    states, events := RunOfOpening(Crypto, "address");
    states, events := Extend(SmallCatalogue(), states, events, PollCrypto({"ref"}), [WithPayment(b, Completed)]);
    states, events := Extend(SmallCatalogue(), states, events, Webhook("ref", false), [b]);
    states, events := Extend(SmallCatalogue(), states, events, Tick(HOLD_IN_MILLIS), [b]);
    var expired := b.(status := Cancelled, hold := None);
    states, events := Extend(SmallCatalogue(), states, events, RunCron(CancelCryptoBookings), [expired]);
  }

  /** The first booking of a run, opened without credits, is paid. */
  lemma {:induction false} FirstPayment(cat: Catalogue, states: seq<State>, events: seq<Event>, b: Booking, earned: int)
    requires IsRun(cat, states, events) && |events| == 2 && states[1].bookings == [b] && !b.Paid()
    requires events[0].Initialize? && events[1] == Webhook(b.payment.reference, true) && b.payment.reference != ""
    requires b.payment.charges.credits == Some(0.0) && 0.02 * b.payment.charges.amount == earned as real
    ensures ConfirmedBalance(states[2].credits, b.guest) == earned
  {
    assert ConfirmedBalance(states[0].credits, b.guest) == 0;
    assert StepAt(cat, states, events, 0);
    StepMovesCreditsExactly(cat, states[0], events[0], b.guest);
    PaymentMovesWhatIsStored(cat, states, events, 0, 1, 0, b.guest);
  }

  /** Paying for the flat confirms 2350 credits. */
  lemma {:induction false} RunOfPaidFlat() returns (states: seq<State>, events: seq<Event>)
    ensures IsRun(SmallCatalogue(), states, events) && |events| == 2 && states[0] == Start(0)
    ensures events[0].Initialize? && events[1].Webhook? && events[1].success
    ensures states[2].bookings == [PaidFlat()]
    ensures states[2].clock == 0 && states[2].withdrawals == []
    ensures ConfirmedBalance(states[2].credits, "guest") == 2350
  {
    var before, history := RunOfOpening(Card, "");
    states, events := Pay(SmallCatalogue(), before, history, 0, "ref");
    FirstPayment(SmallCatalogue(), states, events, Opened(Card, ""), 2350);
  }

  lemma {:induction false} FinishedNightIsEarned(s: State, b: Booking)
    requires b == PaidFlat().(status := Finished, hold := None)
    requires s.bookings == [b] && s.withdrawals == [] && s.clock == 2 * DAY_IN_MILLIS
    ensures Earned("host", s.clock)(b) == 98000.0 && Available(s, "host") == 98000.0
  {
    EarnedOnRow("host", s.clock, b);
    assert NetAmount(b.payment.charges) == 100000.0;
    assert NightsOf(b.stay) == 1 && NightsSoFar(b.stay, s.clock) == 1;
    AvailableIsEarnedLessTakenOut(s, "host");
    assert s.bookings[..0] == [];
  }

  lemma {:induction false} RunOfFinishedNight() returns (states: seq<State>, events: seq<Event>)
    ensures IsRun(SmallCatalogue(), states, events) && |events| == 4
    ensures states[4].bookings == [PaidFlat().(status := Finished, hold := None)]
    ensures states[4].withdrawals == [] && states[4].clock == 2 * DAY_IN_MILLIS
  {
    var paid := PaidFlat();
    states, events := RunOfPaidFlat();
    states, events := Extend(SmallCatalogue(), states, events, Tick(2 * DAY_IN_MILLIS), [paid]);
    var finished := paid.(status := Finished, hold := None);
    states, events := Extend(SmallCatalogue(), states, events, RunCron(FinishedBookings), [finished]);
  }

  lemma {:induction false} PayOut(cat: Catalogue, s: State) returns (paidOut: State)
    requires Available(s, "host") == 98000.0
    ensures TakeOut(s, "host", 90000.0).Ok? && paidOut == TakeOut(s, "host", 90000.0).value
    ensures paidOut == Step(cat, s, Withdraw("host", 90000.0))
    ensures paidOut.bookings == s.bookings && paidOut.clock == s.clock && Available(paidOut, "host") == 11226.0
  {
    WithdrawalEffect(s, "host", 90000.0, "host");
    paidOut := TakeOut(s, "host", 90000.0).value;
  }

  lemma {:induction false} OfficeShowsTheFinishedNight(s: State)
    requires s.bookings == [PaidFlat().(status := Finished, hold := None)]
    requires s.withdrawals == [] && s.clock == 2 * DAY_IN_MILLIS
    ensures ShownByOffice(s, "host", s.clock) == 98000.0
  {
    FinishedNightIsEarned(s, s.bookings[0]);
    OfficeDiffersExactly(s, "host", s.clock);
    TotalOfSign(s.bookings, UpcomingBefore("host", s.clock, s.clock));
    TotalOfSign(s.bookings, EarnedSince("host", s.clock, s.clock));
  }

  /** For a withdrawal that was accepted, the office shows what was there before it, and more than the wallet. */
  lemma {:induction false} OfficeLeavesOutTheRequest() returns (states: seq<State>, events: seq<Event>)
    ensures IsRun(SmallCatalogue(), states, events) && |events| == 5 && |states[5].withdrawals| == 1
    ensures Available(states[5], "host") == 11226.0
    ensures ShownByOffice(states[5], "host", states[5].withdrawals[0].createdAt) == 98000.0
  {
    var before, history := RunOfFinishedNight();
    FinishedNightIsEarned(before[4], before[4].bookings[0]);
    var paidOut := PayOut(SmallCatalogue(), before[4]);
    OfficeShowsTheFinishedNight(before[4]);
    OfficeAtTheRequest(before[4], "host", 90000.0);
    Append(SmallCatalogue(), before, history, Withdraw("host", 90000.0), paidOut);
    states, events := before + [paidOut], history + [Withdraw("host", 90000.0)];
  }

  /** Cancelling a stay that was paid out already drives the balance below zero. */
  lemma {:induction false} CancellationCanOverdraw() returns (states: seq<State>, events: seq<Event>)
    ensures IsRun(SmallCatalogue(), states, events) && |events| == 6
    ensures Available(states[5], "host") == 11226.0 && Available(states[6], "host") == -86774.0
  {
    var before, history := RunOfFinishedNight();
    FinishedNightIsEarned(before[4], before[4].bookings[0]);
    var paidOut := PayOut(SmallCatalogue(), before[4]);
    var cancelled := Step(SmallCatalogue(), paidOut, CancelBooking(0));
    TakingBackEffect(SmallCatalogue(), paidOut, CancelBooking(0), 0, "host");
    Append(SmallCatalogue(), before, history, Withdraw("host", 90000.0), paidOut);
    Append(SmallCatalogue(), before + [paidOut], history + [Withdraw("host", 90000.0)], CancelBooking(0), cancelled);
    states := before + [paidOut] + [cancelled];
    events := history + [Withdraw("host", 90000.0)] + [CancelBooking(0)];
  }

  // ---------- The room, paid with credits ----------

  /** One night in the room, for which all 2350 credits of the flat are asked for. */
  function NightOnCredits(day: nat): Request {
    Request("room", "guest", Some(Whole(2350)), day * DAY_IN_MILLIS, (day + 1) * DAY_IN_MILLIS, 1, 0, 0)
  }

  function OpenedRoom(day: nat, reference: string): Booking {
    Booking("room", "guest", Period(day * DAY_IN_MILLIS, (day + 1) * DAY_IN_MILLIS), Pending, Some(HOLD_IN_MILLIS), "",
            Payment("landlord", Card, Due, Charges(0.0, 200, 150, Some(2350.0), Some(0)), reference, 0))
  }

  lemma {:induction false} NightIsAdmitted(s: State, day: nat)
    requires s.clock == 0 && day >= 1
    requires forall i :: 0 <= i < |s.bookings| && s.bookings[i].property == "room" ==>
               s.bookings[i].stay.checkOut < day * DAY_IN_MILLIS
    ensures Refusal(SmallCatalogue(), s, NightOnCredits(day)).None?
  {
    AdmissionExactly(SmallCatalogue(), s, NightOnCredits(day));
  }

  lemma {:induction false} QuoteOnCredits()
    ensures QuoteFor(2000, 1, None, Whole(2350)).Stored() == Charges(0.0, 200, 150, Some(2350.0), Some(0))
  {
    var quote := QuoteFor(2000, 1, None, Whole(2350));
    assert quote == Quote(2000, 200, 150, 0, Whole(2350));
    assert quote.Total().Value() == 0.0;
  }

  lemma {:induction false} NightIsQuoted(s: State, day: nat)
    requires ConfirmedBalance(s.credits, "guest") == 2350
    ensures CreditsToApply(s, NightOnCredits(day)) == Whole(2350) && CanBeDebited(Whole(2350))
    ensures QuoteRequest(SmallCatalogue(), s, NightOnCredits(day)) == QuoteFor(2000, 1, None, Whole(2350))
  {
    assert NumberOfNights(day * DAY_IN_MILLIS, (day + 1) * DAY_IN_MILLIS) == 1;
    assert Whole(2350).Value() == 2350.0;
  }

  /** What a request opens, given its quote. */
  lemma {:induction false} OpensWith(
    cat: Catalogue, s: State, paidBy: PaymentMethod, r: Request, answer: GatewayAnswer, used: Decimal, c: Charges)
    requires Refusal(cat, s, r).None? && answer.Accepted?
    requires CreditsToApply(s, r) == used && CanBeDebited(used) && QuoteRequest(cat, s, r).Stored() == c
    ensures Open(cat, s, paidBy, r, answer).Ok?
    ensures var now := s.clock + answer.elapsed;
            OpenedBooking(cat, s, paidBy, r, answer)
            == Booking(r.property, r.guest, Period(r.checkIn, r.checkOut), Pending, Some(now + HOLD_IN_MILLIS),
                       if paidBy.Crypto? then answer.payAddress else "",
                       Payment(cat.properties[r.property].host, paidBy, Due, c, answer.reference, now))
  {
  }

  lemma {:induction false} OpeningOnCredits(s: State, day: nat, reference: string)
    requires s.clock == 0 && day >= 1 && ConfirmedBalance(s.credits, "guest") == 2350
    requires forall i :: 0 <= i < |s.bookings| && s.bookings[i].property == "room" ==>
               s.bookings[i].stay.checkOut < day * DAY_IN_MILLIS
    ensures Open(SmallCatalogue(), s, Card, NightOnCredits(day), Accepted(reference, "", 0)).Ok?
    ensures OpenedBooking(SmallCatalogue(), s, Card, NightOnCredits(day), Accepted(reference, "", 0))
            == OpenedRoom(day, reference)
  {
    var r, answer := NightOnCredits(day), Accepted(reference, "", 0);
    var c := Charges(0.0, 200, 150, Some(2350.0), Some(0));
    NightIsAdmitted(s, day);
    assert CreditsToApply(s, r) == Whole(2350) && CanBeDebited(Whole(2350))
           && QuoteRequest(SmallCatalogue(), s, r).Stored() == c by {
      NightIsQuoted(s, day);
      QuoteOnCredits();
    }
    OpensWith(SmallCatalogue(), s, Card, r, answer, Whole(2350), c);
  }

  /** Extends a run by such an opening; the confirmed credits stay where they are. */
  lemma {:induction false} ExtendOnCredits(states: seq<State>, events: seq<Event>, day: nat, reference: string)
    returns (states': seq<State>, events': seq<Event>)
    requires IsRun(SmallCatalogue(), states, events) && UniqueReferences(states[|events|].bookings) && day >= 1
    requires var s := states[|events|];
             && s.clock == 0 && ConfirmedBalance(s.credits, "guest") == 2350
             && forall i :: 0 <= i < |s.bookings| && s.bookings[i].property == "room" ==>
                  s.bookings[i].stay.checkOut < day * DAY_IN_MILLIS
    ensures events' == events + [Initialize(Card, NightOnCredits(day), Accepted(reference, "", 0))]
    ensures IsRun(SmallCatalogue(), states', events') && states' == states + [states'[|events| + 1]]
    ensures var s, s' := states[|events|], states'[|events| + 1];
            && s'.bookings == s.bookings + [OpenedRoom(day, reference)]
            && s'.clock == 0 && s'.withdrawals == s.withdrawals
            && ConfirmedBalance(s'.credits, "guest") == 2350
  {
    var e := Initialize(Card, NightOnCredits(day), Accepted(reference, "", 0));
    OpeningOnCredits(states[|events|], day, reference);
    StepMovesCreditsExactly(SmallCatalogue(), states[|events|], e, "guest");
    states', events' := ExtendByOpening(SmallCatalogue(), states, events, e);
    assert StepAt(SmallCatalogue(), states', events', |events|);
  }

  /** No transfer, no cancellation, no failed webhook. */
  predicate IsPlain(e: Event) {
    !e.TransferCredits? && !e.CancelBooking? && !(e.Webhook? && !e.success)
  }

  /** The flat is paid, and then the room is opened with all the credits earned. */
  lemma {:induction false} RunOfCredits() returns (states: seq<State>, events: seq<Event>)
    ensures IsRun(SmallCatalogue(), states, events) && |events| == 3 && forall t :: 0 <= t < 3 ==> IsPlain(events[t])
    ensures events[2] == Initialize(Card, NightOnCredits(1), Accepted("a", "", 0))
    ensures states[2].bookings == [PaidFlat()] && states[3].bookings == [PaidFlat(), OpenedRoom(1, "a")]
    ensures states[2].clock == states[3].clock == 0 && states[3].withdrawals == []
    ensures ConfirmedBalance(states[2].credits, "guest") == ConfirmedBalance(states[3].credits, "guest") == 2350
  {
    var before, history := RunOfPaidFlat();
    states, events := ExtendOnCredits(before, history, 1, "a");
  }

  lemma {:induction false} RoomHasANegativeNet(s: State, flat: Booking, room: Booking)
    requires s.bookings == [flat, room] && s.withdrawals == [] && s.clock == 2 * DAY_IN_MILLIS
    requires flat.payment.host == "host" && SameBooking(OpenedRoom(1, "a"), room) && room.Paid()
    ensures NetAmount(room.payment.charges) == -2700.0
    ensures Available(s, "landlord") == if IsEarningRow(room) then -2646.0 else 0.0
  {
    assert NightsOf(room.stay) == 1 && NightsSoFar(room.stay, s.clock) == 1;
    EarnedOnRow("landlord", s.clock, flat);
    EarnedOnRow("landlord", s.clock, room);
    AvailableIsEarnedLessTakenOut(s, "landlord");
    assert Total(s.bookings[..0], Earned("landlord", s.clock)) == 0.0;
    assert s.bookings[..1][..0] == s.bookings[..0];
    assert Total(s.bookings[..1], Earned("landlord", s.clock)) == 0.0;
  }

  /** The room is paid and its night goes by. */
  lemma {:induction false} RunOfPaidRoom() returns (states: seq<State>, events: seq<Event>)
    ensures IsRun(SmallCatalogue(), states, events) && |events| == 5 && forall t :: 0 <= t < 5 ==> IsPlain(events[t])
    ensures states[5].bookings == [PaidFlat(), WithPayment(OpenedRoom(1, "a"), Completed)]
    ensures states[5].clock == 2 * DAY_IN_MILLIS && states[5].withdrawals == []
  {
    var rows := [PaidFlat(), WithPayment(OpenedRoom(1, "a"), Completed)];
    states, events := RunOfCredits();
    states, events := Pay(SmallCatalogue(), states, events, 1, "a");
    states, events := Extend(SmallCatalogue(), states, events, Tick(2 * DAY_IN_MILLIS), rows);
  }

  /** With more credits than half the price, a stay costs its host money as it passes, though nothing is taken back. */
  lemma {:induction false} NegativeNetsGoNegative() returns (states: seq<State>, events: seq<Event>)
    ensures IsRun(SmallCatalogue(), states, events) && |events| == 6 && forall t :: 0 <= t < 6 ==> IsPlain(events[t])
    ensures !Overdraws(states[5], events[5], "landlord")
    ensures Available(states[5], "landlord") == 0.0 && Available(states[6], "landlord") == -2646.0
  {
    var before, history := RunOfPaidRoom();
    var flat, room := before[5].bookings[0], before[5].bookings[1];
    RoomHasANegativeNet(before[5], flat, room);
    var flat', room' := flat.(status := Finished, hold := None), room.(status := Finished, hold := None);
    states, events := Extend(SmallCatalogue(), before, history, RunCron(FinishedBookings), [flat', room']);
    RoomHasANegativeNet(states[6], flat', room');
  }

  /** Paying for the room, in whichever step, takes the credits. */
  lemma {:induction false} PaymentDebits(
    states: seq<State>, events: seq<Event>, k: nat, m: nat, i: nat, day: nat, reference: string)
    requires IsRun(SmallCatalogue(), states, events) && m < |events|
    requires OpenedAt(states, k, i) && UnpaidBetween(states, k, m, i) && UniqueReferences(states[m].bookings)
    requires i < |states[m].bookings| && states[m].bookings[i] == OpenedRoom(day, reference)
    requires events[m] == Webhook(reference, true) && reference != ""
    requires forall t :: 0 <= t < m ==> IsPlain(events[t])
    ensures ConfirmedBalance(states[m + 1].credits, "guest") == ConfirmedBalance(states[m].credits, "guest") - 2350
  {
    PaymentMovesWhatIsStored(SmallCatalogue(), states, events, k, m, i, "guest");
  }

  /** The room is opened for two different nights, each time with the same credits, before either is paid. */
  lemma {:induction false} RunOfTwoOpenings() returns (states: seq<State>, events: seq<Event>)
    ensures IsRun(SmallCatalogue(), states, events) && |events| == 4 && forall t :: 0 <= t < 4 ==> IsPlain(events[t])
    ensures events[2] == Initialize(Card, NightOnCredits(1), Accepted("a", "", 0))
    ensures events[3] == Initialize(Card, NightOnCredits(3), Accepted("b", "", 0))
    ensures states[2].bookings == [PaidFlat()] && states[3].bookings == [PaidFlat(), OpenedRoom(1, "a")]
    ensures states[4].bookings == [PaidFlat(), OpenedRoom(1, "a"), OpenedRoom(3, "b")]
    ensures states[2].clock == states[3].clock == 0
    ensures ConfirmedBalance(states[2].credits, "guest") == ConfirmedBalance(states[3].credits, "guest") == 2350
    ensures ConfirmedBalance(states[4].credits, "guest") == 2350
  {
    var before, history := RunOfCredits();
    states, events := ExtendOnCredits(before, history, 3, "b");
  }

  lemma {:induction false} PaySecondRoom(before: seq<State>, history: seq<Event>)
    returns (states: seq<State>, events: seq<Event>)
    requires IsRun(SmallCatalogue(), before, history) && |history| == 5
    requires forall t :: 0 <= t < 5 ==> IsPlain(history[t])
    requires history[3] == Initialize(Card, NightOnCredits(3), Accepted("b", "", 0))
    requires before[3].bookings == [PaidFlat(), OpenedRoom(1, "a")] && before[3].clock == 0
    requires before[4].bookings == [PaidFlat(), OpenedRoom(1, "a"), OpenedRoom(3, "b")]
    requires before[5].bookings == [PaidFlat(), WithPayment(OpenedRoom(1, "a"), Completed), OpenedRoom(3, "b")]
    requires ConfirmedBalance(before[3].credits, "guest") == 2350 && ConfirmedBalance(before[5].credits, "guest") == 0
    ensures IsRun(SmallCatalogue(), states, events) && events == history + [Webhook("b", true)]
    ensures states == before + [states[6]] && UniqueReferences(states[6].bookings)
    ensures ConfirmedBalance(states[6].credits, "guest") == -2350
  {
    states, events := Pay(SmallCatalogue(), before, history, 2, "b");
    PaymentDebits(states, events, 3, 5, 2, 3, "b");
  }

  /** Both nights are paid. The credits were there once and are taken twice. */
  lemma {:induction false} CreditsAreSpentTwice() returns (states: seq<State>, events: seq<Event>)
    ensures IsRun(SmallCatalogue(), states, events) && |events| == 6
    ensures UniqueReferences(states[6].bookings)
    ensures ConfirmedBalance(states[4].credits, "guest") == 2350
    ensures ConfirmedBalance(states[5].credits, "guest") == 0
    ensures ConfirmedBalance(states[6].credits, "guest") == -2350
  {
    var before, history := RunOfTwoOpenings();
    states, events := Pay(SmallCatalogue(), before, history, 1, "a");
    PaymentDebits(states, events, 2, 4, 1, 1, "a");
    states, events := PaySecondRoom(states, events);
  }
}
