/**
 * The whole platform as one state machine. A request, a webhook delivery and a
 * cron pass are each one step; a step that the source answers with an error
 * leaves the tables as they were, because its transaction is rolled back.
 * What foreign services answer is part of the event.
 */
module Machine {
  import opened Wrappers
  import opened Dates
  import opened Entities
  import opened Quotes
  import opened Totals
  import opened Availability
  import opened Tasks
  import opened Earnings
  import opened Credits

  const HOLD_IN_MILLIS: int := 30 * 60000
  const WITHDRAWAL_FEE: int := 1500

  function WithdrawalVat(): int {
    MathRound(0.075 * WITHDRAWAL_FEE as real)
  }

  /** What does not change during a run. */
  datatype Catalogue = Catalogue(reading: WhereReading, properties: map<Id, Property>, guests: set<Id>)

  datatype State = State(clock: Time, bookings: seq<Booking>, withdrawals: seq<Withdrawal>, credits: seq<Credit>)

  datatype Request = Request(
    property: Id,
    guest: Id,
    credits: Option<Decimal>,
    checkIn: Time,
    checkOut: Time,
    adults: int,
    children: int,
    infants: int)

  /** The payment gateway refuses, or accepts after some time with a reference (and an address to pay to). */
  datatype GatewayAnswer = Declined | Accepted(reference: string, payAddress: string, elapsed: nat)

  datatype Rejection =
    | DatesTaken | CheckInNotInFuture | CheckOutNotAfterCheckIn | StayTooShort | NoGuests
    | UnknownProperty | UnknownGuest | GatewayDeclined | CreditsNotWhole
    | UnknownBooking | AlreadyCancelled
    | AmountNotPositive | AmountBelowFees | AmountExceedsBalance
    | UnknownRecipient | EmptyCreditBalance | CreditBalanceTooLow

  datatype Event =
    | Initialize(paidBy: PaymentMethod, request: Request, answer: GatewayAnswer)
    | Webhook(reference: string, success: bool)
    | PollCrypto(finished: set<string>)
    | CancelBooking(id: nat)
    | RunCron(cron: StatusCron)
    | UpdatePayments(hints: Hints)
    | Tick(millis: nat)
    | Withdraw(host: Id, amount: real)
    | TransferCredits(sender: Id, to: string, recipient: Option<Id>, creditAmount: Decimal)

  // ---------- Opening a booking ----------

  /** The first guard that turns the request away, in the order in which they are tested. */
  function Refusal(cat: Catalogue, s: State, r: Request): Option<Rejection> {
    if !IsAvailable(cat.reading, s.bookings, r.property, r.checkIn, r.checkOut) then Some(DatesTaken)
    else if NumberOfNights(s.clock, r.checkIn) < 1 then Some(CheckInNotInFuture)
    else if !(r.checkOut > r.checkIn) then Some(CheckOutNotAfterCheckIn)
    else if NumberOfNights(r.checkIn, r.checkOut) < 1 then Some(StayTooShort)
    else if r.adults + r.children + r.children < 1 then Some(NoGuests)
    else if r.property !in cat.properties then Some(UnknownProperty)
    else if r.guest !in cat.guests then Some(UnknownGuest)
    else None
  }

  /** A request passes all guards exactly when it lies ahead, in order, free, with guests that count, and known. */
  lemma {:induction false} AdmissionExactly(cat: Catalogue, s: State, r: Request)
    ensures Refusal(cat, s, r).None? <==>
              && IsAvailable(cat.reading, s.bookings, r.property, r.checkIn, r.checkOut)
              && s.clock < r.checkIn < r.checkOut
              && r.adults + 2 * r.children >= 1
              && r.property in cat.properties && r.guest in cat.guests
    ensures Refusal(cat, s, r) != Some(StayTooShort)
  {
  }

  /** Credits are applied as asked for, or not at all. */
  function CreditsToApply(s: State, r: Request): Decimal {
    match r.credits
    case None => Whole(0)
    case Some(asked) => if asked.Value() <= ConfirmedBalance(s.credits, r.guest) as real then asked else Whole(0)
  }

  /** Applied credits become the amount of a credit row, which the database keeps in an integer column. */
  predicate CanBeDebited(creditsToApply: Decimal) {
    creditsToApply.Value() > 0.0 ==> IsWhole(creditsToApply.Value())
  }

  function QuoteRequest(cat: Catalogue, s: State, r: Request): Quote
    requires r.property in cat.properties
  {
    var property := cat.properties[r.property];
    QuoteFor(property.price, NumberOfNights(r.checkIn, r.checkOut), property.cautionFee, CreditsToApply(s, r))
  }

  function OpenedBooking(cat: Catalogue, s: State, paidBy: PaymentMethod, r: Request, answer: GatewayAnswer): Booking
    requires Refusal(cat, s, r).None? && answer.Accepted?
  {
    var createdAt := s.clock + answer.elapsed;
    var charges := QuoteRequest(cat, s, r).Stored();
    var payment := Payment(cat.properties[r.property].host, paidBy, Due, charges, answer.reference, createdAt);
    Booking(r.property, r.guest, Period(r.checkIn, r.checkOut), Pending, Some(createdAt + HOLD_IN_MILLIS),
            if paidBy.Crypto? then answer.payAddress else "", payment)
  }

  function OpenedCredits(cat: Catalogue, s: State, r: Request, reference: string): seq<Credit>
    requires r.property in cat.properties
  {
    var quote := QuoteRequest(cat, s, r);
    OpeningRows(r.guest, quote.credits.Value().Floor, quote.CreditsEarned(), reference)
  }

  function Open(cat: Catalogue, s: State, paidBy: PaymentMethod, r: Request, answer: GatewayAnswer)
    : Result<State, Rejection>
  {
    match Refusal(cat, s, r)
    case Some(rejection) => Err(rejection)
    case None =>
      if answer.Declined? then Err(GatewayDeclined)
      else if !CanBeDebited(CreditsToApply(s, r)) then Err(CreditsNotWhole)
      else Ok(s.(clock := s.clock + answer.elapsed,
                 bookings := s.bookings + [OpenedBooking(cat, s, paidBy, r, answer)],
                 credits := s.credits + OpenedCredits(cat, s, r, answer.reference)))
  }

  /** The net price of an opened booking; it is negative exactly when the applied credits exceed half the base price. */
  lemma {:induction false} OpenedNet(cat: Catalogue, s: State, paidBy: PaymentMethod, r: Request, answer: GatewayAnswer)
    requires Refusal(cat, s, r).None? && answer.Accepted?
    ensures var base := cat.properties[r.property].price * NumberOfNights(r.checkIn, r.checkOut);
            var net := NetAmount(OpenedBooking(cat, s, paidBy, r, answer).payment.charges);
            var used := CreditsToApply(s, r).Value();
            net == base as real - 2.0 * used && (net < 0.0 <==> 2.0 * used > base as real)
  {
    var property := cat.properties[r.property];
    NettingInvertsQuoting(
      property.price, NumberOfNights(r.checkIn, r.checkOut), property.cautionFee, CreditsToApply(s, r));
  }

  // ---------- Payments ----------

  /** The row that a lookup by payment reference finds. */
  predicate IsFirstWithReference(bookings: seq<Booking>, reference: string, i: int) {
    && 0 <= i < |bookings| && bookings[i].payment.reference == reference
    && forall j :: 0 <= j < i ==> bookings[j].payment.reference != reference
  }

  predicate HasReference(bookings: seq<Booking>, reference: string) {
    exists i :: 0 <= i < |bookings| && bookings[i].payment.reference == reference
  }

  /** The poller asks the crypto gateway about this row. */
  predicate IsPolled(b: Booking) {
    b.payment.paidBy.Crypto? && b.payment.status.Due? && b.hold.Some?
  }

  /** One of the first `n` rows is polled, is reported finished and leads to row `i`. */
  predicate PolledTo(bookings: seq<Booking>, finished: set<string>, n: nat, i: nat)
    requires n <= |bookings|
  {
    exists j :: 0 <= j < n && IsPolled(bookings[j]) && bookings[j].payment.reference in finished
                && IsFirstWithReference(bookings, bookings[j].payment.reference, i)
  }

  function WithPayment(b: Booking, status: PaymentStatus): Booking {
    b.(payment := b.payment.(status := status))
  }

  function IsPaid(): Booking -> bool {
    (b: Booking) => b.Paid()
  }

  function ReferenceOf(): Booking -> string {
    (b: Booking) => b.payment.reference
  }

  function CompletedReferences(bookings: seq<Booking>): seq<string> {
    Map(Select(bookings, IsPaid()), ReferenceOf())
  }

  // ---------- Rows ----------

  /** What an event makes of an existing booking row. */
  function NextRow(s: State, e: Event, i: nat): Booking
    requires i < |s.bookings|
  {
    var b := s.bookings[i];
    match e
    case Webhook(reference, success) =>
      if reference != "" && IsFirstWithReference(s.bookings, reference, i)
      then WithPayment(b, if success then Completed else Due) else b
    case PollCrypto(finished) =>
      if PolledTo(s.bookings, finished, |s.bookings|, i) then WithPayment(b, Completed) else b
    case CancelBooking(id) =>
      if id == i && !b.status.Cancelled? then b.(status := Cancelled) else b
    case RunCron(cron) => CronRow(cron, s.clock, b)
    case _ => b
  }

  function NextRows(s: State, e: Event): (rows: seq<Booking>)
    ensures |rows| == |s.bookings|
    ensures forall i :: 0 <= i < |rows| ==> rows[i] == NextRow(s, e, i)
  {
    seq(|s.bookings|, i requires 0 <= i < |s.bookings| => NextRow(s, e, i))
  }

  // ---------- Wallets ----------

  function LedgerOfBooking(b: Booking): LedgerRow {
    var booking := LedgerBooking(b.status, b.stay, true);
    LedgerRow(BookingPayment, b.payment.status, b.payment.charges, Some(booking), b.payment.createdAt)
  }

  function LedgerOfWithdrawal(w: Withdrawal): LedgerRow {
    LedgerRow(WithdrawalPayment, Due, w.charges, None, w.createdAt)
  }

  function HostedBy(host: Id): Booking -> bool {
    (b: Booking) => b.payment.host == host
  }

  function WithdrawnBy(host: Id): Withdrawal -> bool {
    (w: Withdrawal) => w.host == host
  }

  /** The payments joined to the wallet of a host. */
  function Ledger(s: State, host: Id): seq<LedgerRow> {
    Map(Select(s.bookings, HostedBy(host)), LedgerOfBooking)
    + Map(Select(s.withdrawals, WithdrawnBy(host)), LedgerOfWithdrawal)
  }

  function Available(s: State, host: Id): real {
    AvailableBalance(Ledger(s, host), s.clock)
  }

  function Abs(x: real): real {
    if x < 0.0 then -x else x
  }

  function StoredWithdrawal(gross: real): Charges {
    Charges(-Abs(gross - WITHDRAWAL_FEE as real - WithdrawalVat() as real), WITHDRAWAL_FEE, WithdrawalVat(), None, None)
  }

  function TakeOut(s: State, host: Id, amount: real): Result<State, Rejection> {
    var gross := Abs(amount);
    var fees := WITHDRAWAL_FEE as real + WithdrawalVat() as real;
    if gross <= 0.0 then Err(AmountNotPositive)
    else if gross <= fees then Err(AmountBelowFees)
    else if Available(s, host) < gross + fees then Err(AmountExceedsBalance)
    else Ok(s.(withdrawals := s.withdrawals + [Withdrawal(host, StoredWithdrawal(gross), s.clock)]))
  }

  function SendCredits(cat: Catalogue, s: State, sender: Id, to: string, recipient: Option<Id>, amount: Decimal)
    : Result<State, Rejection>
  {
    if recipient.None? then Err(UnknownRecipient)
    else if sender !in cat.guests then Err(UnknownGuest)
    else if ConfirmedBalance(s.credits, sender) <= 0 then Err(EmptyCreditBalance)
    else if amount.Value() > ConfirmedBalance(s.credits, sender) as real then Err(CreditBalanceTooLow)
    else if !IsWhole(amount.Value()) then Err(CreditsNotWhole)
    else Ok(s.(credits := s.credits + TransferRows(sender, to, recipient.value, amount.Value().Floor)))
  }

  // ---------- Steps and runs ----------

  function OrUnchanged(s: State, r: Result<State, Rejection>): State {
    match r
    case Ok(s') => s'
    case Err(_) => s
  }

  function Step(cat: Catalogue, s: State, e: Event): State {
    match e
    case Initialize(paidBy, request, answer) => OrUnchanged(s, Open(cat, s, paidBy, request, answer))
    case Withdraw(host, amount) => OrUnchanged(s, TakeOut(s, host, amount))
    case TransferCredits(sender, to, recipient, amount) =>
      OrUnchanged(s, SendCredits(cat, s, sender, to, recipient, amount))
    case UpdatePayments(hints) => s.(credits := ConfirmEach(s.credits, CompletedReferences(s.bookings), hints))
    case Tick(millis) => s.(clock := s.clock + millis)
    case Webhook(reference, success) =>
      if reference != "" && HasReference(s.bookings, reference)
      then s.(bookings := NextRows(s, e),
              credits := MarkAll(s.credits, reference, if success then Confirmed else Unconfirmed))
      else s
    case _ => s.(bookings := NextRows(s, e))
  }

  /** The time after a step. */
  function ClockAfter(cat: Catalogue, s: State, e: Event): Time {
    match e
    case Tick(millis) => s.clock + millis
    case Initialize(paidBy, request, answer) =>
      if Open(cat, s, paidBy, request, answer).Ok? then s.clock + answer.elapsed else s.clock
    case _ => s.clock
  }

  /** The platform opens with empty tables. */
  function Start(clock: Time): State {
    State(clock, [], [], [])
  }

  predicate StepAt(cat: Catalogue, states: seq<State>, events: seq<Event>, k: nat)
    requires k < |events| && k + 1 < |states|
  {
    states[k + 1] == Step(cat, states[k], events[k])
  }

  /** Each state follows from the one before by its event. */
  ghost predicate IsStretch(cat: Catalogue, states: seq<State>, events: seq<Event>) {
    |states| == |events| + 1 && forall k: nat :: k < |events| ==> StepAt(cat, states, events, k)
  }

  /** The states of a run, from opening to the state after the last event. */
  ghost predicate IsRun(cat: Catalogue, states: seq<State>, events: seq<Event>) {
    IsStretch(cat, states, events) && states[0] == Start(states[0].clock)
  }

  /**
   * What a step does to the tables, short of the credits: rows never leave,
   * an existing row becomes what `NextRow` says, and a row is added only for
   * a request that was admitted and accepted.
   */
  ghost predicate Follows(cat: Catalogue, s: State, e: Event, s': State) {
    && |s.bookings| <= |s'.bookings| <= |s.bookings| + 1
    && (forall i :: 0 <= i < |s.bookings| ==> s'.bookings[i] == NextRow(s, e, i))
    && s.clock <= s'.clock == ClockAfter(cat, s, e)
    && (|s'.bookings| > |s.bookings| ==>
          && e.Initialize? && e.answer.Accepted? && Refusal(cat, s, e.request).None?
          && s'.bookings[|s.bookings|] == OpenedBooking(cat, s, e.paidBy, e.request, e.answer)
          && s'.clock == s.clock + e.answer.elapsed)
    && (!e.Withdraw? ==> s'.withdrawals == s.withdrawals)
  }

  lemma {:induction false} OpeningFollows(cat: Catalogue, s: State, e: Event)
    requires e.Initialize?
    ensures Follows(cat, s, e, Step(cat, s, e))
  {
  }

  lemma {:induction false} StepFollows(cat: Catalogue, s: State, e: Event)
    ensures Follows(cat, s, e, Step(cat, s, e))
  {
    if e.Initialize? {
      OpeningFollows(cat, s, e);
    }
  }

  /** One step of a stretch. */
  lemma {:induction false} TakeStep(cat: Catalogue, states: seq<State>, events: seq<Event>, k: nat)
    requires IsStretch(cat, states, events) && k < |events|
    ensures Follows(cat, states[k], events[k], states[k + 1])
  {
    assert StepAt(cat, states, events, k);
    StepFollows(cat, states[k], events[k]);
  }
}
