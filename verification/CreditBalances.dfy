/** What every run of the platform keeps about a guest's confirmed balance of credits. */
module CreditBalances {
  import opened Wrappers
  import opened Entities
  import opened Quotes
  import opened Totals
  import opened Credits
  import opened Machine
  import opened Lifecycle
  import opened Confirmation

  // ---------- Balances as sums over the table of credits ----------

  function ConfirmedOf(user: Id): Credit -> real {
    (c: Credit) => if c.user == user && c.status.Confirmed? then c.amount as real else 0.0
  }

  lemma {:induction false} BalanceIsTotal(credits: seq<Credit>, user: Id)
    ensures ConfirmedBalance(credits, user) as real == Total(credits, ConfirmedOf(user))
  {
    if credits != [] {
      var init, last := credits[..|credits| - 1], credits[|credits| - 1];
      BalanceIsTotal(init, user);
      SumAfterAppending(init, last, ConfirmedFor(user));
      assert credits == init + [last];
    }
  }

  /** The open credits of a payment that belong to a user. */
  function OpenUnder(reference: string, user: Id): Credit -> real {
    (c: Credit) => if IsOpen(c, reference) && c.user == user then c.amount as real else 0.0
  }

  function ConfirmedUnder(reference: string, user: Id): Credit -> real {
    (c: Credit) => if c.reference == reference then ConfirmedOf(user)(c) else 0.0
  }

  /** The credit of `user` that the confirming cron picks for a reference. */
  function PickedBy(credits: seq<Credit>, hints: Hints, user: Id): string -> real {
    (reference: string) =>
      match FindOneOpen(credits, reference, HintFor(hints, reference))
      case None => 0.0
      case Some(i) => if credits[i].user == user then credits[i].amount as real else 0.0
  }

  // ---------- The exact effect of a step ----------

  lemma {:induction false} MarkingMovesBalances(credits: seq<Credit>, reference: string, status: CreditStatus, user: Id)
    ensures Total(MarkAll(credits, reference, status), ConfirmedOf(user))
            == Total(credits, ConfirmedOf(user))
               + if status.Confirmed? then Total(credits, OpenUnder(reference, user))
                 else -Total(credits, ConfirmedUnder(reference, user))
  {
    var marked := MarkAll(credits, reference, status);
    if status.Confirmed? {
      var both := (c: Credit) => ConfirmedOf(user)(c) + OpenUnder(reference, user)(c);
      TotalPlus(credits, both, ConfirmedOf(user), OpenUnder(reference, user));
      TotalSame(credits, both, marked, ConfirmedOf(user));
    } else {
      var left := (c: Credit) => if c.reference == reference then 0.0 else ConfirmedOf(user)(c);
      TotalPlus(credits, ConfirmedOf(user), left, ConfirmedUnder(reference, user));
      TotalSame(credits, left, marked, ConfirmedOf(user));
    }
  }

  lemma {:induction false} LastOpenIsStable(credits: seq<Credit>, credits': seq<Credit>, reference: string)
    requires |credits| == |credits'|
    requires forall i :: 0 <= i < |credits| ==> (IsOpen(credits'[i], reference) <==> IsOpen(credits[i], reference))
    ensures LastOpen(credits', reference) == LastOpen(credits, reference)
  {
    if credits != [] {
      LastOpenIsStable(credits[..|credits| - 1], credits'[..|credits| - 1], reference);
    }
  }

  lemma {:induction false} PickMovesBalances(
    credits: seq<Credit>, between: seq<Credit>, reference: string, hints: Hints, user: Id)
    requires |credits| == |between|
    requires forall i :: 0 <= i < |credits| ==> (IsOpen(between[i], reference) <==> IsOpen(credits[i], reference))
    requires forall i :: 0 <= i < |credits| && IsOpen(credits[i], reference) ==> between[i] == credits[i]
    ensures Total(ConfirmOne(between, reference, hints), ConfirmedOf(user))
            == Total(between, ConfirmedOf(user)) + PickedBy(credits, hints, user)(reference)
  {
    LastOpenIsStable(credits, between, reference);
    match FindOneOpen(between, reference, HintFor(hints, reference))
    case None =>
    case Some(i) =>
      TotalReplaced(between, ConfirmOne(between, reference, hints), ConfirmedOf(user), i);
  }

  lemma {:induction false} PassMovesBalances(credits: seq<Credit>, references: seq<string>, hints: Hints, user: Id)
    requires Distinct(references)
    ensures Total(ConfirmEach(credits, references, hints), ConfirmedOf(user))
            == Total(credits, ConfirmedOf(user)) + Total(references, PickedBy(credits, hints, user))
  {
    if references != [] {
      var init, last := references[..|references| - 1], references[|references| - 1];
      PassMovesBalances(credits, init, hints, user);
      OnePassConfirmsOneEach(credits, init, hints);
      assert last !in init;
      PickMovesBalances(credits, ConfirmEach(credits, init, hints), last, hints, user);
    }
  }

  lemma {:induction false} OpenRowsMoveNothing(credits: seq<Credit>, rows: seq<Credit>, user: Id)
    requires forall i :: 0 <= i < |rows| ==> rows[i].status.Unconfirmed?
    ensures Total(credits + rows, ConfirmedOf(user)) == Total(credits, ConfirmedOf(user))
  {
    TotalConcat(credits, rows, ConfirmedOf(user));
    TotalOfSign(rows, ConfirmedOf(user));
  }

  lemma {:induction false} NewCreditsMoveNothing(cat: Catalogue, s: State, e: Event, s': State, user: Id)
    requires CreditsFollow(cat, s, e, s') && !e.Webhook? && !e.UpdatePayments?
    ensures Total(s'.credits, ConfirmedOf(user)) == Total(s.credits, ConfirmedOf(user))
  {
    var rows := s'.credits[|s.credits|..];
    assert s'.credits == s.credits + rows;
    OpenRowsMoveNothing(s.credits, rows, user);
  }

  /** What a step adds to the confirmed balance of a user. */
  function CreditChange(s: State, e: Event, user: Id): real {
    match e
    case Webhook(reference, success) =>
      if reference == "" || !HasReference(s.bookings, reference) then 0.0
      else if success then Total(s.credits, OpenUnder(reference, user))
      else -Total(s.credits, ConfirmedUnder(reference, user))
    case UpdatePayments(hints) => Total(CompletedReferences(s.bookings), PickedBy(s.credits, hints, user))
    case _ => 0.0
  }

  /**
   * A confirmed balance moves by webhooks and by the confirming cron only, and by
   * exactly the credits they confirm or take back; so a step leads below zero
   * exactly when the balance does not cover them.
   */
  lemma {:induction false} StepMovesCreditsExactly(cat: Catalogue, s: State, e: Event, user: Id)
    requires UniqueReferences(s.bookings)
    ensures ConfirmedBalance(Step(cat, s, e).credits, user) as real
            == ConfirmedBalance(s.credits, user) as real + CreditChange(s, e, user)
  {
    BalanceIsTotal(s.credits, user);
    BalanceIsTotal(Step(cat, s, e).credits, user);
    match e
    case Webhook(reference, success) =>
      MarkingMovesBalances(s.credits, reference, if success then Confirmed else Unconfirmed, user);
    case UpdatePayments(hints) =>
      CompletedReferencesAreDistinct(s.bookings);
      PassMovesBalances(s.credits, CompletedReferences(s.bookings), hints, user);
    case _ =>
      StepFollowsOnCredits(cat, s, e);
      NewCreditsMoveNothing(cat, s, e, Step(cat, s, e), user);
  }

  /** The balance does not cover what the event takes from it. */
  predicate Overspends(s: State, e: Event, user: Id) {
    ConfirmedBalance(s.credits, user) as real + CreditChange(s, e, user) < 0.0
  }

  /** Along a run, the balance is never negative exactly when no event overspends. */
  lemma {:induction false} NeverNegativeExactly(
    cat: Catalogue, states: seq<State>, events: seq<Event>, n: nat, user: Id)
    requires IsRun(cat, states, events) && n < |states| && UniqueReferences(states[n].bookings)
    ensures (forall k :: 0 <= k <= n ==> ConfirmedBalance(states[k].credits, user) >= 0)
            <==> forall k :: 0 <= k < n ==> !Overspends(states[k], events[k], user)
  {
    forall k | 0 <= k < n
      ensures ConfirmedBalance(states[k + 1].credits, user) >= 0 <==> !Overspends(states[k], events[k], user)
    {
      UniqueReferencesGoBack(cat, states, events, k, n);
      assert StepAt(cat, states, events, k);
      StepMovesCreditsExactly(cat, states[k], events[k], user);
    }
    if forall k :: 0 <= k <= n ==> ConfirmedBalance(states[k].credits, user) >= 0 {
      forall k | 0 <= k < n ensures !Overspends(states[k], events[k], user) {
        assert ConfirmedBalance(states[k + 1].credits, user) >= 0;
      }
    } else if k :| 0 <= k <= n && ConfirmedBalance(states[k].credits, user) < 0 {
      assert k > 0 && Overspends(states[k - 1], events[k - 1], user);
    }
  }

  // ---------- Transfers ----------

  /**
   * A transfer as a whole. It takes a known recipient, a sender who is a guest and
   * whose own confirmed balance is positive and covers the amount, and a whole
   * amount; it then appends a debit of the sender and a credit of the recipient,
   * both unconfirmed, and moves nothing else.
   */
  lemma {:induction false} TransferExactly(
    cat: Catalogue, s: State, sender: Id, to: string, recipient: Option<Id>, amount: Decimal)
    ensures var balance := ConfirmedBalance(s.credits, sender);
            Step(cat, s, TransferCredits(sender, to, recipient, amount))
            == if recipient.Some? && sender in cat.guests && balance > 0 && amount.Value() <= balance as real
                  && IsWhole(amount.Value())
               then s.(credits := s.credits
                                  + [Credit(sender, -amount.Value().Floor, to, Unconfirmed, Outgoing)]
                                  + [Credit(recipient.value, amount.Value().Floor, sender, Unconfirmed, Incoming)])
               else s
    ensures var balance := ConfirmedBalance(s.credits, sender);
            var outcome := SendCredits(cat, s, sender, to, recipient, amount);
            var known := recipient.Some? && sender in cat.guests;
            && (outcome == Err(UnknownRecipient) <==> recipient.None?)
            && (outcome == Err(UnknownGuest) <==> recipient.Some? && sender !in cat.guests)
            && (outcome == Err(EmptyCreditBalance) <==> known && balance <= 0)
            && (outcome == Err(CreditBalanceTooLow) <==> known && 0 < balance && amount.Value() > balance as real)
            && (outcome == Err(CreditsNotWhole)
                <==> known && 0 < balance && amount.Value() <= balance as real && !IsWhole(amount.Value()))
  {
  }

  // ---------- What a paid booking moves ----------

  /** Every credit of the reference waits for its payment. */
  predicate AllOpen(credits: seq<Credit>, reference: string) {
    forall i :: 0 <= i < |credits| && credits[i].reference == reference ==> credits[i].status.Unconfirmed?
  }

  /** While row `i` is unpaid, no step touches the credits of its payment. */
  lemma {:induction false} OpenCreditsStay(cat: Catalogue, s: State, e: Event, s': State, i: nat)
    requires s' == Step(cat, s, e) && i < |s.bookings| && i < |s'.bookings|
    requires UniqueReferences(s.bookings) && UniqueReferences(s'.bookings)
    requires !s.bookings[i].Paid() && !s'.bookings[i].Paid()
    requires AllOpen(s.credits, s.bookings[i].payment.reference)
    ensures |s.credits| <= |s'.credits|
    ensures forall j :: 0 <= j < |s.credits| ==>
              s'.credits[j] == if s.credits[j].reference == s.bookings[i].payment.reference
                               then s.credits[j] else s.credits[j].(status := s'.credits[j].status)
  {
    StepFollows(cat, s, e);
    StepFollowsOnCredits(cat, s, e);
    match e
    case Webhook(reference, success) =>
      WebhookSetsExactly(s, reference, success, i);
    case UpdatePayments(hints) =>
      OnePassOnThePlatform(cat, s, hints);
      CompletedExactlyWhenPaid(s.bookings, i);
    case _ =>
  }

  lemma {:induction false} NewCreditsAreForeign(cat: Catalogue, s: State, e: Event, s': State, i: nat, j: nat)
    requires Follows(cat, s, e, s') && CreditsFollow(cat, s, e, s') && i < |s.bookings| && UniqueReferences(s'.bookings)
    requires AvoidsReference(e, s.bookings[i].payment.reference)
    requires |s.credits| <= j < |s'.credits|
    ensures s'.credits[j].reference != s.bookings[i].payment.reference
  {
    if e.Initialize? {
      assert s'.bookings[i].payment.reference != s'.bookings[|s.bookings|].payment.reference;
    }
  }

  lemma {:induction false} SameOpenTotal(before: seq<Credit>, after: seq<Credit>, reference: string, user: Id)
    requires |before| <= |after|
    requires forall j :: 0 <= j < |before| ==>
               after[j] == before[j] || (after[j].reference != reference && before[j].reference != reference)
    requires forall j :: |before| <= j < |after| ==> after[j].reference != reference
    ensures AllOpen(before, reference) ==> AllOpen(after, reference)
    ensures Total(after, OpenUnder(reference, user)) == Total(before, OpenUnder(reference, user))
  {
    var n := |before|;
    TotalSame(before, OpenUnder(reference, user), after[..n], OpenUnder(reference, user));
    TotalConcat(after[..n], after[n..], OpenUnder(reference, user));
    TotalOfSign(after[n..], OpenUnder(reference, user));
    assert after == after[..n] + after[n..];
  }

  lemma {:induction false} OpenTotalStays(cat: Catalogue, s: State, e: Event, s': State, i: nat, user: Id)
    requires s' == Step(cat, s, e) && i < |s.bookings| && i < |s'.bookings|
    requires UniqueReferences(s.bookings) && UniqueReferences(s'.bookings)
    requires !s.bookings[i].Paid() && !s'.bookings[i].Paid()
    requires AllOpen(s.credits, s.bookings[i].payment.reference) && AvoidsReference(e, s.bookings[i].payment.reference)
    ensures var r := s.bookings[i].payment.reference;
            AllOpen(s'.credits, r) && Total(s'.credits, OpenUnder(r, user)) == Total(s.credits, OpenUnder(r, user))
  {
    OpenCreditsStay(cat, s, e, s', i);
    forall j | |s.credits| <= j < |s'.credits| ensures s'.credits[j].reference != s.bookings[i].payment.reference {
      StepFollows(cat, s, e);
      StepFollowsOnCredits(cat, s, e);
      NewCreditsAreForeign(cat, s, e, s', i, j);
    }
    SameOpenTotal(s.credits, s'.credits, s.bookings[i].payment.reference, user);
  }

  function Positive(x: int): nat {
    if x > 0 then x else 0
  }

  /** The credits that a request used, and that its booking earned, as they are stored. */
  function UsedFor(s: State, r: Request): nat {
    Positive(CreditsToApply(s, r).Value().Floor)
  }

  function EarnedFor(cat: Catalogue, s: State, r: Request): int
    requires r.property in cat.properties
  {
    QuoteRequest(cat, s, r).CreditsEarned()
  }

  lemma {:induction false} TotalOfTwo(rows: seq<Credit>, f: Credit -> real)
    requires 1 <= |rows| <= 2
    ensures Total(rows, f) == f(rows[0]) + if |rows| == 2 then f(rows[1]) else 0.0
  {
    assert Total(rows[..0], f) == 0.0;
    assert rows[..1][..0] == rows[..0];
    assert |rows| == 1 ==> rows == rows[..1];
  }

  /** Step `k` opens row `i` for the request `r` and under the reference that the gateway gives out. */
  predicate OpenedFor(
    cat: Catalogue, states: seq<State>, events: seq<Event>, k: nat, i: nat, r: Request, reference: string) {
    && OpenedAt(states, k, i) && k < |events|
    && events[k].Initialize? && events[k].request == r && r.property in cat.properties
    && events[k].answer.Accepted? && events[k].answer.reference == reference != ""
  }

  lemma {:induction false} OpeningRowsTotal(guest: Id, used: int, earned: int, reference: string, user: Id)
    ensures Total(OpeningRows(guest, used, earned, reference), OpenUnder(reference, user))
            == if user == guest then (earned - Positive(used)) as real else 0.0
  {
    TotalOfTwo(OpeningRows(guest, used, earned, reference), OpenUnder(reference, user));
  }

  lemma {:induction false} AppendedToNone(credits: seq<Credit>, rows: seq<Credit>, reference: string, user: Id)
    requires Count(credits, CreditWith(reference)) == 0 && AllOpen(rows, reference)
    ensures AllOpen(credits + rows, reference)
    ensures Total(credits + rows, OpenUnder(reference, user)) == Total(rows, OpenUnder(reference, user))
  {
    CountIsZeroExactly(credits, CreditWith(reference));
    assert forall i :: 0 <= i < |credits| ==> !CreditWith(reference)(credits[i]);
    TotalConcat(credits, rows, OpenUnder(reference, user));
    TotalOfSign(credits, OpenUnder(reference, user));
  }

  lemma {:induction false} OpenedTotal(cat: Catalogue, s: State, r: Request, reference: string, user: Id)
    requires r.property in cat.properties && Count(s.credits, CreditWith(reference)) == 0
    ensures AllOpen(s.credits + OpenedCredits(cat, s, r, reference), reference)
    ensures Total(s.credits + OpenedCredits(cat, s, r, reference), OpenUnder(reference, user))
            == if user == r.guest then (EarnedFor(cat, s, r) - UsedFor(s, r)) as real else 0.0
  {
    AppendedToNone(s.credits, OpenedCredits(cat, s, r, reference), reference, user);
    OpeningRowsTotal(r.guest, CreditsToApply(s, r).Value().Floor, EarnedFor(cat, s, r), reference, user);
  }

  lemma {:induction false} NoCreditBeforeOpening(
    cat: Catalogue, states: seq<State>, events: seq<Event>, k: nat, i: nat, r: Request, reference: string)
    requires IsRun(cat, states, events) && OpenedFor(cat, states, events, k, i, r, reference)
    requires UniqueReferences(states[k + 1].bookings)
    requires forall t :: 0 <= t < k ==> AvoidsReference(events[t], reference)
    ensures Count(states[k].credits, CreditWith(reference)) == 0
  {
    TakeStep(cat, states, events, k);
    AtMostTwoCreditsPerPayment(cat, states, events, k, reference);
    forall j | 0 <= j < |states[k].bookings| ensures states[k].bookings[j].payment.reference != reference {
      assert states[k + 1].bookings[j].payment.reference != states[k + 1].bookings[i].payment.reference;
    }
    CountIsZeroExactly(states[k].bookings, BookingWith(reference));
  }

  /** Between opening and payment, the credits of the booking wait with the amounts they were given. */
  predicate CreditsWait(cat: Catalogue, opening: State, r: Request, s: State, reference: string, user: Id) {
    && r.property in cat.properties && AllOpen(s.credits, reference)
    && Total(s.credits, OpenUnder(reference, user))
       == if user == r.guest then (EarnedFor(cat, opening, r) - UsedFor(opening, r)) as real else 0.0
  }

  lemma {:induction false} OpeningStep(cat: Catalogue, s: State, e: Event, s': State)
    requires s' == Step(cat, s, e) && |s'.bookings| > |s.bookings|
    requires e.Initialize? && e.request.property in cat.properties
    ensures e.answer.Accepted? && s'.credits == s.credits + OpenedCredits(cat, s, e.request, e.answer.reference)
    ensures s'.bookings[|s.bookings|].payment.reference == e.answer.reference
  {
  }

  lemma {:induction false} CreditsWaitAtFirst(
    cat: Catalogue, states: seq<State>, events: seq<Event>, k: nat, i: nat, r: Request, reference: string, user: Id)
    requires IsRun(cat, states, events) && OpenedFor(cat, states, events, k, i, r, reference)
    requires UniqueReferences(states[k + 1].bookings)
    requires forall t :: 0 <= t < k ==> AvoidsReference(events[t], reference)
    ensures states[k + 1].bookings[i].payment.reference == reference
    ensures CreditsWait(cat, states[k], r, states[k + 1], reference, user)
  {
    assert StepAt(cat, states, events, k);
    OpeningStep(cat, states[k], events[k], states[k + 1]);
    NoCreditBeforeOpening(cat, states, events, k, i, r, reference);
    OpenedTotal(cat, states[k], r, reference, user);
  }

  lemma {:induction false} CreditsWaitOn(
    cat: Catalogue, states: seq<State>, events: seq<Event>, k: nat, m: nat, i: nat,
    r: Request, reference: string, user: Id)
    requires IsRun(cat, states, events) && OpenedFor(cat, states, events, k, i, r, reference)
    requires UnpaidBetween(states, k, m, i) && UniqueReferences(states[m].bookings)
    requires forall t :: 0 <= t < m ==> AvoidsReference(events[t], reference)
    ensures i < |states[m].bookings| && states[m].bookings[i].payment.reference == reference
    ensures CreditsWait(cat, states[k], r, states[m], reference, user)
  {
    UniqueReferencesGoBack(cat, states, events, m - 1, m);
    if m == k + 1 {
      CreditsWaitAtFirst(cat, states, events, k, i, r, reference, user);
    } else {
      CreditsWaitOn(cat, states, events, k, m - 1, i, r, reference, user);
      RowsOnlyMoveForward(cat, states, events, m - 1, m, i);
      assert StepAt(cat, states, events, m - 1);
      OpenTotalStays(cat, states[m - 1], events[m - 1], states[m], i, user);
    }
  }

  /**
   * A booking is opened by step `k` and moves no confirmed balance then. The
   * first webhook that reports success for it, at whatever later step `m`, moves
   * the balance of its guest by the credits earned less those used, and nobody else's.
   */
  lemma {:induction false} PaidBookingMovesCredits(
    cat: Catalogue, states: seq<State>, events: seq<Event>, k: nat, m: nat, i: nat,
    r: Request, reference: string, user: Id)
    requires IsRun(cat, states, events) && OpenedFor(cat, states, events, k, i, r, reference)
    requires UnpaidBetween(states, k, m, i) && UniqueReferences(states[m].bookings)
    requires forall t :: 0 <= t < m ==> AvoidsReference(events[t], reference)
    requires m < |events| && events[m] == Webhook(reference, true)
    ensures ConfirmedBalance(states[k + 1].credits, user) == ConfirmedBalance(states[k].credits, user)
    ensures ConfirmedBalance(states[m + 1].credits, user)
            == ConfirmedBalance(states[m].credits, user)
               + if user == r.guest then EarnedFor(cat, states[k], r) - UsedFor(states[k], r) else 0
  {
    UniqueReferencesGoBack(cat, states, events, k, m);
    assert StepAt(cat, states, events, k) && StepAt(cat, states, events, m);
    StepMovesCreditsExactly(cat, states[k], events[k], user);
    CreditsWaitOn(cat, states, events, k, m, i, r, reference, user);
    StepMovesCreditsExactly(cat, states[m], events[m], user);
    assert HasReference(states[m].bookings, reference);
  }

  // ---------- The reserve ----------

  /** Confirmed credits at their amount, open ones only where they take something away. */
  function ReserveOf(user: Id): Credit -> real {
    (c: Credit) =>
      if c.user != user then 0.0
      else if c.status.Confirmed? then c.amount as real
      else -(Positive(-c.amount) as real)
  }

  function Reserve(s: State, user: Id): real {
    Total(s.credits, ReserveOf(user))
  }

  function GainUnder(reference: string, user: Id): Credit -> real {
    (c: Credit) =>
      if c.reference == reference && c.user == user && c.status.Confirmed? then Positive(c.amount) as real else 0.0
  }

  /** What a step claims of the reserve: debits that now wait, and confirmed gains that a failed webhook takes back. */
  function Claim(cat: Catalogue, s: State, e: Event, user: Id): real {
    match e
    case Initialize(paidBy, r, answer) =>
      if Open(cat, s, paidBy, r, answer).Ok? && r.guest == user
      then (UsedFor(s, r) + Positive(-EarnedFor(cat, s, r))) as real else 0.0
    case TransferCredits(sender, to, recipient, amount) =>
      if SendCredits(cat, s, sender, to, recipient, amount).Err? then 0.0
      else (if sender == user then Positive(amount.Value().Floor) as real else 0.0)
           + if recipient == Some(user) then Positive(-amount.Value().Floor) as real else 0.0
    case Webhook(reference, success) =>
      if !success && reference != "" && HasReference(s.bookings, reference)
      then Total(s.credits, GainUnder(reference, user)) else 0.0
    case _ => 0.0
  }

  /** The reserve never exceeds the balance. */
  lemma {:induction false} ReserveIsCovered(s: State, user: Id)
    ensures Reserve(s, user) <= ConfirmedBalance(s.credits, user) as real
  {
    BalanceIsTotal(s.credits, user);
    TotalDominated(s.credits, ReserveOf(user), s.credits, ConfirmedOf(user));
  }

  lemma {:induction false} MarkingClaimsGains(credits: seq<Credit>, reference: string, user: Id)
    ensures Total(MarkAll(credits, reference, Unconfirmed), ReserveOf(user))
            == Total(credits, ReserveOf(user)) - Total(credits, GainUnder(reference, user))
  {
    var left := (c: Credit) => ReserveOf(user)(c) - GainUnder(reference, user)(c);
    TotalPlus(credits, ReserveOf(user), left, GainUnder(reference, user));
    TotalSame(credits, left, MarkAll(credits, reference, Unconfirmed), ReserveOf(user));
  }

  lemma {:induction false} ConfirmingFreesReserve(before: seq<Credit>, after: seq<Credit>, user: Id)
    requires |before| == |after|
    requires forall i :: 0 <= i < |before| ==> after[i] in {before[i], before[i].(status := Confirmed)}
    ensures Total(before, ReserveOf(user)) <= Total(after, ReserveOf(user))
  {
    TotalDominated(before, ReserveOf(user), after, ReserveOf(user));
  }

  lemma {:induction false} OpeningRowsClaim(guest: Id, used: int, earned: int, reference: string, user: Id)
    ensures Total(OpeningRows(guest, used, earned, reference), ReserveOf(user))
            == if user == guest then -((Positive(used) + Positive(-earned)) as real) else 0.0
  {
    TotalOfTwo(OpeningRows(guest, used, earned, reference), ReserveOf(user));
  }

  lemma {:induction false} OpeningClaims(cat: Catalogue, s: State, r: Request, reference: string, user: Id)
    requires r.property in cat.properties
    ensures Total(s.credits + OpenedCredits(cat, s, r, reference), ReserveOf(user))
            == Reserve(s, user)
               - if r.guest == user then (UsedFor(s, r) + Positive(-EarnedFor(cat, s, r))) as real else 0.0
  {
    TotalConcat(s.credits, OpenedCredits(cat, s, r, reference), ReserveOf(user));
    OpeningRowsClaim(r.guest, CreditsToApply(s, r).Value().Floor, EarnedFor(cat, s, r), reference, user);
  }

  lemma {:induction false} TransferClaims(s: State, sender: Id, to: string, recipient: Id, amount: int, user: Id)
    ensures Total(s.credits + TransferRows(sender, to, recipient, amount), ReserveOf(user))
            == Reserve(s, user) - (if sender == user then Positive(amount) as real else 0.0)
               - if recipient == user then Positive(-amount) as real else 0.0
  {
    var rows := TransferRows(sender, to, recipient, amount);
    TotalConcat(s.credits, rows, ReserveOf(user));
    TotalOfTwo(rows, ReserveOf(user));
  }

  lemma {:induction false} NewRowsClaim(cat: Catalogue, s: State, e: Event, user: Id)
    requires e.Initialize? || e.TransferCredits?
    ensures Reserve(Step(cat, s, e), user) == Reserve(s, user) - Claim(cat, s, e, user)
  {
    if e.Initialize? {
      if Open(cat, s, e.paidBy, e.request, e.answer).Ok? {
        OpeningClaims(cat, s, e.request, e.answer.reference, user);
      }
    } else if e.recipient.Some? {
      TransferClaims(s, e.sender, e.to, e.recipient.value, e.creditAmount.Value().Floor, user);
    }
  }

  lemma {:induction false} WebhookClaims(cat: Catalogue, s: State, e: Event, user: Id)
    requires e.Webhook?
    ensures Reserve(Step(cat, s, e), user) >= Reserve(s, user) - Claim(cat, s, e, user)
    ensures !e.success ==> Reserve(Step(cat, s, e), user) == Reserve(s, user) - Claim(cat, s, e, user)
  {
    if e.success {
      ConfirmingFreesReserve(s.credits, MarkAll(s.credits, e.reference, Confirmed), user);
    } else {
      MarkingClaimsGains(s.credits, e.reference, user);
    }
  }

  /** A step lowers the reserve by no more than its claim. */
  lemma {:induction false} ReserveFallsByTheClaim(cat: Catalogue, s: State, e: Event, user: Id)
    ensures Reserve(Step(cat, s, e), user) >= Reserve(s, user) - Claim(cat, s, e, user)
    ensures !e.UpdatePayments? && !(e.Webhook? && e.success) ==>
              Reserve(Step(cat, s, e), user) == Reserve(s, user) - Claim(cat, s, e, user)
  {
    match e
    case Initialize(_, _, _) => NewRowsClaim(cat, s, e, user);
    case TransferCredits(_, _, _, _) => NewRowsClaim(cat, s, e, user);
    case Webhook(_, _) => WebhookClaims(cat, s, e, user);
    case UpdatePayments(_) => ConfirmingFreesReserve(s.credits, Step(cat, s, e).credits, user);
    case _ =>
  }

  /**
   * Along a run in which no step claims more than the reserve of a user, the
   * confirmed balance of that user is never negative, and covers the reserve.
   */
  lemma {:induction false} CreditsAreNeverNegative(
    cat: Catalogue, states: seq<State>, events: seq<Event>, k: nat, user: Id)
    requires IsRun(cat, states, events) && k < |states|
    requires forall t :: 0 <= t < k ==> Claim(cat, states[t], events[t], user) <= Reserve(states[t], user)
    ensures 0.0 <= Reserve(states[k], user) <= ConfirmedBalance(states[k].credits, user) as real
  {
    ReserveIsCovered(states[k], user);
    if k > 0 {
      CreditsAreNeverNegative(cat, states, events, k - 1, user);
      assert StepAt(cat, states, events, k - 1);
      ReserveFallsByTheClaim(cat, states[k - 1], events[k - 1], user);
    }
  }
}
