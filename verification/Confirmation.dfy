/** What every run of the platform keeps about the confirmation of credits. */
module Confirmation {
  import opened Entities
  import opened Totals
  import opened Credits
  import opened Machine
  import opened Lifecycle

  // ---------- How many credits a payment has ----------

  function CreditWith(reference: string): Credit -> bool {
    (c: Credit) => c.reference == reference
  }

  function BookingWith(reference: string): Booking -> bool {
    (b: Booking) => b.payment.reference == reference
  }

  /** The event does not append credits under a reference that belongs to a payment. */
  predicate AvoidsReference(e: Event, reference: string) {
    e.TransferCredits? ==> e.to != reference && e.sender != reference
  }

  lemma {:induction false} OpeningAddsAtMostTwo(user: Id, used: int, earned: int, reference: string, other: string)
    ensures Count(OpeningRows(user, used, earned, reference), CreditWith(other)) <= if other == reference then 2 else 0
  {
    var rows := OpeningRows(user, used, earned, reference);
    CountIsZeroExactly(rows, CreditWith(other));
    CountIsAtMostLength(rows, CreditWith(other));
  }

  /**
   * What a step does to the list of credits: rows never leave, keep their
   * reference, user and amount, change their status by webhooks and the confirming
   * cron only, and are added for an opened booking or an accepted transfer only.
   */
  predicate CreditsFollow(cat: Catalogue, s: State, e: Event, s': State) {
    && |s.credits| <= |s'.credits|
    && (forall i :: 0 <= i < |s.credits| ==> s'.credits[i] == s.credits[i].(status := s'.credits[i].status))
    && (!e.Webhook? && !e.UpdatePayments? ==> s.credits <= s'.credits)
    && (|s'.credits| > |s.credits| ==>
          || (&& |s'.bookings| > |s.bookings| && e.Initialize? && e.answer.Accepted? && Refusal(cat, s, e.request).None?
              && s'.credits == s.credits + OpenedCredits(cat, s, e.request, e.answer.reference))
          || (&& e.TransferCredits? && e.recipient.Some?
              && s'.credits
                 == s.credits + TransferRows(e.sender, e.to, e.recipient.value, e.creditAmount.Value().Floor)))
  }

  lemma {:induction false} StepFollowsOnCredits(cat: Catalogue, s: State, e: Event)
    ensures CreditsFollow(cat, s, e, Step(cat, s, e))
  {
  }

  lemma {:induction false} SameReferencesSameCount(before: seq<Credit>, after: seq<Credit>, reference: string)
    requires |before| == |after| && forall i :: 0 <= i < |before| ==> after[i].reference == before[i].reference
    ensures Count(after, CreditWith(reference)) == Count(before, CreditWith(reference))
  {
    CountDominated(before, CreditWith(reference), after, CreditWith(reference));
    CountDominated(after, CreditWith(reference), before, CreditWith(reference));
  }

  lemma {:induction false} CountAfterOpening(before: seq<Booking>, after: seq<Booking>, reference: string)
    requires |before| <= |after| <= |before| + 1
    requires forall i :: 0 <= i < |before| ==> after[i].payment.reference == before[i].payment.reference
    ensures Count(after, BookingWith(reference)) - Count(before, BookingWith(reference))
            == if |after| > |before| && after[|before|].payment.reference == reference then 1 else 0
  {
    CountDominated(before, BookingWith(reference), after[..|before|], BookingWith(reference));
    CountDominated(after[..|before|], BookingWith(reference), before, BookingWith(reference));
    if |after| == |before| {
      assert after == after[..|before|];
    }
  }

  lemma {:induction false} BookingCountGrows(cat: Catalogue, s: State, e: Event, s': State, reference: string)
    requires Follows(cat, s, e, s')
    ensures Count(s'.bookings, BookingWith(reference)) - Count(s.bookings, BookingWith(reference))
            == if |s'.bookings| > |s.bookings| && e.answer.reference == reference then 1 else 0
  {
    CountAfterOpening(s.bookings, s'.bookings, reference);
  }

  lemma {:induction false} OpenedCreditCount(cat: Catalogue, s: State, r: Request, given: string, reference: string)
    requires r.property in cat.properties
    ensures Count(OpenedCredits(cat, s, r, given), CreditWith(reference)) <= if given == reference then 2 else 0
  {
    var quote := QuoteRequest(cat, s, r);
    OpeningAddsAtMostTwo(r.guest, quote.credits.Value().Floor, quote.CreditsEarned(), given, reference);
  }

  lemma {:induction false} TransferCount(sender: Id, to: string, recipient: Id, amount: int, reference: string)
    requires to != reference && sender != reference
    ensures Count(TransferRows(sender, to, recipient, amount), CreditWith(reference)) == 0
  {
    CountIsZeroExactly(TransferRows(sender, to, recipient, amount), CreditWith(reference));
  }

  /** How many credits of a reference a step appends. */
  lemma {:induction false} AppendedCredits(cat: Catalogue, s: State, e: Event, s': State, reference: string)
    requires CreditsFollow(cat, s, e, s') && |s'.credits| > |s.credits| && AvoidsReference(e, reference)
    ensures s'.credits[..|s.credits|] == s.credits
    ensures Count(s'.credits[|s.credits|..], CreditWith(reference))
            <= if |s'.bookings| > |s.bookings| && e.Initialize? && e.answer.Accepted?
                  && e.answer.reference == reference then 2 else 0
  {
    var rows := s'.credits[|s.credits|..];
    if e.TransferCredits? {
      assert rows == TransferRows(e.sender, e.to, e.recipient.value, e.creditAmount.Value().Floor);
      TransferCount(e.sender, e.to, e.recipient.value, e.creditAmount.Value().Floor, reference);
    } else {
      assert rows == OpenedCredits(cat, s, e.request, e.answer.reference);
      OpenedCreditCount(cat, s, e.request, e.answer.reference, reference);
    }
  }

  lemma {:induction false} StepOnCreditCounts(cat: Catalogue, s: State, e: Event, s': State, reference: string)
    requires Follows(cat, s, e, s') && CreditsFollow(cat, s, e, s') && AvoidsReference(e, reference)
    ensures Count(s'.credits, CreditWith(reference)) - Count(s.credits, CreditWith(reference))
            <= 2 * (Count(s'.bookings, BookingWith(reference)) - Count(s.bookings, BookingWith(reference)))
  {
    BookingCountGrows(cat, s, e, s', reference);
    if |s'.credits| == |s.credits| {
      SameReferencesSameCount(s.credits, s'.credits, reference);
    } else {
      AppendedCredits(cat, s, e, s', reference);
      CountConcat(s.credits, s'.credits[|s.credits|..], CreditWith(reference));
      assert s'.credits == s.credits + s'.credits[|s.credits|..];
    }
  }

  lemma {:induction false} TakeStepOnCredits(cat: Catalogue, states: seq<State>, events: seq<Event>, k: nat)
    requires IsStretch(cat, states, events) && k < |events|
    ensures Follows(cat, states[k], events[k], states[k + 1]) && CreditsFollow(cat, states[k], events[k], states[k + 1])
  {
    TakeStep(cat, states, events, k);
    assert StepAt(cat, states, events, k);
    StepFollowsOnCredits(cat, states[k], events[k]);
  }

  /**
   * A payment never gets more than two credits, the ones it used and the ones it
   * earns, unless a transfer borrows its reference.
   */
  lemma {:induction false} AtMostTwoCreditsPerPayment(
    cat: Catalogue, states: seq<State>, events: seq<Event>, k: nat, reference: string)
    requires IsRun(cat, states, events) && k < |states|
    requires forall t :: 0 <= t < k ==> AvoidsReference(events[t], reference)
    ensures Count(states[k].credits, CreditWith(reference)) <= 2 * Count(states[k].bookings, BookingWith(reference))
    ensures UniqueReferences(states[k].bookings) ==> Count(states[k].credits, CreditWith(reference)) <= 2
  {
    if k > 0 {
      AtMostTwoCreditsPerPayment(cat, states, events, k - 1, reference);
      TakeStepOnCredits(cat, states, events, k - 1);
      StepOnCreditCounts(cat, states[k - 1], events[k - 1], states[k], reference);
    }
    if UniqueReferences(states[k].bookings) {
      CountOfDistinct(states[k].bookings, BookingWith(reference));
    }
  }

  // ---------- One pass of the cron ----------

  lemma {:induction false} CompletedReferencesAreDistinct(bookings: seq<Booking>)
    requires UniqueReferences(bookings)
    ensures Distinct(CompletedReferences(bookings))
    ensures forall r :: r in CompletedReferences(bookings) <==>
              exists i :: 0 <= i < |bookings| && bookings[i].Paid() && bookings[i].payment.reference == r
  {
    if bookings != [] {
      var init, last := bookings[..|bookings| - 1], bookings[|bookings| - 1];
      CompletedReferencesAreDistinct(init);
      assert forall i :: 0 <= i < |init| ==> init[i] == bookings[i];
      assert bookings[|init|] == last;
      assert last.payment.reference !in CompletedReferences(init);
      assert CompletedReferences(bookings)
             == CompletedReferences(init) + if last.Paid() then [last.payment.reference] else [];
    }
  }

  lemma {:induction false} CompletedExactlyWhenPaid(bookings: seq<Booking>, i: nat)
    requires UniqueReferences(bookings) && i < |bookings|
    ensures bookings[i].payment.reference in CompletedReferences(bookings) <==> bookings[i].Paid()
  {
    CompletedReferencesAreDistinct(bookings);
    if bookings[i].payment.reference in CompletedReferences(bookings) {
      var j :| 0 <= j < |bookings| && bookings[j].Paid()
               && bookings[j].payment.reference == bookings[i].payment.reference;
      assert j == i;
    }
  }

  /** One pass of the cron: completed payments lose one open credit, all others keep theirs. */
  lemma {:induction false} OnePassOnThePlatform(cat: Catalogue, s: State, hints: Hints)
    requires UniqueReferences(s.bookings)
    ensures var s' := Step(cat, s, UpdatePayments(hints));
            && s' == s.(credits := s'.credits)
            && OnlyConfirms(s.credits, s'.credits, CompletedReferences(s.bookings))
            && forall i :: 0 <= i < |s.bookings| ==>
                 var r := s.bookings[i].payment.reference;
                 OpenCount(s'.credits, r)
                 == if s.bookings[i].Paid() then OneLess(OpenCount(s.credits, r)) else OpenCount(s.credits, r)
  {
    CompletedReferencesAreDistinct(s.bookings);
    OnePassConfirmsOneEach(s.credits, CompletedReferences(s.bookings), hints);
    forall i | 0 <= i < |s.bookings|
      ensures s.bookings[i].payment.reference in CompletedReferences(s.bookings) <==> s.bookings[i].Paid()
    {
      CompletedExactlyWhenPaid(s.bookings, i);
    }
  }

  // ---------- Convergence along a run ----------

  lemma {:induction false} SameOpenSameCount(before: seq<Credit>, after: seq<Credit>, reference: string)
    requires |before| == |after|
    requires forall i :: 0 <= i < |before| ==> (IsOpen(after[i], reference) <==> IsOpen(before[i], reference))
    ensures OpenCount(after, reference) == OpenCount(before, reference)
  {
    CountDominated(before, OpenWith(reference), after, OpenWith(reference));
    CountDominated(after, OpenWith(reference), before, OpenWith(reference));
  }

  lemma {:induction false} ForeignRowsOpenNothing(before: seq<Credit>, rows: seq<Credit>, reference: string)
    requires forall i :: 0 <= i < |rows| ==> rows[i].reference != reference
    ensures OpenCount(before + rows, reference) == OpenCount(before, reference)
  {
    CountConcat(before, rows, OpenWith(reference));
    CountIsZeroExactly(rows, OpenWith(reference));
  }

  lemma {:induction false} WebhookOnOpenCount(
    credits: seq<Credit>, marked: string, status: CreditStatus, reference: string)
    requires marked == reference ==> status.Confirmed?
    ensures OpenCount(MarkAll(credits, marked, status), reference)
            == if marked == reference then 0 else OpenCount(credits, reference)
  {
    if marked == reference {
      CountIsZeroExactly(MarkAll(credits, marked, status), OpenWith(reference));
    } else {
      SameOpenSameCount(credits, MarkAll(credits, marked, status), reference);
    }
  }

  /** The open credits of the payment of row `i` after one step that neither fails it nor borrows its reference. */
  function NextOpenCount(s: State, e: Event, i: nat): nat
    requires i < |s.bookings|
  {
    var r := s.bookings[i].payment.reference;
    var open := OpenCount(s.credits, r);
    if e.UpdatePayments? && s.bookings[i].Paid() then OneLess(open)
    else if e == Webhook(r, true) && r != "" then 0
    else open
  }

  lemma {:induction false} OpeningLeavesOthersOpen(cat: Catalogue, s: State, e: Event, i: nat)
    requires i < |s.bookings| && e.Initialize? && UniqueReferences(Step(cat, s, e).bookings)
    ensures OpenCount(Step(cat, s, e).credits, s.bookings[i].payment.reference)
            == OpenCount(s.credits, s.bookings[i].payment.reference)
  {
    StepFollows(cat, s, e);
    var s' := Step(cat, s, e);
    if |s'.bookings| > |s.bookings| {
      assert s'.bookings[i].payment.reference != s'.bookings[|s.bookings|].payment.reference;
      ForeignRowsOpenNothing(
        s.credits, OpenedCredits(cat, s, e.request, e.answer.reference), s.bookings[i].payment.reference);
    }
  }

  lemma {:induction false} StepOnOpenCount(cat: Catalogue, s: State, e: Event, i: nat)
    requires i < |s.bookings| && UniqueReferences(Step(cat, s, e).bookings)
    requires AvoidsReference(e, s.bookings[i].payment.reference) && e != Webhook(s.bookings[i].payment.reference, false)
    ensures OpenCount(Step(cat, s, e).credits, s.bookings[i].payment.reference) == NextOpenCount(s, e, i)
  {
    var r := s.bookings[i].payment.reference;
    match e
    case UpdatePayments(hints) =>
      OnePassOnThePlatform(cat, s, hints);
    case Webhook(reference, success) =>
      WebhookOnOpenCount(s.credits, reference, if success then Confirmed else Unconfirmed, r);
    case Initialize(paidBy, request, answer) =>
      OpeningLeavesOthersOpen(cat, s, e, i);
    case TransferCredits(sender, to, recipient, amount) =>
      if recipient.Some? {
        ForeignRowsOpenNothing(s.credits, TransferRows(sender, to, recipient.value, amount.Value().Floor), r);
      }
    case _ =>
  }

  /** Passes of the confirming cron among the events from `k` to `n`. */
  function PassesBetween(events: seq<Event>, k: nat, n: nat): nat
    requires k <= n <= |events|
  {
    if k == n then 0 else PassesBetween(events, k, n - 1) + if events[n - 1].UpdatePayments? then 1 else 0
  }

  /** From `k` to `n` the payment of row `i` is not failed and no transfer borrows its reference. */
  predicate Undisturbed(events: seq<Event>, k: nat, n: nat, reference: string)
    requires k <= n <= |events|
  {
    forall t :: k <= t < n ==> AvoidsReference(events[t], reference) && events[t] != Webhook(reference, false)
  }

  lemma {:induction false} PaidRowStaysPaid(
    cat: Catalogue, states: seq<State>, events: seq<Event>, k: nat, n: nat, i: nat)
    requires IsRun(cat, states, events) && k <= n < |states|
    requires i < |states[k].bookings| && states[k].bookings[i].Paid()
    requires Undisturbed(events, k, n, states[k].bookings[i].payment.reference)
    ensures i < |states[n].bookings| && states[n].bookings[i].Paid()
    ensures states[n].bookings[i].payment.reference == states[k].bookings[i].payment.reference
  {
    if k < n {
      PaidRowStaysPaid(cat, states, events, k, n - 1, i);
      TakeStep(cat, states, events, n - 1);
    }
  }

  lemma {:induction false} OpenCountAtStep(cat: Catalogue, states: seq<State>, events: seq<Event>, k: nat, i: nat)
    requires IsRun(cat, states, events) && k < |events| && UniqueReferences(states[k + 1].bookings)
    requires i < |states[k].bookings|
    requires Undisturbed(events, k, k + 1, states[k].bookings[i].payment.reference)
    ensures OpenCount(states[k + 1].credits, states[k].bookings[i].payment.reference)
            == NextOpenCount(states[k], events[k], i)
  {
    assert StepAt(cat, states, events, k);
    StepOnOpenCount(cat, states[k], events[k], i);
  }

  /** What is left of `n` after taking `m`. */
  function Less(n: nat, m: nat): nat {
    if n <= m then 0 else n - m
  }

  /**
   * Whatever else happens between the passes, each pass after the payment takes
   * one open credit; a successful webhook takes them all.
   */
  lemma {:induction false} OpenCountAlongRun(
    cat: Catalogue, states: seq<State>, events: seq<Event>, k: nat, n: nat, i: nat)
    requires IsRun(cat, states, events) && k <= n < |states| && UniqueReferences(states[n].bookings)
    requires i < |states[k].bookings| && states[k].bookings[i].Paid()
    requires Undisturbed(events, k, n, states[k].bookings[i].payment.reference)
    ensures var r := states[k].bookings[i].payment.reference;
            && OpenCount(states[n].credits, r) <= Less(OpenCount(states[k].credits, r), PassesBetween(events, k, n))
            && ((forall t :: k <= t < n ==> events[t] != Webhook(r, true)) ==>
                  OpenCount(states[n].credits, r) == Less(OpenCount(states[k].credits, r), PassesBetween(events, k, n)))
  {
    if k < n {
      UniqueReferencesGoBack(cat, states, events, n - 1, n);
      OpenCountAlongRun(cat, states, events, k, n - 1, i);
      PaidRowStaysPaid(cat, states, events, k, n - 1, i);
      OpenCountAtStep(cat, states, events, n - 1, i);
    }
  }

  /** All credits of the reference are confirmed: a successful webhook would find nothing to do. */
  predicate IsConverged(s: State, reference: string) {
    MarkAll(s.credits, reference, Confirmed) == s.credits
  }

  lemma {:induction false} ConvergedExactly(s: State, reference: string)
    ensures IsConverged(s, reference) <==> OpenCount(s.credits, reference) == 0
  {
    CountIsZeroExactly(s.credits, OpenWith(reference));
    if OpenCount(s.credits, reference) == 0 {
      forall i | 0 <= i < |s.credits| ensures MarkAll(s.credits, reference, Confirmed)[i] == s.credits[i] {
        assert !OpenWith(reference)(s.credits[i]);
      }
    } else {
      var i :| 0 <= i < |s.credits| && OpenWith(reference)(s.credits[i]);
      assert MarkAll(s.credits, reference, Confirmed)[i].status.Confirmed?;
    }
  }

  /**
   * Credit confirmation converges in every run: once a payment is completed, two
   * passes of the cron, however far apart and whatever else happens meanwhile,
   * leave its credits as a successful webhook would.
   */
  lemma {:induction false} TwoPassesConverge(
    cat: Catalogue, states: seq<State>, events: seq<Event>, k: nat, n: nat, i: nat)
    requires IsRun(cat, states, events) && k <= n < |states| && UniqueReferences(states[n].bookings)
    requires i < |states[k].bookings| && states[k].bookings[i].Paid()
    requires Undisturbed(events, k, n, states[k].bookings[i].payment.reference)
    requires forall t :: 0 <= t < k ==> AvoidsReference(events[t], states[k].bookings[i].payment.reference)
    requires PassesBetween(events, k, n) >= 2
    ensures IsConverged(states[n], states[k].bookings[i].payment.reference)
  {
    var r := states[k].bookings[i].payment.reference;
    UniqueReferencesGoBack(cat, states, events, k, n);
    AtMostTwoCreditsPerPayment(cat, states, events, k, r);
    CountDominated(states[k].credits, OpenWith(r), states[k].credits, CreditWith(r));
    OpenCountAlongRun(cat, states, events, k, n, i);
    ConvergedExactly(states[n], r);
  }

  /** Without a webhook, the cron alone converges exactly when it has passed as often as there were open credits. */
  lemma {:induction false} PassesConvergeExactly(
    cat: Catalogue, states: seq<State>, events: seq<Event>, k: nat, n: nat, i: nat)
    requires IsRun(cat, states, events) && k <= n < |states| && UniqueReferences(states[n].bookings)
    requires i < |states[k].bookings| && states[k].bookings[i].Paid()
    requires Undisturbed(events, k, n, states[k].bookings[i].payment.reference)
    requires forall t :: k <= t < n ==> events[t] != Webhook(states[k].bookings[i].payment.reference, true)
    ensures IsConverged(states[n], states[k].bookings[i].payment.reference)
            <==> OpenCount(states[k].credits, states[k].bookings[i].payment.reference) <= PassesBetween(events, k, n)
  {
    OpenCountAlongRun(cat, states, events, k, n, i);
    ConvergedExactly(states[n], states[k].bookings[i].payment.reference);
  }

  // ---------- Webhooks ----------

  /** Delivering a webhook again changes nothing; a successful one confirms all credits of its reference. */
  lemma {:induction false} WebhookIsIdempotent(cat: Catalogue, s: State, reference: string, success: bool)
    ensures Step(cat, Step(cat, s, Webhook(reference, success)), Webhook(reference, success))
            == Step(cat, s, Webhook(reference, success))
    ensures success && reference != "" && HasReference(s.bookings, reference) ==>
              IsConverged(Step(cat, s, Webhook(reference, success)), reference)
  {
    var e := Webhook(reference, success);
    var s' := Step(cat, s, e);
    StepFollows(cat, s, e);
    StepFollows(cat, s', e);
    if reference != "" && HasReference(s.bookings, reference) {
      forall i
        ensures IsFirstWithReference(s.bookings, reference, i) <==> IsFirstWithReference(s'.bookings, reference, i)
      {
        assert forall j :: 0 <= j < |s.bookings| ==>
                 s'.bookings[j].payment.reference == s.bookings[j].payment.reference;
      }
      assert Step(cat, s', e).bookings == s'.bookings;
    }
  }
}
