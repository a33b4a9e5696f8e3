/** What every run of the platform keeps about bookings: their status, their holds and their dates. */
module Lifecycle {
  import opened Wrappers
  import opened Dates
  import opened Entities
  import opened Availability
  import opened Tasks
  import opened Machine

  // ---------- The invariant ----------

  predicate RowIsSound(cat: Catalogue, b: Booking, clock: Time) {
    && (b.status.Pending? ==> b.hold.Some?)
    && (b.status.PastPending() ==> b.hold.None?)
    && (b.status.Processing? ==> b.stay.checkIn <= clock)
    && (b.status.Finished? ==> b.stay.checkOut <= clock)
    && b.payment.createdAt <= clock
    && b.property in cat.properties && b.payment.host == cat.properties[b.property].host
  }

  ghost predicate Overlap(b: Booking, b': Booking) {
    && b.property == b'.property && !b.status.Cancelled? && !b'.status.Cancelled?
    && ShareAnInstant(b.stay.checkIn, b.stay.checkOut, b'.stay.checkIn, b'.stay.checkOut)
  }

  ghost predicate Sound(cat: Catalogue, s: State) {
    && (forall i :: 0 <= i < |s.bookings| ==> RowIsSound(cat, s.bookings[i], s.clock))
    && (forall i, j :: 0 <= i < j < |s.bookings| ==> !Overlap(s.bookings[i], s.bookings[j]))
  }

  /** The columns that no step writes. */
  predicate SameBooking(b: Booking, b': Booking) {
    b' == b.(status := b'.status, hold := b'.hold, payment := b.payment.(status := b'.payment.status))
  }

  lemma {:induction false} RowStaysSound(cat: Catalogue, s: State, e: Event, i: nat, clock: Time)
    requires i < |s.bookings| && RowIsSound(cat, s.bookings[i], s.clock) && s.clock <= clock
    ensures RowIsSound(cat, NextRow(s, e, i), clock)
    ensures SameBooking(s.bookings[i], NextRow(s, e, i))
    ensures s.bookings[i].status.Rank() <= NextRow(s, e, i).status.Rank()
    ensures s.bookings[i].status.Cancelled? ==>
              NextRow(s, e, i).status.Cancelled? && NextRow(s, e, i).hold == s.bookings[i].hold
  {
  }

  /** The guard and the check that were passed keep the new row clear of every row that is not cancelled. */
  lemma {:induction false} OpenedRowIsClear(
    cat: Catalogue, s: State, paidBy: PaymentMethod, r: Request, answer: GatewayAnswer, i: nat)
    requires i < |s.bookings| && RowIsSound(cat, s.bookings[i], s.clock)
    requires Refusal(cat, s, r).None? && answer.Accepted?
    ensures !Overlap(s.bookings[i], OpenedBooking(cat, s, paidBy, r, answer))
  {
    var b := s.bookings[i];
    if cat.reading.Ungrouped? {
      UngroupedIsStricter(s.bookings, r.property, r.checkIn, r.checkOut);
    }
    assert !Blocks(Grouped, b, r.property, r.checkIn, r.checkOut);
    ClausesMeanOverlap(b, r.checkIn, r.checkOut);
    if b.status.Finished? {
      assert forall t :: During(t, b.stay.checkIn, b.stay.checkOut) ==> t <= s.clock < r.checkIn;
    }
  }

  lemma {:induction false} StepKeepsSound(cat: Catalogue, s: State, e: Event, s': State)
    requires Sound(cat, s) && Follows(cat, s, e, s')
    ensures Sound(cat, s')
  {
    forall i | 0 <= i < |s.bookings|
      ensures RowIsSound(cat, s'.bookings[i], s'.clock) && SameBooking(s.bookings[i], s'.bookings[i])
      ensures s.bookings[i].status.Cancelled? ==> s'.bookings[i].status.Cancelled?
    {
      RowStaysSound(cat, s, e, i, s'.clock);
    }
    forall i, j | 0 <= i < j < |s'.bookings| ensures !Overlap(s'.bookings[i], s'.bookings[j]) {
      if j < |s.bookings| {
        assert !Overlap(s.bookings[i], s.bookings[j]);
      } else {
        OpenedRowIsClear(cat, s, e.paidBy, e.request, e.answer, i);
      }
    }
  }

  lemma {:induction false} RunsAreSound(cat: Catalogue, states: seq<State>, events: seq<Event>, k: nat)
    requires IsRun(cat, states, events) && k < |states|
    ensures Sound(cat, states[k])
  {
    if k > 0 {
      RunsAreSound(cat, states, events, k - 1);
      TakeStep(cat, states, events, k - 1);
      StepKeepsSound(cat, states[k - 1], events[k - 1], states[k]);
    }
  }

  // ---------- No double booking ----------

  /** At every moment of every run, two bookings of one property that are not cancelled never share an instant. */
  lemma {:induction false} NoDoubleBooking(
    cat: Catalogue, states: seq<State>, events: seq<Event>, k: nat, i: nat, j: nat)
    requires IsRun(cat, states, events) && k < |states|
    requires i < |states[k].bookings| && j < |states[k].bookings| && i != j
    ensures var b, b' := states[k].bookings[i], states[k].bookings[j];
            b.property == b'.property && !b.status.Cancelled? && !b'.status.Cancelled? ==>
              b.stay.checkOut < b'.stay.checkIn || b'.stay.checkOut < b.stay.checkIn
  {
    RunsAreSound(cat, states, events, k);
    var b, b' := states[k].bookings[if i < j then i else j], states[k].bookings[if i < j then j else i];
    assert !Overlap(b, b');
    var latestStart := if b.stay.checkIn <= b'.stay.checkIn then b'.stay.checkIn else b.stay.checkIn;
    assert During(latestStart, b.stay.checkIn, b.stay.checkOut)
           && During(latestStart, b'.stay.checkIn, b'.stay.checkOut)
           <==> latestStart <= b.stay.checkOut && latestStart <= b'.stay.checkOut;
  }

  /**
   * For a future stay the search and the booking-time check accept the same
   * properties. Under the ungrouped reading the check also turns away a stay
   * during which some row that does not hold the property begins.
   */
  lemma {:induction false} SearchAgreesWithCheck(
    cat: Catalogue, states: seq<State>, events: seq<Event>, k: nat, property: Id, checkIn: Time, checkOut: Time)
    requires IsRun(cat, states, events) && k < |states|
    requires states[k].clock < checkIn < checkOut
    ensures PassesSearch(states[k].bookings, property, checkIn, checkOut)
            <==> IsAvailable(Grouped, states[k].bookings, property, checkIn, checkOut)
    ensures IsAvailable(Ungrouped, states[k].bookings, property, checkIn, checkOut)
            <==> PassesSearch(states[k].bookings, property, checkIn, checkOut)
                 && forall i :: 0 <= i < |states[k].bookings| && !Holds(states[k].bookings[i], property) ==>
                      !StartsBefore(states[k].bookings[i].stay, checkIn, checkOut)
  {
    RunsAreSound(cat, states, events, k);
    UngroupedExactly(states[k].bookings, property, checkIn, checkOut);
    var s := states[k];
    forall i | 0 <= i < |s.bookings|
      ensures HiddenFromSearch(s.bookings[i], property, checkIn, checkOut)
              <==> Blocks(Grouped, s.bookings[i], property, checkIn, checkOut)
    {
      assert RowIsSound(cat, s.bookings[i], s.clock);
      ClausesMeanOverlap(s.bookings[i], checkIn, checkOut);
    }
  }

  // ---------- Status only moves forward ----------

  /** From any moment of a run to any later one. */
  lemma {:induction false} RowsOnlyMoveForward(
    cat: Catalogue, states: seq<State>, events: seq<Event>, k: nat, m: nat, i: nat)
    requires IsRun(cat, states, events) && k <= m < |states| && i < |states[k].bookings|
    ensures i < |states[m].bookings| && states[k].clock <= states[m].clock
    ensures var b, b' := states[k].bookings[i], states[m].bookings[i];
            && SameBooking(b, b') && b.status.Rank() <= b'.status.Rank()
            && (b.status.Cancelled? ==> b'.status.Cancelled? && b'.hold == b.hold)
  {
    if k < m {
      RowsOnlyMoveForward(cat, states, events, k, m - 1, i);
      RunsAreSound(cat, states, events, m - 1);
      TakeStep(cat, states, events, m - 1);
      assert RowIsSound(cat, states[m - 1].bookings[i], states[m - 1].clock);
      RowStaysSound(cat, states[m - 1], events[m - 1], i, states[m].clock);
    }
  }

  /** How often the status of row `i` changes along a list of states. */
  function StatusChanges(states: seq<State>, i: nat): nat {
    if |states| < 2 then 0
    else
      var s, s' := states[|states| - 2], states[|states| - 1];
      StatusChanges(states[..|states| - 1], i)
      + if i < |s.bookings| && i < |s'.bookings| && s.bookings[i].status != s'.bookings[i].status then 1 else 0
  }

  lemma {:induction false} ChangesAreBoundedByRank(
    cat: Catalogue, states: seq<State>, events: seq<Event>, n: nat, i: nat)
    requires IsRun(cat, states, events) && n < |states|
    ensures StatusChanges(states[..n + 1], i)
            <= if i < |states[n].bookings| then states[n].bookings[i].status.Rank() else 0
  {
    if n > 0 {
      ChangesAreBoundedByRank(cat, states, events, n - 1, i);
      assert states[..n + 1][..n] == states[..n];
      if i < |states[n - 1].bookings| {
        RowsOnlyMoveForward(cat, states, events, n - 1, n, i);
      }
    }
  }

  lemma {:induction false} StatusChangesAtMostFourTimes(cat: Catalogue, states: seq<State>, events: seq<Event>, i: nat)
    requires IsRun(cat, states, events)
    ensures StatusChanges(states, i) <= 4
  {
    ChangesAreBoundedByRank(cat, states, events, |events|, i);
    assert states[..|events| + 1] == states;
  }

  // ---------- Cancellations, webhooks and polls as a whole ----------

  /** Cancelling makes a known booking that is not cancelled CANCELLED, keeps its hold, and moves nothing else. */
  lemma {:induction false} CancellationExactly(cat: Catalogue, s: State, id: nat)
    ensures Step(cat, s, CancelBooking(id))
            == if id < |s.bookings| && !s.bookings[id].status.Cancelled?
               then s.(bookings := s.bookings[id := s.bookings[id].(status := Cancelled)]) else s
  {
    var s' := Step(cat, s, CancelBooking(id));
    assert s'.bookings
           == if id < |s.bookings| && !s.bookings[id].status.Cancelled?
              then s.bookings[id := s.bookings[id].(status := Cancelled)] else s.bookings;
  }

  // ---------- Crons at a fixed time ----------

  predicate Settled(s: State) {
    forall i :: 0 <= i < |s.bookings| ==> Settle(s.clock, s.bookings[i]) == s.bookings[i]
  }

  function CronEvents(crons: seq<StatusCron>): (events: seq<Event>)
    ensures |events| == |crons| && forall i :: 0 <= i < |crons| ==> events[i] == RunCron(crons[i])
  {
    seq(|crons|, i requires 0 <= i < |crons| => RunCron(crons[i]))
  }

  lemma {:induction false} CronStep(cat: Catalogue, s: State, cron: StatusCron)
    ensures var s' := Step(cat, s, RunCron(cron));
            && s' == s.(bookings := s'.bookings) && |s'.bookings| == |s.bookings|
            && forall i :: 0 <= i < |s.bookings| ==> s'.bookings[i] == CronRow(cron, s.clock, s.bookings[i])
  {
  }

  lemma {:induction false} CronsWorkRowByRow(cat: Catalogue, states: seq<State>, crons: seq<StatusCron>, k: nat)
    requires IsStretch(cat, states, CronEvents(crons)) && k <= |crons|
    ensures states[k] == states[0].(bookings := states[k].bookings) && |states[k].bookings| == |states[0].bookings|
    ensures forall i :: 0 <= i < |states[0].bookings| ==>
              states[k].bookings[i] == CronsOnRow(crons[..k], states[0].clock, states[0].bookings[i])
  {
    if k > 0 {
      CronsWorkRowByRow(cat, states, crons, k - 1);
      assert StepAt(cat, states, CronEvents(crons), k - 1);
      CronStep(cat, states[k - 1], crons[k - 1]);
      assert crons[..k][..k - 1] == crons[..k - 1];
    }
  }

  /** From any tables on, a stretch of status crons with each of the four in it settles every booking. */
  lemma {:induction false} FullCronRunSettlesThePlatform(cat: Catalogue, states: seq<State>, crons: seq<StatusCron>)
    requires IsStretch(cat, states, CronEvents(crons))
    requires BookingsInProgress in crons && FinishedBookings in crons
    requires CancelBookings in crons && CancelCryptoBookings in crons
    ensures Settled(states[|crons|]) && states[|crons|] == states[0].(bookings := states[|crons|].bookings)
    ensures |states[|crons|].bookings| == |states[0].bookings|
    ensures forall i :: 0 <= i < |states[0].bookings| ==>
              states[|crons|].bookings[i] == Settle(states[0].clock, states[0].bookings[i])
  {
    CronsWorkRowByRow(cat, states, crons, |crons|);
    assert crons[..|crons|] == crons;
    var s, s' := states[0], states[|crons|];
    forall i | 0 <= i < |s.bookings|
      ensures s'.bookings[i] == Settle(s.clock, s.bookings[i]) == Settle(s.clock, s'.bookings[i])
    {
      AnyFullCronRunSettles(crons, s.clock, s.bookings[i]);
      CronRowIsAllOrNothing(BookingsInProgress, s.clock, s.bookings[i]);
    }
  }

  /** A settled platform is left alone by every status cron. */
  lemma {:induction false} SettledPlatformStays(cat: Catalogue, s: State, cron: StatusCron)
    requires Settled(s)
    ensures Step(cat, s, RunCron(cron)) == s
  {
    CronStep(cat, s, cron);
    forall i | 0 <= i < |s.bookings| ensures CronRow(cron, s.clock, s.bookings[i]) == s.bookings[i] {
      assert Settle(s.clock, s.bookings[i]) == s.bookings[i];
      CronRowIsAllOrNothing(cron, s.clock, s.bookings[i]);
    }
    assert Step(cat, s, RunCron(cron)).bookings == s.bookings;
  }

  // ---------- Holds ----------

  /** Row `i` is opened by step `k`. */
  predicate OpenedAt(states: seq<State>, k: nat, i: nat) {
    k + 1 < |states| && i == |states[k].bookings| && i < |states[k + 1].bookings|
  }

  /** The payment of row `i` is not completed in any state after `k`, up to `m`. */
  predicate UnpaidBetween(states: seq<State>, k: nat, m: nat, i: nat) {
    k < m < |states| && forall t :: k < t <= m && i < |states[t].bookings| ==> !states[t].bookings[i].Paid()
  }

  predicate Waits(b: Booking, deadline: Time) {
    b.status.Cancelled? || (b.status.Pending? && b.hold == Some(deadline))
  }

  lemma {:induction false} UnpaidRowKeepsWaiting(s: State, e: Event, i: nat, deadline: Time)
    requires i < |s.bookings| && Waits(s.bookings[i], deadline) && !s.bookings[i].Paid()
    ensures Waits(NextRow(s, e, i), deadline)
    ensures e == RunCron(CancelCronFor(s.bookings[i])) && deadline <= s.clock ==> NextRow(s, e, i).status.Cancelled?
  {
  }

  /** A new row waits for half an hour. */
  lemma {:induction false} OpenedRowWaits(cat: Catalogue, s: State, e: Event, s': State)
    requires Follows(cat, s, e, s') && |s'.bookings| > |s.bookings|
    ensures Waits(s'.bookings[|s.bookings|], s'.clock + 1_800_000)
  {
  }

  /** While nobody pays, a booking waits with the hold it was given, or is cancelled. */
  lemma {:induction false} UnpaidRowsWait(
    cat: Catalogue, states: seq<State>, events: seq<Event>, k: nat, m: nat, i: nat)
    requires IsRun(cat, states, events) && OpenedAt(states, k, i) && UnpaidBetween(states, k, m, i)
    ensures i < |states[m].bookings| && Waits(states[m].bookings[i], states[k + 1].clock + 1_800_000)
  {
    TakeStep(cat, states, events, m - 1);
    if m > k + 1 {
      UnpaidRowsWait(cat, states, events, k, m - 1, i);
      UnpaidRowKeepsWaiting(states[m - 1], events[m - 1], i, states[k + 1].clock + 1_800_000);
    } else {
      OpenedRowWaits(cat, states[k], events[k], states[m]);
    }
  }

  /**
   * An abandoned hold is released. Nobody has paid when the cron that watches
   * this kind of hold runs as step `m`, half an hour or more after the booking
   * was opened by step `k`: from then on the booking is cancelled and no longer
   * blocks a date.
   */
  lemma {:induction false} AbandonedHoldIsReleased(
    cat: Catalogue, states: seq<State>, events: seq<Event>, k: nat, m: nat, n: nat, i: nat,
    property: Id, checkIn: Time, checkOut: Time)
    requires IsRun(cat, states, events) && m < n < |states|
    requires OpenedAt(states, k, i) && UnpaidBetween(states, k, m, i)
    requires states[m].clock >= states[k + 1].clock + 1_800_000
    requires i < |states[m].bookings| && events[m] == RunCron(CancelCronFor(states[m].bookings[i]))
    ensures i < |states[n].bookings| && states[n].bookings[i].status.Cancelled?
    ensures IsAvailable(Grouped, states[n].bookings, property, checkIn, checkOut)
            <==> IsAvailable(Grouped, Without(states[n].bookings, i), property, checkIn, checkOut)
  {
    UnpaidRowsWait(cat, states, events, k, m, i);
    TakeStep(cat, states, events, m);
    UnpaidRowKeepsWaiting(states[m], events[m], i, states[k + 1].clock + 1_800_000);
    RowsOnlyMoveForward(cat, states, events, m + 1, n, i);
    ReleasedRowsDoNotBlock(states[n].bookings, i, property, checkIn, checkOut);
  }

  // ---------- Expiry and the crypto poller ----------

  predicate UniqueReferences(bookings: seq<Booking>) {
    forall i, j :: 0 <= i < j < |bookings| ==> bookings[i].payment.reference != bookings[j].payment.reference
  }

  /** Step `k` is an expiry cron that cancels row `i`. */
  predicate ExpiresAt(states: seq<State>, events: seq<Event>, k: nat, i: nat) {
    && k + 1 < |states| && k < |events| && events[k] in {RunCron(CancelBookings), RunCron(CancelCryptoBookings)}
    && i < |states[k].bookings| && i < |states[k + 1].bookings|
    && !states[k].bookings[i].status.Cancelled? && states[k + 1].bookings[i].status.Cancelled?
  }

  /** Step `k` is a pass of the poller that completes the payment of row `i`. */
  predicate PolledPaidAt(states: seq<State>, events: seq<Event>, k: nat, i: nat) {
    && k + 1 < |states| && k < |events| && events[k].PollCrypto?
    && i < |states[k].bookings| && i < |states[k + 1].bookings|
    && !states[k].bookings[i].Paid() && states[k + 1].bookings[i].Paid()
  }

  lemma {:induction false} UniqueReferencesGoBack(
    cat: Catalogue, states: seq<State>, events: seq<Event>, k: nat, m: nat)
    requires IsRun(cat, states, events) && k <= m < |states|
    requires UniqueReferences(states[m].bookings)
    ensures UniqueReferences(states[k].bookings)
  {
    forall i, j | 0 <= i < j < |states[k].bookings|
      ensures states[k].bookings[i].payment.reference != states[k].bookings[j].payment.reference
    {
      RowsOnlyMoveForward(cat, states, events, k, m, i);
      RowsOnlyMoveForward(cat, states, events, k, m, j);
      assert states[m].bookings[i].payment.reference != states[m].bookings[j].payment.reference;
    }
  }

  /** Row `i` is the first that carries its payment reference. */
  predicate IsFirst(bookings: seq<Booking>, i: nat)
    requires i < |bookings|
  {
    forall j :: 0 <= j < i ==> bookings[j].payment.reference != bookings[i].payment.reference
  }

  /** Whether or not references are unique, a webhook sets the first payment that carries its reference. */
  lemma {:induction false} WebhookSetsTheFirst(s: State, reference: string, success: bool, i: nat)
    requires i < |s.bookings|
    ensures var b := s.bookings[i];
            NextRow(s, Webhook(reference, success), i)
            == if reference != "" && b.payment.reference == reference && IsFirst(s.bookings, i)
               then b.(payment := b.payment.(status := if success then Completed else Due)) else b
  {
  }

  /** The poller asks for a held, due crypto payment under this reference and hears that it is finished. */
  predicate IsReported(bookings: seq<Booking>, finished: set<string>, reference: string) {
    reference in finished
    && exists j :: 0 <= j < |bookings| && bookings[j].payment.reference == reference
                   && bookings[j].payment.paidBy.Crypto? && bookings[j].payment.status.Due? && bookings[j].hold.Some?
  }

  /** Whether or not references are unique, the poller completes the first payment under each reported reference. */
  lemma {:induction false} PollerCompletesTheFirst(s: State, finished: set<string>, i: nat)
    requires i < |s.bookings|
    ensures var b := s.bookings[i];
            NextRow(s, PollCrypto(finished), i)
            == if IsReported(s.bookings, finished, b.payment.reference) && IsFirst(s.bookings, i)
               then b.(payment := b.payment.(status := Completed)) else b
  {
    var b := s.bookings[i];
    if IsReported(s.bookings, finished, b.payment.reference) && IsFirst(s.bookings, i) {
      var j :| 0 <= j < |s.bookings| && s.bookings[j].payment.reference == b.payment.reference
               && s.bookings[j].payment.paidBy.Crypto? && s.bookings[j].payment.status.Due? && s.bookings[j].hold.Some?;
      assert IsPolled(s.bookings[j]);
      assert PolledTo(s.bookings, finished, |s.bookings|, i);
    }
  }

  /** A webhook sets exactly the payment that carries its reference. */
  lemma {:induction false} WebhookSetsExactly(s: State, reference: string, success: bool, i: nat)
    requires i < |s.bookings| && UniqueReferences(s.bookings)
    ensures NextRow(s, Webhook(reference, success), i)
            == if reference != "" && s.bookings[i].payment.reference == reference
               then s.bookings[i].(payment := s.bookings[i].payment.(status := if success then Completed else Due))
               else s.bookings[i]
  {
  }

  /** The poller completes exactly the polled rows that the gateway reports finished. */
  lemma {:induction false} PollerCompletesExactly(s: State, finished: set<string>, i: nat)
    requires i < |s.bookings| && UniqueReferences(s.bookings)
    ensures var b := s.bookings[i];
            NextRow(s, PollCrypto(finished), i)
            == if b.payment.paidBy.Crypto? && b.payment.status.Due? && b.hold.Some? && b.payment.reference in finished
               then b.(payment := b.payment.(status := Completed)) else b
  {
  }

  /** A webhook that reports a failure sets the completed payment of row `i` back. */
  predicate Reverts(s: State, e: Event, i: nat) {
    && e.Webhook? && !e.success && e.reference != ""
    && IsFirstWithReference(s.bookings, e.reference, i) && s.bookings[i].Paid()
  }

  /** A completed payment stays completed until such a webhook; while it is not completed, the last one explains why. */
  lemma {:induction false} OnlyAWebhookReverts(
    cat: Catalogue, states: seq<State>, events: seq<Event>, k: nat, m: nat, i: nat)
    requires IsRun(cat, states, events) && k <= m < |states|
    requires i < |states[k].bookings| && states[k].bookings[i].Paid()
    ensures i < |states[m].bookings|
    ensures !states[m].bookings[i].Paid() ==>
              exists t :: k <= t < m && Reverts(states[t], events[t], i) && UnpaidBetween(states, t, m, i)
  {
    if k < m {
      OnlyAWebhookReverts(cat, states, events, k, m - 1, i);
      TakeStep(cat, states, events, m - 1);
      if !states[m].bookings[i].Paid() {
        if states[m - 1].bookings[i].Paid() {
          assert Reverts(states[m - 1], events[m - 1], i) && UnpaidBetween(states, m - 1, m, i);
        } else {
          var t :| k <= t < m - 1 && Reverts(states[t], events[t], i) && UnpaidBetween(states, t, m - 1, i);
          assert UnpaidBetween(states, t, m, i);
        }
      }
    }
  }

  /** A row expires exactly when it is pending and unpaid, its hold has run out, and the cron that watches it runs. */
  lemma {:induction false} ExpiryExactly(cat: Catalogue, states: seq<State>, events: seq<Event>, m: nat, i: nat)
    requires IsRun(cat, states, events) && m < |events| && i < |states[m].bookings|
    ensures var b := states[m].bookings[i];
            ExpiresAt(states, events, m, i)
            <==> && b.status.Pending? && b.payment.status.Due? && b.hold.Some? && b.hold.value <= states[m].clock
                 && events[m] == RunCron(if b.cryptoAddress == "" then CancelBookings else CancelCryptoBookings)
  {
    TakeStep(cat, states, events, m);
  }

  lemma {:induction false} UnpaidRowKeepsItsHold(s: State, e: Event, i: nat)
    requires i < |s.bookings| && (!s.bookings[i].Paid() || Reverts(s, e, i))
    ensures NextRow(s, e, i).status.Cancelled?
            || (NextRow(s, e, i).hold == s.bookings[i].hold && NextRow(s, e, i).status == s.bookings[i].status)
  {
  }

  /** From its reversal on, a row keeps the hold and the status it had, until it is cancelled or paid again. */
  lemma {:induction false} ReversedRowsKeepTheirHold(
    cat: Catalogue, states: seq<State>, events: seq<Event>, t: nat, m: nat, i: nat)
    requires IsRun(cat, states, events) && UnpaidBetween(states, t, m, i)
    requires i < |states[t].bookings| && Reverts(states[t], events[t], i)
    ensures i < |states[m].bookings| && SameBooking(states[t].bookings[i], states[m].bookings[i])
    ensures states[m].bookings[i].status.Cancelled?
            || (&& states[m].bookings[i].hold == states[t].bookings[i].hold
                && states[m].bookings[i].status == states[t].bookings[i].status)
  {
    TakeStep(cat, states, events, m - 1);
    RowsOnlyMoveForward(cat, states, events, t, m, i);
    if m > t + 1 {
      ReversedRowsKeepTheirHold(cat, states, events, t, m - 1, i);
      RowsOnlyMoveForward(cat, states, events, m - 1, m, i);
    }
    UnpaidRowKeepsItsHold(states[m - 1], events[m - 1], i);
  }

  /**
   * The reversal at step `t` reopens expiry for step `m`: the hold was still
   * there when the webhook arrived and has run out since, nobody has paid
   * or cancelled in between, and the cron that watches the hold runs.
   */
  predicate Reopens(states: seq<State>, events: seq<Event>, t: nat, m: nat, i: nat) {
    && t < m && m < |states| && m < |events|
    && i < |states[t].bookings| && i < |states[m].bookings|
    && states[t].bookings[i].hold.Some? && states[t].bookings[i].hold.value <= states[m].clock
    && events[m] == RunCron(CancelCronFor(states[t].bookings[i]))
    && !states[m].bookings[i].status.Cancelled?
  }

  /** Which reversals let a booking expire: exactly those that arrive before a status cron has taken the hold away. */
  lemma {:induction false} ReversedHoldExpiresExactly(
    cat: Catalogue, states: seq<State>, events: seq<Event>, t: nat, m: nat, i: nat)
    requires IsRun(cat, states, events) && m < |events| && UnpaidBetween(states, t, m, i)
    requires i < |states[t].bookings| && Reverts(states[t], events[t], i)
    ensures ExpiresAt(states, events, m, i) <==> Reopens(states, events, t, m, i)
  {
    ReversedRowsKeepTheirHold(cat, states, events, t, m, i);
    ExpiryExactly(cat, states, events, m, i);
    RunsAreSound(cat, states, events, m);
    assert RowIsSound(cat, states[m].bookings[i], states[m].clock);
  }

  /** A booking that the poller paid expires exactly when a later reversal reopens its hold. */
  lemma {:induction false} PolledBookingExpiresExactly(
    cat: Catalogue, states: seq<State>, events: seq<Event>, k: nat, m: nat, i: nat)
    requires IsRun(cat, states, events) && k < m < |events| && PolledPaidAt(states, events, k, i)
    ensures ExpiresAt(states, events, m, i) <==>
            exists t :: k < t < m && Reverts(states[t], events[t], i) && UnpaidBetween(states, t, m, i)
                        && Reopens(states, events, t, m, i)
  {
    OnlyAWebhookReverts(cat, states, events, k + 1, m, i);
    ExpiryExactly(cat, states, events, m, i);
    forall t | k < t < m && i < |states[t].bookings|
               && Reverts(states[t], events[t], i) && UnpaidBetween(states, t, m, i)
      ensures ExpiresAt(states, events, m, i) <==> Reopens(states, events, t, m, i)
    {
      ReversedHoldExpiresExactly(cat, states, events, t, m, i);
    }
  }

  /**
   * The two ends of a hold exclude each other. Expiry takes away the hold that
   * the poller asks for; a polled payment stops expiry, unless a webhook in
   * between has set it back while the hold was still there.
   */
  lemma {:induction false} ExpiryAndPollingExclude(
    cat: Catalogue, states: seq<State>, events: seq<Event>, k: nat, m: nat, i: nat)
    requires IsRun(cat, states, events) && k < m < |events|
    requires UniqueReferences(states[|events|].bookings)
    ensures ExpiresAt(states, events, k, i) ==> !PolledPaidAt(states, events, m, i)
    ensures PolledPaidAt(states, events, k, i) && ExpiresAt(states, events, m, i) ==>
              exists t :: k < t < m && Reverts(states[t], events[t], i) && states[t].bookings[i].hold.Some?
  {
    UniqueReferencesGoBack(cat, states, events, m, |events|);
    TakeStep(cat, states, events, k);
    TakeStep(cat, states, events, m);
    if ExpiresAt(states, events, k, i) {
      RowsOnlyMoveForward(cat, states, events, k + 1, m, i);
      if PolledPaidAt(states, events, m, i) {
        PollerCompletesExactly(states[m], events[m].finished, i);
      }
    } else if PolledPaidAt(states, events, k, i) {
      PolledBookingExpiresExactly(cat, states, events, k, m, i);
    }
  }
}
