/** What every run of the platform keeps about a host's money. */
module Balances {
  import opened Wrappers
  import opened Dates
  import opened Entities
  import opened Quotes
  import opened Totals
  import opened Tasks
  import opened Earnings
  import opened Machine
  import opened Lifecycle

  // ---------- A ledger as sums over the tables ----------

  /** What a booking row adds to the available balance of a host. */
  function Earned(host: Id, now: Time): Booking -> real {
    (b: Booking) => if b.payment.host == host then EarnedBy(now)(LedgerOfBooking(b)) else 0.0
  }

  function TakenOut(host: Id): Withdrawal -> real {
    (w: Withdrawal) => if w.host == host then PaidOut(w.charges) else 0.0
  }

  lemma {:induction false} LedgerTotal(
    s: State, host: Id, f: LedgerRow -> real, g: Booking -> real, h: Withdrawal -> real)
    requires forall b :: g(b) == if HostedBy(host)(b) then f(LedgerOfBooking(b)) else 0.0
    requires forall w :: h(w) == if WithdrawnBy(host)(w) then f(LedgerOfWithdrawal(w)) else 0.0
    ensures Total(Ledger(s, host), f) == Total(s.bookings, g) + Total(s.withdrawals, h)
  {
    var bs := Map(Select(s.bookings, HostedBy(host)), LedgerOfBooking);
    var ws := Map(Select(s.withdrawals, WithdrawnBy(host)), LedgerOfWithdrawal);
    TotalConcat(bs, ws, f);
    TotalSelected(s.bookings, HostedBy(host), LedgerOfBooking, f, g);
    TotalSelected(s.withdrawals, WithdrawnBy(host), LedgerOfWithdrawal, f, h);
  }

  lemma {:induction false} AvailableIsEarnedLessTakenOut(s: State, host: Id)
    ensures Available(s, host) == Total(s.bookings, Earned(host, s.clock)) - Total(s.withdrawals, TakenOut(host))
  {
    LedgerTotal(s, host, EarnedBy(s.clock), Earned(host, s.clock), (w: Withdrawal) => 0.0);
    LedgerTotal(s, host, WithdrawnOf(), (b: Booking) => 0.0, TakenOut(host));
    TotalOfSign(s.withdrawals, (w: Withdrawal) => 0.0);
    TotalOfSign(s.bookings, (b: Booking) => 0.0);
  }

  predicate IsEarningRow(b: Booking) {
    b.Paid() && (b.status.Finished? || b.status.Processing?)
  }

  lemma {:induction false} EarnedOnRow(host: Id, now: Time, b: Booking)
    ensures Earned(host, now)(b)
            == if b.payment.host == host && IsEarningRow(b)
               then Accrual(NetAmount(b.payment.charges), b.stay, now) else 0.0
  {
    var p := LedgerOfBooking(b);
    assert IsEarning(p) <==> IsEarningRow(b);
    assert p.booking.value.stay == b.stay && p.charges == b.payment.charges;
    assert EarnedBy(now)(p) == if IsEarning(p) then Accrual(NetAmount(p.charges), p.booking.value.stay, now) else 0.0;
  }

  /** Once the crons have run, what a booking has earned depends on the calendar and on payment only. */
  lemma {:induction false} SettledEarningsFollowTheCalendar(s: State, host: Id, i: nat)
    requires Settled(s) && i < |s.bookings|
    ensures var b := s.bookings[i];
            Earned(host, s.clock)(b)
            == if b.payment.host == host && b.Paid() && !b.status.Cancelled? && b.stay.checkIn <= s.clock
               then Accrual(NetAmount(b.payment.charges), b.stay, s.clock) else 0.0
  {
    EarnedOnRow(host, s.clock, s.bookings[i]);
    assert Settle(s.clock, s.bookings[i]) == s.bookings[i];
  }

  // ---------- Withdrawals ----------

  /**
   * The exact effect of an accepted withdrawal: the balance falls by the gross
   * amount less twice the fees, because the fees are taken off the stored
   * payout and then taken off again when the row is summed.
   */
  lemma {:induction false} WithdrawalEffect(s: State, host: Id, amount: real, other: Id)
    ensures WithdrawalVat() == 113
    ensures TakeOut(s, host, amount).Ok? <==> Abs(amount) > 1613.0 && Available(s, host) >= Abs(amount) + 1613.0
    ensures TakeOut(s, host, amount).Ok? ==>
              && TakeOut(s, host, amount).value.bookings == s.bookings
              && TakeOut(s, host, amount).value.clock == s.clock
              && Available(TakeOut(s, host, amount).value, other)
                 == Available(s, other) - if other == host then Abs(amount) - 3226.0 else 0.0
  {
    assert 0.075 * WITHDRAWAL_FEE as real == 112.5;
    if TakeOut(s, host, amount).Ok? {
      var s' := TakeOut(s, host, amount).value;
      var added := s'.withdrawals[|s.withdrawals|];
      assert s'.withdrawals[..|s.withdrawals|] == s.withdrawals;
      assert Total(s'.withdrawals, TakenOut(other)) == Total(s.withdrawals, TakenOut(other)) + TakenOut(other)(added);
      AvailableIsEarnedLessTakenOut(s, other);
      AvailableIsEarnedLessTakenOut(s', other);
    }
  }

  /**
   * A withdrawal as a whole: it is accepted when the balance covers the amount with
   * fee and VAT, on top of which something is left to pay out; it then appends one
   * row with the payout as a negative amount and with fee and VAT, and moves nothing else.
   */
  lemma {:induction false} WithdrawalExactly(cat: Catalogue, s: State, host: Id, amount: real)
    ensures var payout := (if amount < 0.0 then -amount else amount) - 1613.0;
            Step(cat, s, Withdraw(host, amount))
            == if payout > 0.0 && Available(s, host) >= payout + 3226.0
               then s.(withdrawals := s.withdrawals
                                      + [Withdrawal(host, Charges(-payout, 1500, 113, None, None), s.clock)])
               else s
    ensures var payout := (if amount < 0.0 then -amount else amount) - 1613.0;
            var outcome := TakeOut(s, host, amount);
            && (outcome == Err(AmountNotPositive) <==> amount == 0.0)
            && (outcome == Err(AmountBelowFees) <==> amount != 0.0 && payout <= 0.0)
            && (outcome == Err(AmountExceedsBalance) <==> payout > 0.0 && Available(s, host) < payout + 3226.0)
  {
    WithdrawalEffect(s, host, amount, host);
  }

  /** Every row of withdrawals stores fee and VAT next to a negative amount. */
  lemma {:induction false} WithdrawalsStoreTheirFees(
    cat: Catalogue, states: seq<State>, events: seq<Event>, k: nat, i: nat)
    requires IsRun(cat, states, events) && k < |states| && i < |states[k].withdrawals|
    ensures var c := states[k].withdrawals[i].charges;
            c.amount < 0.0 && c == Charges(c.amount, 1500, 113, None, None)
  {
    TakeStep(cat, states, events, k - 1);
    if events[k - 1].Withdraw? {
      assert StepAt(cat, states, events, k - 1);
      WithdrawalExactly(cat, states[k - 1], events[k - 1].host, events[k - 1].amount);
    }
    if i < |states[k - 1].withdrawals| {
      WithdrawalsStoreTheirFees(cat, states, events, k - 1, i);
    }
  }

  /** A small withdrawal is accepted and yet raises the balance. */
  lemma {:induction false} SmallWithdrawalsRaiseTheBalance(s: State, host: Id, amount: real)
    requires TakeOut(s, host, amount).Ok?
    ensures Available(TakeOut(s, host, amount).value, host) > Available(s, host) <==> Abs(amount) < 3226.0
  {
    WithdrawalEffect(s, host, amount, host);
  }

  // ---------- The exact effect of a step ----------

  /** The event cancels row `i` or sets its completed payment back. */
  predicate TakesBack(s: State, e: Event, i: nat) {
    i < |s.bookings| && (e == CancelBooking(i) || Reverts(s, e, i))
  }

  /** The event completes the payment of row `i`. */
  predicate Pays(s: State, e: Event, i: nat)
    requires i < |s.bookings|
  {
    match e
    case Webhook(reference, success) => success && reference != "" && IsFirstWithReference(s.bookings, reference, i)
    case PollCrypto(finished) => PolledTo(s.bookings, finished, |s.bookings|, i)
    case _ => false
  }

  /** The event is the cron that finds the paid stay of this row begun, or over. */
  predicate Promotes(s: State, e: Event, b: Booking) {
    b.Paid() && !b.status.Cancelled?
    && ((e == RunCron(BookingsInProgress) && b.stay.checkIn <= s.clock < b.stay.checkOut)
        || (e == RunCron(FinishedBookings) && b.stay.checkOut <= s.clock))
  }

  /** The event turns row `i` into one that earns. */
  predicate StartsEarning(s: State, e: Event, i: nat)
    requires i < |s.bookings|
  {
    var b := s.bookings[i];
    && !IsEarningRow(b)
    && (Promotes(s, e, b) || (Pays(s, e, i) && (b.status.Finished? || b.status.Processing?)))
  }

  /** What row `i` adds to the balance of a host by an event after which the time is `now`. */
  function RowChange(s: State, e: Event, now: Time, host: Id, i: nat): real
    requires i < |s.bookings|
  {
    var b := s.bookings[i];
    var net := NetAmount(b.payment.charges);
    if b.payment.host != host then 0.0
    else if TakesBack(s, e, i) then -Earned(host, s.clock)(b)
    else if StartsEarning(s, e, i) then Accrual(net, b.stay, now)
    else if IsEarningRow(b) then Accrual(net, b.stay, now) - Accrual(net, b.stay, s.clock)
    else 0.0
  }

  lemma {:induction false} EarningRowsExactly(cat: Catalogue, s: State, e: Event, i: nat)
    requires i < |s.bookings| && RowIsSound(cat, s.bookings[i], s.clock)
    ensures IsEarningRow(NextRow(s, e, i))
            <==> !TakesBack(s, e, i) && (IsEarningRow(s.bookings[i]) || StartsEarning(s, e, i))
  {
  }

  lemma {:induction false} RowMovesExactly(cat: Catalogue, s: State, e: Event, i: nat, now: Time, host: Id)
    requires i < |s.bookings| && RowIsSound(cat, s.bookings[i], s.clock)
    ensures Earned(host, now)(NextRow(s, e, i)) == Earned(host, s.clock)(s.bookings[i]) + RowChange(s, e, now, host, i)
  {
    EarnedOnRow(host, s.clock, s.bookings[i]);
    EarnedOnRow(host, now, NextRow(s, e, i));
    EarningRowsExactly(cat, s, e, i);
    RowStaysSound(cat, s, e, i, if s.clock <= now then now else s.clock);
  }

  /** What the first `n` rows add. */
  function RowChanges(s: State, e: Event, now: Time, host: Id, n: nat): real
    requires n <= |s.bookings|
  {
    if n == 0 then 0.0 else RowChanges(s, e, now, host, n - 1) + RowChange(s, e, now, host, n - 1)
  }

  lemma {:induction false} RowChangesAddUp(s: State, e: Event, rows: seq<Booking>, now: Time, host: Id, n: nat)
    requires n <= |s.bookings| && n <= |rows|
    requires forall i :: 0 <= i < n ==>
               Earned(host, now)(rows[i]) == Earned(host, s.clock)(s.bookings[i]) + RowChange(s, e, now, host, i)
    ensures Total(rows[..n], Earned(host, now))
            == Total(s.bookings[..n], Earned(host, s.clock)) + RowChanges(s, e, now, host, n)
  {
    if n > 0 {
      RowChangesAddUp(s, e, rows, now, host, n - 1);
      assert rows[..n][..n - 1] == rows[..n - 1];
      assert s.bookings[..n][..n - 1] == s.bookings[..n - 1];
    }
  }

  lemma {:induction false} EarningsMoveExactly(cat: Catalogue, s: State, e: Event, s': State, host: Id)
    requires Sound(cat, s) && Follows(cat, s, e, s')
    ensures Total(s'.bookings, Earned(host, s'.clock))
            == Total(s.bookings, Earned(host, s.clock)) + RowChanges(s, e, s'.clock, host, |s.bookings|)
  {
    var n := |s.bookings|;
    forall i | 0 <= i < n
      ensures Earned(host, s'.clock)(s'.bookings[i])
              == Earned(host, s.clock)(s.bookings[i]) + RowChange(s, e, s'.clock, host, i)
    {
      RowMovesExactly(cat, s, e, i, s'.clock, host);
    }
    RowChangesAddUp(s, e, s'.bookings, s'.clock, host, n);
    assert s.bookings[..n] == s.bookings;
    if |s'.bookings| == n {
      assert s'.bookings[..n] == s'.bookings;
    } else {
      EarnedOnRow(host, s'.clock, s'.bookings[n]);
    }
  }

  /** What a withdrawal takes from a host. */
  function Payout(s: State, e: Event, host: Id): real {
    if e.Withdraw? && e.host == host && TakeOut(s, host, e.amount).Ok? then Abs(e.amount) - 3226.0 else 0.0
  }

  lemma {:induction false} PayoutsMoveExactly(cat: Catalogue, s: State, e: Event, host: Id)
    ensures Total(Step(cat, s, e).withdrawals, TakenOut(host))
            == Total(s.withdrawals, TakenOut(host)) + Payout(s, e, host)
  {
    StepFollows(cat, s, e);
    if e.Withdraw? {
      WithdrawalEffect(s, e.host, e.amount, host);
      AvailableIsEarnedLessTakenOut(s, host);
      AvailableIsEarnedLessTakenOut(Step(cat, s, e), host);
    }
  }

  /** What a step adds to the available balance of a host. */
  function BalanceChange(cat: Catalogue, s: State, e: Event, host: Id): real {
    RowChanges(s, e, ClockAfter(cat, s, e), host, |s.bookings|) - Payout(s, e, host)
  }

  /**
   * The exact effect of a step on the balance of a host, whatever its nets: the
   * accrual of the stays that begin to earn, the growth of those that earn, less
   * what is taken back and less what is paid out.
   */
  lemma {:induction false} StepMovesBalanceExactly(cat: Catalogue, s: State, e: Event, host: Id)
    requires Sound(cat, s)
    ensures Available(Step(cat, s, e), host) == Available(s, host) + BalanceChange(cat, s, e, host)
  {
    var s' := Step(cat, s, e);
    StepFollows(cat, s, e);
    EarningsMoveExactly(cat, s, e, s', host);
    PayoutsMoveExactly(cat, s, e, host);
    AvailableIsEarnedLessTakenOut(s, host);
    AvailableIsEarnedLessTakenOut(s', host);
  }

  /** What is taken back is exactly what the booking had earned. */
  lemma {:induction false} TakingBackEffect(cat: Catalogue, s: State, e: Event, i: nat, host: Id)
    requires TakesBack(s, e, i)
    ensures Available(Step(cat, s, e), host) == Available(s, host) - Earned(host, s.clock)(s.bookings[i])
  {
    var s' := Step(cat, s, e);
    StepFollows(cat, s, e);
    forall j | 0 <= j < |s.bookings| && j != i ensures s'.bookings[j] == s.bookings[j] {
    }
    EarnedOnRow(host, s.clock, s.bookings[i]);
    EarnedOnRow(host, s.clock, s'.bookings[i]);
    TotalReplaced(s.bookings, s'.bookings, Earned(host, s.clock), i);
    AvailableIsEarnedLessTakenOut(s, host);
    AvailableIsEarnedLessTakenOut(s', host);
  }

  // ---------- The balance along a run ----------

  lemma {:induction false} NothingAvailableAtFirst(clock: Time, host: Id)
    ensures Available(Start(clock), host) == 0.0
  {
    AvailableIsEarnedLessTakenOut(Start(clock), host);
  }

  /** The balance does not cover what the step takes from it. */
  predicate FallsShort(cat: Catalogue, s: State, e: Event, host: Id) {
    Available(s, host) + BalanceChange(cat, s, e, host) < 0.0
  }

  /** Along a run, whatever the nets, the balance is never negative exactly when no step falls short. */
  lemma {:induction false} NeverShortExactly(
    cat: Catalogue, states: seq<State>, events: seq<Event>, n: nat, host: Id)
    requires IsRun(cat, states, events) && n < |states|
    ensures (forall k :: 0 <= k <= n ==> Available(states[k], host) >= 0.0)
            <==> forall k :: 0 <= k < n ==> !FallsShort(cat, states[k], events[k], host)
  {
    NothingAvailableAtFirst(states[0].clock, host);
    forall k | 0 <= k < n
      ensures Available(states[k + 1], host) >= 0.0 <==> !FallsShort(cat, states[k], events[k], host)
    {
      RunsAreSound(cat, states, events, k);
      assert StepAt(cat, states, events, k);
      StepMovesBalanceExactly(cat, states[k], events[k], host);
    }
    if forall k :: 0 <= k <= n ==> Available(states[k], host) >= 0.0 {
      forall k | 0 <= k < n ensures !FallsShort(cat, states[k], events[k], host) {
        assert Available(states[k + 1], host) >= 0.0;
      }
    } else if k :| 0 <= k <= n && Available(states[k], host) < 0.0 {
      assert k > 0 && FallsShort(cat, states[k - 1], events[k - 1], host);
    }
  }

  predicate NetsAreNonNegative(s: State, host: Id) {
    forall i :: 0 <= i < |s.bookings| && s.bookings[i].payment.host == host ==>
      NetAmount(s.bookings[i].payment.charges) >= 0.0
  }

  /** The event takes back more than the host has available. */
  predicate Overdraws(s: State, e: Event, host: Id) {
    exists i :: 0 <= i < |s.bookings| && TakesBack(s, e, i) && Earned(host, s.clock)(s.bookings[i]) > Available(s, host)
  }

  lemma {:induction false} RowsOnlyGain(cat: Catalogue, s: State, e: Event, i: nat, now: Time, host: Id)
    requires i < |s.bookings| && RowIsSound(cat, s.bookings[i], s.clock) && s.clock <= now
    requires NetsAreNonNegative(s, host) && !TakesBack(s, e, i)
    ensures RowChange(s, e, now, host, i) >= 0.0
  {
    var b := s.bookings[i];
    if b.payment.host == host {
      AccrualGrows(NetAmount(b.payment.charges), b.stay, s.clock, now);
      AccrualGrows(NetAmount(b.payment.charges), b.stay, now, now);
    }
  }

  lemma {:induction false} ChangesAddUp(cat: Catalogue, s: State, e: Event, now: Time, host: Id, n: nat)
    requires Sound(cat, s) && s.clock <= now && NetsAreNonNegative(s, host) && n <= |s.bookings|
    requires forall i :: 0 <= i < |s.bookings| ==> !TakesBack(s, e, i)
    ensures RowChanges(s, e, now, host, n) >= 0.0
  {
    if n > 0 {
      ChangesAddUp(cat, s, e, now, host, n - 1);
      RowsOnlyGain(cat, s, e, n - 1, now, host);
    }
  }

  lemma {:induction false} OtherStepsOnlyAdd(cat: Catalogue, s: State, e: Event, host: Id)
    requires Sound(cat, s) && NetsAreNonNegative(s, host)
    requires !e.Withdraw? && forall i :: 0 <= i < |s.bookings| ==> !TakesBack(s, e, i)
    ensures Available(s, host) <= Available(Step(cat, s, e), host)
  {
    StepFollows(cat, s, e);
    var now := Step(cat, s, e).clock;
    ChangesAddUp(cat, s, e, now, host, |s.bookings|);
    StepMovesBalanceExactly(cat, s, e, host);
  }

  lemma {:induction false} WithdrawalsKeepBalances(cat: Catalogue, s: State, e: Event, host: Id)
    requires e.Withdraw? && Available(s, host) >= 0.0
    ensures Available(Step(cat, s, e), host) >= 0.0 && !Overdraws(s, e, host)
  {
    WithdrawalEffect(s, e.host, e.amount, host);
  }

  lemma {:induction false} OnlyOneRowIsTakenBack(s: State, e: Event, i: nat, j: nat)
    requires TakesBack(s, e, i) && TakesBack(s, e, j)
    ensures i == j
  {
  }

  /**
   * For a host whose own nets are non-negative, a step keeps the balance from
   * going negative exactly when it does not take back more than is available.
   */
  lemma {:induction false} OnlyOverdrawsGoNegative(cat: Catalogue, s: State, e: Event, host: Id)
    requires Sound(cat, s) && NetsAreNonNegative(s, host) && Available(s, host) >= 0.0
    ensures Available(Step(cat, s, e), host) >= 0.0 <==> !Overdraws(s, e, host)
  {
    if e.Withdraw? {
      WithdrawalsKeepBalances(cat, s, e, host);
    } else if i :| 0 <= i < |s.bookings| && TakesBack(s, e, i) {
      TakingBackEffect(cat, s, e, i, host);
      forall j | 0 <= j < |s.bookings| && TakesBack(s, e, j) ensures j == i {
        OnlyOneRowIsTakenBack(s, e, i, j);
      }
    } else {
      OtherStepsOnlyAdd(cat, s, e, host);
    }
  }

  lemma {:induction false} NetsGoBack(
    cat: Catalogue, states: seq<State>, events: seq<Event>, k: nat, m: nat, host: Id)
    requires IsRun(cat, states, events) && k <= m < |states| && NetsAreNonNegative(states[m], host)
    ensures NetsAreNonNegative(states[k], host)
  {
    forall i | 0 <= i < |states[k].bookings| && states[k].bookings[i].payment.host == host
      ensures NetAmount(states[k].bookings[i].payment.charges) >= 0.0
    {
      RowsOnlyMoveForward(cat, states, events, k, m, i);
    }
  }

  lemma {:induction false} OverdrawsAtStep(
    cat: Catalogue, states: seq<State>, events: seq<Event>, k: nat, n: nat, host: Id)
    requires IsRun(cat, states, events) && k < n < |states| && NetsAreNonNegative(states[n], host)
    requires Available(states[k], host) >= 0.0
    ensures Available(states[k + 1], host) >= 0.0 <==> !Overdraws(states[k], events[k], host)
  {
    NetsGoBack(cat, states, events, k, n, host);
    RunsAreSound(cat, states, events, k);
    assert StepAt(cat, states, events, k);
    OnlyOverdrawsGoNegative(cat, states[k], events[k], host);
  }

  lemma {:induction false} CoveredUpTo(
    cat: Catalogue, states: seq<State>, events: seq<Event>, k: nat, n: nat, host: Id)
    requires IsRun(cat, states, events) && k <= n < |states| && NetsAreNonNegative(states[n], host)
    requires forall t :: 0 <= t < n ==> !Overdraws(states[t], events[t], host)
    ensures Available(states[k], host) >= 0.0
  {
    if k == 0 {
      NothingAvailableAtFirst(states[0].clock, host);
    } else {
      CoveredUpTo(cat, states, events, k - 1, n, host);
      OverdrawsAtStep(cat, states, events, k - 1, n, host);
    }
  }

  /**
   * Along a run, for a host whose own nets are non-negative, the balance is never
   * negative exactly when no step takes back more than is available.
   */
  lemma {:induction false} BalanceIsNeverNegative(
    cat: Catalogue, states: seq<State>, events: seq<Event>, n: nat, host: Id)
    requires IsRun(cat, states, events) && n < |states| && NetsAreNonNegative(states[n], host)
    ensures (forall k :: 0 <= k <= n ==> Available(states[k], host) >= 0.0)
            <==> forall k :: 0 <= k < n ==> !Overdraws(states[k], events[k], host)
  {
    NothingAvailableAtFirst(states[0].clock, host);
    forall k | 0 <= k < n && Available(states[k], host) >= 0.0
      ensures Available(states[k + 1], host) >= 0.0 <==> !Overdraws(states[k], events[k], host)
    {
      OverdrawsAtStep(cat, states, events, k, n, host);
    }
    if forall k :: 0 <= k < n ==> !Overdraws(states[k], events[k], host) {
      forall k | 0 <= k <= n ensures Available(states[k], host) >= 0.0 {
        CoveredUpTo(cat, states, events, k, n, host);
      }
    } else if k :| 0 <= k < n && Overdraws(states[k], events[k], host) {
      assert Available(states[k], host) >= 0.0 ==> Available(states[k + 1], host) < 0.0;
    }
  }

  /** The event cancels a paid booking of the host or sets its payment back. */
  predicate TakesBackPaid(s: State, e: Event, host: Id) {
    exists i :: 0 <= i < |s.bookings| && TakesBack(s, e, i)
                && s.bookings[i].Paid() && s.bookings[i].payment.host == host
  }

  lemma {:induction false} UnpaidRowsHaveNothingToTake(s: State, e: Event, host: Id)
    requires Available(s, host) >= 0.0
    requires !TakesBackPaid(s, e, host)
    ensures !Overdraws(s, e, host)
  {
    forall i | 0 <= i < |s.bookings| && TakesBack(s, e, i) ensures Earned(host, s.clock)(s.bookings[i]) == 0.0 {
      EarnedOnRow(host, s.clock, s.bookings[i]);
    }
  }

  /** In particular when no paid booking of the host is cancelled and no completed payment falls back to pending. */
  lemma {:induction false} BalanceWithoutTakingBack(
    cat: Catalogue, states: seq<State>, events: seq<Event>, k: nat, host: Id)
    requires IsRun(cat, states, events) && k < |states| && NetsAreNonNegative(states[k], host)
    requires forall t :: 0 <= t < k ==> !TakesBackPaid(states[t], events[t], host)
    ensures Available(states[k], host) >= 0.0
  {
    if k == 0 {
      NothingAvailableAtFirst(states[0].clock, host);
    } else {
      NetsGoBack(cat, states, events, k - 1, k, host);
      BalanceWithoutTakingBack(cat, states, events, k - 1, host);
      UnpaidRowsHaveNothingToTake(states[k - 1], events[k - 1], host);
      OverdrawsAtStep(cat, states, events, k - 1, k, host);
    }
  }

  // ---------- Deposits and revenue ----------

  function Deposited(host: Id): Booking -> real {
    (b: Booking) => if b.payment.host == host && b.Paid() then NetAmount(b.payment.charges) else 0.0
  }

  lemma {:induction false} DepositsOverTheTable(s: State, host: Id)
    ensures Total(Ledger(s, host), DepositOf()) == Total(s.bookings, Deposited(host))
  {
    forall b: Booking
      ensures Deposited(host)(b) == if HostedBy(host)(b) then DepositOf()(LedgerOfBooking(b)) else 0.0
    {
      var p := LedgerOfBooking(b);
      assert DepositOf()(p) == if b.Paid() then NetAmount(b.payment.charges) else 0.0;
    }
    LedgerTotal(s, host, DepositOf(), Deposited(host), (w: Withdrawal) => 0.0);
    TotalOfSign(s.withdrawals, (w: Withdrawal) => 0.0);
  }

  function RevenueFor(host: Id): Booking -> real {
    (b: Booking) => if b.payment.host == host then RevenueOf()(b) else 0.0
  }

  /** Money that came in for bookings that were cancelled afterwards. */
  function PaidButCancelled(host: Id): Booking -> real {
    (b: Booking) =>
      if b.payment.host == host && b.Paid() && b.status.Cancelled? then NetAmount(b.payment.charges) else 0.0
  }

  /** Revenue reported for bookings whose payment was set back. */
  function ReportedButUnpaid(host: Id): Booking -> real {
    (b: Booking) =>
      if b.payment.host == host && !b.Paid() && b.status.PastPending() then NetAmount(b.payment.charges) else 0.0
  }

  function OfProperty(property: Id): Booking -> bool {
    (b: Booking) => b.property == property
  }

  /** The revenue report, one property at a time. */
  function ReportedRevenue(bookings: seq<Booking>, properties: seq<Id>): real {
    if properties == [] then 0.0
    else ReportedRevenue(bookings, properties[..|properties| - 1])
         + Total(Map(Select(bookings, OfProperty(properties[|properties| - 1])), (b: Booking) => b), RevenueOf())
  }

  function RevenueWithin(properties: seq<Id>): Booking -> real {
    (b: Booking) => if b.property in properties then RevenueOf()(b) else 0.0
  }

  lemma {:induction false} ReportsAddUp(bookings: seq<Booking>, properties: seq<Id>)
    requires Credits.Distinct(properties)
    ensures ReportedRevenue(bookings, properties) == Total(bookings, RevenueWithin(properties))
  {
    if properties == [] {
      TotalOfSign(bookings, RevenueWithin(properties));
    } else {
      var init, last := properties[..|properties| - 1], properties[|properties| - 1];
      var one := (b: Booking) => if b.property == last then RevenueOf()(b) else 0.0;
      ReportsAddUp(bookings, init);
      TotalSelected(bookings, OfProperty(last), (b: Booking) => b, RevenueOf(), one);
      assert properties == init + [last];
      TotalPlus(bookings, RevenueWithin(properties), RevenueWithin(init), one);
    }
  }

  predicate ListsPropertiesOf(cat: Catalogue, host: Id, properties: seq<Id>) {
    && Credits.Distinct(properties)
    && forall p :: p in cat.properties ==> (p in properties <==> cat.properties[p].host == host)
  }

  lemma {:induction false} ReportCoversTheHost(cat: Catalogue, s: State, host: Id, properties: seq<Id>)
    requires Sound(cat, s) && ListsPropertiesOf(cat, host, properties)
    ensures ReportedRevenue(s.bookings, properties) == Total(s.bookings, RevenueFor(host))
  {
    ReportsAddUp(s.bookings, properties);
    forall i | 0 <= i < |s.bookings|
      ensures RevenueWithin(properties)(s.bookings[i]) == RevenueFor(host)(s.bookings[i])
    {
      assert RowIsSound(cat, s.bookings[i], s.clock);
    }
    TotalSame(s.bookings, RevenueWithin(properties), s.bookings, RevenueFor(host));
  }

  lemma {:induction false} RowBalances(now: Time, host: Id, b: Booking)
    requires Settle(now, b) == b
    ensures Deposited(host)(b) + ReportedButUnpaid(host)(b) == RevenueFor(host)(b) + PaidButCancelled(host)(b)
  {
    assert RevenueOf()(b) == if b.status.PastPending() then NetAmount(b.payment.charges) else 0.0;
  }

  lemma {:induction false} RowsBalance(s: State, host: Id)
    requires Settled(s)
    ensures Total(s.bookings, Deposited(host)) + Total(s.bookings, ReportedButUnpaid(host))
            == Total(s.bookings, RevenueFor(host)) + Total(s.bookings, PaidButCancelled(host))
  {
    var both := (b: Booking) => Deposited(host)(b) + ReportedButUnpaid(host)(b);
    TotalPlus(s.bookings, both, Deposited(host), ReportedButUnpaid(host));
    forall i | 0 <= i < |s.bookings|
      ensures both(s.bookings[i]) == RevenueFor(host)(s.bookings[i]) + PaidButCancelled(host)(s.bookings[i])
    {
      RowBalances(s.clock, host, s.bookings[i]);
    }
    TotalPlus(s.bookings, both, RevenueFor(host), PaidButCancelled(host));
  }

  /**
   * In every settled state of every run, the wallet and the revenue report of a
   * host differ by what was paid for cancelled bookings and by what is reported
   * for bookings whose payment was set back, and by nothing else.
   */
  lemma {:induction false} DepositsBalanceRevenue(
    cat: Catalogue, states: seq<State>, events: seq<Event>, k: nat, host: Id, properties: seq<Id>)
    requires IsRun(cat, states, events) && k < |states| && Settled(states[k])
    requires ListsPropertiesOf(cat, host, properties)
    ensures Total(Ledger(states[k], host), DepositOf()) + Total(states[k].bookings, ReportedButUnpaid(host))
            == ReportedRevenue(states[k].bookings, properties) + Total(states[k].bookings, PaidButCancelled(host))
  {
    RunsAreSound(cat, states, events, k);
    ReportCoversTheHost(cat, states[k], host, properties);
    DepositsOverTheTable(states[k], host);
    RowsBalance(states[k], host);
  }

  /** The wallet balance is what was paid for the host's bookings less what the host took out. */
  lemma {:induction false} WalletIsDepositedLessTakenOut(s: State, host: Id)
    ensures WalletBalance(Ledger(s, host)) == Total(s.bookings, Deposited(host)) - Total(s.withdrawals, TakenOut(host))
  {
    DepositsOverTheTable(s, host);
    LedgerTotal(s, host, WithdrawnOf(), (b: Booking) => 0.0, TakenOut(host));
    TotalOfSign(s.bookings, (b: Booking) => 0.0);
  }

  /** The wallet against the revenue report, in every settled state of every run. */
  lemma {:induction false} WalletBalancesRevenue(
    cat: Catalogue, states: seq<State>, events: seq<Event>, k: nat, host: Id, properties: seq<Id>)
    requires IsRun(cat, states, events) && k < |states| && Settled(states[k])
    requires ListsPropertiesOf(cat, host, properties)
    ensures WalletBalance(Ledger(states[k], host)) + Total(states[k].withdrawals, TakenOut(host))
            == ReportedRevenue(states[k].bookings, properties) + Total(states[k].bookings, PaidButCancelled(host))
               - Total(states[k].bookings, ReportedButUnpaid(host))
  {
    DepositsBalanceRevenue(cat, states, events, k, host, properties);
    WalletIsDepositedLessTakenOut(states[k], host);
    DepositsOverTheTable(states[k], host);
  }

  function NotYetEarned(host: Id, now: Time): Booking -> real {
    (b: Booking) =>
      if b.payment.host != host || !b.Paid() then 0.0
      else if IsEarningRow(b) then NetAmount(b.payment.charges) - Accrual(NetAmount(b.payment.charges), b.stay, now)
      else NetAmount(b.payment.charges)
  }

  /** The two balances of a wallet differ by what each paid booking has not earned yet, row by row. */
  lemma {:induction false} WalletExceedsAvailableRowByRow(s: State, host: Id)
    ensures WalletBalance(Ledger(s, host)) == Available(s, host) + Total(s.bookings, NotYetEarned(host, s.clock))
  {
    WalletIsDepositedLessTakenOut(s, host);
    AvailableIsEarnedLessTakenOut(s, host);
    forall i | 0 <= i < |s.bookings|
      ensures Deposited(host)(s.bookings[i])
              == Earned(host, s.clock)(s.bookings[i]) + NotYetEarned(host, s.clock)(s.bookings[i])
    {
      EarnedOnRow(host, s.clock, s.bookings[i]);
    }
    TotalPlus(s.bookings, Deposited(host), Earned(host, s.clock), NotYetEarned(host, s.clock));
  }

  lemma {:induction false} RowStaysPaid(s: State, e: Event, i: nat)
    requires i < |s.bookings| && !Reverts(s, e, i)
    requires s.bookings[i].status.PastPending() ==> s.bookings[i].Paid()
    ensures NextRow(s, e, i).status.PastPending() ==> NextRow(s, e, i).Paid()
  {
  }

  /** Without reversals, a booking that has left PENDING and was not cancelled is paid. */
  lemma {:induction false} PastPendingIsPaid(cat: Catalogue, states: seq<State>, events: seq<Event>, k: nat, i: nat)
    requires IsRun(cat, states, events) && k < |states| && i < |states[k].bookings|
    requires forall t :: 0 <= t < k ==> !Reverts(states[t], events[t], i)
    ensures states[k].bookings[i].status.PastPending() ==> states[k].bookings[i].Paid()
  {
    TakeStep(cat, states, events, k - 1);
    if i < |states[k - 1].bookings| {
      PastPendingIsPaid(cat, states, events, k - 1, i);
      RowStaysPaid(states[k - 1], events[k - 1], i);
    }
  }

  lemma {:induction false} DepositsAreRevenuePlusCancelled(
    cat: Catalogue, states: seq<State>, events: seq<Event>, k: nat, host: Id, properties: seq<Id>)
    requires IsRun(cat, states, events) && k < |states| && Settled(states[k])
    requires ListsPropertiesOf(cat, host, properties)
    requires forall t, i :: 0 <= t < k && 0 <= i < |states[t].bookings| ==> !Reverts(states[t], events[t], i)
    ensures Total(Ledger(states[k], host), DepositOf())
            == ReportedRevenue(states[k].bookings, properties) + Total(states[k].bookings, PaidButCancelled(host))
  {
    DepositsBalanceRevenue(cat, states, events, k, host, properties);
    forall i | 0 <= i < |states[k].bookings| ensures ReportedButUnpaid(host)(states[k].bookings[i]) == 0.0 {
      forall t | 0 <= t < k ensures !Reverts(states[t], events[t], i) {
        if i < |states[t].bookings| {
          assert !Reverts(states[t], events[t], i);
        }
      }
      PastPendingIsPaid(cat, states, events, k, i);
    }
    TotalOfSign(states[k].bookings, ReportedButUnpaid(host));
  }

  // ---------- The office ----------

  /** What the office shows for a request of this date. */
  function ShownByOffice(s: State, host: Id, requested: Time): real {
    OfficeBalance(Ledger(s, host), requested, s.clock)
  }

  /** What the wallet makes of the rows created before the request. */
  function AvailableBefore(s: State, host: Id, requested: Time): real {
    AvailableBalance(Select(Ledger(s, host), CreatedBefore(requested)), s.clock)
  }

  predicate IsUpcomingRow(b: Booking, host: Id, requested: Time) {
    b.payment.host == host && b.Paid() && b.status.PaidPending? && b.payment.createdAt < requested
  }

  function UpcomingBefore(host: Id, requested: Time, now: Time): Booking -> real {
    (b: Booking) =>
      if IsUpcomingRow(b, host, requested) then Accrual(NetAmount(b.payment.charges), b.stay, now) else 0.0
  }

  function EarnedSince(host: Id, requested: Time, now: Time): Booking -> real {
    (b: Booking) =>
      if b.payment.host == host && requested <= b.payment.createdAt then EarnedBy(now)(LedgerOfBooking(b)) else 0.0
  }

  function TakenOutSince(host: Id, requested: Time): Withdrawal -> real {
    (w: Withdrawal) => if w.host == host && requested <= w.createdAt then PaidOut(w.charges) else 0.0
  }

  lemma {:induction false} OfficeTotals(s: State, host: Id, requested: Time)
    ensures Total(Ledger(s, host), Early(requested, UpcomingBy(s.clock)))
            == Total(s.bookings, UpcomingBefore(host, requested, s.clock))
    ensures Total(Ledger(s, host), Late(requested, EarnedBy(s.clock)))
            == Total(s.bookings, EarnedSince(host, requested, s.clock))
    ensures Total(Ledger(s, host), Late(requested, WithdrawnOf()))
            == Total(s.withdrawals, TakenOutSince(host, requested))
  {
    var noBooking, noWithdrawal := (b: Booking) => 0.0, (w: Withdrawal) => 0.0;
    TotalOfSign(s.bookings, noBooking);
    TotalOfSign(s.withdrawals, noWithdrawal);
    LedgerTotal(s, host, Early(requested, UpcomingBy(s.clock)), UpcomingBefore(host, requested, s.clock), noWithdrawal);
    LedgerTotal(s, host, Late(requested, EarnedBy(s.clock)), EarnedSince(host, requested, s.clock), noWithdrawal);
    LedgerTotal(s, host, Late(requested, WithdrawnOf()), noBooking, TakenOutSince(host, requested));
  }

  /**
   * How far the office is from the wallet, for any request date: it still holds
   * what was paid out since, and misses what bookings made since have earned. It
   * shows no more than the wallet exactly when the former, with the accrual of
   * earlier upcoming stays, is at most the latter.
   */
  lemma {:induction false} OfficeDiffersExactly(s: State, host: Id, requested: Time)
    ensures var upcoming := Total(s.bookings, UpcomingBefore(host, requested, s.clock));
            var paidOut := Total(s.withdrawals, TakenOutSince(host, requested));
            var earned := Total(s.bookings, EarnedSince(host, requested, s.clock));
            && ShownByOffice(s, host, requested) == Available(s, host) + upcoming + paidOut - earned
            && (ShownByOffice(s, host, requested) <= Available(s, host) <==> paidOut + upcoming <= earned)
  {
    OfficeTotals(s, host, requested);
    OfficeCountsUpcomingOnTop(Ledger(s, host), requested, s.clock);
  }

  /**
   * The office reads the date of a request from its own row. It shows what it
   * showed before the withdrawal, so afterwards it shows more than the wallet
   * exactly when it was short of the wallet by less than the withdrawal took.
   */
  lemma {:induction false} OfficeAtTheRequest(s: State, host: Id, amount: real)
    requires TakeOut(s, host, amount).Ok?
    ensures var s' := TakeOut(s, host, amount).value;
            var requested := s'.withdrawals[|s.withdrawals|].createdAt;
            && ShownByOffice(s', host, requested) == ShownByOffice(s, host, requested)
            && (ShownByOffice(s', host, requested) > Available(s', host)
                <==> Available(s, host) - ShownByOffice(s, host, requested) < Abs(amount) - 3226.0)
  {
    var s' := TakeOut(s, host, amount).value;
    var added := s'.withdrawals[|s.withdrawals|];
    assert s'.withdrawals[..|s.withdrawals|] == s.withdrawals;
    assert Total(s'.withdrawals, TakenOutSince(host, s.clock))
           == Total(s.withdrawals, TakenOutSince(host, s.clock)) + TakenOutSince(host, s.clock)(added);
    WithdrawalEffect(s, host, amount, host);
    assert TakenOutSince(host, s.clock)(added) == Abs(amount) - 3226.0;
    OfficeDiffersExactly(s, host, s.clock);
    OfficeDiffersExactly(s', host, s.clock);
  }

  predicate WorthlessOrSoon(b: Booking, now: Time) {
    NetAmount(b.payment.charges) == 0.0 || b.stay.checkIn < now + DAY_IN_MILLIS
  }

  lemma {:induction false} UpcomingComesFrom(s: State, host: Id, requested: Time, i: nat) returns (j: nat)
    requires Settled(s) && NetsAreNonNegative(s, host)
    requires i < |Ledger(s, host)| && IsEarlyUpcoming(Ledger(s, host)[i], requested)
    ensures j < |s.bookings| && IsUpcomingRow(s.bookings[j], host, requested)
    ensures Ledger(s, host)[i] == LedgerOfBooking(s.bookings[j])
    ensures s.clock < s.bookings[j].stay.checkIn && NetAmount(s.bookings[j].payment.charges) >= 0.0
  {
    var hosted := Select(s.bookings, HostedBy(host));
    assert i < |hosted|;
    SelectMembers(s.bookings, HostedBy(host));
    assert hosted[i] in s.bookings;
    j :| 0 <= j < |s.bookings| && s.bookings[j] == hosted[i];
    assert Settle(s.clock, s.bookings[j]) == s.bookings[j];
  }

  lemma {:induction false} HostedRowIsListed(s: State, host: Id, j: nat) returns (i: nat)
    requires j < |s.bookings| && s.bookings[j].payment.host == host
    ensures i < |Ledger(s, host)| && Ledger(s, host)[i] == LedgerOfBooking(s.bookings[j])
  {
    var hosted := Select(s.bookings, HostedBy(host));
    SelectMembers(s.bookings, HostedBy(host));
    assert s.bookings[j] in hosted;
    i :| 0 <= i < |hosted| && hosted[i] == s.bookings[j];
  }

  /**
   * In a settled state, and for any request date, the office shows at most what
   * the wallet makes of the rows before the request, and the same exactly when
   * each upcoming paid stay among them is worthless or begins within a day.
   */
  lemma {:induction false} OfficeAgainstWallet(s: State, host: Id, requested: Time)
    requires Settled(s) && NetsAreNonNegative(s, host)
    ensures ShownByOffice(s, host, requested) <= AvailableBefore(s, host, requested)
    ensures ShownByOffice(s, host, requested) == AvailableBefore(s, host, requested) <==>
            forall i :: 0 <= i < |s.bookings| && IsUpcomingRow(s.bookings[i], host, requested) ==>
              WorthlessOrSoon(s.bookings[i], s.clock)
  {
    var rows := Ledger(s, host);
    forall i | 0 <= i < |rows| && IsEarlyUpcoming(rows[i], requested)
      ensures s.clock < rows[i].booking.value.stay.checkIn && NetAmount(rows[i].charges) >= 0.0
    {
      var j := UpcomingComesFrom(s, host, requested, i);
    }
    OfficeNeverExceedsAvailable(rows, requested, s.clock);
    if forall i :: 0 <= i < |s.bookings| && IsUpcomingRow(s.bookings[i], host, requested) ==>
         WorthlessOrSoon(s.bookings[i], s.clock) {
      forall i | 0 <= i < |rows| && IsEarlyUpcoming(rows[i], requested)
        ensures NetAmount(rows[i].charges) == 0.0 || rows[i].booking.value.stay.checkIn < s.clock + DAY_IN_MILLIS
      {
        var j := UpcomingComesFrom(s, host, requested, i);
      }
    } else {
      var j :| 0 <= j < |s.bookings| && IsUpcomingRow(s.bookings[j], host, requested)
               && !WorthlessOrSoon(s.bookings[j], s.clock);
      var i := HostedRowIsListed(s, host, j);
      assert IsEarlyUpcoming(rows[i], requested);
    }
  }
}
