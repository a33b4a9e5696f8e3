/**
 * What a host has earned: the wallet (`src/utils/wallet-utils.ts`), the office's
 * second version of the same fold (`src/utils/payment-utils.ts`) and the revenue
 * report (`src/utils/property-utils.ts`).
 */
module Earnings {
  import opened Wrappers
  import opened Dates
  import opened Entities
  import opened Quotes
  import opened Totals

  /** The booking columns joined to a payment; `listed` says that its property was found too. */
  datatype LedgerBooking = LedgerBooking(status: BookingStatus, stay: Stay, listed: bool)

  /** One payment of a host, with its booking when it has one. */
  datatype LedgerRow = LedgerRow(
    kind: PaymentType,
    status: PaymentStatus,
    charges: Charges,
    booking: Option<LedgerBooking>,
    createdAt: Time)

  datatype WalletBalances = WalletBalances(walletBalance: real, availableBalance: real)

  datatype LedgerError = DepositWithoutBooking

  // ---------- What one row contributes ----------

  function NightsOf(stay: Stay): (nights: int)
    ensures nights >= 1
  {
    NumberOfNights(stay.checkIn, stay.checkOut)
  }

  /** Nights the host has earned by `today`. */
  function NightsSoFar(stay: Stay, today: Time): int {
    if stay.checkOut > today then NumberOfNights(stay.checkIn, today) else NightsOf(stay)
  }

  /** What one night brings, after the two percent. */
  function Nightly(net: real, stay: Stay): real {
    0.98 * (net / NightsOf(stay) as real)
  }

  function Times(daily: real, nights: int): real {
    daily * nights as real
  }

  /** The share of a net price that has become available by `today`. */
  function Accrual(net: real, stay: Stay, today: Time): real {
    Times(Nightly(net, stay), NightsSoFar(stay, today))
  }

  predicate IsDeposit(p: LedgerRow) {
    p.kind.BookingPayment? && p.status.Completed?
  }

  predicate IsEarning(p: LedgerRow) {
    && IsDeposit(p)
    && p.booking.Some? && p.booking.value.listed
    && (p.booking.value.status.Finished? || p.booking.value.status.Processing?)
  }

  function EarnedBy(today: Time): LedgerRow -> real {
    (p: LedgerRow) => if IsEarning(p) then Accrual(NetAmount(p.charges), p.booking.value.stay, today) else 0.0
  }

  function DepositOf(): LedgerRow -> real {
    (p: LedgerRow) => if IsDeposit(p) then NetAmount(p.charges) else 0.0
  }

  /** A withdrawal is stored as a negative amount next to positive fees. */
  function PaidOut(c: Charges): real {
    -(c.amount + c.vat as real + c.transactionFee as real)
  }

  function WithdrawnOf(): LedgerRow -> real {
    (p: LedgerRow) => if p.kind.WithdrawalPayment? then PaidOut(p.charges) else 0.0
  }

  function AvailableBalance(payments: seq<LedgerRow>, today: Time): real {
    Total(payments, EarnedBy(today)) - Total(payments, WithdrawnOf())
  }

  function WalletBalance(payments: seq<LedgerRow>): real {
    Total(payments, DepositOf()) - Total(payments, WithdrawnOf())
  }

  // ---------- Arithmetic of one stay ----------

  /** Elapsed nights never exceed booked nights, and never shrink as time passes. */
  lemma {:induction false} NightsSoFarAreBounded(stay: Stay, today: Time, later: Time)
    requires today <= later
    ensures NightsSoFar(stay, today) <= NightsSoFar(stay, later) <= NightsOf(stay)
    ensures stay.checkIn <= today ==> NightsSoFar(stay, today) >= 0
    ensures today < stay.checkIn ==> NightsSoFar(stay, today) <= 0
  {
  }

  lemma {:induction false} ScaleIsMonotone(daily: real, nights: int, moreNights: int)
    requires 0.0 <= daily
    ensures nights <= moreNights ==> Times(daily, nights) <= Times(daily, moreNights)
    ensures 0 <= nights ==> 0.0 <= Times(daily, nights)
    ensures nights <= 0 ==> Times(daily, nights) <= 0.0
  {
  }

  lemma {:induction false} AllNightsBringTheNet(net: real, stay: Stay)
    ensures Times(Nightly(net, stay), NightsOf(stay)) == 0.98 * net
    ensures 0.0 <= net ==> 0.0 <= Nightly(net, stay)
    ensures net == 0.0 <==> Nightly(net, stay) == 0.0
  {
  }

  lemma {:induction false} AccrualIsMonotone(net: real, stay: Stay, today: Time, later: Time)
    requires 0.0 <= net && today <= later
    ensures Accrual(net, stay, today) <= Accrual(net, stay, later)
  {
    NightsSoFarAreBounded(stay, today, later);
    AllNightsBringTheNet(net, stay);
    ScaleIsMonotone(Nightly(net, stay), NightsSoFar(stay, today), NightsSoFar(stay, later));
  }

  lemma {:induction false} AccrualIsBounded(net: real, stay: Stay, today: Time)
    requires 0.0 <= net
    ensures Accrual(net, stay, today) <= 0.98 * net
  {
    NightsSoFarAreBounded(stay, today, today);
    AllNightsBringTheNet(net, stay);
    ScaleIsMonotone(Nightly(net, stay), NightsSoFar(stay, today), NightsOf(stay));
  }

  lemma {:induction false} AccrualHasTheSignOfTime(net: real, stay: Stay, today: Time)
    requires 0.0 <= net
    ensures stay.checkIn <= today ==> 0.0 <= Accrual(net, stay, today)
    ensures today < stay.checkIn ==> Accrual(net, stay, today) <= 0.0
  {
    NightsSoFarAreBounded(stay, today, today);
    AllNightsBringTheNet(net, stay);
    ScaleIsMonotone(Nightly(net, stay), NightsSoFar(stay, today), NightsSoFar(stay, today));
  }

  lemma {:induction false} AccrualGrows(net: real, stay: Stay, today: Time, later: Time)
    requires 0.0 <= net && today <= later
    ensures Accrual(net, stay, today) <= Accrual(net, stay, later) <= 0.98 * net
    ensures stay.checkIn <= today ==> 0.0 <= Accrual(net, stay, today)
    ensures today < stay.checkIn ==> Accrual(net, stay, today) <= 0.0
  {
    AccrualIsMonotone(net, stay, today, later);
    AccrualIsBounded(net, stay, later);
    AccrualHasTheSignOfTime(net, stay, today);
  }

  /** Before the stay begins the accrual is zero only during the last day, or for a worthless stay. */
  lemma {:induction false} EarlyAccrualIsZeroExactly(net: real, stay: Stay, today: Time)
    requires 0.0 <= net && today < stay.checkIn
    ensures Accrual(net, stay, today) == 0.0 <==> net == 0.0 || stay.checkIn < today + DAY_IN_MILLIS
  {
    AllNightsBringTheNet(net, stay);
    NightsArePositiveExactlyWhenLater(stay.checkIn, today);
  }

  lemma {:induction false} ShareOfNights(net: real, nights: real, k: real)
    requires nights >= 1.0
    ensures (0.98 * (net / nights)) * k * nights == 0.98 * net * k
  {
  }

  /** Night by night: during the k-th day the host has k of the booked nights at 98%, and after it all of them. */
  lemma {:induction false} AccrualIsNightly(net: real, stay: Stay, today: Time, k: int)
    requires stay.checkIn + (k - 1) * DAY_IN_MILLIS < today <= stay.checkIn + k * DAY_IN_MILLIS
    ensures today < stay.checkOut ==>
              Accrual(net, stay, today) * NumberOfNights(stay.checkIn, stay.checkOut) as real == 0.98 * net * k as real
    ensures stay.checkOut <= today ==> Accrual(net, stay, today) == 0.98 * net
  {
    AllNightsBringTheNet(net, stay);
    ShareOfNights(net, NightsOf(stay) as real, k as real);
    if today < stay.checkOut {
      assert NightsSoFar(stay, today) == k;
      assert Accrual(net, stay, today) == (0.98 * (net / NightsOf(stay) as real)) * k as real;
    }
  }

  // ---------- The wallet ----------

  /** What a deposit holds that is not available yet: all until the stay is promoted, then what has not accrued. */
  function NotYetAvailable(today: Time): LedgerRow -> real {
    (p: LedgerRow) =>
      if !(p.kind.BookingPayment? && p.status.Completed?) then 0.0
      else if IsEarning(p) then NetAmount(p.charges) - Accrual(NetAmount(p.charges), p.booking.value.stay, today)
      else NetAmount(p.charges)
  }

  /** The exact gap between the two balances of a wallet. */
  lemma {:induction false} WalletExceedsAvailableBy(payments: seq<LedgerRow>, today: Time)
    ensures WalletBalance(payments) == AvailableBalance(payments, today) + Total(payments, NotYetAvailable(today))
  {
    TotalPlus(payments, DepositOf(), EarnedBy(today), NotYetAvailable(today));
  }

  /** A host can never withdraw more than the stays are worth: accrual stays below deposits row by row. */
  lemma {:induction false} AvailableNeverExceedsWallet(payments: seq<LedgerRow>, today: Time)
    requires forall i :: 0 <= i < |payments| && IsDeposit(payments[i]) ==> NetAmount(payments[i].charges) >= 0.0
    ensures AvailableBalance(payments, today) <= WalletBalance(payments)
  {
    forall i | 0 <= i < |payments| ensures EarnedBy(today)(payments[i]) <= DepositOf()(payments[i]) {
      if IsEarning(payments[i]) {
        AccrualGrows(NetAmount(payments[i].charges), payments[i].booking.value.stay, today, today);
      }
    }
    TotalDominated(payments, EarnedBy(today), payments, DepositOf());
  }

  /** Nets a stored amount column by column; a null or zero column takes nothing off. */
  method SubtractCharges(c: Charges) returns (net: real)
    ensures net == NetAmount(c)
  {
    net := c.amount - c.transactionFee as real - c.vat as real;
    if c.credits.Some? && c.credits.value != 0.0 {
      net := net - c.credits.value;
    }
    if c.cautionFee.Some? && c.cautionFee.value != 0 {
      net := net - c.cautionFee.value as real;
    }
  }

  lemma {:induction false} KeepsNinetyEightPercent(dailyPrice: real, days: real)
    ensures days * dailyPrice - dailyPrice * days * 0.02 == 0.98 * dailyPrice * days
  {
  }

  /** The earned nights of one stay at its daily price, less two percent. */
  method AccrueStay(c: Charges, stay: Stay, today: Time) returns (earned: real)
    ensures earned == Accrual(NetAmount(c), stay, today)
  {
    var net := SubtractCharges(c);
    var totalDays := NumberOfNights(stay.checkIn, stay.checkOut);
    var dailyPrice := net / totalDays as real;
    var days := if stay.checkOut > today then NumberOfNights(stay.checkIn, today) else totalDays;
    earned := days as real * dailyPrice - dailyPrice * days as real * 0.02;
    KeepsNinetyEightPercent(dailyPrice, days as real);
  }

  method SumEarnings(payments: seq<LedgerRow>, today: Time) returns (available: real)
    ensures available == Total(payments, EarnedBy(today))
  {
    available := 0.0;
    for i := 0 to |payments|
      invariant available == Total(payments[..i], EarnedBy(today))
    {
      var p := payments[i];
      if p.booking.Some? && p.booking.value.listed && p.status.Completed? && p.kind.BookingPayment?
         && (p.booking.value.status.Finished? || p.booking.value.status.Processing?) {
        var earned := AccrueStay(p.charges, p.booking.value.stay, today);
        available := available + earned;
      }
      assert payments[..i + 1][..i] == payments[..i];
    }
    assert payments[..|payments|] == payments;
  }

  method SumWithdrawals(payments: seq<LedgerRow>) returns (totalWithdrawals: real)
    ensures totalWithdrawals == Total(payments, WithdrawnOf())
  {
    totalWithdrawals := 0.0;
    for i := 0 to |payments|
      invariant totalWithdrawals == Total(payments[..i], WithdrawnOf())
    {
      var p := payments[i];
      if p.kind.WithdrawalPayment? {
        totalWithdrawals :=
          totalWithdrawals - (p.charges.amount + p.charges.vat as real + p.charges.transactionFee as real);
      }
      assert payments[..i + 1][..i] == payments[..i];
    }
    assert payments[..|payments|] == payments;
  }

  method ApplyWithdrawals(payments: seq<LedgerRow>, today: Time) returns (r: Result<WalletBalances, LedgerError>)
    ensures r.Err? <==> exists i :: 0 <= i < |payments| && IsDeposit(payments[i]) && payments[i].booking.None?
    ensures r.Ok? ==> r.value == WalletBalances(WalletBalance(payments), AvailableBalance(payments, today))
  {
    var available := SumEarnings(payments, today);
    var totalWithdrawals := SumWithdrawals(payments);
    var totalDeposits := 0.0;
    for i := 0 to |payments|
      invariant totalDeposits == Total(payments[..i], DepositOf())
      invariant forall j :: 0 <= j < i && IsDeposit(payments[j]) ==> payments[j].booking.Some?
    {
      var p := payments[i];
      if p.kind.BookingPayment? && p.status.Completed? {
        if p.booking.None? {
          return Err(DepositWithoutBooking);
        }
        var nightsSpent := NumberOfNights(p.booking.value.stay.checkIn, p.booking.value.stay.checkOut);
        var net := SubtractCharges(p.charges);
        var dailyPrice := net / nightsSpent as real;
        totalDeposits := totalDeposits + dailyPrice * nightsSpent as real;
      }
      assert payments[..i + 1][..i] == payments[..i];
    }
    assert payments[..|payments|] == payments;
    return Ok(WalletBalances(totalDeposits - totalWithdrawals, available - totalWithdrawals));
  }

  // ---------- The office ----------

  /** The office also counts bookings that are paid but have not begun. */
  predicate CountsForOffice(p: LedgerRow, requested: Time) {
    && IsDeposit(p) && p.createdAt < requested
    && p.booking.Some? && p.booking.value.listed
    && p.booking.value.status.PastPending()
  }

  function OfficeEarnedBy(requested: Time, today: Time): LedgerRow -> real {
    (p: LedgerRow) =>
      if CountsForOffice(p, requested) then Accrual(NetAmount(p.charges), p.booking.value.stay, today) else 0.0
  }

  function OfficeWithdrawnBy(requested: Time): LedgerRow -> real {
    (p: LedgerRow) => if p.kind.WithdrawalPayment? && p.createdAt < requested then PaidOut(p.charges) else 0.0
  }

  function OfficeBalance(payments: seq<LedgerRow>, requested: Time, today: Time): real {
    Total(payments, OfficeEarnedBy(requested, today)) - Total(payments, OfficeWithdrawnBy(requested))
  }

  predicate IsUpcoming(p: LedgerRow) {
    IsDeposit(p) && p.booking.Some? && p.booking.value.listed && p.booking.value.status.PaidPending?
  }

  /** The accrual the office computes for stays that have not begun. */
  function UpcomingBy(today: Time): LedgerRow -> real {
    (p: LedgerRow) => if IsUpcoming(p) then Accrual(NetAmount(p.charges), p.booking.value.stay, today) else 0.0
  }

  function CreatedBefore(requested: Time): LedgerRow -> bool {
    (p: LedgerRow) => p.createdAt < requested
  }

  function Early(requested: Time, f: LedgerRow -> real): LedgerRow -> real {
    (p: LedgerRow) => if p.createdAt < requested then f(p) else 0.0
  }

  function Late(requested: Time, f: LedgerRow -> real): LedgerRow -> real {
    (p: LedgerRow) => if p.createdAt < requested then 0.0 else f(p)
  }

  lemma {:induction false} EarlyAndLate(payments: seq<LedgerRow>, requested: Time, f: LedgerRow -> real)
    ensures Total(payments, f) == Total(payments, Early(requested, f)) + Total(payments, Late(requested, f))
    ensures Total(Select(payments, CreatedBefore(requested)), f) == Total(payments, Early(requested, f))
  {
    TotalPlus(payments, f, Early(requested, f), Late(requested, f));
    var same := (p: LedgerRow) => p;
    TotalSelected(payments, CreatedBefore(requested), same, f, Early(requested, f));
    assert Map(Select(payments, CreatedBefore(requested)), same) == Select(payments, CreatedBefore(requested));
  }

  /**
   * For any list of payments and any request date, the row of the request itself
   * included: the office shows what was available of the rows before the request,
   * and the accrual of earlier upcoming stays on top. Against all rows, payouts
   * since the request stay in, and earnings from later rows stay out.
   */
  lemma {:induction false} OfficeCountsUpcomingOnTop(payments: seq<LedgerRow>, requested: Time, today: Time)
    ensures OfficeBalance(payments, requested, today)
            == AvailableBalance(Select(payments, CreatedBefore(requested)), today)
               + Total(payments, Early(requested, UpcomingBy(today)))
    ensures OfficeBalance(payments, requested, today)
            == AvailableBalance(payments, today) + Total(payments, Early(requested, UpcomingBy(today)))
               + Total(payments, Late(requested, WithdrawnOf())) - Total(payments, Late(requested, EarnedBy(today)))
  {
    EarlyAndLate(payments, requested, EarnedBy(today));
    EarlyAndLate(payments, requested, WithdrawnOf());
    TotalPlus(payments, OfficeEarnedBy(requested, today),
              Early(requested, EarnedBy(today)), Early(requested, UpcomingBy(today)));
    TotalSame(payments, OfficeWithdrawnBy(requested), payments, Early(requested, WithdrawnOf()));
  }

  predicate IsEarlyUpcoming(p: LedgerRow, requested: Time) {
    IsUpcoming(p) && p.createdAt < requested
  }

  /**
   * When upcoming stays really lie ahead, the office never shows more than was
   * available of the rows before the request, and shows the same exactly when
   * every upcoming stay among them is worthless or begins within a day.
   */
  lemma {:induction false} OfficeNeverExceedsAvailable(payments: seq<LedgerRow>, requested: Time, today: Time)
    requires forall i :: 0 <= i < |payments| && IsEarlyUpcoming(payments[i], requested) ==>
               today < payments[i].booking.value.stay.checkIn && NetAmount(payments[i].charges) >= 0.0
    ensures OfficeBalance(payments, requested, today)
            <= AvailableBalance(Select(payments, CreatedBefore(requested)), today)
    ensures OfficeBalance(payments, requested, today)
            == AvailableBalance(Select(payments, CreatedBefore(requested)), today) <==>
            forall i :: 0 <= i < |payments| && IsEarlyUpcoming(payments[i], requested) ==>
              NetAmount(payments[i].charges) == 0.0 || payments[i].booking.value.stay.checkIn < today + DAY_IN_MILLIS
  {
    OfficeCountsUpcomingOnTop(payments, requested, today);
    forall i | 0 <= i < |payments| && IsEarlyUpcoming(payments[i], requested)
      ensures UpcomingBy(today)(payments[i]) <= 0.0
      ensures UpcomingBy(today)(payments[i]) == 0.0 <==>
              NetAmount(payments[i].charges) == 0.0 || payments[i].booking.value.stay.checkIn < today + DAY_IN_MILLIS
    {
      AccrualGrows(NetAmount(payments[i].charges), payments[i].booking.value.stay, today, today);
      EarlyAccrualIsZeroExactly(NetAmount(payments[i].charges), payments[i].booking.value.stay, today);
    }
    TotalOfSign(payments, Early(requested, UpcomingBy(today)));
  }

  method GetAvailableBalance(payments: seq<LedgerRow>, requested: Time, today: Time) returns (balance: real)
    ensures balance == OfficeBalance(payments, requested, today)
  {
    var available := 0.0;
    for i := 0 to |payments|
      invariant available == Total(payments[..i], OfficeEarnedBy(requested, today))
    {
      var p := payments[i];
      if p.booking.Some? && p.createdAt < requested && p.booking.value.listed
         && p.status.Completed? && p.kind.BookingPayment?
         && (p.booking.value.status.Finished? || p.booking.value.status.PaidPending?
             || p.booking.value.status.Processing?) {
        var earned := AccrueStay(p.charges, p.booking.value.stay, today);
        available := available + earned;
      }
      assert payments[..i + 1][..i] == payments[..i];
    }

    var totalWithdrawals := 0.0;
    for i := 0 to |payments|
      invariant totalWithdrawals == Total(payments[..i], OfficeWithdrawnBy(requested))
    {
      var p := payments[i];
      if p.kind.WithdrawalPayment? {
        if p.createdAt < requested {
          totalWithdrawals :=
            totalWithdrawals - (p.charges.amount + p.charges.vat as real + p.charges.transactionFee as real);
        }
      }
      assert payments[..i + 1][..i] == payments[..i];
    }
    assert payments[..|payments|] == payments;
    balance := available - totalWithdrawals;
  }

  // ---------- The revenue report ----------

  /** Revenue looks at the status of the booking only, never at the payment. */
  function RevenueOf(): Booking -> real {
    (b: Booking) => if b.status.PastPending() then NetAmount(b.payment.charges) else 0.0
  }

  method CalculateRevenue(bookings: seq<Booking>) returns (total: real)
    ensures total == Total(bookings, RevenueOf())
  {
    total := 0.0;
    for i := 0 to |bookings|
      invariant total == Total(bookings[..i], RevenueOf())
    {
      var booking := bookings[i];
      if !booking.status.Cancelled? && !booking.status.Pending? {
        var payment := SubtractCharges(booking.payment.charges);
        total := total + payment;
      }
      assert bookings[..i + 1][..i] == bookings[..i];
    }
    assert bookings[..|bookings|] == bookings;
  }
}
