# Sojourn backend: bookings, availability and money

This project models the core of the Sojourn lodging backend and proves what its
separate requests, webhooks and crons guarantee together.

The platform is one state machine (`Machine`): a clock, a table of bookings with
one payment each, a table of withdrawals and a table of credits. Its events are
opening a booking by card or crypto, the payment webhook, a pass of the crypto
poller, a cancellation by the user, each of the four status crons, the cron that
confirms credits, a withdrawal, a transfer of credits, and time going by. A run
is a list of states in which each follows from the one before by its event, from
empty tables on; "every run" below means every such list. `Platform.Sojourn` is
the imperative counterpart: tables updated in place by guards and loops, each
operation proved to take exactly the step of the machine that bears its name. Its
clock stands still within an operation, except while a gateway answers; between two
operations `Pass` lets time go by.

| file | models |
|---|---|
| `Dates.dfy` | `src/utils/index.ts` |
| `Entities.dfy` | the rows |
| `Availability.dfy` | the booking-time check and the search's date filter |
| `Quotes.dfy` | the price of a stay, the amount sent to the gateway, netting |
| `Tasks.dfy` | the four status crons, row by row |
| `Earnings.dfy` | wallet, office balance and revenue report |
| `Credits.dfy` | credit totals and confirmation |
| `Search.dfy` | `removeDuplicates` |
| `Machine.dfy` | states, events, steps, runs |
| `Lifecycle.dfy`, `Balances.dfy` | what every run keeps, about bookings and about a host's money |
| `Confirmation.dfy`, `CreditBalances.dfy` | what every run keeps, about the credits of a payment and of a guest |
| `Openings.dfy` | what opening a booking stores, and what stored columns mean along a run |
| `Limits.dfy` | runs that show where guarantees end |
| `Platform.dfy` | the services as a class |
| `Totals.dfy`, `Wrappers.dfy` | sums, counts, optional values |

## Modelling choices

- Times are integers in milliseconds, naira amounts are integers where the code
  rounds and exact reals elsewhere. `Math.round` sends halves up.
- The credits that a request asks for, and the amount of a transfer, are any decimal
  number, as their DTOs admit. A fraction fails where the debit is inserted, because
  the amount of a credit row is an integer column; only negative credits of a booking
  need no debit and are stored with the payment.
- Requests and cron passes are atomic, as `TransactionInterceptor` intends. What
  a gateway answers, and how long it takes, is part of the event; any gateway
  failure is one refusal.
- The two initialise endpoints differ only in the gateway and in the pay
  address, so one operation with the payment method as a parameter stands for
  both. The crypto flag of a booking is its pay address being non-empty.
- A booking row can only exist behind the guard `checkOut > checkIn`; this order
  is part of the type of a stay, so every stay has at least one night.
- The `OR` in the booking-time filter can be read inside its own brackets or
  after the conditions on property and status. The machine takes the reading as
  a parameter; safety is proved for both, and `ReadingsDisagreeExactly` says when
  they differ.
- `findOne` may return any matching row. For credits the event carries a hint for
  the choice, and every statement holds for all hints. A payment is looked up as the
  first row with the reference (`IsFirstWithReference`); where references are
  unique, which the statements that need it assume, there is no choice.
- The code's own arithmetic is kept: credits are taken off when quoting and again
  when netting; a withdrawal's fees are taken off its stored payout and again when
  the row is summed; children are counted twice and infants not at all in the
  guest guard; a cancellation by the user leaves the hold in place.

## What the proofs found

- The message "check in date cannot be earlier than the current day" guards a
  stronger condition: check-in must be strictly later than now. The guard on the
  number of nights can never fire after it (`AdmissionExactly`).
- The comments of `withdraw` promise that the balance covers amount and fees. It
  does, but the balance then falls by the amount less 3226 naira, and rises for
  amounts below that (`WithdrawalEffect`, `SmallWithdrawalsRaiseTheBalance`).
- A transfer of credits appends rows with the default status, so no confirmed
  balance moves (`TransferConservesCredits`).
- A paid crypto booking can still expire when a failed webhook has set its payment
  back (`ReversalReopensExpiry`). `PolledBookingExpiresExactly` says which reversals
  do that: exactly those that arrive while the hold is still there, before a status
  cron has taken it away, when the hold has then run out at a pass of its cron.
- A host's balance can go below zero (`CancellationCanOverdraw`). As long as the
  stored nets of this host are not negative (`NetsAreNonNegative`; those of other
  hosts do not matter), `OnlyOverdrawsGoNegative` says exactly which steps do that.
  `OpenedNet` says when a net is negative, and `NegativeNetsGoNegative` is a run in
  which such a net alone leads below zero. For any nets, `StepMovesBalanceExactly`
  says what each step adds or takes, and `NeverShortExactly` when that is covered.
- The office reads the date of a withdrawal request from the request's own row, which
  is in the list it sums, and counts only rows before that date. So it shows the
  balance without the request and without any later payout
  (`OfficeCountsUpcomingOnTop`, `OfficeAtTheRequest`), and can show more than the
  wallet (`OfficeLeavesOutTheRequest`); `OfficeDiffersExactly` says when.
- A guest's confirmed credits can go below zero, because an opening does not reserve
  the credits that it applies (`CreditsAreSpentTwice`). `StepMovesCreditsExactly` says
  what each step moves; `CreditsAreNeverNegative` gives the reserve that an opening, a
  transfer or a reversal must not exceed.
- The card gateway is asked for a hundred times the total exactly when the total is
  whole, that is, when the applied credits are (`HundredfoldExactlyForWholeCredits`).
  Fractional credits leave a total with a point, and appending "00" to it changes
  nothing (`ChargedIsHundredfold`, `FractionsAreSentAsTheyAre`).

## Model

| member | source | states |
|---|---|---|
| Dates.NumberOfNights | src/utils/index.ts:1-5 | the least number of whole days that covers the distance, also for negative distances |
| Dates.NightsArePositiveExactlyWhenLater | src/payments/payments.service.ts:147-171 | at least one night exactly when the end is strictly later; zero exactly when it is earlier by less than a day |
| Dates.NightsAreMonotone | src/utils/index.ts:1-5 | a later end never means fewer nights |
| Dates.SplittingAddsAtMostOneNight | src/utils/index.ts:1-5 | nights of a whole, of its two parts, and the one night that splitting may add |
| Availability.ClausesMeanOverlap | src/repositories/bookings.repository.ts:342-348 | the two clauses of the check and the three of the search both say that the closed stays share an instant |
| Availability.AvailableExactly | src/repositories/bookings.repository.ts:330-354 | the check lets a stay through exactly when it shares no instant with a stay at the property that is neither cancelled nor finished; ungrouped, also when no row at all begins during it |
| Availability.UngroupedIsStricter | src/repositories/bookings.repository.ts:330-354 | the ungrouped reading of the filter only turns more requests away |
| Availability.UngroupedExactly | src/repositories/bookings.repository.ts:330-354 | what the ungrouped reading accepts, in terms of the grouped one and of the rows that do not hold the property |
| Availability.ReadingsDisagreeExactly | src/repositories/bookings.repository.ts:334-348 | the two readings differ exactly when a row that does not hold the property starts during an otherwise accepted stay |
| Availability.ReleasedRowsDoNotBlock | src/repositories/bookings.repository.ts:334-341 | a cancelled or finished row can be dropped without changing any grouped check |
| Quotes.NettingInvertsQuoting | src/utils/wallet-utils.ts:160-172 | netting the stored amount gives price times nights less twice the credits, and price times nights exactly without credits |
| Quotes.FeesAreSeventeenAndAHalfPercent | src/payments/payments.service.ts:216-223 | service fee and VAT are each within half a naira of 10% and 7.5%, together within one naira of 17.5% |
| Quotes.QuoteAddsUp | src/payments/payments.service.ts:285-305 | the total is price times nights, both fees and the caution fee, less the credits, and is stored with these parts |
| Quotes.LongerStaysCostMore | src/payments/payments.service.ts:285-305 | each extra night adds at least its price to the total |
| Quotes.ChargedIsHundredfold | src/payments/payments.service.ts:225-235 | printing any decimal total, appending "00" and reading it back gives a hundred times the total exactly when it is whole, and the total itself otherwise |
| Quotes.WholeExactlyWithWholeCredits | src/payments/payments.service.ts:225-235 | the total of a stay is whole exactly when the applied credits are |
| Quotes.HundredfoldExactlyForWholeCredits | src/payments/payments.service.ts:209-235 | the gateway is asked for a hundred times the total exactly when the applied credits are whole |
| Quotes.FractionsAreSentAsTheyAre | src/payments/payments.service.ts:225-235 | a concrete total with a fraction that is not sent in hundredths |
| Quotes.AmountToSend | src/payments/payments.service.ts:225-235 | the card gateway is asked for a hundred times a whole total, and for a fractional one as it is |
| Quotes.Quote.CreditsEarned | src/payments/payments.service.ts:336-343 | the credits earned are two percent of the total, rounded up by less than one |
| Tasks.CronsCommute | src/tasks/tasks.service.ts:46-97 | at a fixed time any two status crons commute and each is idempotent, on every row |
| Tasks.EachCronWrites | src/tasks/tasks.service.ts:46-189 | which cron writes PAID_PENDING, PROCESSING, FINISHED and CANCELLED, on which rows, and that it clears the hold and writes nothing else |
| Tasks.CronRowIsAllOrNothing | src/tasks/tasks.service.ts:144-189 | a cron takes a row to the closed form or leaves it, and leaves the closed form alone |
| Tasks.AnyFullCronRunSettles | src/tasks/tasks.service.ts:46-189 | any sequence with all four crons in it turns a row into one function of time, stay, hold, payment and status |
| Earnings.NightsSoFarAreBounded | src/utils/wallet-utils.ts:117-128 | elapsed nights never shrink and never exceed the booked nights |
| Earnings.AccrualGrows | src/utils/wallet-utils.ts:114-131 | accrual grows with time up to 98% of the net price and has the sign of the elapsed time |
| Earnings.AccrualIsNightly | src/utils/wallet-utils.ts:121-131 | during the k-th day k of the booked nights are available at 98%, from check-out on 98% of the net |
| Earnings.WalletExceedsAvailableBy | src/utils/wallet-utils.ts:95-176 | the exact gap between the two balances, payment by payment: the net of a deposit whose stay has not been promoted, and what has not accrued of one that has |
| Earnings.AvailableNeverExceedsWallet | src/utils/wallet-utils.ts:95-176 | for every list of payments with non-negative nets and at any time, available is at most the wallet balance |
| Earnings.SubtractCharges | src/utils/wallet-utils.ts:104-112 | the column-by-column subtraction computes the net amount |
| Earnings.AccrueStay | src/utils/wallet-utils.ts:114-131 | the loop body of the accrual computes the earned nights at 98% of the daily price |
| Earnings.ApplyWithdrawals | src/utils/wallet-utils.ts:86-179 | the loops compute both balances as sums over the rows, and fail exactly when a deposit has no booking |
| Earnings.OfficeCountsUpcomingOnTop | src/utils/payment-utils.ts:82-142 | for every list and request date, the office balance is what is available of the rows before the date plus the accrual of upcoming stays among them; against all rows it adds later payouts and leaves out later earnings |
| Earnings.OfficeNeverExceedsAvailable | src/utils/payment-utils.ts:82-142 | when upcoming stays before the date lie ahead with non-negative nets, the office is at most what is available of the rows before the date, and equal exactly when each of these stays is worthless or begins within a day |
| Earnings.GetAvailableBalance | src/utils/payment-utils.ts:82-142 | the office's loops compute the office balance |
| Earnings.CalculateRevenue | src/utils/property-utils.ts:47-70 | the report's loop sums the nets of bookings past PENDING that are not cancelled |
| Credits.CalculateTotalCredits | src/utils/wallet-utils.ts:246-255 | the reducer returns the plain sum and leaves the prefix sums in the array |
| Credits.FormatSojournCredits | src/utils/wallet-utils.ts:223-244 | every formatted record carries the plain sum of the original records |
| Credits.TotalIgnoresOrder | src/utils/wallet-utils.ts:246-255 | records with the same multiset have the same total |
| Credits.TransferConservesCredits | src/wallet/wallet.service.ts:469-486 | a transfer moves the amount from sender to recipient, conserves the sum over all users, and moves no confirmed balance |
| Credits.FindOneOpen | src/repositories/credits.repository.ts:99-108 | the lookup finds some pending credit of the reference whenever there is one, and any of them may be the one |
| Credits.OnePassConfirmsOneEach | src/tasks/tasks.service.ts:250-260 | a pass confirms exactly one pending credit per completed reference that has any, and nothing else |
| Credits.PassesCountDown | src/tasks/tasks.service.ts:233-261 | n passes take n pending credits off each completed reference, as far as there are so many |
| Credits.PassesReachTheWebhookState | src/payments/payments.service.ts:619-634 | passes reach the state the webhooks would leave exactly when no reference has more pending credits than there were passes |
| Search.RemoveDuplicates | src/repositories/properties.repository.ts:295-336 | the two nested loops compute the grouping |
| Search.GroupingIsExact | src/repositories/properties.repository.ts:295-336 | one listing per id in order of first occurrence, described by its first row, with exactly its non-null reviews in order |
| Search.GroupingUndoesTheJoin | src/repositories/properties.repository.ts:295-336 | flattening the listings gives back the rows of a left join, as a multiset |
| Machine.AdmissionExactly | src/payments/payments.service.ts:139-178 | a request passes all guards exactly when it is free, lies ahead in order, has guests that count, and is known |
| Openings.RejectionsExactly | src/payments/payments.service.ts:139-185 | which failing condition gives which rejection, and that all others let the request through |
| Openings.OpeningExactly | src/payments/payments.service.ts:205-357 | an opening adds a row exactly when nothing turns it away; the row stores the credits asked for if the balance covers them and else zero, the caution fee of the property, both fees, a total that adds up, and half an hour to pay; its credits are the debit and the two percent; nothing else moves |
| Openings.EveryRowWasOpened | src/payments/payments.service.ts:267-305 | every row of every run was stored by one such opening and has kept its columns |
| Openings.AmountsAddUp | src/payments/payments.service.ts:285-305 | in every state of every run each amount is price times nights plus both fees and the caution fee less the stored credits |
| Openings.StoredCreditsWereConfirmed | src/payments/payments.service.ts:209-214 | no row of a run stores positive credits above the guest's confirmed balance at its opening |
| Openings.PaymentMovesWhatIsStored | src/payments/payments.service.ts:307-350 | with unique references and no transfer under the booking's, the first successful webhook moves the guest's confirmed balance by two percent of the stored amount, rounded up, less the positive stored credits, and nobody else's |
| Machine.OpenedNet | src/payments/payments.service.ts:285-305 | the net price of an opened booking, and that it is negative exactly when the applied credits exceed half the base price |
| Lifecycle.RowStaysSound | src/tasks/tasks.service.ts:46-97 | every step keeps the link of status, hold, clock and host, the immutable columns, and the order of statuses |
| Lifecycle.OpenedRowIsClear | src/payments/payments.service.ts:139-171 | an admitted stay shares no instant with any row that is not cancelled, finished ones included |
| Lifecycle.RunsAreSound | src/repositories/bookings.repository.ts:330-354 | the invariant holds in every state of every run |
| Lifecycle.NoDoubleBooking | src/repositories/bookings.repository.ts:330-354 | at every moment of every run, two bookings of one property that are not cancelled have disjoint closed stays |
| Lifecycle.SearchAgreesWithCheck | src/repositories/properties.repository.ts:255-278 | in every state of every run, for a future stay, the search filter accepts what the grouped check accepts; the ungrouped check accepts of these exactly the ones with no row elsewhere that begins during the stay |
| Lifecycle.RowsOnlyMoveForward | src/bookings/types.ts:9-15 | between any two moments of a run a status never goes back, CANCELLED is absorbing and the stay is the same |
| Lifecycle.StatusChangesAtMostFourTimes | src/bookings/types.ts:9-15 | along any run a booking changes status at most four times |
| Lifecycle.CancellationExactly | src/bookings/bookings.service.ts:50-113 | cancelling a known booking that is not cancelled sets its status, keeps its hold, and moves nothing else; any other cancellation moves nothing |
| Lifecycle.FullCronRunSettlesThePlatform | src/tasks/tasks.service.ts:46-189 | from any tables on, a stretch of steps with all four crons in it, in any order, settles every booking and moves nothing else |
| Lifecycle.SettledPlatformStays | src/tasks/tasks.service.ts:46-189 | every status cron leaves a settled platform as it is |
| Lifecycle.UnpaidRowsWait | src/payments/payments.service.ts:267-279 | while nobody pays, a booking is pending with its half-hour hold, or cancelled |
| Lifecycle.AbandonedHoldIsReleased | src/tasks/tasks.service.ts:144-189 | once the matching cron runs half an hour after opening, an unpaid booking is cancelled for good and blocks no grouped check |
| Lifecycle.WebhookSetsTheFirst | src/payments/payments.service.ts:605-634 | also when references are not unique, a webhook sets the first payment under its reference and no other |
| Lifecycle.WebhookSetsExactly | src/payments/payments.service.ts:605-634 | with unique references a webhook sets exactly the payment that carries its reference |
| Lifecycle.PollerCompletesTheFirst | src/tasks/tasks.service.ts:192-230 | also when references are not unique, the poller completes the first payment under each reference for which a held, pending crypto payment is reported finished |
| Lifecycle.PollerCompletesExactly | src/tasks/tasks.service.ts:192-230 | with unique references the poller completes exactly the held, pending crypto payments that are reported finished |
| Lifecycle.OnlyAWebhookReverts | src/payments/payments.service.ts:724-734 | a completed payment stays completed until a failed webhook for it; while it is not completed, the last such webhook is the cause |
| Lifecycle.ExpiryExactly | src/tasks/tasks.service.ts:144-189 | a row expires at a step exactly when it is pending and unpaid, its hold has run out, and the cron for its kind runs |
| Lifecycle.ReversedHoldExpiresExactly | src/payments/payments.service.ts:724-734 | after a reversal, the row expires at a later step exactly when the reversal met the hold, the hold has run out, nobody cancelled, and the cron for its kind runs |
| Lifecycle.PolledBookingExpiresExactly | src/tasks/tasks.service.ts:168-230 | a booking that the poller paid expires exactly when a later reversal met its hold in this way |
| Lifecycle.ExpiryAndPollingExclude | src/tasks/tasks.service.ts:168-230 | a booking cancelled by expiry is never paid by the poller later; one paid by the poller expires only after a failed webhook that met its hold |
| Limits.ReversalReopensExpiry | src/payments/payments.service.ts:724-734 | a concrete run in which a polled payment is set back and the booking expires |
| Limits.OfficeLeavesOutTheRequest | src/utils/payment-utils.ts:73-76 | a concrete run after whose accepted withdrawal the office shows more than the wallet |
| Limits.NegativeNetsGoNegative | src/utils/wallet-utils.ts:104-131 | a concrete run without cancellation or reversal in which a stay paid with more credits than half its price takes its host below zero |
| Limits.CreditsAreSpentTwice | src/payments/payments.service.ts:209-214 | a concrete run in which two openings apply the same credits and the second payment takes the balance below zero |
| Limits.CancellationCanOverdraw | src/repositories/bookings.repository.ts:320-328 | a concrete run in which a cancellation takes an accepted withdrawal below zero |
| Balances.AvailableIsEarnedLessTakenOut | src/repositories/wallet.repository.ts:105-156 | the balance recomputed from the joined payments is the sum over the booking table less the sum over the withdrawal table |
| Balances.SettledEarningsFollowTheCalendar | src/utils/wallet-utils.ts:95-134 | in a settled state what a booking has earned depends on calendar and payment only |
| Balances.WithdrawalEffect | src/wallet/wallet.service.ts:314-361 | when a withdrawal is accepted, and that it lowers that host's balance by the amount less 3226 and no other |
| Balances.WithdrawalExactly | src/wallet/wallet.service.ts:314-361 | an accepted withdrawal appends one row with the amount less 1613 as a negative payout, 1500 fee and 113 VAT, and moves nothing else; which failing condition gives which rejection |
| Balances.WithdrawalsStoreTheirFees | src/wallet/wallet.service.ts:352-360 | in every state of every run each row of withdrawals has a negative amount, these fees, and no credits or caution fee |
| Balances.SmallWithdrawalsRaiseTheBalance | src/wallet/wallet.service.ts:352-360 | an accepted withdrawal raises the balance exactly when it is below 3226 |
| Balances.TakingBackEffect | src/repositories/bookings.repository.ts:320-328 | cancelling a booking or setting its payment back lowers the balance by exactly what it had earned |
| Balances.OnlyOverdrawsGoNegative | src/wallet/wallet.service.ts:344-350 | while the stored nets of the host are non-negative (`NetsAreNonNegative`; `OpenedNet` says when one is not), a step of any kind leads from a non-negative balance below zero exactly when it takes back more than is available |
| Balances.BalanceIsNeverNegative | src/wallet/wallet.service.ts:314-361 | along every run that leaves the host non-negative nets, the recomputed balance is never negative exactly when there is no such step |
| Balances.StepMovesBalanceExactly | src/utils/wallet-utils.ts:95-176 | for any nets, a step adds the accrual of stays that begin to earn and the growth of those that earn, and takes what is taken back and what is paid out, and nothing else |
| Balances.NeverShortExactly | src/wallet/wallet.service.ts:314-361 | along every run, for any nets, the balance is never negative exactly when it covers what each step takes |
| Balances.BalanceWithoutTakingBack | src/wallet/wallet.service.ts:314-361 | in particular, with non-negative nets of the host, when none of its paid bookings is cancelled and none of its completed payments falls back |
| Balances.DepositsBalanceRevenue | src/utils/property-utils.ts:47-70 | in every settled state of every run, deposits and reported revenue differ by paid cancelled bookings and reported unpaid ones, and by nothing else |
| Balances.WalletIsDepositedLessTakenOut | src/utils/wallet-utils.ts:140-175 | the wallet balance is the sum of the nets of the host's paid bookings less the host's payouts |
| Balances.WalletBalancesRevenue | src/utils/wallet-utils.ts:140-175 | in every settled state of every run, wallet balance and payouts make up the reported revenue plus paid cancelled nets less reported unpaid ones |
| Balances.WalletExceedsAvailableRowByRow | src/utils/wallet-utils.ts:95-176 | the two balances differ by what each paid booking has not earned yet |
| Balances.PastPendingIsPaid | src/tasks/tasks.service.ts:46-97 | without reversals, a booking that left PENDING and is not cancelled is paid |
| Balances.DepositsAreRevenuePlusCancelled | src/utils/wallet-utils.ts:140-173 | without reversals, deposits are the revenue of the host's properties plus the nets of paid cancelled bookings |
| Balances.OfficeAgainstWallet | src/utils/payment-utils.ts:82-142 | in a settled state, for a host with non-negative nets and any request date, the office shows at most what the wallet makes of the rows before the date, and the same exactly when each upcoming paid stay among them is worthless or begins within a day |
| Balances.OfficeDiffersExactly | src/utils/payment-utils.ts:82-142 | in any state and for any request date, how far the office is from the wallet in terms of the tables, and exactly when it shows no more |
| Balances.OfficeAtTheRequest | src/utils/payment-utils.ts:62-80 | at the date of an accepted withdrawal's own row the office shows what it showed before it, and exactly when that is more than the wallet has left |
| Confirmation.AtMostTwoCreditsPerPayment | src/payments/payments.service.ts:307-350 | in every run the credits under a reference are at most twice the bookings under it, so at most two where references are unique, provided no transfer is filed under it |
| Confirmation.OnePassOnThePlatform | src/tasks/tasks.service.ts:233-261 | where references are unique, a pass of the cron confirms one credit per completed payment that has any, and none of an unpaid one |
| Confirmation.OpenCountAlongRun | src/tasks/tasks.service.ts:233-261 | where references are unique, along any stretch of a run after the payment without a failed webhook or a transfer under its reference, each pass takes one pending credit off, whatever happens in between, and only a successful webhook takes more |
| Confirmation.TwoPassesConverge | src/tasks/tasks.service.ts:233-261 | in every run with unique references, two passes at any later times leave the credits of a completed payment as a successful webhook would, provided no failed webhook for it arrives meanwhile and no transfer is filed under its reference |
| Confirmation.PassesConvergeExactly | src/payments/payments.service.ts:619-634 | under the same conditions and without a webhook, the credits converge exactly when there were as many passes as pending credits |
| Confirmation.WebhookIsIdempotent | src/payments/payments.service.ts:605-634 | delivering a webhook again changes nothing; a successful one leaves no pending credit under its reference |
| CreditBalances.StepMovesCreditsExactly | src/repositories/credits.repository.ts:63-78 | where references are unique, a guest's confirmed balance moves by webhooks and confirming passes only, and by exactly the credits they confirm or take back |
| CreditBalances.NeverNegativeExactly | src/repositories/credits.repository.ts:63-78 | along a run with unique references it is never negative exactly when no step takes more than the balance covers |
| CreditBalances.TransferExactly | src/wallet/wallet.service.ts:435-486 | a transfer appends its debit and credit, and moves nothing else, exactly when the recipient is known, the sender is a guest whose own confirmed balance is positive and covers the amount, and the amount is whole; which failing condition gives which rejection |
| CreditBalances.PaidBookingMovesCredits | src/payments/payments.service.ts:307-350 | with unique references and no transfer under the booking's reference, opening a booking moves no balance; its first successful webhook, at whatever later step, moves the guest's by earned less used, and nobody else's |
| CreditBalances.ReserveFallsByTheClaim | src/payments/payments.service.ts:209-214 | a step lowers confirmed credits less pending debits by its claim at most: debits it opens, gains it takes back |
| CreditBalances.CreditsAreNeverNegative | src/payments/payments.service.ts:209-214 | along a run in which no claim exceeds this reserve, the confirmed balance is never negative and covers the reserve |
| Platform.Sojourn.GetTotalSojournCreditsByUserId | src/repositories/credits.repository.ts:63-78 | the balance is the sum over the user's confirmed credits |
| Platform.Sojourn.CheckRequest | src/payments/payments.service.ts:139-185 | the guards in sequence give the first refusal of the machine |
| Platform.Sojourn.InitializeTransaction | src/payments/payments.service.ts:136-357 | both endpoints take the step of the machine, answer with its rejection or the new id, and send a hundred times the stored amount when it is whole, and the amount itself otherwise |
| Platform.Sojourn.GetPaymentByReference | src/repositories/payment.repository.ts:167-174 | the lookup finds a payment exactly when one carries the reference |
| Platform.Sojourn.UpdatePayment | src/payments/payments.service.ts:605-771 | the webhook takes its step; it answers true exactly for a confirmed known payment, or, when no payment is known, for a customer with a subscription |
| Platform.Sojourn.CancelBooking | src/bookings/bookings.service.ts:50-113 | the cancellation takes its step, and refuses unknown and already cancelled bookings |
| Platform.Sojourn.HandleBookingsInProgress | src/tasks/tasks.service.ts:46-76 | the loop takes the step of its cron |
| Platform.Sojourn.HandleFinishedBookings | src/tasks/tasks.service.ts:79-97 | the loop takes the step of its cron |
| Platform.Sojourn.HandleCancelBookings | src/tasks/tasks.service.ts:144-165 | the loop takes the step of its cron |
| Platform.Sojourn.HandleCancelCryptoBookings | src/tasks/tasks.service.ts:168-189 | the loop takes the step of its cron |
| Platform.Sojourn.HandleUpdateCryptoPaymentsToPaid | src/tasks/tasks.service.ts:192-230 | the loop over a snapshot, with lookups by reference, takes the step of the poller |
| Platform.Sojourn.HandleUpdatePayments | src/tasks/tasks.service.ts:233-261 | the loop over completed payments takes the confirming step |
| Platform.Sojourn.Withdraw | src/wallet/wallet.service.ts:314-361 | the guards and the stored row take the step of the machine, with its rejections |
| Platform.Sojourn.TransferSojournCredits | src/wallet/wallet.service.ts:435-489 | the guards and the two appended rows take the step of the machine, with its rejections, a fractional amount included |

## Left out

- HTTP calls to Paystack and NowPayments, currency conversion and minimum amounts: foreign services; their answers are part of the events.
- Signature checks, emails, invoices, uploads, authentication, users, messages, reviews, referrals, the rows of subscriptions: no bearing on the laws above.
- Two initialise requests interleaving between check and insertion: steps are atomic, and database isolation is not visible in the repository.
- `verifyTransaction`: it saves status values in place of credit rows; `updatePayment` is the completion path.
- `verifyCryptoTransaction`, the booking reminder cron and the unused per-payment cron job: they change no table modelled here.
- Payments without a reference in `handleUpdatePayments`: how the mapper filters on null is not visible.
- Marking a withdrawal as paid out by the office: no balance reads that status.
- A withdrawal filed under a wallet id that is not the host's own: the model joins withdrawals by host.
- Changes to a property's price or owner during a run: properties are fixed for a run; quotes are stored and do not change.
- Rows without a booking or with a missing property are modelled in the wallet and the office, but never arise on the machine.
- Floating-point rounding and amounts too large or too small to print without an exponent: arithmetic is exact.
- Other columns and filters of the property search, paging and the wishlist copied into each listing: plumbing around the date filter and the grouping.
- Rows and in-memory objects are values that a table or a local list holds, as a fetched row is a copy; aliasing between objects is not modelled.
- Credits.OnePassConfirmsOneEach: assumes distinct payment references, as gateways hand them out; the schema does not enforce it.
- Confirmation.TwoPassesConverge: assumes that transfers are not filed under a payment's reference; a transfer's reference is an address or a user id.
- CreditBalances.CreditsAreNeverNegative: its reserve is sufficient and counts every pending debit; which runs stay non-negative exactly is `NeverNegativeExactly`.
