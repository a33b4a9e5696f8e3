/** The rows of the database, `src/bookings/entities`, `src/payments/entities` and `src/wallet/entities`. */
module Entities {
  import opened Wrappers
  import opened Dates

  type Id = string

  datatype BookingStatus = Pending | PaidPending | Processing | Finished | Cancelled {
    /** Position in the source's enumeration. */
    function Rank(): nat {
      match this
      case Pending => 0
      case PaidPending => 1
      case Processing => 2
      case Finished => 3
      case Cancelled => 4
    }

    /** The guest has paid at some time and the booking was not cancelled since. */
    predicate PastPending() {
      PaidPending? || Processing? || Finished?
    }
  }

  datatype PaymentStatus = Due | Completed

  datatype PaymentMethod = Card | Crypto | Transfer

  datatype PaymentType = BookingPayment | WithdrawalPayment | RefundPayment

  datatype Period = Period(checkIn: Time, checkOut: Time)

  /** A stay that was let through: rows are only ever created behind the guard that checks the order. */
  type Stay = p: Period | p.checkIn < p.checkOut witness Period(0, 1)

  /** The money columns of a payment. */
  datatype Charges = Charges(
    amount: real,
    transactionFee: int,
    vat: int,
    credits: Option<real>,
    cautionFee: Option<int>)

  datatype Payment = Payment(
    host: Id,
    paidBy: PaymentMethod,
    status: PaymentStatus,
    charges: Charges,
    reference: string,
    createdAt: Time)

  /** A booking row together with its one payment. Its id is its place in the table. */
  datatype Booking = Booking(
    property: Id,
    guest: Id,
    stay: Stay,
    status: BookingStatus,
    hold: Option<Time>,
    cryptoAddress: string,
    payment: Payment)
  {
    predicate Paid() {
      payment.status.Completed?
    }
  }

  /** A payment row of type withdrawal. */
  datatype Withdrawal = Withdrawal(host: Id, charges: Charges, createdAt: Time)

  datatype CreditStatus = Unconfirmed | Confirmed

  datatype CreditType = Incoming | Outgoing

  datatype Credit = Credit(user: Id, amount: int, reference: string, status: CreditStatus, kind: CreditType)

  datatype Property = Property(host: Id, price: int, cautionFee: Option<int>)
}
