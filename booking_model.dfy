/** The `Booking` record (app/models/booking.py): its columns, defaults and
    status values, and the two derived properties `duration_months` and
    `remaining_amount`. Amounts are exact reals. */
module BookingModel {
  import opened Wrappers
  import opened Dates
  import opened Durations

  /** The four values the `status` column is meant to hold. */
  datatype Status = Pending | Confirmed | Cancelled | Completed

  function StatusText(s: Status): (t: string)
    ensures 0 < |t| <= 20
  {
    match s
    case Pending => "pending"
    case Confirmed => "confirmed"
    case Cancelled => "cancelled"
    case Completed => "completed"
  }

  /** Reads a `status` column value; anything but the four names is `None`. */
  function ParseStatus(t: string): Option<Status> {
    if t == "pending" then Some(Pending)
    else if t == "confirmed" then Some(Confirmed)
    else if t == "cancelled" then Some(Cancelled)
    else if t == "completed" then Some(Completed)
    else None
  }

  /** The stored text of a status reads back as that status, and only the
      four names are statuses. */
  lemma StatusRoundTrip(s: Status, t: string)
    ensures ParseStatus(StatusText(s)) == Some(s)
    ensures ParseStatus(t) == Some(s) ==> StatusText(s) == t
  {
  }

  datatype Booking = Booking(
    id: int,
    startDate: Date,
    endDate: Date,
    totalAmount: real,
    depositAmount: real,
    depositPaid: bool,
    fullPaymentPaid: bool,
    status: Status,
    createdAt: int,
    updatedAt: int,
    userId: int,
    apartmentId: int)

  /** `Booking(start_date=..., end_date=..., total_amount=..., deposit_amount=...,
      user_id=..., apartment_id=...)` inserted at time `now`: the columns with
      defaults take them. */
  function NewBooking(id: int, startDate: Date, endDate: Date, totalAmount: real, depositAmount: real,
                      userId: int, apartmentId: int, now: int): (b: Booking)
    ensures !b.depositPaid && !b.fullPaymentPaid && b.status == Pending
    ensures b.createdAt == now && b.updatedAt == now
    ensures b.id == id && b.userId == userId && b.apartmentId == apartmentId
    ensures b.startDate == startDate && b.endDate == endDate
    ensures b.totalAmount == totalAmount && b.depositAmount == depositAmount
  {
    Booking(id, startDate, endDate, totalAmount, depositAmount, false, false, Pending, now, now, userId, apartmentId)
  }

  /** The `duration_months` property: `(end - start).days // 30 + 1`.
      It is at least 1 whenever the end is not before the start. */
  function DurationMonths(b: Booking): (r: int)
    requires ValidDate(b.startDate) && ValidDate(b.endDate)
    ensures NotAfter(b.startDate, b.endDate) ==> r >= 1
    ensures Before(b.endDate, b.startDate) ==> r <= 0
  {
    DaysBetweenSign(b.startDate, b.endDate);
    RecordMonths(DaysBetween(b.startDate, b.endDate))
  }

  /** The months a booking is billed for: the 30-day ceiling of its stay,
      the count the booking routes validate and price with. This is the
      duration `duration_months` evidently means to report. */
  function BilledMonths(b: Booking): (r: int)
    requires ValidDate(b.startDate) && ValidDate(b.endDate)
    ensures Before(b.startDate, b.endDate) ==> r >= 1
    ensures Before(b.startDate, b.endDate) ==>
      30 * (r - 1) < DaysBetween(b.startDate, b.endDate) <= 30 * r
  {
    DaysBetweenSign(b.startDate, b.endDate);
    CeilMonths(DaysBetween(b.startDate, b.endDate))
  }

  /** `duration_months` and the billed months differ exactly on stays of a
      whole number of 30-day months, where `duration_months` shows one more. */
  lemma {:induction false} DurationVersusBilled(b: Booking)
    requires ValidDate(b.startDate) && ValidDate(b.endDate) && Before(b.startDate, b.endDate)
    ensures DurationMonths(b) != BilledMonths(b) <==> DaysBetween(b.startDate, b.endDate) % 30 == 0
    ensures DurationMonths(b) != BilledMonths(b) ==> DurationMonths(b) == BilledMonths(b) + 1
  {
    DaysBetweenSign(b.startDate, b.endDate);
    RecordVersusCeil(DaysBetween(b.startDate, b.endDate));
  }

  /** A 30-day stay from 1 to 31 January 2025 is billed as one month but its
      `duration_months` is 2. */
  lemma ThirtyDayStayShownAsTwoMonths(b: Booking)
    requires b.startDate == Date(2025, 1, 1) && b.endDate == Date(2025, 1, 31)
    ensures DaysBetween(b.startDate, b.endDate) == 30
    ensures BilledMonths(b) == 1
    ensures DurationMonths(b) == 2
  {
  }

  /** The `remaining_amount` property: what is left to pay after the deposit. */
  function RemainingAmount(b: Booking): real {
    b.totalAmount - b.depositAmount
  }

  /** With the 20% deposit taken at creation, the remainder is 80% of the
      total, and deposit plus remainder is the total. */
  lemma RemainingIsEightyPercent(b: Booking)
    requires b.depositAmount == b.totalAmount * 0.2
    ensures RemainingAmount(b) == 0.8 * b.totalAmount
    ensures b.depositAmount + RemainingAmount(b) == b.totalAmount
  {
  }
}
