/** The three ways the code base turns a day count into a number of months,
    side by side, and how they relate. Python's `//` with a positive divisor
    and Dafny's `/` both round toward negative infinity, so `days / 30` below
    is exactly `days // 30`. */
module Durations {

  /** `math.ceil(days / 30)`, as validation and pricing compute it
      (app/routes/booking.py:23 and :65): the least `r` with `30 * r >= days`. */
  function CeilMonths(days: int): (r: int)
    ensures 30 * (r - 1) < days <= 30 * r
  {
    -((-days) / 30)
  }

  /** `(delta.days // 30) + 1`, the `Booking.duration_months` property
      (app/models/booking.py:27): one more than the whole 30-day blocks. */
  function RecordMonths(days: int): (r: int)
    ensures 30 * (r - 1) <= days < 30 * r
  {
    days / 30 + 1
  }

  /** `max(1, (delta.days // 30) + 1)`, `calculate_duration_months`
      (app/utils/helpers.py:23). */
  function HelperMonths(days: int): (r: int)
    ensures r >= 1
    ensures r >= RecordMonths(days)
  {
    var m := days / 30 + 1;
    if m < 1 then 1 else m
  }

  /** A positive stay lasts at least one billed month. */
  lemma CeilAtLeastOne(days: int)
    requires days > 0
    ensures CeilMonths(days) >= 1
  {
  }

  /** For a positive day count the record's duration and the billed duration
      agree except at whole multiples of 30 days, where the record counts one
      month more. */
  lemma RecordVersusCeil(days: int)
    requires days > 0
    ensures days % 30 != 0 ==> RecordMonths(days) == CeilMonths(days)
    ensures days % 30 == 0 ==> RecordMonths(days) == CeilMonths(days) + 1
    ensures RecordMonths(days) != CeilMonths(days) <==> days % 30 == 0
  {
  }

  /** The helper agrees with the record's formula whenever the end is not
      before the start, and is clamped to 1 otherwise. */
  lemma HelperVersusRecord(days: int)
    ensures days >= 0 ==> HelperMonths(days) == RecordMonths(days)
    ensures days < 0 ==> HelperMonths(days) == 1
  {
  }

  /** Longer stays never give fewer months, by any of the three formulas. */
  lemma MonthsMonotone(d1: int, d2: int)
    requires d1 <= d2
    ensures CeilMonths(d1) <= CeilMonths(d2)
    ensures RecordMonths(d1) <= RecordMonths(d2)
    ensures HelperMonths(d1) <= HelperMonths(d2)
  {
  }
}
