/** The booking engine of app/routes/booking.py: the fail-fast date validator,
    the pricing of a stay, the checks `book_apartment` runs before it creates a
    booking, and a store of bookings on which creation, the payment view,
    deposit confirmation and the tenant's listing operate. "Today" and the
    clock reading stamped on records are parameters; whether the database
    commit succeeds is a parameter too, and a failed commit leaves the store
    as it was. The confirmation e-mail is not modelled: its failure is
    swallowed, so it never changes an outcome. */
module BookingRoutes {
  import opened Wrappers
  import opened Text
  import opened Dates
  import opened Durations
  import opened ApartmentModel
  import opened BookingModel

  // ---- validate_booking_dates ----

  const PastStartMessage := "Start date cannot be in the past"
  const RangeMessage := "End date must be after start date"
  const DatesValidMessage := "Dates are valid"

  const MinDurationPrefix := "Minimum contract duration is "
  const MinDurationSuffix := " months"

  function MinDurationMessage(months: int): (m: string)
    ensures |m| > |MinDurationPrefix| + |MinDurationSuffix|
    ensures m[..|MinDurationPrefix|] == MinDurationPrefix
    ensures m[|m| - |MinDurationSuffix|..] == MinDurationSuffix
  {
    MinDurationPrefix + IntToString(months) + MinDurationSuffix
  }

  /** The minimum message names the minimum: what lies between its fixed
      prefix and suffix reads back as `months`, so different minimums give
      different messages. */
  lemma MinDurationMessageNamesMinimum(months: int, other: int)
    ensures var m := MinDurationMessage(months);
      var named := m[|MinDurationPrefix|..|m| - |MinDurationSuffix|];
      && All(named[1..], IsAsciiDigit) && (named[0] == '-' || IsAsciiDigit(named[0]))
      && ReadInt(named) == months
    ensures MinDurationMessage(months) == MinDurationMessage(other) ==> months == other
  {
    var m := MinDurationMessage(months);
    assert m[|MinDurationPrefix|..|m| - |MinDurationSuffix|] == IntToString(months);
    IntToStringRoundTrip(months);
    var n := MinDurationMessage(other);
    assert n[|MinDurationPrefix|..|n| - |MinDurationSuffix|] == IntToString(other);
    IntToStringRoundTrip(other);
  }

  /** What the validator is meant to accept, stated on ordinals: the start is
      today or later, the stay is at least one day, and its 30-day-month count
      reaches the apartment's minimum. */
  predicate DatesAcceptable(startDate: Date, endDate: Date, minContract: int, today: Date)
    requires ValidDate(startDate) && ValidDate(endDate) && ValidDate(today)
  {
    && ToOrdinal(today) <= ToOrdinal(startDate)
    && DaysBetween(startDate, endDate) > 0
    && CeilMonths(DaysBetween(startDate, endDate)) >= minContract
  }

  /** `validate_booking_dates`: the checks run in order and the first that
      fails gives the one message returned. */
  function ValidateBookingDates(startDate: Date, endDate: Date, apartment: Apartment, today: Date): (r: (bool, string))
    requires ValidDate(startDate) && ValidDate(endDate)
    ensures Before(startDate, today) ==> r == (false, PastStartMessage)
    ensures !Before(startDate, today) && NotAfter(endDate, startDate) ==> r == (false, RangeMessage)
    ensures !Before(startDate, today) && Before(startDate, endDate)
            && CeilMonths(DaysBetween(startDate, endDate)) < apartment.minContractDuration
            ==> r == (false, MinDurationMessage(apartment.minContractDuration))
    ensures r.0 <==> r.1 == DatesValidMessage
  {
    if Before(startDate, today) then
      (false, PastStartMessage)
    else if NotAfter(endDate, startDate) then
      (false, RangeMessage)
    else if CeilMonths(DaysBetween(startDate, endDate)) < apartment.minContractDuration then
      (false, MinDurationMessage(apartment.minContractDuration))
    else
      (true, DatesValidMessage)
  }

  /** The validator accepts exactly the acceptable ranges: a start equal to
      today passes, a start before today, an end on or before the start and a
      stay below the minimum do not. */
  lemma {:induction false} ValidateBookingDatesSound(startDate: Date, endDate: Date, apartment: Apartment, today: Date)
    requires ValidDate(startDate) && ValidDate(endDate) && ValidDate(today)
    ensures ValidateBookingDates(startDate, endDate, apartment, today).0
            <==> DatesAcceptable(startDate, endDate, apartment.minContractDuration, today)
    ensures ValidateBookingDates(startDate, endDate, apartment, today).0
            ==> CeilMonths(DaysBetween(startDate, endDate)) >= 1
  {
    OrdinalOrder(startDate, today);
    OrdinalOrder(today, startDate);
    DaysBetweenSign(startDate, endDate);
  }

  /** The four messages are distinct, so the message says which check failed. */
  lemma ValidationMessagesDistinct(n: int)
    ensures PastStartMessage != RangeMessage
    ensures MinDurationMessage(n) != PastStartMessage && MinDurationMessage(n) != RangeMessage
    ensures MinDurationMessage(n) != DatesValidMessage
    ensures PastStartMessage != DatesValidMessage && RangeMessage != DatesValidMessage
  {
    assert PastStartMessage[0] == 'S' && RangeMessage[0] == 'E' && DatesValidMessage[0] == 'D';
  }

  // ---- pricing (lines 65-67) ----

  datatype Pricing = Pricing(months: int, total: real, deposit: real)

  /** `price_per_month * duration_months`. */
  function MonthlyTotal(pricePerMonth: real, months: int): real {
    pricePerMonth * months as real
  }

  /** Lines 65-67 for a stay of `days` days: the billed months are the 30-day
      ceiling of the stay, the total is that many months at the monthly price,
      and the deposit is 20% of the total. */
  function Price(days: int, pricePerMonth: real): (p: Pricing)
    ensures 30 * (p.months - 1) < days <= 30 * p.months
    ensures p.total == MonthlyTotal(pricePerMonth, p.months)
    ensures p.deposit == 0.2 * p.total
  {
    var months := CeilMonths(days);
    var total := MonthlyTotal(pricePerMonth, months);
    Pricing(months, total, 0.2 * total)
  }

  // ---- book_apartment ----

  datatype BookError =
    | ApartmentNotFound
    | NotAvailable
    | StartRequired
    | EndRequired
    | BadDateFormat
    | DatesRejected(message: string)
    | CommitFailed

  /** The messages flashed for each way a booking request ends without a
      booking; `get_or_404` shows a 404 page and flashes none. */
  function BookErrorMessages(e: BookError): (r: seq<string>)
    ensures e.ApartmentNotFound? <==> r == []
    ensures |r| <= 1
    ensures e.DatesRejected? ==> r == [e.message]
  {
    match e
    case ApartmentNotFound => []
    case NotAvailable => ["This apartment is not available for booking."]
    case StartRequired => ["Start date is required."]
    case EndRequired => ["End date is required."]
    case BadDateFormat => ["Invalid date format. Please use YYYY-MM-DD format."]
    case DatesRejected(m) => [m]
    case CommitFailed => ["An error occurred while creating the booking. Please try again."]
  }

  /** `not value` for `request.form.get(...)`: absent or empty. */
  predicate Blank(t: Option<string>) {
    t.None? || t.value == ""
  }

  /** Everything a successful request has settled before the insert. */
  datatype Draft = Draft(apartment: Apartment, startDate: Date, endDate: Date, pricing: Pricing)

  /** The request the booking route accepts, stated without the route's order
      of checks: the apartment exists and is available, both dates are given
      and read as dates, and the range is acceptable. */
  predicate Bookable(directory: seq<Apartment>, apartmentId: int, startText: Option<string>,
                     endText: Option<string>, today: Date)
    requires ValidDate(today)
  {
    && FindApartment(directory, apartmentId).Some?
    && FindApartment(directory, apartmentId).value.isAvailable
    && startText.Some? && endText.Some?
    && ParseIso(startText.value).Some? && ParseIso(endText.value).Some?
    && DatesAcceptable(ParseIso(startText.value).value, ParseIso(endText.value).value,
                       FindApartment(directory, apartmentId).value.minContractDuration, today)
  }

  /** The apartment exists and is available and both dates are given and
      read as dates: the point at which the date validator decides. */
  predicate DatesParsed(directory: seq<Apartment>, apartmentId: int, startText: Option<string>,
                        endText: Option<string>)
  {
    && FindApartment(directory, apartmentId).Some?
    && FindApartment(directory, apartmentId).value.isAvailable
    && !Blank(startText) && !Blank(endText)
    && ParseIso(startText.value).Some? && ParseIso(endText.value).Some?
  }

  /** The POST path of `book_apartment` up to the insert. Each check
      short-circuits: lookup, availability, the two presence checks, parsing,
      then the date validator. */
  function PlanBooking(directory: seq<Apartment>, apartmentId: int, startText: Option<string>,
                       endText: Option<string>, today: Date): (r: Result<Draft, BookError>)
    requires ValidDate(today)
    ensures r.Success? <==> Bookable(directory, apartmentId, startText, endText, today)
    ensures r.Success? ==>
      && ValidDate(r.value.startDate) && ValidDate(r.value.endDate)
      && Before(r.value.startDate, r.value.endDate)
      && Some(r.value.apartment) == FindApartment(directory, apartmentId)
      && Some(r.value.startDate) == ParseIso(startText.value)
      && Some(r.value.endDate) == ParseIso(endText.value)
      && r.value.pricing == Price(DaysBetween(r.value.startDate, r.value.endDate), r.value.apartment.pricePerMonth)
      && r.value.pricing.months >= r.value.apartment.minContractDuration
      && r.value.pricing.months >= 1
    ensures FindApartment(directory, apartmentId).None? ==> r == Failure(ApartmentNotFound)
    ensures DatesParsed(directory, apartmentId, startText, endText) ==>
      var a := FindApartment(directory, apartmentId).value;
      var (s, e) := (ParseIso(startText.value).value, ParseIso(endText.value).value);
      !ValidateBookingDates(s, e, a, today).0 ==> r == Failure(DatesRejected(ValidateBookingDates(s, e, a, today).1))
  {
    match FindApartment(directory, apartmentId)
    case None => Failure(ApartmentNotFound)
    case Some(apartment) =>
      if !apartment.isAvailable then Failure(NotAvailable)
      else if Blank(startText) then Failure(StartRequired)
      else if Blank(endText) then Failure(EndRequired)
      else
        match (ParseIso(startText.value), ParseIso(endText.value))
        case (Some(s), Some(e)) =>
          var (ok, message) := ValidateBookingDates(s, e, apartment, today);
          ValidateBookingDatesSound(s, e, apartment, today);
          if !ok then Failure(DatesRejected(message))
          else Success(Draft(apartment, s, e, Price(DaysBetween(s, e), apartment.pricePerMonth)))
        case _ => Failure(BadDateFormat)
  }

  /** An unavailable apartment is refused whatever the dates, and so is a
      missing or unreadable date on an available one, before the date
      validator runs. */
  lemma PlanBookingShortCircuits(directory: seq<Apartment>, apartmentId: int, startText: Option<string>,
                                 endText: Option<string>, today: Date)
    requires ValidDate(today)
    ensures var a := FindApartment(directory, apartmentId);
      var r := PlanBooking(directory, apartmentId, startText, endText, today);
      && (a.None? ==> r == Failure(ApartmentNotFound))
      && (a.Some? && !a.value.isAvailable ==> r == Failure(NotAvailable))
      && (a.Some? && a.value.isAvailable && Blank(startText) ==> r == Failure(StartRequired))
      && (a.Some? && a.value.isAvailable && !Blank(startText) && Blank(endText) ==> r == Failure(EndRequired))
      && ((a.Some? && a.value.isAvailable && !Blank(startText) && !Blank(endText)
           && (ParseIso(startText.value).None? || ParseIso(endText.value).None?))
          ==> r == Failure(BadDateFormat))
  {
  }

  /** Once the dates are read, a start before today is always refused with
      the past-start message and an end on or before a start that is not in
      the past with the range message, whatever the apartment's minimum. */
  lemma PlanBookingDateRefusals(directory: seq<Apartment>, apartmentId: int, startText: Option<string>,
                                endText: Option<string>, today: Date)
    requires ValidDate(today)
    requires DatesParsed(directory, apartmentId, startText, endText)
    ensures var (s, e) := (ParseIso(startText.value).value, ParseIso(endText.value).value);
      var r := PlanBooking(directory, apartmentId, startText, endText, today);
      && (Before(s, today) ==> r == Failure(DatesRejected(PastStartMessage)))
      && (!Before(s, today) && NotAfter(e, s) ==> r == Failure(DatesRejected(RangeMessage)))
  {
    var a := FindApartment(directory, apartmentId).value;
    var (s, e) := (ParseIso(startText.value).value, ParseIso(endText.value).value);
    var v := ValidateBookingDates(s, e, a, today);
    assert Before(s, today) ==> !v.0 && v.1 == PastStartMessage;
    assert !Before(s, today) && NotAfter(e, s) ==> !v.0 && v.1 == RangeMessage;
  }

  /** The booking the insert creates from a settled request. */
  function CreatedBooking(d: Draft, id: int, userId: int, now: int): (b: Booking)
    ensures b.userId == userId && b.apartmentId == d.apartment.id && b.id == id
    ensures b.startDate == d.startDate && b.endDate == d.endDate
    ensures b.status == Pending && !b.depositPaid && !b.fullPaymentPaid
  {
    NewBooking(id, d.startDate, d.endDate, d.pricing.total, d.pricing.deposit, userId, d.apartment.id, now)
  }

  /** A booking created from a settled request is priced at the monthly rate
      times the 30-day ceiling of its own dates (the formula the validator
      used), its deposit is 20% of that and the remainder 80%. */
  lemma {:induction false} CreatedBookingPricing(d: Draft, id: int, userId: int, now: int)
    requires ValidDate(d.startDate) && ValidDate(d.endDate)
    requires d.pricing == Price(DaysBetween(d.startDate, d.endDate), d.apartment.pricePerMonth)
    ensures CreatedBooking(d, id, userId, now).totalAmount
            == MonthlyTotal(d.apartment.pricePerMonth, CeilMonths(DaysBetween(d.startDate, d.endDate)))
    ensures CreatedBooking(d, id, userId, now).depositAmount == 0.2 * CreatedBooking(d, id, userId, now).totalAmount
    ensures RemainingAmount(CreatedBooking(d, id, userId, now)) == 0.8 * CreatedBooking(d, id, userId, now).totalAmount
  {
    var days := DaysBetween(d.startDate, d.endDate);
    assert d.pricing.months == CeilMonths(days);
    RemainingIsEightyPercent(CreatedBooking(d, id, userId, now));
  }

  /** A created booking's total is its billed months at the monthly price. */
  lemma {:induction false} CreatedBookingBilled(d: Draft, id: int, userId: int, now: int)
    requires ValidDate(d.startDate) && ValidDate(d.endDate)
    requires d.pricing == Price(DaysBetween(d.startDate, d.endDate), d.apartment.pricePerMonth)
    ensures CreatedBooking(d, id, userId, now).totalAmount
            == MonthlyTotal(d.apartment.pricePerMonth, BilledMonths(CreatedBooking(d, id, userId, now)))
  {
    CreatedBookingPricing(d, id, userId, now);
  }

  // ---- the booking lifecycle ----

  /** What every booking this engine stores satisfies: a valid, non-empty
      range; the 20% deposit; a confirmed booking has its deposit paid; only
      `pending` and `confirmed` are ever reached; and `full_payment_paid` is
      never set. */
  predicate WellFormed(b: Booking) {
    && ValidDate(b.startDate) && ValidDate(b.endDate) && Before(b.startDate, b.endDate)
    && b.depositAmount == 0.2 * b.totalAmount
    && (b.status == Confirmed ==> b.depositPaid)
    && (b.status == Pending || b.status == Confirmed)
    && !b.fullPaymentPaid
  }

  /** The lines of `confirm_booking` that change the record: the deposit is
      paid and the status is confirmed whatever it was. `updated_at` is an
      `onupdate` column, so it is stamped only when one of the two values
      really changes (an assignment of equal values emits no UPDATE);
      nothing else changes. */
  function ConfirmDeposit(b: Booking, now: int): (c: Booking)
    ensures c.depositPaid && c.status == Confirmed
    ensures c.updatedAt == if b.depositPaid && b.status == Confirmed then b.updatedAt else now
    ensures c.(depositPaid := b.depositPaid, status := b.status, updatedAt := b.updatedAt) == b
  {
    if b.depositPaid && b.status == Confirmed then b
    else b.(depositPaid := true, status := Confirmed, updatedAt := now)
  }

  /** Confirming twice is confirming once: the second request changes
      nothing, not even the stamp of the first. Confirming keeps a stored
      booking well formed. */
  lemma ConfirmDepositIdempotent(b: Booking, t1: int, t2: int)
    ensures ConfirmDeposit(ConfirmDeposit(b, t1), t2) == ConfirmDeposit(b, t1)
    ensures WellFormed(b) ==> WellFormed(ConfirmDeposit(b, t1))
  {
  }

  /** A booking created from a request is well formed. */
  lemma {:induction false} CreatedBookingWellFormed(d: Draft, directory: seq<Apartment>, apartmentId: int,
                                                    startText: Option<string>, endText: Option<string>,
                                                    today: Date, id: int, userId: int, now: int)
    requires ValidDate(today)
    requires PlanBooking(directory, apartmentId, startText, endText, today) == Success(d)
    ensures WellFormed(CreatedBooking(d, id, userId, now))
  {
    CreatedBookingPricing(d, id, userId, now);
  }

  datatype AccessError = BookingNotFound | AccessDenied | ConfirmFailed

  /** The position of the booking with id `bookingId`, or -1. */
  function FindBooking(bookings: seq<Booking>, bookingId: int): (k: int)
    ensures -1 <= k < |bookings|
    ensures k >= 0 ==> bookings[k].id == bookingId
    ensures k < 0 ==> forall b :: b in bookings ==> b.id != bookingId
  {
    if bookings == [] then -1
    else if bookings[|bookings| - 1].id == bookingId then |bookings| - 1
    else FindBooking(bookings[..|bookings| - 1], bookingId)
  }

  // ---- my_bookings ----

  /** `filter_by(user_id=...)`. */
  function OwnedBy(bookings: seq<Booking>, userId: int): (r: seq<Booking>)
    ensures forall b :: b in r <==> b in bookings && b.userId == userId
    ensures forall b :: b in r ==> b.userId == userId
  {
    if bookings == [] then []
    else if bookings[0].userId == userId then [bookings[0]] + OwnedBy(bookings[1..], userId)
    else OwnedBy(bookings[1..], userId)
  }

  /** The filter keeps each of the tenant's bookings as often as it is
      stored and drops every other booking. */
  lemma {:induction false} OwnedByCounts(bookings: seq<Booking>, userId: int)
    ensures forall b :: multiset(OwnedBy(bookings, userId))[b]
                        == if b.userId == userId then multiset(bookings)[b] else 0
  {
    if bookings != [] {
      OwnedByCounts(bookings[1..], userId);
      assert bookings == [bookings[0]] + bookings[1..];
    }
  }

  /** `order_by(Booking.created_at.desc())`: newest first. */
  predicate NewestFirst(bookings: seq<Booking>) {
    forall i, j :: 0 <= i < j < |bookings| ==> bookings[i].createdAt >= bookings[j].createdAt
  }

  /** Inserts `b` in front of the first booking that is not newer. */
  function InsertNewestFirst(b: Booking, sorted: seq<Booking>): (r: seq<Booking>)
    ensures |r| == |sorted| + 1
  {
    if sorted == [] || b.createdAt >= sorted[0].createdAt then
      [b] + sorted
    else
      [sorted[0]] + InsertNewestFirst(b, sorted[1..])
  }

  /** Insertion adds `b` and loses nothing. */
  lemma {:induction false} InsertPermutes(b: Booking, sorted: seq<Booking>)
    ensures multiset(InsertNewestFirst(b, sorted)) == multiset(sorted) + multiset{b}
  {
    if sorted != [] && b.createdAt < sorted[0].createdAt {
      InsertPermutes(b, sorted[1..]);
      assert sorted == [sorted[0]] + sorted[1..];
    }
  }

  /** Insertion adds no booking newer than a bound all its inputs respect. */
  lemma {:induction false} InsertBounded(b: Booking, sorted: seq<Booking>, t: int)
    requires b.createdAt <= t
    requires forall k :: 0 <= k < |sorted| ==> sorted[k].createdAt <= t
    ensures forall k :: 0 <= k < |InsertNewestFirst(b, sorted)| ==> InsertNewestFirst(b, sorted)[k].createdAt <= t
  {
    var r := InsertNewestFirst(b, sorted);
    if sorted != [] && b.createdAt < sorted[0].createdAt {
      var rest := InsertNewestFirst(b, sorted[1..]);
      InsertBounded(b, sorted[1..], t);
      assert r == [sorted[0]] + rest;
      forall k | 0 <= k < |r| ensures r[k].createdAt <= t {
        if k > 0 {
          assert r[k] == rest[k - 1];
          assert rest[k - 1].createdAt <= t;
        }
      }
    } else {
      assert r == [b] + sorted;
      forall k | 0 <= k < |r| ensures r[k].createdAt <= t {
        if k > 0 {
          assert r[k] == sorted[k - 1];
        }
      }
    }
  }

  /** Insertion keeps a listing newest first. */
  lemma {:induction false} InsertKeepsNewestFirst(b: Booking, sorted: seq<Booking>)
    requires NewestFirst(sorted)
    ensures NewestFirst(InsertNewestFirst(b, sorted))
  {
    if sorted != [] && b.createdAt < sorted[0].createdAt {
      var rest := InsertNewestFirst(b, sorted[1..]);
      InsertKeepsNewestFirst(b, sorted[1..]);
      InsertBounded(b, sorted[1..], sorted[0].createdAt);
      var r := [sorted[0]] + rest;
      assert InsertNewestFirst(b, sorted) == r;
      forall i, j | 0 <= i < j < |r| ensures r[i].createdAt >= r[j].createdAt {
        assert r[j] == rest[j - 1];
        assert rest[j - 1].createdAt <= sorted[0].createdAt;
        if i > 0 {
          assert r[i] == rest[i - 1];
        }
      }
    }
  }

  function SortNewestFirst(bookings: seq<Booking>): (r: seq<Booking>)
    ensures NewestFirst(r)
    ensures multiset(r) == multiset(bookings)
  {
    if bookings == [] then []
    else
      assert bookings == [bookings[0]] + bookings[1..];
      var rest := SortNewestFirst(bookings[1..]);
      InsertKeepsNewestFirst(bookings[0], rest);
      InsertPermutes(bookings[0], rest);
      InsertNewestFirst(bookings[0], rest)
  }

  /** The tenant's listing: exactly that tenant's bookings, each as often as
      stored, newest first. */
  function MyBookings(bookings: seq<Booking>, userId: int): (r: seq<Booking>)
    ensures NewestFirst(r)
    ensures multiset(r) == multiset(OwnedBy(bookings, userId))
    ensures forall b :: b in r <==> b in bookings && b.userId == userId
  {
    var r := SortNewestFirst(OwnedBy(bookings, userId));
    assert forall b :: b in r <==> b in multiset(r);
    r
  }

  /** The table of bookings, with the id the next insert takes. */
  class BookingStore {
    var bookings: seq<Booking>
    var nextId: int

    ghost predicate Invariant()
      reads this
    {
      && nextId >= 1
      && (forall i :: 0 <= i < |bookings| ==> WellFormed(bookings[i]) && 1 <= bookings[i].id < nextId)
      && (forall i, j :: 0 <= i < j < |bookings| ==> bookings[i].id < bookings[j].id)
    }

    constructor ()
      ensures Invariant() && bookings == [] && nextId == 1
    {
      bookings := [];
      nextId := 1;
    }

    /** The POST path of `book_apartment`: on a settled request whose commit
        succeeds, exactly one booking is appended; otherwise nothing changes.
        No overlap with other bookings of the apartment is checked. */
    method BookApartment(directory: seq<Apartment>, apartmentId: int, userId: int, startText: Option<string>,
                         endText: Option<string>, today: Date, now: int, commitOk: bool)
        returns (r: Result<int, BookError>)
      requires Invariant() && ValidDate(today)
      modifies this
      ensures Invariant()
      ensures var plan := PlanBooking(directory, apartmentId, startText, endText, today);
        if plan.Success? && commitOk then
          && r == Success(old(nextId))
          && bookings == old(bookings) + [CreatedBooking(plan.value, old(nextId), userId, now)]
          && nextId == old(nextId) + 1
        else
          && r == Failure(if plan.Failure? then plan.error else CommitFailed)
          && bookings == old(bookings) && nextId == old(nextId)
    {
      var plan := PlanBooking(directory, apartmentId, startText, endText, today);
      if plan.Failure? {
        r := Failure(plan.error);
        return;
      }
      if !commitOk {
        r := Failure(CommitFailed);
        return;
      }
      var b := CreatedBooking(plan.value, nextId, userId, now);
      CreatedBookingWellFormed(plan.value, directory, apartmentId, startText, endText, today, nextId, userId, now);
      bookings := bookings + [b];
      r := Success(nextId);
      nextId := nextId + 1;
    }

    /** `payment`: the booking is shown only to the tenant who made it. */
    function Payment(bookingId: int, userId: int): (r: Result<Booking, AccessError>)
      reads this
      ensures r.Success? ==> r.value in bookings && r.value.id == bookingId && r.value.userId == userId
      ensures r == Failure(BookingNotFound) <==> forall b :: b in bookings ==> b.id != bookingId
      ensures r != Failure(ConfirmFailed)
      ensures var k := FindBooking(bookings, bookingId);
        k >= 0 ==> r == (if bookings[k].userId == userId then Success(bookings[k]) else Failure(AccessDenied))
    {
      var k := FindBooking(bookings, bookingId);
      if k < 0 then Failure(BookingNotFound)
      else if bookings[k].userId != userId then Failure(AccessDenied)
      else Success(bookings[k])
    }

    /** `confirm_booking`: after the same ownership check as `payment`, the
        booking's deposit is marked paid and its status confirmed, whatever
        its status was. Any refusal, or a failed commit, changes nothing. */
    method ConfirmBooking(bookingId: int, userId: int, now: int, commitOk: bool)
        returns (r: Result<Booking, AccessError>)
      requires Invariant()
      modifies this
      ensures Invariant() && nextId == old(nextId)
      ensures var k := FindBooking(old(bookings), bookingId);
        if k < 0 then
          r == Failure(BookingNotFound) && bookings == old(bookings)
        else if old(bookings)[k].userId != userId then
          r == Failure(AccessDenied) && bookings == old(bookings)
        else if !commitOk then
          r == Failure(ConfirmFailed) && bookings == old(bookings)
        else
          && r == Success(ConfirmDeposit(old(bookings)[k], now))
          && bookings == old(bookings)[k := ConfirmDeposit(old(bookings)[k], now)]
    {
      var k := FindBooking(bookings, bookingId);
      if k < 0 {
        r := Failure(BookingNotFound);
      } else if bookings[k].userId != userId {
        r := Failure(AccessDenied);
      } else if !commitOk {
        r := Failure(ConfirmFailed);
      } else {
        var c := ConfirmDeposit(bookings[k], now);
        ConfirmDepositIdempotent(bookings[k], now, now);
        bookings := bookings[k := c];
        r := Success(c);
      }
    }

    /** `my_bookings` for the acting tenant. */
    function ListMine(userId: int): (r: seq<Booking>)
      reads this
      ensures NewestFirst(r)
      ensures forall b :: b in r <==> b in bookings && b.userId == userId
      ensures multiset(r) == multiset(OwnedBy(bookings, userId))
    {
      MyBookings(bookings, userId)
    }
  }

  // ---- the worked examples ----

  /** A six-month minimum, 1000 a month, from 2025-01-01 to 2025-07-15: 195
      days, seven billed months, 7000 in all and a 1400 deposit. */
  lemma SevenMonthScenario()
    ensures var a := NewApartment(1, "Loft", "", "", "", "", "", 1000.0, 6, 1, 1.0, 500, 1, 0);
      var s, e := Date(2025, 1, 1), Date(2025, 7, 15);
      && DaysBetween(s, e) == 195
      && ValidateBookingDates(s, e, a, s) == (true, DatesValidMessage)
      && Price(DaysBetween(s, e), a.pricePerMonth) == Pricing(7, 7000.0, 1400.0)
  {
  }

  /** The same apartment from 2025-01-01 to 2025-03-01 (two billed months)
      is refused for its six-month minimum; an end equal to the start is
      refused as a range. */
  lemma TooShortScenario()
    ensures var a := NewApartment(1, "Loft", "", "", "", "", "", 1000.0, 6, 1, 1.0, 500, 1, 0);
      var s := Date(2025, 1, 1);
      && ValidateBookingDates(s, Date(2025, 3, 1), a, s) == (false, MinDurationMessage(6))
      && ValidateBookingDates(s, s, a, s) == (false, RangeMessage)
  {
  }
}
