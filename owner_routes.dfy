/** The owner pages of app/routes/owner.py: the owner-role and ownership
    guards, the field-by-field validation of the apartment form shared by
    `new_apartment` and `edit_apartment`, and a store of apartments and
    their images on which creation, editing, deletion and the dashboard
    operate. Numeric form fields arrive already read: `None` stands for a
    value `float()` or `int()` rejects (or a missing one). A failed commit
    leaves the store as it was. */
module OwnerRoutes {
  import opened Wrappers
  import opened Text
  import opened ApartmentModel
  import opened BookingModel

  /** The acting user, as the identity layer supplies it. */
  datatype User = User(id: int, isOwner: bool)

  /** The POSTed apartment form. Text fields are as sent (a missing one is
      ""); they are stripped before they are checked or stored. */
  datatype ApartmentForm = ApartmentForm(
    title: string,
    description: string,
    address: string,
    city: string,
    state: string,
    zipCode: string,
    pricePerMonth: Option<real>,
    minContractDuration: Option<int>,
    bedrooms: Option<int>,
    bathrooms: Option<real>,
    areaSqft: Option<int>,
    isAvailable: Option<string>)

  /** One entry of the validation's error list. */
  datatype FieldError =
    | TitleTooShort | DescriptionTooShort | AddressTooShort | CityTooShort | StateTooShort | ZipMissing
    | PriceOutOfRange | PriceInvalid
    | ContractOutOfRange | ContractInvalid
    | BedroomsOutOfRange | BedroomsInvalid
    | BathroomsOutOfRange | BathroomsInvalid
    | AreaOutOfRange | AreaInvalid

  /** The message flashed for each entry. */
  function ErrorMessage(e: FieldError): string {
    match e
    case TitleTooShort => "Title is required and must be at least 5 characters"
    case DescriptionTooShort => "Description is required and must be at least 20 characters"
    case AddressTooShort => "Address is required and must be at least 5 characters"
    case CityTooShort => "City is required and must be at least 2 characters"
    case StateTooShort => "State is required and must be at least 2 characters"
    case ZipMissing => "ZIP code is required"
    case PriceOutOfRange => "Price must be between $100 and $10,000"
    case PriceInvalid => "Invalid price amount"
    case ContractOutOfRange => "Contract duration must be between 1 and 60 months"
    case ContractInvalid => "Invalid contract duration"
    case BedroomsOutOfRange => "Number of bedrooms must be between 0 and 10"
    case BedroomsInvalid => "Invalid number of bedrooms"
    case BathroomsOutOfRange => "Number of bathrooms must be between 0.5 and 10"
    case BathroomsInvalid => "Invalid number of bathrooms"
    case AreaOutOfRange => "Area must be between 100 and 10,000 square feet"
    case AreaInvalid => "Invalid area"
  }

  /** The flashed messages of an error list, in order. */
  function ErrorMessages(es: seq<FieldError>): (ms: seq<string>)
    ensures |ms| == |es|
    ensures forall i :: 0 <= i < |es| ==> ms[i] == ErrorMessage(es[i])
  {
    if es == [] then [] else [ErrorMessage(es[0])] + ErrorMessages(es[1..])
  }

  /** The form with its text fields `.strip()`ped, as the routes read them. */
  function Stripped(f: ApartmentForm): ApartmentForm {
    f.(title := Strip(f.title), description := Strip(f.description), address := Strip(f.address),
       city := Strip(f.city), state := Strip(f.state), zipCode := Strip(f.zipCode))
  }

  /** `if not v or len(v) < n` on an already stripped value. */
  function TextCheck(value: string, minLength: nat, error: FieldError): Option<FieldError> {
    if |value| == 0 || |value| < minLength then Some(error) else None
  }

  /** `try: v = float(raw); if v < lo or v > hi: ... except: ...`. */
  function RealCheck(v: Option<real>, lo: real, hi: real, outOfRange: FieldError, invalid: FieldError): Option<FieldError> {
    match v
    case None => Some(invalid)
    case Some(x) => if x < lo || x > hi then Some(outOfRange) else None
  }

  /** The same for `int(raw)`. */
  function IntCheck(v: Option<int>, lo: int, hi: int, outOfRange: FieldError, invalid: FieldError): Option<FieldError> {
    match v
    case None => Some(invalid)
    case Some(x) => if x < lo || x > hi then Some(outOfRange) else None
  }

  /** The number of checked fields. */
  const FieldCount := 11

  /** The check of field `i`, in the order the form is checked: title,
      description, address, city, state, ZIP code, price, minimum contract,
      bedrooms, bathrooms, area. */
  function Check(f: ApartmentForm, i: int): Option<FieldError>
    requires 0 <= i < FieldCount
  {
    match i
    case 0 => TextCheck(f.title, 5, TitleTooShort)
    case 1 => TextCheck(f.description, 20, DescriptionTooShort)
    case 2 => TextCheck(f.address, 5, AddressTooShort)
    case 3 => TextCheck(f.city, 2, CityTooShort)
    case 4 => TextCheck(f.state, 2, StateTooShort)
    case 5 => TextCheck(f.zipCode, 1, ZipMissing)
    case 6 => RealCheck(f.pricePerMonth, 100.0, 10000.0, PriceOutOfRange, PriceInvalid)
    case 7 => IntCheck(f.minContractDuration, 1, 60, ContractOutOfRange, ContractInvalid)
    case 8 => IntCheck(f.bedrooms, 0, 10, BedroomsOutOfRange, BedroomsInvalid)
    case 9 => RealCheck(f.bathrooms, 0.5, 10.0, BathroomsOutOfRange, BathroomsInvalid)
    case _ => IntCheck(f.areaSqft, 100, 10000, AreaOutOfRange, AreaInvalid)
  }

  function Entry(c: Option<FieldError>): seq<FieldError> {
    if c.Some? then [c.value] else []
  }

  /** The messages of the failing checks among the first `n` fields, in order. */
  function ErrorsUpTo(f: ApartmentForm, n: int): (r: seq<FieldError>)
    requires 0 <= n <= FieldCount
    ensures |r| <= n
  {
    if n == 0 then [] else ErrorsUpTo(f, n - 1) + Entry(Check(f, n - 1))
  }

  /** The number of failing checks among the first `n` fields. */
  function FailingCount(f: ApartmentForm, n: int): nat
    requires 0 <= n <= FieldCount
  {
    if n == 0 then 0 else FailingCount(f, n - 1) + (if Check(f, n - 1).Some? then 1 else 0)
  }

  /** One message per failing check, and none when every check passes. */
  lemma {:induction false} ErrorsUpToCount(f: ApartmentForm, n: int)
    requires 0 <= n <= FieldCount
    ensures |ErrorsUpTo(f, n)| == FailingCount(f, n)
    ensures ErrorsUpTo(f, n) == [] <==> forall i :: 0 <= i < n ==> Check(f, i).None?
  {
    if n > 0 {
      ErrorsUpToCount(f, n - 1);
    }
  }

  /** A message is collected exactly when the check of some field produced it. */
  lemma {:induction false} ErrorsUpToMembers(f: ApartmentForm, n: int, m: FieldError)
    requires 0 <= n <= FieldCount
    ensures m in ErrorsUpTo(f, n) <==> exists i :: 0 <= i < n && Check(f, i) == Some(m)
  {
    if n > 0 {
      ErrorsUpToMembers(f, n - 1, m);
    }
  }

  /** A stripped form is acceptable, stated field by field. */
  predicate FieldsValid(f: ApartmentForm) {
    && |f.title| >= 5
    && |f.description| >= 20
    && |f.address| >= 5
    && |f.city| >= 2
    && |f.state| >= 2
    && |f.zipCode| >= 1
    && f.pricePerMonth.Some? && 100.0 <= f.pricePerMonth.value <= 10000.0
    && f.minContractDuration.Some? && 1 <= f.minContractDuration.value <= 60
    && f.bedrooms.Some? && 0 <= f.bedrooms.value <= 10
    && f.bathrooms.Some? && 0.5 <= f.bathrooms.value <= 10.0
    && f.areaSqft.Some? && 100 <= f.areaSqft.value <= 10000
  }

  /** The error list the validation of a stripped form builds (shared by
      `new_apartment` and `edit_apartment`): the failing checks, in field
      order. */
  function FormErrors(f: ApartmentForm): (errors: seq<FieldError>)
    ensures |errors| <= FieldCount
  {
    ErrorsUpTo(f, FieldCount)
  }

  /** The form is rejected exactly when some field fails, with one message
      per failing field. */
  lemma FormErrorsEmptyIff(f: ApartmentForm)
    ensures FormErrors(f) == [] <==> FieldsValid(f)
    ensures |FormErrors(f)| == FailingCount(f, FieldCount)
  {
    ErrorsUpToCount(f, FieldCount);
    if forall i :: 0 <= i < FieldCount ==> Check(f, i).None? {
      assert Check(f, 0).None? && Check(f, 1).None? && Check(f, 2).None? && Check(f, 3).None?;
      assert Check(f, 4).None? && Check(f, 5).None? && Check(f, 6).None? && Check(f, 7).None?;
      assert Check(f, 8).None? && Check(f, 9).None? && Check(f, 10).None?;
    }
  }

  /** A message is reported exactly when the check of its field produced it. */
  lemma FormErrorsMembers(f: ApartmentForm, m: FieldError)
    ensures m in FormErrors(f) <==> exists i :: 0 <= i < FieldCount && Check(f, i) == Some(m)
  {
    ErrorsUpToMembers(f, FieldCount, m);
  }

  /** The field whose check can produce `m`. */
  function FieldOf(m: FieldError): (i: int)
    ensures 0 <= i < FieldCount
  {
    match m
    case TitleTooShort => 0
    case DescriptionTooShort => 1
    case AddressTooShort => 2
    case CityTooShort => 3
    case StateTooShort => 4
    case ZipMissing => 5
    case PriceOutOfRange | PriceInvalid => 6
    case ContractOutOfRange | ContractInvalid => 7
    case BedroomsOutOfRange | BedroomsInvalid => 8
    case BathroomsOutOfRange | BathroomsInvalid => 9
    case AreaOutOfRange | AreaInvalid => 10
  }

  /** Each message is produced only by the check of its own field, so it is
      reported exactly when that one check produces it. */
  lemma FormErrorsAt(f: ApartmentForm, m: FieldError)
    ensures m in FormErrors(f) <==> Check(f, FieldOf(m)) == Some(m)
  {
    FormErrorsMembers(f, m);
    forall i | 0 <= i < FieldCount && Check(f, i) == Some(m) ensures i == FieldOf(m) {
    }
  }

  /** A field whose check passes contributes no message at all. */
  lemma FieldPasses(f: ApartmentForm, i: int)
    requires 0 <= i < FieldCount && Check(f, i).None?
    ensures forall m :: FieldOf(m) == i ==> m !in FormErrors(f)
  {
    forall m | FieldOf(m) == i ensures m !in FormErrors(f) {
      FormErrorsAt(f, m);
    }
  }

  /** `if not v or len(v) < n: errors.append(...)`. */
  method AppendTextCheck(errors: seq<FieldError>, value: string, minLength: nat, error: FieldError)
      returns (errors': seq<FieldError>)
    ensures errors' == errors + Entry(TextCheck(value, minLength, error))
  {
    errors' := errors;
    if |value| == 0 || |value| < minLength {
      errors' := errors' + [error];
    }
  }

  /** `try: x = float(raw); if x < lo or x > hi: errors.append(...)
      except: errors.append(...)`. */
  method AppendRealCheck(errors: seq<FieldError>, v: Option<real>, lo: real, hi: real,
                         outOfRange: FieldError, invalid: FieldError) returns (errors': seq<FieldError>)
    ensures errors' == errors + Entry(RealCheck(v, lo, hi, outOfRange, invalid))
  {
    errors' := errors;
    match v {
      case None => errors' := errors' + [invalid];
      case Some(x) =>
        if x < lo || x > hi {
          errors' := errors' + [outOfRange];
        }
    }
  }

  /** The same with `int(raw)`. */
  method AppendIntCheck(errors: seq<FieldError>, v: Option<int>, lo: int, hi: int,
                        outOfRange: FieldError, invalid: FieldError) returns (errors': seq<FieldError>)
    ensures errors' == errors + Entry(IntCheck(v, lo, hi, outOfRange, invalid))
  {
    errors' := errors;
    match v {
      case None => errors' := errors' + [invalid];
      case Some(n) =>
        if n < lo || n > hi {
          errors' := errors' + [outOfRange];
        }
    }
  }

  /** The appends of lines 45-100 (and 174-227) on the stripped form, one
      field after another. */
  method ValidateApartmentForm(g: ApartmentForm) returns (errors: seq<FieldError>)
    ensures errors == FormErrors(g)
  {
    errors := [];
    errors := AppendTextCheck(errors, g.title, 5, TitleTooShort);
    assert errors == ErrorsUpTo(g, 1);
    errors := AppendTextCheck(errors, g.description, 20, DescriptionTooShort);
    assert errors == ErrorsUpTo(g, 2);
    errors := AppendTextCheck(errors, g.address, 5, AddressTooShort);
    assert errors == ErrorsUpTo(g, 3);
    errors := AppendTextCheck(errors, g.city, 2, CityTooShort);
    assert errors == ErrorsUpTo(g, 4);
    errors := AppendTextCheck(errors, g.state, 2, StateTooShort);
    assert errors == ErrorsUpTo(g, 5);
    errors := AppendTextCheck(errors, g.zipCode, 1, ZipMissing);
    assert errors == ErrorsUpTo(g, 6);
    errors := AppendRealCheck(errors, g.pricePerMonth, 100.0, 10000.0, PriceOutOfRange, PriceInvalid);
    assert errors == ErrorsUpTo(g, 7);
    errors := AppendIntCheck(errors, g.minContractDuration, 1, 60, ContractOutOfRange, ContractInvalid);
    assert errors == ErrorsUpTo(g, 8);
    errors := AppendIntCheck(errors, g.bedrooms, 0, 10, BedroomsOutOfRange, BedroomsInvalid);
    assert errors == ErrorsUpTo(g, 9);
    errors := AppendRealCheck(errors, g.bathrooms, 0.5, 10.0, BathroomsOutOfRange, BathroomsInvalid);
    assert errors == ErrorsUpTo(g, 10);
    errors := AppendIntCheck(errors, g.areaSqft, 100, 10000, AreaOutOfRange, AreaInvalid);
  }

  /** The numeric fields are the checks 6 (price) to 10 (area). */
  predicate NumericField(i: int) {
    6 <= i < FieldCount
  }

  /** The raw value of numeric field `i` did not parse. */
  predicate Unparsed(f: ApartmentForm, i: int)
    requires NumericField(i)
  {
    match i
    case 6 => f.pricePerMonth.None?
    case 7 => f.minContractDuration.None?
    case 8 => f.bedrooms.None?
    case 9 => f.bathrooms.None?
    case _ => f.areaSqft.None?
  }

  /** The "Invalid ..." entry of numeric field `i`. */
  function InvalidOf(i: int): (m: FieldError)
    requires NumericField(i)
    ensures FieldOf(m) == i
  {
    match i
    case 6 => PriceInvalid
    case 7 => ContractInvalid
    case 8 => BedroomsInvalid
    case 9 => BathroomsInvalid
    case _ => AreaInvalid
  }

  /** Numeric field `i` holds one of the two bounds of its range: 100 or
      10000 for price, 1 or 60 for duration, 0 or 10 for bedrooms, 0.5 or 10
      for bathrooms, 100 or 10000 for area. */
  predicate OnBound(f: ApartmentForm, i: int)
    requires NumericField(i)
  {
    match i
    case 6 => f.pricePerMonth == Some(100.0) || f.pricePerMonth == Some(10000.0)
    case 7 => f.minContractDuration == Some(1) || f.minContractDuration == Some(60)
    case 8 => f.bedrooms == Some(0) || f.bedrooms == Some(10)
    case 9 => f.bathrooms == Some(0.5) || f.bathrooms == Some(10.0)
    case _ => f.areaSqft == Some(100) || f.areaSqft == Some(10000)
  }

  /** A numeric value that does not parse reports its field's "Invalid ..."
      message and no other message of that field, never the range one. */
  lemma InvalidBeatsRange(f: ApartmentForm, i: int)
    requires NumericField(i)
    ensures Unparsed(f, i) ==> InvalidOf(i) in FormErrors(f)
    ensures Unparsed(f, i) ==> forall m :: FieldOf(m) == i && m != InvalidOf(i) ==> m !in FormErrors(f)
  {
    if Unparsed(f, i) {
      assert Check(f, i) == Some(InvalidOf(i));
      FormErrorsAt(f, InvalidOf(i));
      forall m | FieldOf(m) == i && m != InvalidOf(i) ensures m !in FormErrors(f) {
        FormErrorsAt(f, m);
      }
    }
  }

  /** The range checks are inclusive at both ends: a value on either bound
      draws no message of its field. */
  lemma RangesInclusive(f: ApartmentForm, i: int)
    requires NumericField(i)
    ensures OnBound(f, i) ==> forall m :: FieldOf(m) == i ==> m !in FormErrors(f)
  {
    if OnBound(f, i) {
      assert Check(f, i).None?;
      FieldPasses(f, i);
    }
  }

  /** The stored row already holds every value the form assigns. */
  predicate FormMatches(a: Apartment, f: ApartmentForm)
    requires FieldsValid(f)
  {
    && a.title == f.title && a.description == f.description && a.address == f.address
    && a.city == f.city && a.state == f.state && a.zipCode == f.zipCode
    && Some(a.pricePerMonth) == f.pricePerMonth && Some(a.minContractDuration) == f.minContractDuration
    && Some(a.bedrooms) == f.bedrooms && Some(a.bathrooms) == f.bathrooms && Some(a.areaSqft) == f.areaSqft
    && (a.isAvailable <==> f.isAvailable == Some("on"))
  }

  /** The assignments of lines 236-247 from a stripped form: every listed
      field takes the form's value, availability follows the checkbox, and
      the id, owner and creation time stay. `updated_at` is an `onupdate`
      column: it is stamped only when some assigned value differs from the
      stored one, since equal assignments emit no UPDATE. */
  function ApplyEdit(a: Apartment, f: ApartmentForm, now: int): (e: Apartment)
    requires FieldsValid(f)
    ensures e.id == a.id && e.ownerId == a.ownerId && e.createdAt == a.createdAt
    ensures e.updatedAt == if FormMatches(a, f) then a.updatedAt else now
    ensures e.title == f.title && e.description == f.description && e.address == f.address
    ensures e.city == f.city && e.state == f.state && e.zipCode == f.zipCode
    ensures Some(e.pricePerMonth) == f.pricePerMonth && Some(e.minContractDuration) == f.minContractDuration
    ensures Some(e.bedrooms) == f.bedrooms && Some(e.bathrooms) == f.bathrooms && Some(e.areaSqft) == f.areaSqft
    ensures e.isAvailable <==> f.isAvailable == Some("on")
  {
    var edited := a.(title := f.title, description := f.description, address := f.address,
       city := f.city, state := f.state, zipCode := f.zipCode,
       pricePerMonth := f.pricePerMonth.value, minContractDuration := f.minContractDuration.value,
       bedrooms := f.bedrooms.value, bathrooms := f.bathrooms.value, areaSqft := f.areaSqft.value,
       isAvailable := f.isAvailable == Some("on"));
    if edited == a then a else edited.(updatedAt := now)
  }

  /** Submitting the same form twice is submitting it once: the second
      request changes nothing, not even the first stamp; and an edit leaves
      the row as it was exactly when the form matches it. */
  lemma ApplyEditIdempotent(a: Apartment, f: ApartmentForm, t1: int, t2: int)
    requires FieldsValid(f)
    ensures ApplyEdit(ApplyEdit(a, f, t1), f, t2) == ApplyEdit(a, f, t1)
    ensures ApplyEdit(a, f, t1) == a <==> FormMatches(a, f)
  {
  }

  /** The apartment `new_apartment` inserts from a stripped form: its values,
      owned by the acting user, available by default. */
  function CreatedApartment(id: int, f: ApartmentForm, ownerId: int, now: int): (a: Apartment)
    requires FieldsValid(f)
    ensures a.isAvailable && a.ownerId == ownerId && a.id == id
    ensures a.title == f.title && a.description == f.description && a.address == f.address
    ensures a.city == f.city && a.state == f.state && a.zipCode == f.zipCode
    ensures Some(a.pricePerMonth) == f.pricePerMonth && Some(a.minContractDuration) == f.minContractDuration
    ensures Some(a.bedrooms) == f.bedrooms && Some(a.bathrooms) == f.bathrooms && Some(a.areaSqft) == f.areaSqft
    ensures a.createdAt == now && a.updatedAt == now
  {
    NewApartment(id, f.title, f.description, f.address, f.city, f.state, f.zipCode, f.pricePerMonth.value, f.minContractDuration.value,
                 f.bedrooms.value, f.bathrooms.value, f.areaSqft.value, ownerId, now)
  }

  /** Why an owner request was refused; `action` names the verb of the
      route's messages ("edit"/"delete", "creating"/"updating"/"deleting"). */
  datatype OwnerError =
    | NotOwner
    | ApartmentNotFound
    | NotYourApartment(action: string)
    | Invalid(errors: seq<FieldError>)
    | CommitFailed(action: string)

  /** The messages flashed for each refusal; `get_or_404` flashes none. */
  function OwnerErrorMessages(e: OwnerError): (r: seq<string>)
    ensures e.Invalid? ==> r == ErrorMessages(e.errors)
    ensures !e.Invalid? ==> |r| <= 1
    ensures e.ApartmentNotFound? <==> r == [] && !e.Invalid?
  {
    match e
    case NotOwner => ["Access denied. Owner privileges required."]
    case ApartmentNotFound => []
    case NotYourApartment(action) => ["Access denied. You can only " + action + " your own apartments."]
    case Invalid(errors) => ErrorMessages(errors)
    case CommitFailed(action) => ["An error occurred while " + action + " the apartment. Please try again."]
  }

  /** The position of the apartment with id `apartmentId`, or -1. */
  function FindApartmentIndex(apartments: seq<Apartment>, apartmentId: int): (k: int)
    ensures -1 <= k < |apartments|
    ensures k >= 0 ==> apartments[k].id == apartmentId
    ensures k < 0 ==> forall a :: a in apartments ==> a.id != apartmentId
  {
    if apartments == [] then -1
    else if apartments[|apartments| - 1].id == apartmentId then |apartments| - 1
    else FindApartmentIndex(apartments[..|apartments| - 1], apartmentId)
  }

  /** `Apartment.query.filter_by(owner_id=...)`. */
  function OwnedApartments(apartments: seq<Apartment>, ownerId: int): (r: seq<Apartment>)
    ensures forall a :: a in r <==> a in apartments && a.ownerId == ownerId
  {
    if apartments == [] then []
    else if apartments[0].ownerId == ownerId then [apartments[0]] + OwnedApartments(apartments[1..], ownerId)
    else OwnedApartments(apartments[1..], ownerId)
  }

  /** The filter keeps each of the owner's apartments as often as it is
      stored and drops every other apartment. */
  lemma {:induction false} OwnedApartmentsCounts(apartments: seq<Apartment>, ownerId: int)
    ensures forall a :: multiset(OwnedApartments(apartments, ownerId))[a]
                        == if a.ownerId == ownerId then multiset(apartments)[a] else 0
  {
    if apartments != [] {
      OwnedApartmentsCounts(apartments[1..], ownerId);
      assert apartments == [apartments[0]] + apartments[1..];
    }
  }

  /** The booking is for one of the owner's apartments. */
  predicate ForOwnersApartment(b: Booking, apartments: seq<Apartment>, ownerId: int) {
    exists a :: a in apartments && a.id == b.apartmentId && a.ownerId == ownerId
  }

  /** `Booking.query.join(Apartment).filter(Apartment.owner_id == ...)`. */
  function OwnersBookings(bookings: seq<Booking>, apartments: seq<Apartment>, ownerId: int): (r: seq<Booking>)
    ensures forall b :: b in r <==> b in bookings && ForOwnersApartment(b, apartments, ownerId)
  {
    if bookings == [] then []
    else if ForOwnersApartment(bookings[0], apartments, ownerId) then
      [bookings[0]] + OwnersBookings(bookings[1..], apartments, ownerId)
    else OwnersBookings(bookings[1..], apartments, ownerId)
  }

  /** The join keeps each booking of the owner's apartments as often as it
      is stored and drops every other booking. */
  lemma {:induction false} OwnersBookingsCounts(bookings: seq<Booking>, apartments: seq<Apartment>, ownerId: int)
    ensures forall b :: multiset(OwnersBookings(bookings, apartments, ownerId))[b]
                        == if ForOwnersApartment(b, apartments, ownerId) then multiset(bookings)[b] else 0
  {
    if bookings != [] {
      OwnersBookingsCounts(bookings[1..], apartments, ownerId);
      assert bookings == [bookings[0]] + bookings[1..];
    }
  }

  /** Some booking still refers to the apartment. */
  predicate HasBookings(bookings: seq<Booking>, apartmentId: int) {
    exists b :: b in bookings && b.apartmentId == apartmentId
  }

  /** Ids below `nextId`, strictly increasing along the table. */
  ghost predicate ApartmentsWellFormed(apartments: seq<Apartment>, nextId: int) {
    && nextId >= 1
    && (forall i :: 0 <= i < |apartments| ==> 1 <= apartments[i].id < nextId)
    && (forall i, j :: 0 <= i < j < |apartments| ==> apartments[i].id < apartments[j].id)
  }

  /** Appending a row under the next id keeps the table well formed. */
  lemma AppendApartment(apartments: seq<Apartment>, nextId: int, a: Apartment)
    requires ApartmentsWellFormed(apartments, nextId) && a.id == nextId
    ensures ApartmentsWellFormed(apartments + [a], nextId + 1)
  {
  }

  /** Replacing a row by one with the same id keeps the table well formed. */
  lemma ReplaceApartment(apartments: seq<Apartment>, nextId: int, k: int, a: Apartment)
    requires ApartmentsWellFormed(apartments, nextId) && 0 <= k < |apartments| && a.id == apartments[k].id
    ensures ApartmentsWellFormed(apartments[k := a], nextId)
  {
  }

  /** Removing a row keeps the table well formed. */
  lemma RemoveApartmentRow(apartments: seq<Apartment>, nextId: int, k: int)
    requires ApartmentsWellFormed(apartments, nextId) && 0 <= k < |apartments|
    ensures ApartmentsWellFormed(apartments[..k] + apartments[k + 1..], nextId)
  {
    var rest := apartments[..k] + apartments[k + 1..];
    assert forall i :: 0 <= i < |rest| ==> rest[i] == apartments[if i < k then i else i + 1];
  }

  /** The apartment and image tables, with the id the next insert takes. */
  class ApartmentStore {
    var apartments: seq<Apartment>
    var images: seq<ApartmentImage>
    var nextId: int

    ghost predicate Invariant()
      reads this
    {
      ApartmentsWellFormed(apartments, nextId)
    }

    constructor ()
      ensures Invariant() && apartments == [] && images == [] && nextId == 1
    {
      apartments, images, nextId := [], [], 1;
    }

    /** `dashboard`: an owner sees their own apartments and the bookings made
        for them; anyone else is turned away. */
    function Dashboard(user: User, bookings: seq<Booking>): (r: Result<(seq<Apartment>, seq<Booking>), OwnerError>)
      reads this
      ensures !user.isOwner <==> r == Failure(NotOwner)
      ensures r.Success? ==>
        && (forall a :: a in r.value.0 <==> a in apartments && a.ownerId == user.id)
        && (forall b :: b in r.value.1 <==> b in bookings && ForOwnersApartment(b, apartments, user.id))
    {
      if !user.isOwner then Failure(NotOwner)
      else Success((OwnedApartments(apartments, user.id), OwnersBookings(bookings, apartments, user.id)))
    }

    /** The POST path of `new_apartment`. */
    method NewApartmentRoute(user: User, f: ApartmentForm, now: int, commitOk: bool) returns (r: Result<int, OwnerError>)
      requires Invariant()
      modifies this
      ensures Invariant() && images == old(images)
      ensures !user.isOwner ==> r == Failure(NotOwner) && apartments == old(apartments) && nextId == old(nextId)
      ensures user.isOwner && !FieldsValid(Stripped(f)) ==>
        r == Failure(Invalid(FormErrors(Stripped(f)))) && apartments == old(apartments) && nextId == old(nextId)
      ensures user.isOwner && FieldsValid(Stripped(f)) && !commitOk ==>
        r == Failure(CommitFailed("creating")) && apartments == old(apartments) && nextId == old(nextId)
      ensures user.isOwner && FieldsValid(Stripped(f)) && commitOk ==>
        && r == Success(old(nextId))
        && apartments == old(apartments) + [CreatedApartment(old(nextId), Stripped(f), user.id, now)]
        && nextId == old(nextId) + 1
    {
      if !user.isOwner {
        return Failure(NotOwner);
      }
      var g := Stripped(f);
      var errors := ValidateApartmentForm(g);
      FormErrorsEmptyIff(g);
      if errors != [] {
        return Failure(Invalid(errors));
      }
      if !commitOk {
        return Failure(CommitFailed("creating"));
      }
      var a := CreatedApartment(nextId, g, user.id, now);
      AppendApartment(apartments, nextId, a);
      apartments := apartments + [a];
      r := Success(nextId);
      nextId := nextId + 1;
    }

    /** The POST path of `edit_apartment`: the owner check, the lookup, the
        ownership check, the same validation as creation, then the update. */
    method EditApartment(user: User, apartmentId: int, f: ApartmentForm, now: int, commitOk: bool)
        returns (r: Result<(), OwnerError>)
      requires Invariant()
      modifies this
      ensures Invariant() && images == old(images) && nextId == old(nextId)
      ensures var k := FindApartmentIndex(old(apartments), apartmentId);
        if !user.isOwner then r == Failure(NotOwner) && apartments == old(apartments)
        else if k < 0 then r == Failure(ApartmentNotFound) && apartments == old(apartments)
        else if old(apartments)[k].ownerId != user.id then
          r == Failure(NotYourApartment("edit")) && apartments == old(apartments)
        else if !FieldsValid(Stripped(f)) then r == Failure(Invalid(FormErrors(Stripped(f)))) && apartments == old(apartments)
        else if !commitOk then r == Failure(CommitFailed("updating")) && apartments == old(apartments)
        else r == Success(()) && apartments == old(apartments)[k := ApplyEdit(old(apartments)[k], Stripped(f), now)]
    {
      if !user.isOwner {
        return Failure(NotOwner);
      }
      var k := FindApartmentIndex(apartments, apartmentId);
      if k < 0 {
        return Failure(ApartmentNotFound);
      }
      if apartments[k].ownerId != user.id {
        return Failure(NotYourApartment("edit"));
      }
      var g := Stripped(f);
      var errors := ValidateApartmentForm(g);
      FormErrorsEmptyIff(g);
      if errors != [] {
        return Failure(Invalid(errors));
      }
      if !commitOk {
        return Failure(CommitFailed("updating"));
      }
      var e := ApplyEdit(apartments[k], g, now);
      ReplaceApartment(apartments, nextId, k, e);
      apartments := apartments[k := e];
      r := Success(());
    }

    /** `delete_apartment`: removes the apartment and, by the delete-orphan
        cascade, its images. The bookings relationship has no cascade, so a
        flush would null the bookings' non-nullable `apartment_id`: an
        apartment that still has bookings fails at commit like any other
        commit error, and the store is unchanged. */
    method DeleteApartment(user: User, apartmentId: int, bookings: seq<Booking>, commitOk: bool)
        returns (r: Result<(), OwnerError>)
      requires Invariant()
      modifies this
      ensures Invariant() && nextId == old(nextId)
      ensures var k := FindApartmentIndex(old(apartments), apartmentId);
        if !user.isOwner then r == Failure(NotOwner) && apartments == old(apartments) && images == old(images)
        else if k < 0 then r == Failure(ApartmentNotFound) && apartments == old(apartments) && images == old(images)
        else if old(apartments)[k].ownerId != user.id then
          r == Failure(NotYourApartment("delete")) && apartments == old(apartments) && images == old(images)
        else if !commitOk || HasBookings(bookings, apartmentId) then
          r == Failure(CommitFailed("deleting")) && apartments == old(apartments) && images == old(images)
        else
          && r == Success(())
          && apartments == old(apartments)[..k] + old(apartments)[k + 1..]
          && images == CascadeImages(old(images), apartmentId)
    {
      if !user.isOwner {
        return Failure(NotOwner);
      }
      var k := FindApartmentIndex(apartments, apartmentId);
      if k < 0 {
        return Failure(ApartmentNotFound);
      }
      if apartments[k].ownerId != user.id {
        return Failure(NotYourApartment("delete"));
      }
      if !commitOk || HasBookings(bookings, apartmentId) {
        return Failure(CommitFailed("deleting"));
      }
      RemoveApartmentRow(apartments, nextId, k);
      apartments := apartments[..k] + apartments[k + 1..];
      images := CascadeImages(images, apartmentId);
      r := Success(());
    }
  }

  /** After a successful delete no apartment with that id and no image of it
      remains, and the other apartments are all still there. */
  lemma DeleteRemovesExactly(apartments: seq<Apartment>, images: seq<ApartmentImage>, k: int)
    requires 0 <= k < |apartments|
    requires forall i, j :: 0 <= i < j < |apartments| ==> apartments[i].id < apartments[j].id
    ensures var rest := apartments[..k] + apartments[k + 1..];
      && (forall a :: a in rest ==> a.id != apartments[k].id)
      && (forall a :: a in apartments && a.id != apartments[k].id ==> a in rest)
      && (forall g :: g in CascadeImages(images, apartments[k].id) ==> g.apartmentId != apartments[k].id)
  {
    var rest := apartments[..k] + apartments[k + 1..];
    forall a | a in rest ensures a.id != apartments[k].id {
      var i :| 0 <= i < |rest| && rest[i] == a;
      if i < k { assert a == apartments[i]; } else { assert a == apartments[i + 1]; }
    }
    forall a | a in apartments && a.id != apartments[k].id ensures a in rest {
      var i :| 0 <= i < |apartments| && apartments[i] == a;
      if i < k { assert rest[i] == a; } else { assert i != k; assert rest[i - 1] == a; }
    }
  }
}
