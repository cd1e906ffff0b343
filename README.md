# Roomsy in Dafny

Roomsy is a small apartment-rental web application. Owners list apartments. Tenants register, search the listings and book an apartment for a date range. A booking is priced per 30-day month and secured by a 20% deposit. This project models the application's core in Dafny and proves properties of that model:

- **the booking engine**: the fail-fast date validator, pricing, the checks before a booking is created, deposit confirmation, and a tenant's newest-first listing;
- **the `Booking` and `Apartment` records**: their defaults, derived properties and image cascade;
- **the three month formulas**: the code base turns a day count into months three different ways, and they are compared side by side;
- **registration**: the password, e-mail and username validators, and the error list registration accumulates;
- **the owner pages**: the owner and ownership guards, the eleven-field listing form validation, create, edit, delete and the dashboard;
- **the public pages**: the paginated index and the search filters;
- **the two helpers**: `calculate_duration_months` and `allowed_file`;
- **the production configuration**: the database URL rewrite and fallback.

How the model is built:

- State the routes change is held in classes. `BookingStore`, `ApartmentStore` and `AccountStore` model the database tables. Their methods state the whole new state of the table.
- Pure logic is functions with lemmas about them.
- The application reads several things from outside. Each becomes a parameter:
  - today's date;
  - the clock reading stamped on rows;
  - whether a database commit succeeds;
  - the current user;
  - environment variables.
- A failed commit leaves the store as it was.

The modules:

- `Wrappers`: `Option` and `Result`.
- `Text`: character classes, `str.strip()`, ASCII lower-casing, substring search and `str(n)`.
- `Dates`: proleptic Gregorian dates, the day ordinal, and a strict `YYYY-MM-DD` parser and renderer.
- `Durations`: the three month formulas.
- `ApartmentModel` and `BookingModel`: the records.
- `BookingRoutes`, `AuthRoutes`, `OwnerRoutes` and `MainRoutes`: the route modules.
- `Helpers` and `ProductionConfig`.

## Model

| member | source | states |
|---|---|---|
| Durations.CeilMonths | app/routes/booking.py:23 | `ceil(days/30)` is the least `r` with `30*r >= days` |
| Durations.RecordMonths | app/models/booking.py:27 | `days//30 + 1` lies strictly above the number of whole 30-day blocks: `30*(r-1) <= days < 30*r` |
| Durations.HelperMonths | app/utils/helpers.py:23 | `max(1, days//30 + 1)` is at least 1 and at least the record's formula |
| Durations.CeilAtLeastOne | app/routes/booking.py:23 | a positive stay is at least one billed month |
| Durations.RecordVersusCeil | app/models/booking.py:27 | for positive days the record formula equals the ceiling except at multiples of 30, where it is exactly one more (both directions) |
| Durations.HelperVersusRecord | app/utils/helpers.py:23 | the helper equals the record formula for non-negative days and is 1 for negative days |
| Durations.MonthsMonotone | app/routes/booking.py:23 | all three formulas are monotone in the day count |
| Dates.DaysInMonth | app/routes/booking.py:52-53 | months have 28 to 31 days |
| Dates.OrdinalOrder | app/routes/booking.py:16-20 | the calendar comparison `a < b` matches the ordinal order, and the ordinal is one-to-one on valid dates |
| Dates.DaysBetweenSign | app/routes/booking.py:19-23 | `(b - a).days` is positive, zero or negative exactly when `a < b`, `a == b` or `b < a` |
| Dates.ParseIso | app/routes/booking.py:51-56 | a strict `strptime('%Y-%m-%d')` yields only valid dates |
| Dates.ParseFormat | app/routes/booking.py:52-53 | reading a rendered date gives the date back |
| Dates.FormatParse | app/routes/booking.py:52-53 | a string that parses is exactly the rendering of its date |
| Text.TrimLeftShape | app/routes/owner.py:32-37 | stripping the left end removes exactly a whitespace prefix |
| Text.TrimRightShape | app/routes/owner.py:32-37 | stripping the right end removes exactly a whitespace suffix |
| Text.StripShape | app/routes/owner.py:32-37 | `str.strip()` returns the slice between whitespace padding, with no whitespace at either end, and is idempotent |
| Text.Lower | app/routes/main.py:37 | lower-casing keeps the length and maps each character |
| Text.Contains | app/routes/main.py:31-33 | `sub in s` holds exactly when `sub` occurs at some index |
| Text.FindSub | config_production.py:9 | `find` returns -1 or an index where the pattern occurs |
| Text.FindSubFirst | config_production.py:9 | no occurrence comes before the one `find` reports, and -1 means none at all |
| Text.NatToString | app/routes/booking.py:25 | the decimal rendering is non-empty and all digits |
| Text.NatToStringValue | app/routes/booking.py:25 | the digits of the decimal rendering of `n` spell `n` |
| Text.IntToStringRoundTrip | app/routes/booking.py:25 | `int(str(n)) == n` for every integer, so `str` is injective |
| ApartmentModel.NewApartment | app/models/apartment.py:4-22 | a new apartment is available, carries its id, owner and the creation time in both stamps |
| ApartmentModel.NewImage | app/models/apartment.py:31-39 | a new image is not primary and belongs to its apartment |
| ApartmentModel.CascadeImages | app/models/apartment.py:25 | the delete-orphan cascade keeps exactly the images of other apartments |
| ApartmentModel.FindApartment | app/routes/booking.py:32 | the lookup returns an apartment with that id, or none exists |
| BookingModel.StatusText | app/models/booking.py:12 | every status text fits the 20-character column |
| BookingModel.StatusRoundTrip | app/models/booking.py:12 | a status text reads back as its status, and only the four names read as statuses |
| BookingModel.NewBooking | app/models/booking.py:4-18 | a new booking is pending, unpaid, stamped `now` and has the given dates, amounts and references |
| BookingModel.DurationMonths | app/models/booking.py:23-27 | `duration_months` is at least 1 when the end is not before the start, and at most 0 when it is before |
| BookingModel.BilledMonths | app/routes/booking.py:65 | the billed months are at least 1 and the 30-day ceiling of the stay |
| BookingModel.DurationVersusBilled | app/models/booking.py:27 | `duration_months` and the billed months differ exactly at multiples of 30 days, by one |
| BookingModel.ThirtyDayStayShownAsTwoMonths | app/models/booking.py:27 | a 30-day stay is billed as 1 month but has `duration_months` 2 |
| BookingModel.RemainingIsEightyPercent | app/models/booking.py:29-32 | with a 20% deposit the remainder is 80% of the total, and deposit plus remainder is the total |
| BookingRoutes.MinDurationMessage | app/routes/booking.py:25 | the minimum-duration message is the fixed prefix and the ` months` suffix around something non-empty |
| BookingRoutes.MinDurationMessageNamesMinimum | app/routes/booking.py:24-26 | the text between prefix and suffix reads back as the apartment's minimum, so different minimums give different messages |
| BookingRoutes.ValidateBookingDates | app/routes/booking.py:12-27 | a start in the past is refused first, then an end not after the start, then a stay shorter than the minimum; otherwise valid; success is flagged exactly by the valid message |
| BookingRoutes.ValidateBookingDatesSound | app/routes/booking.py:12-27 | validation succeeds exactly when start >= today, end > start and the ceiling months reach the minimum |
| BookingRoutes.ValidationMessagesDistinct | app/routes/booking.py:17-27 | the four outcomes have pairwise different messages |
| BookingRoutes.Price | app/routes/booking.py:65-67 | the billed months are the 30-day ceiling, the total is months times monthly price, the deposit is 20% of the total |
| BookingRoutes.PlanBooking | app/routes/booking.py:31-67 | a request succeeds exactly when it is bookable; a success carries parsed, ordered dates, the found apartment, the ceiling pricing, and at least the minimum and at least 1 month; a missing apartment is `ApartmentNotFound`; once the dates are read, a validator refusal is `DatesRejected` with the validator's own message |
| BookingRoutes.PlanBookingShortCircuits | app/routes/booking.py:32-56 | missing apartment, unavailable, missing start, missing end and unreadable dates are refused in that order, before the validator runs |
| BookingRoutes.PlanBookingDateRefusals | app/routes/booking.py:16-20 | once the dates are read, a past start always fails with the past-start message and an end on or before the start with the range message |
| BookingRoutes.BookErrorMessages | app/routes/booking.py:32-92 | each refusal flashes its one message; a missing apartment flashes none, a validator refusal flashes the validator's message |
| BookingRoutes.CreatedBooking | app/routes/booking.py:70-78 | the inserted row has the tenant, the apartment, the validated dates and is pending and unpaid |
| BookingRoutes.CreatedBookingPricing | app/routes/booking.py:65-78 | the stored total is the monthly price times the ceiling of its own dates; the deposit is 20%, the remainder 80% |
| BookingRoutes.CreatedBookingBilled | app/routes/booking.py:65-66 | the stored total is the monthly price times the booking's billed months |
| BookingRoutes.ConfirmDeposit | app/routes/booking.py:118-121 | confirming sets the deposit paid and the status confirmed and changes nothing else; the update stamp is refreshed only when a value changed (app/models/booking.py:14) |
| BookingRoutes.ConfirmDepositIdempotent | app/routes/booking.py:118-121 | confirming again changes nothing, the first stamp included, and confirmation keeps a booking well formed |
| BookingRoutes.CreatedBookingWellFormed | app/routes/booking.py:59-78 | every booking created from an accepted request is well formed |
| BookingRoutes.FindBooking | app/routes/booking.py:99 | the lookup returns an index with that id, or no booking has it |
| BookingRoutes.OwnedBy | app/routes/booking.py:137 | the filter keeps exactly the tenant's bookings |
| BookingRoutes.OwnedByCounts | app/routes/booking.py:137 | each of the tenant's bookings is kept as often as it is stored; every other booking is dropped |
| BookingRoutes.InsertNewestFirst | app/routes/booking.py:137 | insertion adds one element |
| BookingRoutes.InsertPermutes | app/routes/booking.py:137 | insertion adds exactly the new booking to the multiset |
| BookingRoutes.InsertBounded | app/routes/booking.py:137 | insertion keeps every creation time under a common bound |
| BookingRoutes.InsertKeepsNewestFirst | app/routes/booking.py:137 | insertion into a newest-first list keeps it newest first |
| BookingRoutes.SortNewestFirst | app/routes/booking.py:137 | `order_by(created_at.desc())` gives a newest-first permutation of its input |
| BookingRoutes.MyBookings | app/routes/booking.py:134-138 | `my_bookings` lists exactly the tenant's bookings, newest first, as a permutation of them |
| BookingRoutes.BookingStore.BookApartment | app/routes/booking.py:29-92 | an accepted request with a successful commit appends exactly the created booking under the next id; any refusal or failed commit changes nothing; the store stays well formed |
| BookingRoutes.BookingStore.Payment | app/routes/booking.py:96-105 | a found booking is shown to its tenant and refused with access denied to anyone else; not found exactly when no booking has the id |
| BookingRoutes.BookingStore.ConfirmBooking | app/routes/booking.py:107-132 | not found, not the tenant and a failed commit change nothing; otherwise exactly that booking is confirmed |
| BookingRoutes.BookingStore.ListMine | app/routes/booking.py:134-138 | the listing is newest first and holds exactly the tenant's bookings, each as often as the filter keeps it |
| BookingRoutes.SevenMonthScenario | app/routes/booking.py:12-67 | a 195-day stay at 1000 a month with a 6-month minimum is valid, billed 7 months, 7000 total, 1400 deposit |
| BookingRoutes.TooShortScenario | app/routes/booking.py:19-25 | a two-month stay fails the 6-month minimum, and an end equal to the start fails the range check |
| AuthRoutes.Search | app/routes/auth.py:15-24 | `re.search` for a one-character class succeeds exactly when some character is in the class |
| AuthRoutes.ValidatePassword | app/routes/auth.py:10-27 | a password is accepted exactly when it is strong, and then with the success message |
| AuthRoutes.PasswordCheckOrder | app/routes/auth.py:12-25 | length, upper case, lower case, digit and special character are checked in that order, each with its own message |
| AuthRoutes.SplitIsCanonical | app/routes/auth.py:31 | the e-mail pattern can only split at the first `@` and the last `.` |
| AuthRoutes.ValidateEmail | app/routes/auth.py:29-34 | an address is accepted exactly when it matches the pattern's shape, with the matching message |
| AuthRoutes.EmailExamples | app/routes/auth.py:31 | a plain address passes; a one-letter top-level domain and an empty local part fail |
| AuthRoutes.ValidateUsername | app/routes/auth.py:36-44 | a username is accepted exactly when it has 3 to 20 word characters, with the valid message; length is checked before characters |
| AuthRoutes.UsernameErrors | app/routes/auth.py:92-99 | the username group adds at most one error |
| AuthRoutes.EmailErrors | app/routes/auth.py:102-109 | the e-mail group adds at most one error |
| AuthRoutes.PasswordErrors | app/routes/auth.py:112-117 | the password group adds at most one error |
| AuthRoutes.ConfirmErrors | app/routes/auth.py:120-123 | the confirmation group adds at most one error |
| AuthRoutes.RegisterErrors | app/routes/auth.py:89-123 | registration reports at most four errors |
| AuthRoutes.RegisterErrorsEmptyIff | app/routes/auth.py:89-126 | no error is reported exactly when the username, e-mail, password and confirmation are all acceptable and the names are free |
| AuthRoutes.AcceptedNamesAreFree | app/routes/auth.py:98-109 | an accepted username and e-mail are used by no existing account |
| AuthRoutes.AllGroupsReported | app/routes/auth.py:89-123 | every empty field is reported, and each failing group contributes exactly one error |
| AuthRoutes.RegisterErrorConditions | app/routes/auth.py:95-123 | "already exists" only for a well-formed name in use; "Passwords do not match" exactly when a confirmation was given and differs |
| AuthRoutes.AppendUsernameErrors | app/routes/auth.py:92-99 | appends exactly the username group's errors |
| AuthRoutes.AppendEmailErrors | app/routes/auth.py:102-109 | appends exactly the e-mail group's errors |
| AuthRoutes.AppendPasswordErrors | app/routes/auth.py:112-117 | appends exactly the password group's errors |
| AuthRoutes.AppendConfirmErrors | app/routes/auth.py:120-123 | appends exactly the confirmation group's errors |
| AuthRoutes.CollectRegisterErrors | app/routes/auth.py:89-123 | the accumulated list is the four groups' errors in order |
| AuthRoutes.AppendAccount | app/routes/auth.py:134-138 | adding an account with the next id and a free username and e-mail keeps ids increasing and names unique |
| AuthRoutes.AccountStore.Register | app/routes/auth.py:81-147 | the username and e-mail are stripped; any error means no account; a failed commit means no account; otherwise exactly one account is appended under the next id, an owner exactly when the box is `on` |
| AuthRoutes.AccountStore.RegisterStripped | app/routes/auth.py:89-147 | on stripped fields: errors or a failed commit change nothing; otherwise exactly one account is appended and the invariant kept |
| OwnerRoutes.ErrorMessages | app/routes/owner.py:103-105 | one flashed message per error, in order |
| OwnerRoutes.ErrorsUpTo | app/routes/owner.py:45-100 | the first `n` checks give at most `n` errors |
| OwnerRoutes.ErrorsUpToCount | app/routes/owner.py:45-100 | the error count is the number of failing checks, and the list is empty exactly when none fails |
| OwnerRoutes.ErrorsUpToMembers | app/routes/owner.py:45-100 | an error is listed exactly when some check produced it |
| OwnerRoutes.FormErrors | app/routes/owner.py:45-100 | at most eleven errors, one per field |
| OwnerRoutes.FormErrorsEmptyIff | app/routes/owner.py:45-103 | the form has no error exactly when every text length and every numeric range holds |
| OwnerRoutes.FormErrorsMembers | app/routes/owner.py:45-100 | an error is listed exactly when its field's check produced it |
| OwnerRoutes.AppendTextCheck | app/routes/owner.py:48-64 | appends exactly the text check's error, if any |
| OwnerRoutes.AppendRealCheck | app/routes/owner.py:67-72 | appends exactly the float check's error, if any |
| OwnerRoutes.AppendIntCheck | app/routes/owner.py:74-100 | appends exactly the integer check's error, if any |
| OwnerRoutes.ValidateApartmentForm | app/routes/owner.py:174-227 | the appended list equals the form's error list |
| OwnerRoutes.FormErrorsAt | app/routes/owner.py:45-100 | each message belongs to one field and is reported exactly when that field's check produces it |
| OwnerRoutes.FieldPasses | app/routes/owner.py:45-100 | a field whose check passes contributes no message |
| OwnerRoutes.InvalidBeatsRange | app/routes/owner.py:67-100 | for each of the five numeric fields, an unparsable value is reported as invalid and draws no other message of its field, never the range one |
| OwnerRoutes.RangesInclusive | app/routes/owner.py:67-100 | for each numeric field, a value on either bound draws no message of that field: 100 and 10000 for price, 1 and 60 for duration, 0 and 10 for bedrooms, 0.5 and 10 for bathrooms, 100 and 10000 for area |
| OwnerRoutes.ApplyEdit | app/routes/owner.py:236-247 | editing keeps id, owner and creation time, takes every form field and sets availability exactly when the box is `on`; the update stamp is refreshed only when some value differs (app/models/apartment.py:19) |
| OwnerRoutes.ApplyEditIdempotent | app/routes/owner.py:236-249 | submitting the same form again changes nothing, the first stamp included; an edit leaves the row as it was exactly when the form matches it |
| OwnerRoutes.CreatedApartment | app/routes/owner.py:114-127 | a created apartment is available, owned by the user and takes every form field |
| OwnerRoutes.OwnerErrorMessages | app/routes/owner.py:15-279 | validation flashes its messages; each other refusal flashes at most one; only a missing apartment flashes nothing (a 404) |
| OwnerRoutes.FindApartmentIndex | app/routes/owner.py:153 | the lookup returns an index with that id, or none has it |
| OwnerRoutes.OwnedApartments | app/routes/owner.py:18 | exactly the owner's apartments |
| OwnerRoutes.OwnedApartmentsCounts | app/routes/owner.py:18 | each of the owner's apartments is kept as often as it is stored; every other apartment is dropped |
| OwnerRoutes.OwnersBookings | app/routes/owner.py:19 | exactly the bookings of the owner's apartments |
| OwnerRoutes.OwnersBookingsCounts | app/routes/owner.py:19 | each booking of one of the owner's apartments is kept as often as it is stored; every other booking is dropped |
| OwnerRoutes.AppendApartment | app/routes/owner.py:129-130 | inserting under the next id keeps ids below the counter and increasing |
| OwnerRoutes.ReplaceApartment | app/routes/owner.py:236-249 | updating a row in place under its own id keeps the table well formed |
| OwnerRoutes.RemoveApartmentRow | app/routes/owner.py:274-275 | deleting a row keeps the table well formed |
| OwnerRoutes.ApartmentStore.Dashboard | app/routes/owner.py:11-21 | a non-owner is refused exactly; an owner sees exactly their apartments and their apartments' bookings |
| OwnerRoutes.ApartmentStore.NewApartmentRoute | app/routes/owner.py:23-142 | non-owner, invalid form and failed commit change nothing; otherwise exactly the created apartment is appended under the next id |
| OwnerRoutes.ApartmentStore.EditApartment | app/routes/owner.py:146-256 | guards in order (owner, found, ownership, form, commit) change nothing; otherwise exactly that apartment is replaced by its edit |
| OwnerRoutes.ApartmentStore.DeleteApartment | app/routes/owner.py:260-281 | guards change nothing; an apartment with bookings fails at commit; otherwise exactly that apartment and its images are removed |
| OwnerRoutes.DeleteRemovesExactly | app/routes/owner.py:273-275 | after deletion no apartment has that id, every other apartment remains, and no image of it remains |
| MainRoutes.Filter | app/routes/main.py:27-43 | a filter keeps exactly the rows satisfying its condition |
| MainRoutes.FilterAgrees | app/routes/main.py:27-43 | filters by agreeing conditions give the same rows |
| MainRoutes.FilterTwice | app/routes/main.py:27-43 | two chained filters are one filter by the conjunction, rows and order alike |
| MainRoutes.OptionalFilter | app/routes/main.py:29-43 | a filter applied only when its field is filled is one filter whose condition is trivial when the field is empty |
| MainRoutes.Available | app/routes/main.py:10 | exactly the available apartments |
| MainRoutes.PageNumber | app/routes/main.py:9-11 | the served page is at least 1, and is the requested page when that is at least 1 |
| MainRoutes.PageSlice | app/routes/main.py:10-12 | a page holds the rows from its offset on, at most nine, and nine whenever that many remain |
| MainRoutes.IndexPage | app/routes/main.py:8-13 | a page holds at most nine apartments, all available |
| MainRoutes.IndexPageShows | app/routes/main.py:10-12 | the k-th available apartment is at position k mod 9 of page k div 9 + 1 |
| MainRoutes.IndexPageFull | app/routes/main.py:10-12 | every page before the last is full |
| MainRoutes.SearchIsOneFilter | app/routes/main.py:20-45 | the search's chain of filters equals one filter by the conjunction of the given criteria |
| MainRoutes.SearchMembers | app/routes/main.py:20-45 | an apartment is a result exactly when it is available and meets every given criterion, price bounds inclusive |
| MainRoutes.EmptySearchListsAvailable | app/routes/main.py:27-45 | an empty search lists exactly the available apartments, in order |
| MainRoutes.SearchNarrows | app/routes/main.py:29-43 | dropping any one criterion keeps every result |
| Helpers.ReadDateArg | app/utils/helpers.py:17-20 | a date object is taken as is; a string is parsed strictly |
| Helpers.CalculateDurationMonths | app/utils/helpers.py:15-23 | the result is missing exactly when an argument does not parse, and is at least 1 |
| Helpers.HelperCountsBlocks | app/utils/helpers.py:22-23 | when the end is not before the start the result is `days//30 + 1` |
| Helpers.HelperClampsReversed | app/utils/helpers.py:23 | an end before the start gives 1 |
| Helpers.HelperMatchesBooking | app/utils/helpers.py:22-23 | for a booking whose end is not before its start, the helper equals `duration_months` |
| Helpers.TextArgumentsAgree | app/utils/helpers.py:17-20 | a date's ISO string reads back as that date, so each argument may be a string or a date, independently of the other, with the same count |
| Helpers.HelperMonotoneInEnd | app/utils/helpers.py:22-23 | a later end never gives fewer months |
| Helpers.Extension | app/utils/helpers.py:28-29 | there is an extension exactly when the name holds a dot |
| Helpers.LastDotAt | app/utils/helpers.py:29 | a dot with none after it is where `rsplit('.', 1)` splits |
| Helpers.AllowedFileSound | app/utils/helpers.py:28-29 | an allowed name has an allowed extension after its last dot |
| Helpers.AllowedFileComplete | app/utils/helpers.py:28-29 | a name with an allowed extension after its last dot is allowed |
| Helpers.AllowedFileIff | app/utils/helpers.py:25-29 | a name is allowed exactly when the text after its last dot lower-cases to png, jpg, jpeg or gif |
| Helpers.ExtensionOfJoin | app/utils/helpers.py:29 | the extension of `base.ext` is `ext` when `ext` has no dot |
| Helpers.AllowedFileAccepts | app/utils/helpers.py:27-29 | `photo.PNG` and `flat.tar.jpeg` are allowed |
| Helpers.AllowedFileRejects | app/utils/helpers.py:27-29 | `photo.png.exe`, `png` and `photo.` are refused |
| ProductionConfig.ReplaceFirstSpec | config_production.py:9 | `replace(old, new, 1)` replaces the first occurrence and nothing after it |
| ProductionConfig.ReplaceFirstAbsent | config_production.py:9 | a string without an occurrence comes back unchanged |
| ProductionConfig.ReplaceFirstAtStart | config_production.py:8-9 | a pattern at the start is replaced there, and the rest is kept |
| ProductionConfig.DatabaseUri | config_production.py:7-11 | the configured URI is never empty |
| ProductionConfig.LegacySchemeRewritten | config_production.py:8-9 | a `postgres://` URL becomes `postgresql://` with the rest unchanged |
| ProductionConfig.OtherUrlsKept | config_production.py:8-11 | any other non-empty URL, including `postgresql://`, is used as given |
| ProductionConfig.MissingUrlFallsBack | config_production.py:11 | an unset or empty `DATABASE_URL` gives `sqlite:///roomsy.db` |
| ProductionConfig.PostgresNotLegacy | config_production.py:8-9 | a rewritten URL no longer starts with `postgres://` |
| ProductionConfig.DatabaseUriIdempotent | config_production.py:7-11 | feeding the configured URI back in yields the same URI |

## Left out

- E-mail sending (`send_booking_confirmation`): its failures are swallowed, so it never changes an outcome.
- Login, logout and password hashing: the current user is a parameter, and a registration stores no password.
- Flask plumbing, templates, flash categories, redirects and GET-only rendering: each route's outcome is a result value, and a flashed message is a message function of that value.
- Exceptions on commit: each becomes a `commitOk` parameter, and a failure leaves the store unchanged.
- The clock (`datetime.now()`, `datetime.utcnow()`) and `DATABASE_URL`: both are parameters.
- The configuration values that the modelled routes never read: `MAX_CONTENT_LENGTH`, `POSTS_PER_PAGE`, `SECRET_KEY`, the mail settings, `UPLOAD_FOLDER` and the cookie flags. The index route pages by its own literal `per_page=9` (`MainRoutes.PageSize`), not by `POSTS_PER_PAGE`.
- The ORM's flush: an `onupdate` stamp (`updated_at`) is modelled as refreshed exactly when some assigned value differs from the stored one, since equal assignments emit no UPDATE.
- Floating point:
  - Money and bathroom counts are exact reals.
  - A NaN price or bathroom count would slip past the range checks in Python. Here it cannot be represented.
  - The search's `min_price` and `max_price` (`type=float`) may also be `inf`, `-inf` or `nan` in Python (`?min_price=inf` lists nothing, `?max_price=inf` lists every available apartment). `MainRoutes.Search` takes `Option<real>`, which cannot represent them.
- The `bathrooms` column: it is declared `Integer`, but is kept as the parsed real, because the model has no database coercion.
- `float()` and `int()` parsing of form fields and query arguments: each field arrives already read, as `Option`, with `None` where Python raises.
- `strptime`: modelled as the strict zero-padded `YYYY-MM-DD` form. Python also accepts unpadded month and day fields, a space-padded day (`2025-01- 5`) and non-ASCII decimal digits in the fields.
- `str.lower()`: modelled on ASCII letters only.
  - For `allowed_file` nothing changes: the only non-ASCII characters that lower-case to ASCII are `İ`, which gives two characters, and the Kelvin sign, which gives `k`. Neither can spell an allowed extension.
  - For the city search the database's own case folding may differ.
- `\d` in the password check: modelled as ASCII digits. Python's `re` also matches other Unicode digits.
- SQL `LIKE` and `ILIKE` in search: modelled as plain substring tests.
  - `%` and `_` in the search text are wildcards in SQL but literals here.
  - Whether `LIKE` ignores case depends on the database (SQLite ignores ASCII case).
- The e-mail and username patterns: `$` also matches before a final newline in Python. The model requires the whole string to match.
- Row order of queries without `ORDER BY`: taken to be insertion order.
- The client-side script in app/static/js/main.js is not part of this model.
- `format_price`, `format_date` and `save_file` in app/utils/helpers.py are not part of this model. They are presentation and file-system I/O.
- The seed data, the database initialisation and the start-up scripts are not part of this model.
- No overlap check between bookings, no transition to `full_payment_paid`, and no status guard on confirmation: the application does not have them.

## Findings

| source | as written | input that shows it | evidently intended | confidence | as-written member | corrected member |
|---|---|---|---|---|---|---|
| app/models/booking.py:27 | `duration_months` is `days // 30 + 1` | a booking from 2025-01-01 to 2025-01-31 (30 days) shows 2 months but is billed for 1 | the months shown equal the months billed, `ceil(days / 30)`, as app/routes/booking.py:65-66 prices it | medium; not executed | BookingModel.ThirtyDayStayShownAsTwoMonths | BookingModel.BilledMonths |

`BookingModel.DurationVersusBilled` proves that the two counts differ on exactly the stays of a whole number of 30-day months, and there by one. `BookingRoutes.CreatedBookingBilled` proves that a created booking's total is its monthly price times `BilledMonths`.
