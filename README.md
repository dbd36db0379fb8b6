# Restaurant booking API — a Dafny model of its logic

The repository is a small Express/SQLite API for restaurant bookings:
registration and login, open evening slots for a date, booking creation
with a confirmation mail, and staff-only dashboard routes. This project
models the parts of it that are logic rather than plumbing, and proves
what they promise:

- the **availability engine** of `GET /availability`: a fixed grid of ten
  half-hour slots from 17:00 to 21:30; for each slot, the bookings within
  ±89 minutes are counted, and the slot is offered while that count is
  below the `max_reservations` setting (`Availability`);
- the **registration rules** of `POST /register`: required fields, the
  role a new user gets, and how the store's answer becomes the reply
  (`Registration`);
- the **booking rules** of `POST /reservations`: required fields, the
  contact snapshot stored with the booking, and the fact that no capacity
  check is made (`Reservations`);
- the **`authorizeStaff` middleware**: only `staff` and `manager` pass
  (`Authorize`);
- the **confirmation mail**: when one is built at all, and how the
  template body is filled in by a chain of first-occurrence-only
  replacements (`Email`, with the JavaScript string built-ins in `Js`).

Instants are integer milliseconds. A request's date is given as the
instant `day` at which that date's local clock reads 00:00, so on a day
without a daylight-saving change slot `hh:mm` is
`day + (60 * hh + mm) * 60000`. The store's answers (settings
row, reservation list, user row, insert results, template row), the
password hash and the locale-formatted date and time are inputs of the
functions and methods that use them.

`ComputeAvailableSlots` keeps the handler's nested `hour`/`minute` loops
and is proved equal to the specification function `Available`. The
lemmas about `Available` cover: the grid, the 89/90-minute boundary,
membership, chronological order, subsequence of the grid, monotonicity in
the bookings and in the capacity, and independence from the order of the
bookings.

Two behaviours of the code are worth stating plainly, and the model
follows the code in both:

- Of the `max_reservations` setting's failures, only a missing row or a
  failed lookup gives 500 (a failed reservations query gives 500 too,
  with the query's message). A non-numeric value parses to `NaN`, and
  then `count < NaN` is false for every slot, so the reply is an empty
  list rather than an error.
- The booking handler makes no capacity check: availability is computed
  only for `GET /availability`. `FullSlotStillBooked` shows a full slot
  being booked anyway.

## Model

| member | source | states |
|---|---|---|
| `Availability.GridSlots` | backend/server.js:96-98 | the candidate grid is exactly 17:00, 17:30, …, 21:30 (ten slots), generated in chronological order, each 30 minutes after the previous one |
| `Availability.InWindow` | backend/server.js:100-102 | the test `diffMinutes >= -89 && diffMinutes <= 89` on `(slot - reservation) / 60000` is the exact test `-89·60000 ≤ slot − reservation ≤ 89·60000` on milliseconds |
| `Availability.WindowBoundary` | backend/server.js:99-103 | 89 minutes before or after a slot counts as a conflict, as does a booking at the slot itself; 90 minutes does not, and neither does one millisecond beyond 89 minutes |
| `Availability.Conflicting` | backend/server.js:99-103 | the filtered list keeps the bookings within the window of the slot, in their order (a subsequence of the booking list), each as many times as it occurs in the list, and drops every other booking |
| `Availability.ConflictCount` | backend/server.js:99-103 | the `.length` of the filtered list is at most the number of bookings, and zero exactly when no booking is within the window |
| `Availability.ConflictCountInsert` | backend/server.js:99-103 | inserting one booking anywhere raises a slot's conflict count by one if it is within the window, and leaves the count alone otherwise |
| `Availability.ConflictCountPermutation` | backend/server.js:99-103 | a slot's conflict count depends only on the multiset of bookings, not on the order the store returns them in |
| `Availability.Open` | backend/server.js:105 | with `maxReservations ≤ 0` no slot is open; with `maxReservations` above the number of bookings every slot is open |
| `Availability.Keep` | backend/server.js:105-107 | a candidate is kept exactly when its conflict count is below `maxReservations`; the kept candidates form a subsequence of the candidates |
| `Availability.Available` | backend/server.js:95-110 | a slot is in the answer exactly when it is in the grid and its conflict count is below `maxReservations`; the answer is a subsequence of the grid |
| `Availability.AvailableChronological` | backend/server.js:96-97 | the answer is in strictly increasing time of day |
| `Availability.EmptyDayHasEverySlot` | backend/server.js:95-110 | with no bookings and `maxReservations ≥ 1`, all ten grid slots are returned |
| `Availability.NoCapacityNoSlot` | backend/server.js:105 | with `maxReservations ≤ 0`, no slot is returned |
| `Availability.KeepMonotone` | backend/server.js:105-107 | if every candidate open under one setting is open under another, the first answer is a subsequence of the second |
| `Availability.NewReservationNeverOpensSlot` | backend/server.js:99-106 | adding a booking, at any position, gives an answer that is a subsequence of the previous one, so no slot is added |
| `Availability.RaisedCapacityNeverClosesSlot` | backend/server.js:105 | raising `maxReservations` gives an answer of which the previous one is a subsequence, so no slot is removed |
| `Availability.ReservationOrderIrrelevant` | backend/server.js:99-106 | two booking lists with the same elements give the same answer |
| `Availability.SingleBookingBlocksItsWindow` | backend/server.js:99-106 | with capacity one and one booking, a grid slot is offered exactly when the booking is outside its ±89-minute window |
| `Availability.BookedSlotCloses` | backend/server.js:99-106 | with capacity one, a booking at a slot's own time removes that slot from the answer |
| `Availability.ComputeAvailableSlots` | backend/server.js:95-109 | the nested loops over `hour` and `minute` push exactly the slots that `Available` describes, in the same order |
| `Availability.GetAvailability` | backend/server.js:74-113 | a missing date gives 400; a failed or empty settings lookup gives 500 "Could not retrieve restaurant settings."; a failed reservation query gives 500 with its message; otherwise 200 with the open slots |
| `Authorize.AuthorizeStaff` | backend/middleware/authorize.js:2-7 | `next()` is called exactly when the role is `'staff'` or `'manager'`; otherwise, an absent role included, the answer is 403 "Access denied. Staff only."; exactly one of the two happens |
| `Authorize.CustomerDenied` | backend/middleware/authorize.js:3-4 | `customer`, an undefined role and a differently capitalised `Staff` are all denied with 403 |
| `Registration.AssignedRole` | backend/server.js:26-29 | the stored role is `staff` exactly when `role === 'staff'` and `adminCode === 'SECRET_ADMIN_CODE'`, and `customer` in every other case |
| `Registration.RegisteredStaffAccess` | backend/server.js:26-29 | a newly registered user passes `authorizeStaff` exactly when the registration asked for `staff` with the right code |
| `Registration.HasRequiredFields` | backend/server.js:20-22 | name, email, password and phone must each be present and none of the falsy values `undefined`, `null`, `false`, `0`, `""` |
| `Registration.Register` | backend/server.js:17-44 | a missing name, email, password or phone gives 400 and no insert; a hashing failure gives 500 and no insert; otherwise the user is inserted with the assigned role and replied 201 with the new id, 409 when the store reports a UNIQUE violation, and 500 with the store's message for any other error |
| `Registration.RegistrationNeverManager` | backend/server.js:26-29 | no registration ever stores the `manager` role |
| `Js.Includes` | backend/server.js:34 | `s.includes(t)` holds exactly when `t` occurs somewhere in `s` |
| `Registration.DuplicateEmailIsConflict` | backend/server.js:33-35 | SQLite's duplicate-email error turns into 409 "Email already in use." |
| `Reservations.HasRequiredFields` | backend/server.js:120-122 | party size and reservation time must both be present and not falsy; the special occasion is optional |
| `Reservations.CreateReservation` | backend/server.js:116-150 | a missing party size or time gives 400; a failed user lookup gives 500; a user without a phone gives 400. Otherwise the booking is inserted with the user's stored name, phone and email and with no capacity or conflict check. A successful insert is answered 201 and triggers the confirmation mail; a failed one is answered 500, with no mail |
| `Reservations.ZeroPartyRejected` | backend/server.js:120-122 | a party size of 0 counts as missing and gives 400 |
| `Reservations.FullSlotStillBooked` | backend/server.js:136-147 | on every day, 19:00 is closed under capacity one with one booking at 19:00; yet `CreateReservation`, which takes no booking list and no capacity, inserts any request with a party size and a time, answers 201 and confirms it, so a 19:00 request for that day is booked anyway |
| `Js.Truthy` | backend/server.js:20 | `!v` is true exactly for the falsy values `undefined`, `null`, `false`, `0` and `""` (the tests at lines 20, 77, 120 and 132) |
| `Js.Decimal` | backend/config/email.js:50 | the string form of a non-negative party size is a non-empty string of decimal digits with no leading zero, and the digits denote the number itself |
| `Js.ToString` | backend/config/email.js:49-50 | a string replacement value is used as it is; a safe integer is written in decimal, with a minus sign when negative; `undefined`, `null`, `true` and `false` become those words |
| `Js.IndexOf` | backend/config/email.js:48-52 | the result is the first index where the token occurs, or -1 when it does not occur |
| `Js.ReplaceFirst` | backend/config/email.js:48-52 | a body without the token comes back unchanged; otherwise only the first occurrence is replaced by the value |
| `Js.ReplaceFirstKeepsLater` | backend/config/email.js:48-52 | a later occurrence of the same token survives the replacement, shifted by the change in length |
| `Js.ReplaceFirstKeepsOther` | backend/config/email.js:48-52 | any text occurring clear of the first occurrence of the token survives the replacement, in place before it and shifted by the change in length after it |
| `Js.ReplaceFirstFrames` | backend/config/email.js:48-52 | the text before the first occurrence and the text after it are kept, and the value stands in the token's place |
| `Email.RenderBody` | backend/config/email.js:48-52 | the four replacements applied to the template body; a body containing none of `{name}`, `{party_size}`, `{date}`, `{time}` is sent unchanged |
| `Email.RepeatedPlaceholderKept` | backend/config/email.js:48-52 | only the first occurrence of each placeholder is filled in: a body holding any of the four placeholders twice still holds it after the whole chain, whatever the values |
| `Email.RepeatedPlaceholderSurvives` | backend/config/email.js:48-49 | in `"{name} {name}"` only the first `{name}` is filled in |
| `Email.EarlierTextMatchedLater` | backend/config/email.js:48-52 | the replacements run name, party size, date, time in that order, so a name that reads `{time}` is itself replaced by the time |
| `Email.SendConfirmationEmail` | backend/config/email.js:28-59 | nothing is sent without a transporter, when the template lookup errs, or when no template is found; otherwise the mail goes to the reservation's email, with the template's subject unchanged and the transporter's account as sender |
| `Email.SentBody` | backend/config/email.js:43-58 | the text of a sent mail is the template body filled in from the reservation's name and party size and the formatted date and time |

## Left out

- SQLite and its semantics are not modelled. This covers date filtering
  with `date(reservation_time)`, `ORDER BY`, the `COUNT`/`SUM` report, the
  uniqueness check on emails and the schema and seeding in
  backend/database.js. Each query's answer is an input.
- `/login`, `/dashboard/reservations`, `/my-reservations` and
  `/dashboard/reports` are not modelled: beyond their required-parameter
  checks they are a query, a password comparison or a token signature.
- bcrypt and JWT are not modelled. The password hash is an input
  (`None` when hashing throws), and the authenticated user's id and role
  are inputs. `authenticateToken` (backend/middleware/auth.js) is not
  part of this model.
- Date handling is not modelled: parsing the `date` query and
  `reservation_time` with `new Date`, time zones, and the locale
  formatting of slots and mail dates. Slots are returned as
  `Slot(hour, minute)`, not as "07:00 PM" labels.
- A `reservation_time` that JavaScript cannot parse gives `NaN` and then
  never counts as a conflict. The model takes bookings as integer
  instants, so this case does not arise.
- `parseInt` of the setting is not modelled, and neither is its `NaN`
  case. The setting is an integer input; a `NaN` setting would make every
  slot unavailable.
- Floating point: `diffMinutes` is computed exactly, over the reals. The
  double-precision test agrees with the exact one whenever the
  millisecond difference is an integer of ordinary size.
- JavaScript `replace` patterns such as `$&` in the replacement are not
  modelled; values are inserted literally. JSON objects, arrays and
  fractional numbers are not among the modelled request values.
- Numbers are safe integers, at most 2^53 - 1 in magnitude. A request
  number beyond that range, such as `1e21`, is not modelled; `String`
  writes numbers from 10^21 up in exponent form, and the model's decimal
  rendering is only claimed for safe integers.
- Strings are sequences of Unicode scalar values. JavaScript's `indexOf`
  counts UTF-16 code units, so after a character outside the Basic
  Multilingual Plane the index `IndexOf` gives differs from JavaScript's;
  the text `replace` produces is the same.
- Nodemailer is not modelled: transporter setup, `sendMail`, test-account
  creation, preview URLs and logging. The mail that would be handed to
  `sendMail` is the result.
- The fire-and-forget ordering is not modelled: the mail is dispatched
  after the 201 has been sent, and its failures are only logged.
- An exception thrown synchronously by `db.run` inside the `try` block of
  `/register` is not modelled.
